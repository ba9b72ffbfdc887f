/** The product–vendor sourcing link (ProductVendorSourcing) and the request that creates
    or revises one. */
module SourcingModel {
  import opened Common

  /** The sourcing metadata a link carries besides its primary flag. */
  datatype LinkMeta = LinkMeta(
    vsn: Option<string>,
    factoryName: Option<string>,
    factoryCode: Option<string>,
    factoryCountry: Option<string>,
    sustainable: bool,
    contactName: Option<string>,
    contactEmail: Option<string>,
    contactPhone: Option<string>)

  /** A stored link: which product it sources from which vendor, and the optimistic
      version counter the store keeps for it. */
  datatype Link = Link(product: Id, vendor: Id, primaryVendor: bool, meta: LinkMeta, version: nat)

  /** The payload of create and update: the vendor reference (which may be absent) and the
      writable fields. */
  datatype LinkRequest = LinkRequest(vendor: Option<Id>, primaryVendor: bool, meta: LinkMeta)
}
