/** ProductVendorSourcingRepository: the queries over the link table. */
module SourcingRepository {
  import opened Common
  import opened Ordering
  import opened SourcingModel

  type LinkTable = map<Id, Link>

  /** listByProductId: the links of one product. The query has no order clause, so the
      result is the sub-table rather than a sequence. */
  function ListByProductId(links: LinkTable, product: Id): (r: LinkTable)
    ensures forall id :: id in r <==> id in links && links[id].product == product
    ensures forall id | id in r :: r[id] == links[id]
  {
    map id | id in links && links[id].product == product :: links[id]
  }

  /** findByProductIdAndId: the link with that id, provided it belongs to the product. */
  function FindByProductIdAndId(links: LinkTable, product: Id, id: Id): (r: Option<Link>)
    ensures r.Some? <==> id in links && links[id].product == product
    ensures r.Some? ==> r.value == links[id]
  {
    if id in links && links[id].product == product then Some(links[id]) else None
  }

  /** findByProductIdAndVendorId: the first link for the (product, vendor) pair. */
  function FindByProductIdAndVendorId(links: LinkTable, product: Id, vendor: Id): (r: Option<Id>)
    ensures r.None? <==> forall id | id in links :: !(links[id].product == product && links[id].vendor == vendor)
    ensures r.Some? ==> r.value in links && links[r.value].product == product && links[r.value].vendor == vendor
  {
    var matches := set id | id in links && links[id].product == product && links[id].vendor == vendor;
    assert forall id | id in links && links[id].product == product && links[id].vendor == vendor :: id in matches;
    First(matches)
  }

  /** findPrimaryByProductId: the first primary link of the product. */
  function FindPrimaryByProductId(links: LinkTable, product: Id): (r: Option<Id>)
    ensures r.None? <==> forall id | id in links :: !(links[id].product == product && links[id].primaryVendor)
    ensures r.Some? ==> r.value in links && links[r.value].product == product && links[r.value].primaryVendor
  {
    var matches := set id | id in links && links[id].product == product && links[id].primaryVendor;
    assert forall id | id in links && links[id].product == product && links[id].primaryVendor :: id in matches;
    First(matches)
  }
}
