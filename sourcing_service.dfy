/** ProductVendorSourcingService: the registry of product–vendor links, with one link per
    (product, vendor) pair and at most one primary link per product. */
module SourcingService {
  import opened Common
  import opened SourcingModel
  import opened SourcingRepository

  /** At most one link per (product, vendor) pair: the table's unique constraint. */
  ghost predicate PairsUnique(links: LinkTable)
  {
    forall i, j | i in links && j in links && i != j ::
      !(links[i].product == links[j].product && links[i].vendor == links[j].vendor)
  }

  /** At most one primary link per product. */
  ghost predicate PrimaryUnique(links: LinkTable)
  {
    forall i, j | i in links && j in links && i != j && links[i].primaryVendor && links[j].primaryVendor ::
      links[i].product != links[j].product
  }

  /** ensureNoOtherPrimary: the check passes when the product's first primary link is absent
      or is the link being updated. */
  predicate NoOtherPrimary(links: LinkTable, product: Id, current: Option<Id>)
  {
    var primary := FindPrimaryByProductId(links, product);
    primary.None? || (current.Some? && primary.value == current.value)
  }

  /** On a table with at most one primary per product the check means: every primary link
      of the product is the current one. */
  lemma NoOtherPrimaryMeaning(links: LinkTable, product: Id, current: Option<Id>)
    requires PrimaryUnique(links)
    ensures NoOtherPrimary(links, product, current) <==>
      forall id | id in links && links[id].product == product && links[id].primaryVendor :: current == Some(id)
  {
    var primary := FindPrimaryByProductId(links, product);
    if primary.Some? {
      var p := primary.value;
      if NoOtherPrimary(links, product, current) {
        forall id | id in links && links[id].product == product && links[id].primaryVendor
          ensures current == Some(id)
        {
          assert links[p].primaryVendor && links[p].product == links[id].product;
        }
      }
    }
  }

  /** The checks of create, in the order the service makes them, and the link it stores. */
  function CreateOutcome(links: LinkTable, products: set<Id>, vendors: set<Id>, product: Id, req: LinkRequest)
    : (r: Outcome<Link>)
    ensures r.NotFound? <==> product !in products || (req.vendor.Some? && req.vendor.value !in vendors)
    ensures r.InvalidArgument? <==>
      (product in products &&
       (req.vendor.None? ||
        (req.vendor.value in vendors &&
         ((exists id | id in links :: links[id].product == product && links[id].vendor == req.vendor.value) ||
          (req.primaryVendor && exists id | id in links :: links[id].product == product && links[id].primaryVendor)))))
    ensures !r.Conflict?
    ensures r.Ok? ==> r.value == Link(product, req.vendor.value, req.primaryVendor, req.meta, 0)
  {
    if product !in products then NotFound
    else if req.vendor.None? then InvalidArgument
    else if req.vendor.value !in vendors then NotFound
    else if FindByProductIdAndVendorId(links, product, req.vendor.value).Some? then InvalidArgument
    else if req.primaryVendor && !NoOtherPrimary(links, product, None) then InvalidArgument
    else Ok(Link(product, req.vendor.value, req.primaryVendor, req.meta, 0))
  }

  /** The checks of update and the revised link: the primary flag and the eight metadata
      fields are overwritten, and the version moves on by one. */
  function UpdateOutcome(links: LinkTable, product: Id, id: Id, req: LinkRequest, version: int)
    : (r: Outcome<Link>)
    ensures r.NotFound? <==> !(id in links && links[id].product == product)
    ensures r.Conflict? <==> id in links && links[id].product == product && links[id].version != version
    ensures r.InvalidArgument? ==> req.primaryVendor
    ensures r.Ok? ==>
      (id in links && links[id].version == version
       && r.value.product == links[id].product && r.value.vendor == links[id].vendor
       && r.value.primaryVendor == req.primaryVendor && r.value.meta == req.meta
       && r.value.version == links[id].version + 1)
  {
    var existing := FindByProductIdAndId(links, product, id);
    if existing.None? then NotFound
    else if existing.value.version != version then Conflict
    else if req.primaryVendor && !NoOtherPrimary(links, product, Some(id)) then InvalidArgument
    else Ok(existing.value.(primaryVendor := req.primaryVendor, meta := req.meta,
                            version := existing.value.version + 1))
  }

  /** With a matching version, making a link primary fails exactly when another link of the
      same product is primary already. */
  lemma UpdatePrimaryRule(links: LinkTable, product: Id, id: Id, req: LinkRequest, version: int)
    requires PrimaryUnique(links)
    requires id in links && links[id].product == product && links[id].version == version
    ensures UpdateOutcome(links, product, id, req, version).InvalidArgument? <==>
      (req.primaryVendor &&
       exists other | other in links :: (other != id && links[other].product == product && links[other].primaryVendor))
  {
    NoOtherPrimaryMeaning(links, product, Some(id));
  }

  ghost predicate IdsBelow(links: LinkTable, nextId: nat)
  {
    forall id | id in links :: id < nextId
  }

  /** A successful create keeps both uniqueness rules. */
  lemma CreatePreservesUniqueness(links: LinkTable, nextId: nat, products: set<Id>, vendors: set<Id>,
                                  product: Id, req: LinkRequest)
    requires IdsBelow(links, nextId) && PairsUnique(links) && PrimaryUnique(links)
    requires CreateOutcome(links, products, vendors, product, req).Ok?
    ensures var after := links[nextId := CreateOutcome(links, products, vendors, product, req).value];
      IdsBelow(after, nextId + 1) && PairsUnique(after) && PrimaryUnique(after)
  {
    var l := CreateOutcome(links, products, vendors, product, req).value;
    var after := links[nextId := l];
    forall i, j | i in after && j in after && i != j
      ensures !(after[i].product == after[j].product && after[i].vendor == after[j].vendor)
    {
      if i == nextId {
        assert j in links;
      } else if j == nextId {
        assert i in links;
      }
    }
  }

  /** A successful update keeps both uniqueness rules: product and vendor do not move, and
      the primary flag is only raised when no other link of the product holds it. */
  lemma UpdatePreservesUniqueness(links: LinkTable, product: Id, id: Id, req: LinkRequest, version: int)
    requires PairsUnique(links) && PrimaryUnique(links)
    requires UpdateOutcome(links, product, id, req, version).Ok?
    ensures var after := links[id := UpdateOutcome(links, product, id, req, version).value];
      PairsUnique(after) && PrimaryUnique(after)
  {
    var l := UpdateOutcome(links, product, id, req, version).value;
    var after := links[id := l];
    NoOtherPrimaryMeaning(links, product, Some(id));
    forall i, j | i in after && j in after && i != j && after[i].primaryVendor && after[j].primaryVendor
      ensures after[i].product != after[j].product
    {
      if i != id && j != id {
        assert links[i].primaryVendor && links[j].primaryVendor;
      } else if i == id {
        assert links[j].primaryVendor;
      } else {
        assert links[i].primaryVendor;
      }
    }
  }

  /** The link table with its id counter: the state the service changes. */
  class SourcingRegistry {
    var links: LinkTable
    var nextId: nat

    ghost predicate Valid()
      reads this
    {
      IdsBelow(links, nextId) && PairsUnique(links) && PrimaryUnique(links)
    }

    constructor ()
      ensures Valid() && links == map[] && nextId == 0
    {
      links := map[];
      nextId := 0;
    }

    /** listByProduct: NotFound for an unknown product, otherwise the product's links. */
    function ListByProduct(products: set<Id>, product: Id): (r: Outcome<LinkTable>)
      reads this
      ensures r.NotFound? <==> product !in products
      ensures r.Ok? ==> forall id :: id in r.value <==> id in links && links[id].product == product
      ensures !r.InvalidArgument? && !r.Conflict?
    {
      if product !in products then NotFound else Ok(ListByProductId(links, product))
    }

    method Create(products: set<Id>, vendors: set<Id>, product: Id, req: LinkRequest) returns (r: Outcome<Id>)
      requires Valid()
      modifies this
      ensures Valid()
      ensures r == CreateOutcome(old(links), products, vendors, product, req).Forward(old(nextId))
      ensures r.Ok? ==>
        (links == old(links)[old(nextId) := CreateOutcome(old(links), products, vendors, product, req).value]
         && nextId == old(nextId) + 1)
      ensures !r.Ok? ==> links == old(links) && nextId == old(nextId)
    {
      if product !in products {
        return NotFound;
      }
      if req.vendor.None? {
        return InvalidArgument;
      }
      var vendor := req.vendor.value;
      if vendor !in vendors {
        return NotFound;
      }
      if FindByProductIdAndVendorId(links, product, vendor).Some? {
        return InvalidArgument;
      }
      if req.primaryVendor && !NoOtherPrimary(links, product, None) {
        return InvalidArgument;
      }
      CreatePreservesUniqueness(links, nextId, products, vendors, product, req);
      links := links[nextId := Link(product, vendor, req.primaryVendor, req.meta, 0)];
      r := Ok(nextId);
      nextId := nextId + 1;
    }

    method Update(product: Id, id: Id, req: LinkRequest, version: int) returns (r: Outcome<Link>)
      requires Valid()
      modifies this
      ensures Valid()
      ensures r == UpdateOutcome(old(links), product, id, req, version)
      ensures r.Ok? ==> links == old(links)[id := r.value]
      ensures !r.Ok? ==> links == old(links)
      ensures nextId == old(nextId)
    {
      var existing := FindByProductIdAndId(links, product, id);
      if existing.None? {
        return NotFound;
      }
      var link := existing.value;
      if link.version != version {
        return Conflict;
      }
      if req.primaryVendor && !NoOtherPrimary(links, product, Some(id)) {
        return InvalidArgument;
      }
      UpdatePreservesUniqueness(links, product, id, req, version);
      link := link.(primaryVendor := req.primaryVendor, meta := req.meta, version := link.version + 1);
      links := links[id := link];
      r := Ok(link);
    }

    /** delete: a hard delete of the product's link. */
    method Delete(product: Id, id: Id) returns (removed: bool)
      requires Valid()
      modifies this
      ensures Valid()
      ensures removed <==> old(id in links && links[id].product == product)
      ensures links == if removed then old(links) - {id} else old(links)
      ensures nextId == old(nextId)
    {
      if FindByProductIdAndId(links, product, id).None? {
        return false;
      }
      links := links - {id};
      removed := true;
    }
  }
}
