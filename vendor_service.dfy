/** VendorService: the table of vendors. */
module VendorService {
  import opened Common
  import opened Text
  import opened Records

  /** The eight fields update overwrites (`type` is a keyword here, hence `vendorType`). */
  datatype VendorFields = VendorFields(
    name: Option<string>,
    vendorType: Option<string>,
    supplierName: Option<string>,
    supplierId: Option<string>,
    supplierNumber: Option<string>,
    vendorGroup: Option<string>,
    agreementStatus: Option<string>,
    status: bool)

  /** create: a payload with a non-blank name is required. */
  function CreateCheck(payload: Option<VendorFields>): (r: Outcome<VendorFields>)
    ensures r.Ok? || r.InvalidArgument?
    ensures r.Ok? <==> payload.Some? && payload.value.name.Some? && !IsBlank(payload.value.name.value)
    ensures r.Ok? ==> r.value == payload.value
  {
    if payload.None? || NullOrBlank(payload.value.name) then InvalidArgument
    else Ok(payload.value)
  }

  class VendorTable {
    var rows: Table<VendorFields>
    var nextId: nat

    ghost predicate Valid()
      reads this
    {
      IdsBelow(rows, nextId)
    }

    constructor ()
      ensures Valid() && rows == map[] && nextId == 0
    {
      rows := map[];
      nextId := 0;
    }

    method Create(payload: Option<VendorFields>) returns (r: Outcome<Id>)
      requires Valid()
      modifies this
      ensures Valid()
      ensures r == CreateCheck(payload).Forward(old(nextId))
      ensures r.Ok? ==> rows == old(rows)[old(nextId) := Row(payload.value, 0)] && nextId == old(nextId) + 1
      ensures !r.Ok? ==> rows == old(rows) && nextId == old(nextId)
    {
      if payload.None? {
        return InvalidArgument;
      }
      var vendor := payload.value;
      if vendor.name.None? || IsBlank(vendor.name.value) {
        return InvalidArgument;
      }
      rows := rows[nextId := Row(vendor, 0)];
      r := Ok(nextId);
      nextId := nextId + 1;
    }

    /** update: the payload check, then the lookup, then the version check. */
    method Update(id: Id, payload: Option<VendorFields>, version: int) returns (r: Outcome<Row<VendorFields>>)
      requires Valid()
      modifies this
      ensures Valid()
      ensures r == Revised(old(rows), id, payload, Some(version))
      ensures r.Ok? ==> rows == old(rows)[id := r.value]
      ensures !r.Ok? ==> rows == old(rows)
      ensures nextId == old(nextId)
    {
      if payload.None? {
        return InvalidArgument;
      }
      if id !in rows {
        return NotFound;
      }
      var existing := rows[id];
      if existing.version != version {
        return Conflict;
      }
      existing := Row(payload.value, existing.version + 1);
      rows := rows[id := existing];
      r := Ok(existing);
    }

    method Delete(id: Id) returns (deleted: bool)
      requires Valid()
      modifies this
      ensures Valid()
      ensures (deleted, rows) == Removed(old(rows), id)
      ensures nextId == old(nextId)
    {
      if id !in rows {
        return false;
      }
      rows := rows - {id};
      deleted := true;
    }
  }
}
