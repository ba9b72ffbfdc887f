/** SizeService: the table of size ranges. */
module SizeService {
  import opened Common
  import opened Text
  import opened Records

  /** The two fields update overwrites. */
  datatype SizeFields = SizeFields(name: Option<string>, sizes: Option<string>)

  /** create: a non-blank name, then a non-blank sizes value. */
  function CreateCheck(payload: Option<SizeFields>): (r: Outcome<SizeFields>)
    ensures r.Ok? || r.InvalidArgument?
    ensures r.Ok? <==> payload.Some? && payload.value.name.Some? && !IsBlank(payload.value.name.value)
                       && payload.value.sizes.Some? && !IsBlank(payload.value.sizes.value)
    ensures r.Ok? ==> r.value == payload.value
  {
    if payload.None? || NullOrBlank(payload.value.name) then InvalidArgument
    else if NullOrBlank(payload.value.sizes) then InvalidArgument
    else Ok(payload.value)
  }

  class SizeTable {
    var rows: Table<SizeFields>
    var nextId: nat

    ghost predicate Valid()
      reads this
    {
      IdsBelow(rows, nextId)
    }

    constructor ()
      ensures Valid() && rows == map[] && nextId == 0
    {
      rows := map[];
      nextId := 0;
    }

    method Create(payload: Option<SizeFields>) returns (r: Outcome<Id>)
      requires Valid()
      modifies this
      ensures Valid()
      ensures r == CreateCheck(payload).Forward(old(nextId))
      ensures r.Ok? ==> rows == old(rows)[old(nextId) := Row(payload.value, 0)] && nextId == old(nextId) + 1
      ensures !r.Ok? ==> rows == old(rows) && nextId == old(nextId)
    {
      if payload.None? {
        return InvalidArgument;
      }
      var size := payload.value;
      if size.name.None? || IsBlank(size.name.value) {
        return InvalidArgument;
      }
      if size.sizes.None? || IsBlank(size.sizes.value) {
        return InvalidArgument;
      }
      rows := rows[nextId := Row(size, 0)];
      r := Ok(nextId);
      nextId := nextId + 1;
    }

    /** update: the payload check, then the lookup, then the version check. */
    method Update(id: Id, payload: Option<SizeFields>, version: int) returns (r: Outcome<Row<SizeFields>>)
      requires Valid()
      modifies this
      ensures Valid()
      ensures r == Revised(old(rows), id, payload, Some(version))
      ensures r.Ok? ==> rows == old(rows)[id := r.value]
      ensures !r.Ok? ==> rows == old(rows)
      ensures nextId == old(nextId)
    {
      if payload.None? {
        return InvalidArgument;
      }
      if id !in rows {
        return NotFound;
      }
      var existing := rows[id];
      if existing.version != version {
        return Conflict;
      }
      existing := Row(payload.value, existing.version + 1);
      rows := rows[id := existing];
      r := Ok(existing);
    }

    method Delete(id: Id) returns (deleted: bool)
      requires Valid()
      modifies this
      ensures Valid()
      ensures (deleted, rows) == Removed(old(rows), id)
      ensures nextId == old(nextId)
    {
      if id !in rows {
        return false;
      }
      rows := rows - {id};
      deleted := true;
    }
  }
}
