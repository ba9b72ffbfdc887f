/** LineService: the table of merchandise lines. */
module LineService {
  import opened Common
  import opened Text
  import opened Records

  /** The eleven fields update overwrites. Dates are day numbers, money an integer. */
  datatype LineFields = LineFields(
    lineCode: Option<string>,
    seasonCode: Option<string>,
    year: Option<int>,
    brandId: Option<Id>,
    marketId: Option<Id>,
    channelId: Option<Id>,
    startDate: Option<int>,
    endDate: Option<int>,
    plannedStyleCount: Option<int>,
    plannedUnits: Option<int>,
    plannedRevenue: Option<int>)

  /** create: a payload is required and so is a non-blank line code. */
  function CreateCheck(payload: Option<LineFields>): (r: Outcome<LineFields>)
    ensures r.Ok? || r.InvalidArgument?
    ensures r.Ok? <==> payload.Some? && payload.value.lineCode.Some? && !IsBlank(payload.value.lineCode.value)
    ensures r.Ok? ==> r.value == payload.value
  {
    if payload.None? then InvalidArgument
    else if NullOrBlank(payload.value.lineCode) then InvalidArgument
    else Ok(payload.value)
  }

  class LineTable {
    var rows: Table<LineFields>
    var nextId: nat

    ghost predicate Valid()
      reads this
    {
      IdsBelow(rows, nextId)
    }

    constructor ()
      ensures Valid() && rows == map[] && nextId == 0
    {
      rows := map[];
      nextId := 0;
    }

    method Create(payload: Option<LineFields>) returns (r: Outcome<Id>)
      requires Valid()
      modifies this
      ensures Valid()
      ensures r == CreateCheck(payload).Forward(old(nextId))
      ensures r.Ok? ==> rows == old(rows)[old(nextId) := Row(payload.value, 0)] && nextId == old(nextId) + 1
      ensures !r.Ok? ==> rows == old(rows) && nextId == old(nextId)
    {
      if payload.None? {
        return InvalidArgument;
      }
      var line := payload.value;
      if line.lineCode.None? || IsBlank(line.lineCode.value) {
        return InvalidArgument;
      }
      rows := rows[nextId := Row(line, 0)];
      r := Ok(nextId);
      nextId := nextId + 1;
    }

    /** update: the payload check, then the lookup, then the version check. */
    method Update(id: Id, payload: Option<LineFields>, version: int) returns (r: Outcome<Row<LineFields>>)
      requires Valid()
      modifies this
      ensures Valid()
      ensures r == Revised(old(rows), id, payload, Some(version))
      ensures r.Ok? ==> rows == old(rows)[id := r.value]
      ensures !r.Ok? ==> rows == old(rows)
      ensures nextId == old(nextId)
    {
      if payload.None? {
        return InvalidArgument;
      }
      if id !in rows {
        return NotFound;
      }
      var existing := rows[id];
      if existing.version != version {
        return Conflict;
      }
      existing := Row(payload.value, existing.version + 1);
      rows := rows[id := existing];
      r := Ok(existing);
    }

    method Delete(id: Id) returns (deleted: bool)
      requires Valid()
      modifies this
      ensures Valid()
      ensures (deleted, rows) == Removed(old(rows), id)
      ensures nextId == old(nextId)
    {
      if id !in rows {
        return false;
      }
      rows := rows - {id};
      deleted := true;
    }
  }
}
