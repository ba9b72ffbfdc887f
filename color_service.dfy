/** ColorService: the table of colors. Its update checks no version. */
module ColorService {
  import opened Common
  import opened Text
  import opened Records

  /** The three fields update overwrites. */
  datatype ColorFields = ColorFields(name: Option<string>, description: Option<string>, rgb: Option<string>)

  /** create: a non-blank name, then a non-blank RGB value. */
  function CreateCheck(payload: Option<ColorFields>): (r: Outcome<ColorFields>)
    ensures r.Ok? || r.InvalidArgument?
    ensures r.Ok? <==> payload.Some? && payload.value.name.Some? && !IsBlank(payload.value.name.value)
                       && payload.value.rgb.Some? && !IsBlank(payload.value.rgb.value)
    ensures r.Ok? ==> r.value == payload.value
  {
    if payload.None? || NullOrBlank(payload.value.name) then InvalidArgument
    else if NullOrBlank(payload.value.rgb) then InvalidArgument
    else Ok(payload.value)
  }

  class ColorTable {
    var rows: Table<ColorFields>
    var nextId: nat

    ghost predicate Valid()
      reads this
    {
      IdsBelow(rows, nextId)
    }

    constructor ()
      ensures Valid() && rows == map[] && nextId == 0
    {
      rows := map[];
      nextId := 0;
    }

    method Create(payload: Option<ColorFields>) returns (r: Outcome<Id>)
      requires Valid()
      modifies this
      ensures Valid()
      ensures r == CreateCheck(payload).Forward(old(nextId))
      ensures r.Ok? ==> rows == old(rows)[old(nextId) := Row(payload.value, 0)] && nextId == old(nextId) + 1
      ensures !r.Ok? ==> rows == old(rows) && nextId == old(nextId)
    {
      if payload.None? {
        return InvalidArgument;
      }
      var color := payload.value;
      if color.name.None? || IsBlank(color.name.value) {
        return InvalidArgument;
      }
      if color.rgb.None? || IsBlank(color.rgb.value) {
        return InvalidArgument;
      }
      rows := rows[nextId := Row(color, 0)];
      r := Ok(nextId);
      nextId := nextId + 1;
    }

    /** update: the payload check, then the lookup; no version is checked. */
    method Update(id: Id, payload: Option<ColorFields>) returns (r: Outcome<Row<ColorFields>>)
      requires Valid()
      modifies this
      ensures Valid()
      ensures r == Revised(old(rows), id, payload, None)
      ensures r.Ok? ==> rows == old(rows)[id := r.value]
      ensures !r.Ok? ==> rows == old(rows)
      ensures nextId == old(nextId)
    {
      if payload.None? {
        return InvalidArgument;
      }
      if id !in rows {
        return NotFound;
      }
      var existing := rows[id];
      existing := Row(payload.value, existing.version + 1);
      rows := rows[id := existing];
      r := Ok(existing);
    }

    method Delete(id: Id) returns (deleted: bool)
      requires Valid()
      modifies this
      ensures Valid()
      ensures (deleted, rows) == Removed(old(rows), id)
      ensures nextId == old(nextId)
    {
      if id !in rows {
        return false;
      }
      rows := rows - {id};
      deleted := true;
    }
  }
}
