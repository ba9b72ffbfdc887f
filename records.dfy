/** The pattern the record services (lines, vendors, sizes, colors) share: a table of rows,
    each the writable fields plus an optimistic version counter, and an update that rejects
    a null payload, answers a missing id with "not found" (the services return null), rejects
    a stale version where one is checked, and otherwise overwrites the fields. */
module Records {
  import opened Common

  datatype Row<R> = Row(fields: R, version: nat)

  type Table<R> = map<Id, Row<R>>

  /** The outcome of an update. `expected` is the version the caller saw, or None for a
      service that does not check one. */
  function Revised<R>(rows: Table<R>, id: Id, payload: Option<R>, expected: Option<int>): (r: Outcome<Row<R>>)
    ensures r.InvalidArgument? <==> payload.None?
    ensures r.NotFound? <==> payload.Some? && id !in rows
    ensures r.Conflict? <==> payload.Some? && id in rows && expected.Some? && rows[id].version != expected.value
    ensures r.Ok? ==> id in rows && r.value.fields == payload.value && r.value.version == rows[id].version + 1
  {
    if payload.None? then InvalidArgument
    else if id !in rows then NotFound
    else if expected.Some? && rows[id].version != expected.value then Conflict
    else Ok(Row(payload.value, rows[id].version + 1))
  }

  /** Two writers who both saw version `seen`: the first one's update goes through and moves
      the version on, so the second one is refused and the row holds the first one's fields. */
  lemma StaleUpdateConflicts<R>(rows: Table<R>, id: Id, first: R, second: R, seen: nat)
    requires id in rows && rows[id].version == seen
    ensures var r1 := Revised(rows, id, Some(first), Some(seen));
      && r1 == Ok(Row(first, seen + 1))
      && Revised(rows[id := r1.value], id, Some(second), Some(seen)).Conflict?
  {
  }

  /** Without a version check the later of two updates simply wins. */
  lemma UncheckedLastWriteWins<R>(rows: Table<R>, id: Id, first: R, second: R)
    requires id in rows
    ensures var r1 := Revised(rows, id, Some(first), None);
      && r1.Ok?
      && Revised(rows[id := r1.value], id, Some(second), None) == Ok(Row(second, rows[id].version + 2))
  {
  }

  /** Re-reading the row and sending its version back always succeeds. */
  lemma FreshVersionAccepted<R>(rows: Table<R>, id: Id, payload: R)
    requires id in rows
    ensures Revised(rows, id, Some(payload), Some(rows[id].version)) == Ok(Row(payload, rows[id].version + 1))
  {
  }

  /** deleteById: whether a row was removed, and the table without it. */
  function Removed<R>(rows: Table<R>, id: Id): (r: (bool, Table<R>))
    ensures r.0 <==> id in rows
    ensures id !in r.1
    ensures forall other | other != id :: (other in r.1 <==> other in rows)
    ensures forall other | other in r.1 :: r.1[other] == rows[other]
  {
    if id in rows then (true, rows - {id}) else (false, rows)
  }

  ghost predicate IdsBelow<R>(rows: Table<R>, nextId: nat)
  {
    forall id | id in rows :: id < nextId
  }
}
