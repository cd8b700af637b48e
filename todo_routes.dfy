/**
 * The todo routes of hf-backend/app.py (`get_todos`, `create_todo`, `get_todo`,
 * `update_todo`, `delete_todo`, `toggle_todo_complete`). Each handler runs for the
 * authenticated caller `owner` (the `get_current_user` dependency, resolved first, is
 * modelled in module Users); the `{todo_id}` path parameter arrives as text and a
 * malformed one is refused with 422, as FastAPI refuses it. Unlike `TodoService`, the
 * routes that edit a row stamp `updated_at` with the current instant `now`.
 */
module TodoRoutes {
  import opened Wrappers
  import opened Ids
  import opened Http
  import opened TodoModel

  const NotFoundDetail: string := "Todo not found"
  const DeletedMessage: string := "Todo deleted successfully"
  const DefaultSkip: nat := 0
  const DefaultLimit: nat := 100

  /**
   * `get_todos`: the caller's rows from position `skip` on, at most `limit` of them,
   * in table order.
   */
  function GetTodos(rows: seq<Todo>, owner: Uuid, skip: nat, limit: nat): (r: seq<Todo>)
    ensures |r| <= limit
    ensures forall t :: t in r ==> t in rows && t.owner == owner
    ensures forall i :: 0 <= i < |r| ==>
              skip + i < |OwnedBy(rows, owner)| && r[i] == OwnedBy(rows, owner)[skip + i]
    ensures skip + limit <= |OwnedBy(rows, owner)| ==> |r| == limit
    ensures skip + limit > |OwnedBy(rows, owner)| ==>
              |r| == if skip >= |OwnedBy(rows, owner)| then 0 else |OwnedBy(rows, owner)| - skip
  {
    Window(OwnedBy(rows, owner), skip, limit)
  }

  /** Two consecutive pages are the page that spans both. */
  lemma PagesConcatenate(rows: seq<Todo>, owner: Uuid, skip: nat, n: nat, m: nat)
    ensures GetTodos(rows, owner, skip, n) + GetTodos(rows, owner, skip + n, m) ==
            GetTodos(rows, owner, skip, n + m)
  {
    var a := GetTodos(rows, owner, skip, n);
    var b := GetTodos(rows, owner, skip + n, m);
    var c := GetTodos(rows, owner, skip, n + m);
    assert |a + b| == |c|;
    forall i | 0 <= i < |c| ensures (a + b)[i] == c[i] {
      if i >= |a| {
        assert (a + b)[i] == b[i - |a|];
      }
    }
  }

  /** A page as long as the table holds every one of the caller's rows. */
  lemma FullPageIsEveryOwnedRow(rows: seq<Todo>, owner: Uuid)
    ensures GetTodos(rows, owner, 0, |rows|) == OwnedBy(rows, owner)
  {
    var r := GetTodos(rows, owner, 0, |rows|);
    assert |r| == |OwnedBy(rows, owner)|;
  }

  /**
   * `get_todo`: 422 for a path that is not a UUID, 404 "Todo not found" unless the caller
   * owns a row with that id, and that row otherwise.
   */
  function GetTodo(rows: seq<Todo>, owner: Uuid, idText: string): (r: Result<Todo, HttpError>)
    ensures ParseUuid(idText).None? ==> r == Err(Unprocessable)
    ensures ParseUuid(idText).Some? ==>
              var id := ParseUuid(idText).value;
              (Lookup(rows, id, owner).None? ==> r == Err(Raised(404, NotFoundDetail))) &&
              (Lookup(rows, id, owner).Some? ==> r == Ok(Lookup(rows, id, owner).value))
    ensures r.Ok? ==> r.value in rows && r.value.owner == owner && Some(r.value.id) == ParseUuid(idText)
  {
    match ParseUuid(idText)
    case None => Err(Unprocessable)
    case Some(id) =>
      match Lookup(rows, id, owner)
      case None => Err(Raised(404, NotFoundDetail))
      case Some(t) => Ok(t)
  }

  /**
   * Ownership scoping: a row is served by its id text to its owner and to nobody else,
   * who gets the same 404 as for an id that does not exist.
   */
  lemma GetTodoOwnerScoped(rows: seq<Todo>, i: nat, other: Uuid)
    requires IdsUnique(rows) && i < |rows| && other != rows[i].owner
    ensures GetTodo(rows, rows[i].owner, UuidText(rows[i].id)) == Ok(rows[i])
    ensures GetTodo(rows, other, UuidText(rows[i].id)) == Err(Raised(404, NotFoundDetail))
  {
    UuidRoundTrip(rows[i].id);
    LookupAt(rows, i);
    forall t | t in rows ensures !(t.id == rows[i].id && t.owner == other) {
      var j :| 0 <= j < |rows| && rows[j] == t;
      if t.id == rows[i].id {
        assert i == j;
      }
    }
  }

  /**
   * `create_todo`: a body that breaks `TodoCreate`'s constraints is refused with 422 and
   * nothing is stored; otherwise one row owned by the caller, with the body's fields
   * and both timestamps `now`, is appended.
   */
  method CreateTodo(table: TodoTable, owner: Uuid, body: TodoCreate, now: Time)
    returns (r: Result<Todo, HttpError>)
    requires table.Valid() && table.clock <= now
    modifies table
    ensures table.Valid()
    ensures r.Err? <==> !ValidCreate(body)
    ensures r.Err? ==> r.error == Unprocessable && table.rows == old(table.rows) && table.nextId == old(table.nextId)
    ensures r.Ok? ==>
              && r.value == Todo(old(table.nextId), owner, body.title, body.description, body.completed, now, now)
              && table.rows == old(table.rows) + [r.value]
    ensures forall u :: u != owner ==> OwnedBy(table.rows, u) == OwnedBy(old(table.rows), u)
  {
    if !ValidCreate(body) {
      return Err(Unprocessable);
    }
    ghost var before := table.rows;
    var t := table.Add(owner, body, now);
    forall u | u != owner ensures OwnedBy(table.rows, u) == OwnedBy(before, u) {
      OwnedByAppend(before, t, u);
    }
    return Ok(t);
  }

  /** A row appended under a fresh id is then served to its owner by the text of that id. */
  lemma CreatedTodoIsFound(rows: seq<Todo>, t: Todo)
    requires IdsUnique(rows) && forall i :: 0 <= i < |rows| ==> rows[i].id != t.id
    ensures GetTodo(rows + [t], t.owner, UuidText(t.id)) == Ok(t)
  {
    var all := rows + [t];
    assert IdsUnique(all) by {
      forall a, b | 0 <= a < b < |all| ensures all[a].id != all[b].id {
        if b == |rows| {
          assert all[a] == rows[a];
        } else {
          assert all[a] == rows[a] && all[b] == rows[b];
        }
      }
    }
    UuidRoundTrip(t.id);
    LookupAt(all, |rows|);
  }

  /**
   * `update_todo`: 422 for a malformed id, 404 unless the caller owns the row; then the
   * fields present in the `exclude_unset` dump are set and `updated_at` becomes `now`.
   * A dump that nulls `title` or `is_completed` is refused by the database at commit
   * (500) and nothing is stored.
   */
  method UpdateTodo(table: TodoTable, owner: Uuid, idText: string, update: TodoUpdate, now: Time)
    returns (r: Result<Todo, HttpError>)
    requires table.Valid() && table.clock <= now
    modifies table
    ensures table.Valid() && table.nextId == old(table.nextId)
    ensures ParseUuid(idText).None? ==> r == Err(Unprocessable)
    ensures ParseUuid(idText).Some? && Lookup(old(table.rows), ParseUuid(idText).value, owner).None? ==>
              r == Err(Raised(404, NotFoundDetail))
    ensures ParseUuid(idText).Some? && Lookup(old(table.rows), ParseUuid(idText).value, owner).Some? ==>
              var t := Lookup(old(table.rows), ParseUuid(idText).value, owner).value;
              var saved := Commit(t, Patched(DraftOf(t), Dump(update)), now);
              && (saved.None? ==> r == Err(Unhandled(NotNullViolation)))
              && (saved.Some? ==> r == Ok(saved.value) && table.rows == Replace(old(table.rows), saved.value))
    ensures r.Err? ==> table.rows == old(table.rows)
    ensures forall u :: u != owner ==> OwnedBy(table.rows, u) == OwnedBy(old(table.rows), u)
  {
    var id := ParseUuid(idText);
    if id.None? {
      return Err(Unprocessable);
    }
    var found := Lookup(table.rows, id.value, owner);
    if found.None? {
      return Err(Raised(404, NotFoundDetail));
    }
    var t := found.value;
    var d := ApplyAssignments(DraftOf(t), Dump(update));
    var saved := Commit(t, d, now);
    if saved.None? {
      return Err(Unhandled(NotNullViolation));
    }
    ghost var before := table.rows;
    LookupOwnsId(before, id.value, owner);
    ghost var i :| 0 <= i < |before| && before[i] == t;
    table.Tick(now);
    table.Save(saved.value);
    forall u | u != owner ensures OwnedBy(table.rows, u) == OwnedBy(before, u) {
      OwnedByReplaceOther(before, saved.value, u);
    }
    return Ok(saved.value);
  }

  /**
   * `delete_todo`: 422 for a malformed id, 404 unless the caller owns the row; otherwise
   * exactly that row is removed and the confirmation message returned.
   */
  method DeleteTodo(table: TodoTable, owner: Uuid, idText: string) returns (r: Result<string, HttpError>)
    requires table.Valid()
    modifies table
    ensures table.Valid() && table.nextId == old(table.nextId) && table.clock == old(table.clock)
    ensures ParseUuid(idText).None? ==> r == Err(Unprocessable)
    ensures ParseUuid(idText).Some? ==>
              var id := ParseUuid(idText).value;
              (Lookup(old(table.rows), id, owner).None? ==> r == Err(Raised(404, NotFoundDetail))) &&
              (Lookup(old(table.rows), id, owner).Some? ==>
                 r == Ok(DeletedMessage) && table.rows == Remove(old(table.rows), id) &&
                 |table.rows| == |old(table.rows)| - 1)
    ensures r.Err? ==> table.rows == old(table.rows)
    ensures forall u :: u != owner ==> OwnedBy(table.rows, u) == OwnedBy(old(table.rows), u)
  {
    var id := ParseUuid(idText);
    if id.None? {
      return Err(Unprocessable);
    }
    var found := Lookup(table.rows, id.value, owner);
    if found.None? {
      return Err(Raised(404, NotFoundDetail));
    }
    ghost var before := table.rows;
    LookupOwnsId(before, id.value, owner);
    var i :| 0 <= i < |table.rows| && table.rows[i] == found.value;
    table.Delete(i);
    forall u | u != owner ensures OwnedBy(table.rows, u) == OwnedBy(before, u) {
      OwnedByRemoveOther(before, id.value, owner, u);
    }
    return Ok(DeletedMessage);
  }

  /**
   * `toggle_todo_complete`: 422 for a malformed id, 404 unless the caller owns the row;
   * otherwise `is_completed` is negated and `updated_at` becomes `now`.
   */
  method ToggleTodoComplete(table: TodoTable, owner: Uuid, idText: string, now: Time)
    returns (r: Result<Todo, HttpError>)
    requires table.Valid() && table.clock <= now
    modifies table
    ensures table.Valid() && table.nextId == old(table.nextId)
    ensures ParseUuid(idText).None? ==> r == Err(Unprocessable)
    ensures ParseUuid(idText).Some? ==>
              var id := ParseUuid(idText).value;
              (Lookup(old(table.rows), id, owner).None? ==> r == Err(Raised(404, NotFoundDetail))) &&
              (Lookup(old(table.rows), id, owner).Some? ==>
                 var t := Lookup(old(table.rows), id, owner).value;
                 r == Ok(t.(completed := !t.completed, updatedAt := now)) &&
                 table.rows == Replace(old(table.rows), r.value))
    ensures r.Err? ==> table.rows == old(table.rows)
    ensures forall u :: u != owner ==> OwnedBy(table.rows, u) == OwnedBy(old(table.rows), u)
  {
    var id := ParseUuid(idText);
    if id.None? {
      return Err(Unprocessable);
    }
    var found := Lookup(table.rows, id.value, owner);
    if found.None? {
      return Err(Raised(404, NotFoundDetail));
    }
    var t := found.value;
    var toggled := t.(completed := !t.completed, updatedAt := now);
    ghost var before := table.rows;
    LookupOwnsId(before, id.value, owner);
    ghost var i :| 0 <= i < |before| && before[i] == t;
    table.Tick(now);
    table.Save(toggled);
    forall u | u != owner ensures OwnedBy(table.rows, u) == OwnedBy(before, u) {
      OwnedByReplaceOther(before, toggled, u);
    }
    return Ok(toggled);
  }

  /**
   * One user creates a todo; a second user's delete of it gets 404 and removes nothing;
   * the owner's delete succeeds, after which the owner's own lookup gets 404.
   */
  method DeleteIsOwnerScoped(table: TodoTable, a: Uuid, b: Uuid, body: TodoCreate, now: Time)
    returns (created: Result<Todo, HttpError>, byOther: Result<string, HttpError>,
             byOwner: Result<string, HttpError>, after: Result<Todo, HttpError>)
    requires table.Valid() && table.clock <= now && a != b && ValidCreate(body)
    modifies table
    ensures created.Ok?
    ensures byOther == Err(Raised(404, NotFoundDetail))
    ensures byOwner == Ok(DeletedMessage)
    ensures after == Err(Raised(404, NotFoundDetail))
    ensures table.rows == old(table.rows)
  {
    ghost var before := table.rows;
    created := CreateTodo(table, a, body, now);
    var t := created.value;
    var idText := UuidText(t.id);
    UuidRoundTrip(t.id);
    assert table.rows[|before|] == t;
    GetTodoOwnerScoped(table.rows, |before|, b);
    byOther := DeleteTodo(table, b, idText);
    byOwner := DeleteTodo(table, a, idText);
    assert table.rows == before by {
      RemoveExactlyOne(before + [t], |before|);
      assert (before + [t])[..|before|] == before;
    }
    after := GetTodo(table.rows, a, idText);
  }
}
