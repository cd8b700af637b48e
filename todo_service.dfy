/**
 * hf-backend/src/services/todo_service.py: the static methods of `TodoService`, each
 * taking the table (the session) and the caller's id. Every single-row operation finds
 * its row by the pair (todo id, owner id); none of them refreshes `updated_at`.
 */
module TodoService {
  import opened Wrappers
  import opened Ids
  import opened Http
  import opened TodoModel

  /** `get_user_todos`: exactly the caller's rows, in table order. */
  method GetUserTodos(table: TodoTable, user: Uuid) returns (r: seq<Todo>)
    ensures r == OwnedBy(table.rows, user)
    ensures forall t :: t in r <==> t in table.rows && t.owner == user
  {
    r := OwnedBy(table.rows, user);
  }

  /**
   * `create_todo`: appends a row owned by the caller whose fields come from the
   * validated payload; no existing row changes.
   */
  method CreateTodo(table: TodoTable, data: ValidTodoCreate, user: Uuid, now: Time) returns (t: Todo)
    requires table.Valid() && table.clock <= now
    modifies table
    ensures table.Valid()
    ensures t == Todo(old(table.nextId), user, data.title, data.description, data.completed, now, now)
    ensures table.rows == old(table.rows) + [t]
    ensures forall u :: u != user ==> OwnedBy(table.rows, u) == OwnedBy(old(table.rows), u)
  {
    ghost var before := table.rows;
    t := table.Add(user, data, now);
    forall u | u != user ensures OwnedBy(table.rows, u) == OwnedBy(before, u) {
      OwnedByAppend(before, t, u);
    }
  }

  /** `get_todo_by_id`: the row only when both its id and its owner match, else `None`. */
  method GetTodoById(table: TodoTable, id: Uuid, user: Uuid) returns (r: Option<Todo>)
    ensures r == Lookup(table.rows, id, user)
    ensures r.Some? ==> r.value in table.rows && r.value.id == id && r.value.owner == user
    ensures r.None? <==> forall t :: t in table.rows ==> !(t.id == id && t.owner == user)
  {
    r := Lookup(table.rows, id, user);
  }

  /**
   * `update_todo`: `None` with nothing changed when the caller owns no row with that id;
   * otherwise the fields present in the `exclude_unset` dump are set and the row is
   * committed, `updated_at` left as it was. A dump that nulls `title` or `is_completed`
   * makes the commit raise (`Err(NotNullViolation)`) and nothing is stored.
   */
  method UpdateTodo(table: TodoTable, id: Uuid, update: TodoUpdate, user: Uuid)
    returns (r: Result<Option<Todo>, Cause>)
    requires table.Valid()
    modifies table
    ensures table.Valid() && table.nextId == old(table.nextId) && table.clock == old(table.clock)
    ensures Lookup(old(table.rows), id, user).None? ==> r == Ok(None) && table.rows == old(table.rows)
    ensures Lookup(old(table.rows), id, user).Some? ==>
              var t := Lookup(old(table.rows), id, user).value;
              var saved := Commit(t, Patched(DraftOf(t), Dump(update)), t.updatedAt);
              && (saved.None? ==> r == Err(NotNullViolation) && table.rows == old(table.rows))
              && (saved.Some? ==> r == Ok(saved) && table.rows == Replace(old(table.rows), saved.value))
    ensures forall u :: u != user ==> OwnedBy(table.rows, u) == OwnedBy(old(table.rows), u)
  {
    var found := GetTodoById(table, id, user);
    if found.None? {
      return Ok(None);
    }
    var t := found.value;
    var d := ApplyAssignments(DraftOf(t), Dump(update));
    var saved := Commit(t, d, t.updatedAt);
    if saved.None? {
      return Err(NotNullViolation);
    }
    ghost var before := table.rows;
    LookupOwnsId(before, id, user);
    table.Save(saved.value);
    forall u | u != user ensures OwnedBy(table.rows, u) == OwnedBy(before, u) {
      OwnedByReplaceOther(before, saved.value, u);
    }
    return Ok(saved);
  }

  /**
   * `delete_todo`: `False` with nothing changed when there is no owner match; otherwise
   * exactly that row is removed, the others keep their order, and the answer is `True`.
   */
  method DeleteTodo(table: TodoTable, id: Uuid, user: Uuid) returns (ok: bool)
    requires table.Valid()
    modifies table
    ensures table.Valid() && table.nextId == old(table.nextId) && table.clock == old(table.clock)
    ensures ok <==> Lookup(old(table.rows), id, user).Some?
    ensures !ok ==> table.rows == old(table.rows)
    ensures ok ==> table.rows == Remove(old(table.rows), id) && |table.rows| == |old(table.rows)| - 1
    ensures forall u :: u != user ==> OwnedBy(table.rows, u) == OwnedBy(old(table.rows), u)
  {
    var found := GetTodoById(table, id, user);
    if found.None? {
      return false;
    }
    ghost var before := table.rows;
    LookupOwnsId(before, id, user);
    var i :| 0 <= i < |table.rows| && table.rows[i] == found.value;
    table.Delete(i);
    forall u | u != user ensures OwnedBy(table.rows, u) == OwnedBy(before, u) {
      OwnedByRemoveOther(before, id, user, u);
    }
    return true;
  }

  /**
   * `toggle_todo_completion`: `None` with nothing changed when there is no owner match;
   * otherwise the row's `is_completed` is negated (and only that field).
   */
  method ToggleTodoCompletion(table: TodoTable, id: Uuid, user: Uuid) returns (r: Option<Todo>)
    requires table.Valid()
    modifies table
    ensures table.Valid() && table.nextId == old(table.nextId) && table.clock == old(table.clock)
    ensures Lookup(old(table.rows), id, user).None? ==> r.None? && table.rows == old(table.rows)
    ensures Lookup(old(table.rows), id, user).Some? ==>
              var t := Lookup(old(table.rows), id, user).value;
              r == Some(t.(completed := !t.completed)) && table.rows == Replace(old(table.rows), r.value)
    ensures forall u :: u != user ==> OwnedBy(table.rows, u) == OwnedBy(old(table.rows), u)
  {
    var found := GetTodoById(table, id, user);
    if found.None? {
      return None;
    }
    var t := found.value;
    var toggled := t.(completed := !t.completed);
    ghost var before := table.rows;
    LookupOwnsId(before, id, user);
    table.Save(toggled);
    forall u | u != user ensures OwnedBy(table.rows, u) == OwnedBy(before, u) {
      OwnedByReplaceOther(before, toggled, u);
    }
    return Some(toggled);
  }

  /** Toggling the same todo twice restores the table exactly (no timestamp is touched). */
  method ToggleTwice(table: TodoTable, id: Uuid, user: Uuid) returns (first: Option<Todo>, second: Option<Todo>)
    requires table.Valid()
    modifies table
    ensures table.Valid()
    ensures first.Some? <==> second.Some?
    ensures second.Some? ==> Some(second.value) == Lookup(old(table.rows), id, user)
    ensures table.rows == old(table.rows)
  {
    ghost var before := table.rows;
    first := ToggleTodoCompletion(table, id, user);
    if first.Some? {
      ghost var t := Lookup(before, id, user).value;
      ghost var i :| 0 <= i < |before| && before[i] == t;
      assert table.rows[i] == first.value;
      LookupAt(table.rows, i);
    }
    second := ToggleTodoCompletion(table, id, user);
    if first.Some? {
      ghost var t := Lookup(before, id, user).value;
      ReplaceTwice(before, first.value, second.value);
      LookupIsOnlyRowWithId(before, id, user);
      ReplaceWithOwnRow(before, t);
    }
  }
}
