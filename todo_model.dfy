/**
 * The todo table shared by hf-backend/app.py's routes and hf-backend's `TodoService`:
 * the `Todo` record, the validated `TodoCreate` and partial `TodoUpdate` payloads, the
 * `setattr` loop that applies an update, and the table itself as a class whose rows are
 * kept in insertion order. A query's `.first()` is the first matching row in that order.
 */
module TodoModel {
  import opened Wrappers
  import opened Ids

  datatype Todo = Todo(
    id: Uuid,
    owner: Uuid,              // user_id
    title: string,
    description: Option<string>,
    completed: bool,          // is_completed
    createdAt: Time,
    updatedAt: Time)

  const MaxTitleLength: nat := 200
  const MaxDescriptionLength: nat := 1000

  /** The body of a create request, before validation. */
  datatype TodoCreate = TodoCreate(title: string, description: Option<string>, completed: bool)

  /** The field constraints `TodoCreate` enforces when it is constructed. */
  predicate ValidCreate(c: TodoCreate) {
    1 <= |c.title| <= MaxTitleLength &&
    (c.description.Some? ==> |c.description.value| <= MaxDescriptionLength)
  }

  /** A `TodoCreate` instance: construction has already validated it. */
  type ValidTodoCreate = c: TodoCreate | ValidCreate(c) witness TodoCreate("t", None, false)

  /** A field of `TodoUpdate`: left unset, or given a value (possibly an explicit null). */
  datatype Slot<T> = Unset | Given(value: T)

  datatype TodoUpdate = TodoUpdate(
    title: Slot<Option<string>>,
    description: Slot<Option<string>>,
    completed: Slot<Option<bool>>)

  /** One `(field, value)` item of `todo_update.dict(exclude_unset=True)`; `None` is null. */
  datatype Assignment =
    | SetTitle(title: Option<string>)
    | SetDescription(description: Option<string>)
    | SetCompleted(completed: Option<bool>)

  /** The position of an item's field in the declaration of `TodoUpdate`. */
  function FieldIndex(a: Assignment): nat {
    match a
    case SetTitle(_) => 0
    case SetDescription(_) => 1
    case SetCompleted(_) => 2
  }

  /**
   * `todo_update.dict(exclude_unset=True).items()`: one item per field that was set,
   * in declaration order.
   */
  function Dump(u: TodoUpdate): (us: seq<Assignment>)
    ensures |us| == (if u.title.Given? then 1 else 0) + (if u.description.Given? then 1 else 0) +
                    (if u.completed.Given? then 1 else 0)
    ensures forall i, j :: 0 <= i < j < |us| ==> FieldIndex(us[i]) < FieldIndex(us[j])
    ensures u.title.Given? ==> SetTitle(u.title.value) in us
    ensures u.description.Given? ==> SetDescription(u.description.value) in us
    ensures u.completed.Given? ==> SetCompleted(u.completed.value) in us
    ensures forall a :: a in us ==>
              (a.SetTitle? ==> u.title == Given(a.title)) &&
              (a.SetDescription? ==> u.description == Given(a.description)) &&
              (a.SetCompleted? ==> u.completed == Given(a.completed))
  {
    (if u.title.Given? then [SetTitle(u.title.value)] else []) +
    (if u.description.Given? then [SetDescription(u.description.value)] else []) +
    (if u.completed.Given? then [SetCompleted(u.completed.value)] else [])
  }

  /**
   * A row as the ORM object holds it while being edited: columns that Python lets
   * become `None` before the database checks its NOT NULL constraints at commit.
   */
  datatype Draft = Draft(title: Option<string>, description: Option<string>, completed: Option<bool>)

  function DraftOf(t: Todo): Draft {
    Draft(Some(t.title), t.description, Some(t.completed))
  }

  /** One item of the dumped update assigned onto the row. */
  function Assign(d: Draft, a: Assignment): Draft {
    match a
    case SetTitle(v) => d.(title := v)
    case SetDescription(v) => d.(description := v)
    case SetCompleted(v) => d.(completed := v)
  }

  /** The draft after the items of `us`, in order. */
  function Patched(d: Draft, us: seq<Assignment>): Draft
    decreases |us|
  {
    if us == [] then d else Assign(Patched(d, us[..|us| - 1]), us[|us| - 1])
  }

  /** Every item of the dumped update assigned onto the row in turn. */
  method ApplyAssignments(d: Draft, us: seq<Assignment>) returns (r: Draft)
    ensures r == Patched(d, us)
  {
    r := d;
    var i := 0;
    while i < |us|
      invariant 0 <= i <= |us|
      invariant r == Patched(d, us[..i])
    {
      assert us[..i + 1][..i] == us[..i];
      r := Assign(r, us[i]);
      i := i + 1;
    }
    assert us[..|us|] == us;
  }

  /** A field no item names keeps its value. */
  lemma {:induction false} PatchedLeavesUnnamedFields(d: Draft, us: seq<Assignment>)
    ensures (forall a :: a in us ==> !a.SetTitle?) ==> Patched(d, us).title == d.title
    ensures (forall a :: a in us ==> !a.SetDescription?) ==> Patched(d, us).description == d.description
    ensures (forall a :: a in us ==> !a.SetCompleted?) ==> Patched(d, us).completed == d.completed
    decreases |us|
  {
    if us != [] {
      var init := us[..|us| - 1];
      assert forall a :: a in init ==> a in us;
      PatchedLeavesUnnamedFields(d, init);
    }
  }

  /** A field takes the value of the last item that names it. */
  lemma {:induction false} PatchedLastItemWins(d: Draft, us: seq<Assignment>, k: nat)
    requires k < |us|
    ensures us[k].SetTitle? && (forall j :: k < j < |us| ==> !us[j].SetTitle?) ==>
              Patched(d, us).title == us[k].title
    ensures us[k].SetDescription? && (forall j :: k < j < |us| ==> !us[j].SetDescription?) ==>
              Patched(d, us).description == us[k].description
    ensures us[k].SetCompleted? && (forall j :: k < j < |us| ==> !us[j].SetCompleted?) ==>
              Patched(d, us).completed == us[k].completed
    decreases |us|
  {
    var init := us[..|us| - 1];
    if k < |us| - 1 {
      PatchedLastItemWins(d, init, k);
    }
  }

  /**
   * Applying the dump of a `TodoUpdate` sets exactly the fields that were set, to the
   * values given, and leaves the others as they were.
   */
  lemma UpdateSetsOnlyGivenFields(d: Draft, u: TodoUpdate)
    ensures Patched(d, Dump(u)) == Draft(
      if u.title.Given? then u.title.value else d.title,
      if u.description.Given? then u.description.value else d.description,
      if u.completed.Given? then u.completed.value else d.completed)
  {
    UpdateSetsTitle(d, u);
    UpdateSetsDescription(d, u);
    UpdateSetsCompleted(d, u);
  }

  lemma UpdateSetsTitle(d: Draft, u: TodoUpdate)
    ensures Patched(d, Dump(u)).title == if u.title.Given? then u.title.value else d.title
  {
    var us := Dump(u);
    if u.title.Given? {
      assert us[0] == SetTitle(u.title.value);
      assert forall j :: 0 < j < |us| ==> FieldIndex(us[j]) > FieldIndex(us[0]);
      PatchedLastItemWins(d, us, 0);
    } else {
      PatchedLeavesUnnamedFields(d, us);
    }
  }

  lemma UpdateSetsDescription(d: Draft, u: TodoUpdate)
    ensures Patched(d, Dump(u)).description == if u.description.Given? then u.description.value else d.description
  {
    var us := Dump(u);
    if u.description.Given? {
      var k := if u.title.Given? then 1 else 0;
      assert us[k] == SetDescription(u.description.value);
      assert forall j :: k < j < |us| ==> FieldIndex(us[j]) > FieldIndex(us[k]);
      PatchedLastItemWins(d, us, k);
    } else {
      PatchedLeavesUnnamedFields(d, us);
    }
  }

  lemma UpdateSetsCompleted(d: Draft, u: TodoUpdate)
    ensures Patched(d, Dump(u)).completed == if u.completed.Given? then u.completed.value else d.completed
  {
    var us := Dump(u);
    if u.completed.Given? {
      assert us[|us| - 1] == SetCompleted(u.completed.value);
      PatchedLastItemWins(d, us, |us| - 1);
    } else {
      PatchedLeavesUnnamedFields(d, us);
    }
  }

  /**
   * Committing an edited row: the NOT NULL constraints on `title` and
   * `is_completed` refuse a draft that nulls either; otherwise the row takes the draft's
   * fields and the given `updated_at`. Id, owner and `created_at` never change.
   */
  function Commit(t: Todo, d: Draft, updatedAt: Time): (r: Option<Todo>)
    ensures r.None? <==> d.title.None? || d.completed.None?
    ensures r.Some? ==> r.value.id == t.id && r.value.owner == t.owner && r.value.createdAt == t.createdAt
    ensures r.Some? ==> DraftOf(r.value) == d && r.value.updatedAt == updatedAt
  {
    if d.title.None? || d.completed.None? then None
    else Some(t.(title := d.title.value, description := d.description,
                 completed := d.completed.value, updatedAt := updatedAt))
  }

  /** Committing a draft that nobody edited writes the row back as it was. */
  lemma CommitUnchangedDraft(t: Todo)
    ensures Commit(t, DraftOf(t), t.updatedAt) == Some(t)
  {
  }

  // ------------------------------------------------------------------------------
  // Queries over the rows

  /** The primary key on `todo.id`. */
  predicate IdsUnique(rows: seq<Todo>) {
    forall i, j :: 0 <= i < j < |rows| ==> rows[i].id != rows[j].id
  }

  /**
   * The first row matching both the id and the owner: a row is found
   * only when both the id and the owner match.
   */
  function Lookup(rows: seq<Todo>, id: Uuid, owner: Uuid): (r: Option<Todo>)
    ensures r.Some? ==> r.value in rows && r.value.id == id && r.value.owner == owner
    ensures r.None? <==> forall t :: t in rows ==> !(t.id == id && t.owner == owner)
  {
    if rows == [] then None
    else if rows[0].id == id && rows[0].owner == owner then Some(rows[0])
    else Lookup(rows[1..], id, owner)
  }

  /** The query filtering on the owner: the owner's rows, in table order. */
  function OwnedBy(rows: seq<Todo>, owner: Uuid): (r: seq<Todo>)
    ensures |r| <= |rows|
    ensures forall t :: t in r <==> t in rows && t.owner == owner
  {
    if rows == [] then []
    else (if rows[0].owner == owner then [rows[0]] else []) + OwnedBy(rows[1..], owner)
  }

  /** `.offset(skip).limit(limit)` on a query result. */
  function Window(s: seq<Todo>, skip: nat, limit: nat): (r: seq<Todo>)
    ensures |r| == if skip >= |s| then 0 else if limit < |s| - skip then limit else |s| - skip
    ensures forall i :: 0 <= i < |r| ==> r[i] == s[skip + i]
  {
    var lo := if skip < |s| then skip else |s|;
    var hi := if skip + limit < |s| then skip + limit else |s|;
    s[lo..hi]
  }

  /** The table after an existing row `t` is added again and committed. */
  function Replace(rows: seq<Todo>, t: Todo): (r: seq<Todo>)
    ensures |r| == |rows|
    ensures forall i :: 0 <= i < |rows| ==> r[i] == if rows[i].id == t.id then t else rows[i]
  {
    if rows == [] then []
    else [if rows[0].id == t.id then t else rows[0]] + Replace(rows[1..], t)
  }

  /** The table after `session.delete` of the row with that id and a commit. */
  function Remove(rows: seq<Todo>, id: Uuid): (r: seq<Todo>)
    ensures |r| <= |rows|
    ensures forall t :: t in r <==> t in rows && t.id != id
  {
    if rows == [] then []
    else (if rows[0].id == id then [] else [rows[0]]) + Remove(rows[1..], id)
  }

  /** Every row carrying `id` is owned by `owner`. */
  predicate IdOwnedBy(rows: seq<Todo>, id: Uuid, owner: Uuid) {
    forall t :: t in rows && t.id == id ==> t.owner == owner
  }

  lemma {:induction false} OwnedByAppend(rows: seq<Todo>, t: Todo, owner: Uuid)
    ensures OwnedBy(rows + [t], owner) == OwnedBy(rows, owner) + (if t.owner == owner then [t] else [])
  {
    if rows == [] {
      assert rows + [t] == [t];
    } else {
      assert (rows + [t])[1..] == rows[1..] + [t];
      OwnedByAppend(rows[1..], t, owner);
    }
  }

  /** Rewriting one user's row leaves every other user's rows exactly as they were. */
  lemma {:induction false} OwnedByReplaceOther(rows: seq<Todo>, t: Todo, other: Uuid)
    requires IdOwnedBy(rows, t.id, t.owner) && other != t.owner
    ensures OwnedBy(Replace(rows, t), other) == OwnedBy(rows, other)
  {
    if rows != [] {
      OwnedByReplaceOther(rows[1..], t, other);
    }
  }

  /** For the owner, rewriting a row is the same rewrite of the owner's own rows. */
  lemma {:induction false} OwnedByReplaceSame(rows: seq<Todo>, t: Todo)
    requires IdOwnedBy(rows, t.id, t.owner)
    ensures OwnedBy(Replace(rows, t), t.owner) == Replace(OwnedBy(rows, t.owner), t)
  {
    if rows != [] {
      OwnedByReplaceSame(rows[1..], t);
    }
  }

  /** Deleting one user's row leaves every other user's rows exactly as they were. */
  lemma {:induction false} OwnedByRemoveOther(rows: seq<Todo>, id: Uuid, owner: Uuid, other: Uuid)
    requires IdOwnedBy(rows, id, owner) && other != owner
    ensures OwnedBy(Remove(rows, id), other) == OwnedBy(rows, other)
  {
    if rows != [] {
      var rest := Remove(rows[1..], id);
      OwnedByRemoveOther(rows[1..], id, owner, other);
      assert OwnedBy(rows, other) ==
        (if rows[0].owner == other then [rows[0]] else []) + OwnedBy(rows[1..], other);
      if rows[0].id != id {
        var r := [rows[0]] + rest;
        assert Remove(rows, id) == r;
        assert r[0] == rows[0] && r[1..] == rest;
        assert OwnedBy(r, other) == (if rows[0].owner == other then [rows[0]] else []) + OwnedBy(rest, other);
      } else {
        assert Remove(rows, id) == rest;
        assert rows[0].owner != other;
      }
    }
  }

  /** Under the primary key, the row `Lookup` finds is the one at its index. */
  lemma {:induction false} LookupAt(rows: seq<Todo>, i: nat)
    requires IdsUnique(rows) && i < |rows|
    ensures Lookup(rows, rows[i].id, rows[i].owner) == Some(rows[i])
  {
    if i > 0 {
      LookupAt(rows[1..], i - 1);
    }
  }

  /** Under the primary key, deleting by id removes exactly the one row, keeping the order. */
  lemma {:induction false} RemoveExactlyOne(rows: seq<Todo>, i: nat)
    requires IdsUnique(rows) && i < |rows|
    ensures Remove(rows, rows[i].id) == rows[..i] + rows[i + 1..]
  {
    IdsUniqueTail(rows);
    if i == 0 {
      RemoveAbsent(rows[1..], rows[0].id);
      assert Remove(rows, rows[0].id) == [] + Remove(rows[1..], rows[0].id);
    } else {
      RemoveExactlyOne(rows[1..], i - 1);
      RemoveKeepsHead(rows, i);
    }
  }

  /** When the head survives a removal, the removal from the tail decides the rest. */
  lemma RemoveKeepsHead(rows: seq<Todo>, i: nat)
    requires 0 < i < |rows| && rows[0].id != rows[i].id
    requires Remove(rows[1..], rows[i].id) == rows[1..][..i - 1] + rows[1..][i..]
    ensures Remove(rows, rows[i].id) == rows[..i] + rows[i + 1..]
  {
    assert Remove(rows, rows[i].id) == [rows[0]] + Remove(rows[1..], rows[i].id);
    DropAfterHead(rows, i);
  }

  /** Dropping index `i > 0` is keeping the head and dropping index `i - 1` of the tail. */
  lemma DropAfterHead(rows: seq<Todo>, i: nat)
    requires 0 < i < |rows|
    ensures rows[..i] + rows[i + 1..] == [rows[0]] + (rows[1..][..i - 1] + rows[1..][i..])
  {
    var tail := rows[1..];
    assert rows[..i] == [rows[0]] + tail[..i - 1];
    assert rows[i + 1..] == tail[i..];
  }

  /** The rows after the first still have unique ids, none equal to the first's. */
  lemma IdsUniqueTail(rows: seq<Todo>)
    requires IdsUnique(rows) && rows != []
    ensures IdsUnique(rows[1..])
    ensures forall j :: 0 <= j < |rows| - 1 ==> rows[1..][j].id != rows[0].id
  {
    var tail := rows[1..];
    forall a, b | 0 <= a < b < |tail| ensures tail[a].id != tail[b].id {
      assert tail[a] == rows[a + 1] && tail[b] == rows[b + 1];
    }
  }

  /** Deleting an id that no row carries changes nothing. */
  lemma {:induction false} RemoveAbsent(rows: seq<Todo>, id: Uuid)
    requires forall j :: 0 <= j < |rows| ==> rows[j].id != id
    ensures Remove(rows, id) == rows
  {
    if rows != [] {
      RemoveAbsent(rows[1..], id);
      assert Remove(rows, id) == [rows[0]] + rows[1..];
    }
  }

  /** Rewriting by an existing row's id, keeping that id, keeps the key unique. */
  lemma ReplaceKeepsIds(rows: seq<Todo>, t: Todo)
    ensures forall i :: 0 <= i < |rows| ==> Replace(rows, t)[i].id == rows[i].id || rows[i].id == t.id
  {
  }

  /** Writing back the row a table already holds under that id changes nothing. */
  lemma ReplaceWithOwnRow(rows: seq<Todo>, t: Todo)
    requires forall i :: 0 <= i < |rows| && rows[i].id == t.id ==> rows[i] == t
    ensures Replace(rows, t) == rows
  {
  }

  /** A second rewrite of the same id overrides the first. */
  lemma ReplaceTwice(rows: seq<Todo>, a: Todo, b: Todo)
    requires a.id == b.id
    ensures Replace(Replace(rows, a), b) == Replace(rows, b)
  {
  }

  // ------------------------------------------------------------------------------
  // The table

  /** The todo table behind the session. */
  class TodoTable {
    var rows: seq<Todo>
    /** The next identifier `uuid.uuid4()` hands out: never one already in use. */
    var nextId: Uuid
    /** The latest instant the table has seen; the clock never runs backwards. */
    var clock: Time

    ghost predicate Valid()
      reads this
    {
      IdsUnique(rows) &&
      forall i :: 0 <= i < |rows| ==>
        rows[i].id < nextId && rows[i].createdAt <= rows[i].updatedAt <= clock
    }

    constructor ()
      ensures Valid() && rows == []
    {
      rows := [];
      nextId := 0;
      clock := 0;
    }

    /** Reading the clock: `now` is not earlier than anything the table has seen. */
    method Tick(now: Time)
      requires Valid() && clock <= now
      modifies this
      ensures Valid() && clock == now && rows == old(rows) && nextId == old(nextId)
    {
      clock := now;
    }

    /**
     * Adding a row built from the request body and the owner, then committing: a new row
     * with a fresh id, the caller as owner, the payload's fields and both timestamps
     * `now` is appended.
     */
    method Add(owner: Uuid, c: TodoCreate, now: Time) returns (t: Todo)
      requires Valid() && clock <= now
      modifies this
      ensures Valid() && clock == now && nextId == old(nextId) + 1
      ensures t == Todo(old(nextId), owner, c.title, c.description, c.completed, now, now)
      ensures rows == old(rows) + [t]
    {
      t := Todo(nextId, owner, c.title, c.description, c.completed, now, now);
      rows := rows + [t];
      nextId := nextId + 1;
      clock := now;
    }

    /** Adding and committing an edited row that keeps id, owner and `created_at`. */
    method Save(t: Todo)
      requires Valid()
      requires exists i :: 0 <= i < |rows| && rows[i].id == t.id && rows[i].owner == t.owner &&
                           rows[i].createdAt == t.createdAt
      requires t.createdAt <= t.updatedAt <= clock
      modifies this
      ensures Valid() && rows == Replace(old(rows), t)
      ensures nextId == old(nextId) && clock == old(clock)
    {
      rows := Replace(rows, t);
    }

    /** Deleting row `i` and committing: exactly that row goes, the rest keep their order. */
    method Delete(i: nat)
      requires Valid() && i < |rows|
      modifies this
      ensures Valid() && rows == Remove(old(rows), old(rows[i].id))
      ensures rows == old(rows[..i] + rows[i + 1..])
      ensures nextId == old(nextId) && clock == old(clock)
    {
      RemoveExactlyOne(rows, i);
      rows := rows[..i] + rows[i + 1..];
    }
  }

  /** Under the primary key, the owner of the row found by `(id, owner)` owns every row with that id. */
  lemma LookupOwnsId(rows: seq<Todo>, id: Uuid, owner: Uuid)
    requires IdsUnique(rows) && Lookup(rows, id, owner).Some?
    ensures IdOwnedBy(rows, id, owner)
  {
    LookupIsOnlyRowWithId(rows, id, owner);
    forall x | x in rows && x.id == id ensures x.owner == owner {
      var i :| 0 <= i < |rows| && rows[i] == x;
    }
  }

  /** Under the primary key, the row found by `(id, owner)` is the only row with that id. */
  lemma LookupIsOnlyRowWithId(rows: seq<Todo>, id: Uuid, owner: Uuid)
    requires IdsUnique(rows) && Lookup(rows, id, owner).Some?
    ensures forall i :: 0 <= i < |rows| && rows[i].id == id ==> rows[i] == Lookup(rows, id, owner).value
  {
    var t := Lookup(rows, id, owner).value;
    var j :| 0 <= j < |rows| && rows[j] == t;
    forall i | 0 <= i < |rows| && rows[i].id == id ensures rows[i] == t {
      assert i == j;
    }
  }
}
