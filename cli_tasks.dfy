/**
 * The in-memory task list of the command-line prototype (src/services.py): the
 * module-level `tasks` list and `next_id` counter become the fields of a `TaskList`,
 * and each task dictionary (`TaskDict` of src/models.py) a `Task` value.
 */
module CliTasks {
  import opened Wrappers
  import opened Text

  datatype Task = Task(id: int, title: string, completed: bool)

  const EmptyTitleMessage: string := "Task title cannot be empty."
  const NonNumericIdMessage: string := "Task ID must be a numeric value."

  /** `validate_title`: true exactly when the title has a character that is not whitespace. */
  function ValidateTitle(title: string): (ok: bool)
    ensures ok <==> exists i :: 0 <= i < |title| && !IsSpace(title[i])
  {
    var t := Strip(title);
    if t != [] then
      assert title[StripStart(title)] == t[0];
      true
    else false
  }

  /** `validate_id`: the integer a numeric string spells, or the `ValueError` text. */
  function ValidateId(text: string): (r: Result<int, string>)
    ensures r.Ok? <==> ParseInt(text).Some?
    ensures r.Ok? ==> Some(r.value) == ParseInt(text)
    ensures r.Err? ==> r.error == NonNumericIdMessage
  {
    match ParseInt(text)
    case Some(n) => Ok(n)
    case None => Err(NonNumericIdMessage)
  }

  /** Any integer's own text is accepted as an id and denotes it. */
  lemma ValidateIdOfText(n: int)
    ensures ValidateId(IntToText(n)) == Ok(n)
  {
    IntRoundTrip(n);
  }

  /** Ids strictly increase along the list. */
  predicate Increasing(s: seq<Task>) {
    forall i, j :: 0 <= i < j < |s| ==> s[i].id < s[j].id
  }

  /** Where the first task with `id` is, or -1. */
  function IndexOf(s: seq<Task>, id: int): (k: int)
    ensures -1 <= k < |s|
    ensures k == -1 <==> forall i :: 0 <= i < |s| ==> s[i].id != id
    ensures k >= 0 ==> s[k].id == id && forall i :: 0 <= i < k ==> s[i].id != id
  {
    if s == [] then -1
    else if s[0].id == id then 0
    else
      var k := IndexOf(s[1..], id);
      if k == -1 then -1 else k + 1
  }

  /** The list after the first task with `id` is marked complete. */
  function MarkDone(s: seq<Task>, id: int): (r: seq<Task>)
    ensures IndexOf(s, id) == -1 ==> r == s
    ensures IndexOf(s, id) >= 0 ==> r == s[IndexOf(s, id) := s[IndexOf(s, id)].(completed := true)]
  {
    if s == [] then []
    else if s[0].id == id then [s[0].(completed := true)] + s[1..]
    else [s[0]] + MarkDone(s[1..], id)
  }

  /** The list after the first task with `id` is removed. */
  function RemoveFirst(s: seq<Task>, id: int): (r: seq<Task>)
    ensures IndexOf(s, id) == -1 ==> r == s
    ensures IndexOf(s, id) >= 0 ==> r == s[..IndexOf(s, id)] + s[IndexOf(s, id) + 1..]
  {
    if s == [] then []
    else if s[0].id == id then s[1..]
    else
      assert IndexOf(s, id) >= 1 ==> s[1..][..IndexOf(s, id) - 1] == s[1..IndexOf(s, id)];
      [s[0]] + RemoveFirst(s[1..], id)
  }

  /** Completing the same id twice is completing it once. */
  lemma MarkDoneIdempotent(s: seq<Task>, id: int)
    ensures MarkDone(MarkDone(s, id), id) == MarkDone(s, id)
  {
    var k := IndexOf(s, id);
    if k >= 0 {
      var r := MarkDone(s, id);
      assert r[k].id == id && r[k].completed;
      assert forall i :: 0 <= i < k ==> r[i] == s[i];
      assert IndexOf(r, id) == k;
      assert r[k].(completed := true) == r[k];
    }
  }

  /** Completing keeps every id, so it keeps the ids increasing. */
  lemma MarkDoneKeepsIds(s: seq<Task>, id: int)
    ensures |MarkDone(s, id)| == |s|
    ensures forall i :: 0 <= i < |s| ==> MarkDone(s, id)[i].id == s[i].id
  {
  }

  /**
   * Removing from an increasing list keeps it increasing and, since its ids are then
   * unique, leaves no task with that id and every task with another.
   */
  lemma RemoveFirstRemovesId(s: seq<Task>, id: int)
    requires Increasing(s)
    ensures Increasing(RemoveFirst(s, id))
    ensures forall t :: t in RemoveFirst(s, id) ==> t.id != id
    ensures forall t :: t in s && t.id != id ==> t in RemoveFirst(s, id)
  {
    var k := IndexOf(s, id);
    var r := RemoveFirst(s, id);
    if k >= 0 {
      assert r == s[..k] + s[k + 1..];
      DropAt(s, k);
    } else {
      assert r == s;
      forall t | t in s ensures t.id != id {
        var i :| 0 <= i < |s| && s[i] == t;
      }
    }
  }

  /** Dropping position `k` of an increasing list: what remains and what is gone. */
  lemma DropAt(s: seq<Task>, k: nat)
    requires Increasing(s) && k < |s|
    ensures var r := s[..k] + s[k + 1..];
            && Increasing(r)
            && (forall t :: t in r ==> t.id != s[k].id)
            && (forall t :: t in s && t.id != s[k].id ==> t in r)
  {
    var r := s[..k] + s[k + 1..];
    assert |r| == |s| - 1;
    assert forall i :: 0 <= i < k ==> r[i] == s[i];
    assert forall i :: k <= i < |r| ==> r[i] == s[i + 1];
    forall t | t in r ensures t.id != s[k].id {
      var i :| 0 <= i < |r| && r[i] == t;
      if i >= k {
        assert s[i + 1] == t;
      }
    }
    forall t | t in s && t.id != s[k].id ensures t in r {
      var i :| 0 <= i < |s| && s[i] == t;
      if i < k {
        assert r[i] == t;
      } else {
        assert r[i - 1] == t;
      }
    }
  }

  /** The module-level in-memory storage: `tasks` and `next_id`. */
  class TaskList {
    var tasks: seq<Task>
    var nextId: int

    /** Ids strictly increase along the list and all lie below `next_id`, which starts at 1. */
    ghost predicate Valid()
      reads this
    {
      nextId >= 1 && Increasing(tasks) && forall i :: 0 <= i < |tasks| ==> tasks[i].id < nextId
    }

    constructor ()
      ensures Valid() && tasks == [] && nextId == 1
    {
      tasks := [];
      nextId := 1;
    }

    /**
     * `add_task`: a blank title is refused and nothing changes; otherwise a task with id
     * `next_id`, the stripped title and not completed is appended, and `next_id` grows by 1.
     */
    method AddTask(title: string) returns (r: Result<Task, string>)
      requires Valid()
      modifies this
      ensures Valid()
      ensures r.Err? <==> !ValidateTitle(title)
      ensures r.Err? ==> r.error == EmptyTitleMessage && tasks == old(tasks) && nextId == old(nextId)
      ensures r.Ok? ==>
                && r.value == Task(old(nextId), Strip(title), false)
                && tasks == old(tasks) + [r.value]
                && nextId == old(nextId) + 1
    {
      if !ValidateTitle(title) {
        return Err(EmptyTitleMessage);
      }
      var task := Task(nextId, Strip(title), false);
      tasks := tasks + [task];
      nextId := nextId + 1;
      return Ok(task);
    }

    /** `get_tasks`: the list, in insertion order. */
    method GetTasks() returns (r: seq<Task>)
      requires Valid()
      ensures r == tasks && Increasing(r)
    {
      r := tasks;
    }

    /**
     * `complete_task`: scans for the first task with `id`; when there is one it is marked
     * complete and the answer is true, otherwise nothing changes and the answer is false.
     */
    method CompleteTask(id: int) returns (found: bool)
      requires Valid()
      modifies this
      ensures Valid() && nextId == old(nextId)
      ensures found <==> exists i :: 0 <= i < |old(tasks)| && old(tasks)[i].id == id
      ensures tasks == MarkDone(old(tasks), id)
    {
      var i := 0;
      while i < |tasks|
        invariant 0 <= i <= |tasks|
        invariant forall j :: 0 <= j < i ==> tasks[j].id != id
        invariant tasks == old(tasks) && nextId == old(nextId)
      {
        if tasks[i].id == id {
          assert IndexOf(tasks, id) == i;
          tasks := tasks[i := tasks[i].(completed := true)];
          return true;
        }
        i := i + 1;
      }
      return false;
    }

    /**
     * `delete_task`: scans for the first task with `id`; when there is one it is popped,
     * the others keeping their order, and the answer is true; otherwise nothing changes.
     * `next_id` is never decreased.
     */
    method DeleteTask(id: int) returns (found: bool)
      requires Valid()
      modifies this
      ensures Valid() && nextId == old(nextId)
      ensures found <==> exists i :: 0 <= i < |old(tasks)| && old(tasks)[i].id == id
      ensures tasks == RemoveFirst(old(tasks), id)
      ensures forall t :: t in tasks ==> t.id != id
    {
      var i := 0;
      while i < |tasks|
        invariant 0 <= i <= |tasks|
        invariant forall j :: 0 <= j < i ==> tasks[j].id != id
        invariant tasks == old(tasks) && nextId == old(nextId)
      {
        if tasks[i].id == id {
          var s := tasks;
          assert IndexOf(s, id) == i;
          DropAt(s, i);
          tasks := s[..i] + s[i + 1..];
          assert forall j :: 0 <= j < |tasks| ==> tasks[j] == if j < i then s[j] else s[j + 1];
          return true;
        }
        i := i + 1;
      }
      forall t | t in tasks ensures t.id != id {
        var j :| 0 <= j < |tasks| && tasks[j] == t;
      }
      return false;
    }
  }

  /** Completing a task a second time finds it again and changes nothing more. */
  method CompleteTwice(list: TaskList, id: int) returns (first: bool, second: bool)
    requires list.Valid()
    modifies list
    ensures list.Valid()
    ensures first == second
    ensures list.tasks == MarkDone(old(list.tasks), id)
  {
    first := list.CompleteTask(id);
    ghost var once := list.tasks;
    MarkDoneKeepsIds(old(list.tasks), id);
    second := list.CompleteTask(id);
    MarkDoneIdempotent(old(list.tasks), id);
    assert once == MarkDone(old(list.tasks), id);
    if first {
      ghost var i :| 0 <= i < |old(list.tasks)| && old(list.tasks)[i].id == id;
      assert once[i].id == id;
    } else {
      assert once == old(list.tasks);
    }
  }
}
