/**
 * The list handlers of frontend/src/components/TodoList.tsx: each computes the next
 * `todos` state from the current one (spread, `map`, `filter`) and nothing is changed in
 * place. A todo is the `Todo` interface of the front end's API client.
 */
module TodoListView {
  import opened Wrappers

  datatype UiTodo = UiTodo(
    id: string,
    title: string,
    description: Option<string>,
    completed: bool,
    userId: string,
    createdAt: string,
    updatedAt: string)

  /** `handleAddTodo`: the new todo first, then the old list in its order. */
  function AddTodo(todos: seq<UiTodo>, added: UiTodo): (r: seq<UiTodo>)
    ensures |r| == |todos| + 1
    ensures r[0] == added && r[1..] == todos
  {
    [added] + todos
  }

  /** `handleUpdateTodo`: same length; exactly the todos with the updated id are replaced. */
  function UpdateTodo(todos: seq<UiTodo>, updated: UiTodo): (r: seq<UiTodo>)
    ensures |r| == |todos|
    ensures forall i :: 0 <= i < |todos| ==> r[i] == if todos[i].id == updated.id then updated else todos[i]
  {
    if todos == [] then []
    else [if todos[0].id == updated.id then updated else todos[0]] + UpdateTodo(todos[1..], updated)
  }

  /** `handleDeleteTodo`: the todos whose id differs, in their order. */
  function DeleteTodo(todos: seq<UiTodo>, id: string): (r: seq<UiTodo>)
    ensures |r| <= |todos|
    ensures forall t :: t in r <==> t in todos && t.id != id
  {
    if todos == [] then []
    else (if todos[0].id == id then [] else [todos[0]]) + DeleteTodo(todos[1..], id)
  }

  /** Updating with an id the list does not hold leaves it as it was. */
  lemma UpdateAbsentId(todos: seq<UiTodo>, updated: UiTodo)
    requires forall t :: t in todos ==> t.id != updated.id
    ensures UpdateTodo(todos, updated) == todos
  {
    assert forall i :: 0 <= i < |todos| ==> todos[i] in todos;
  }

  /** Applying the same update twice is applying it once. */
  lemma UpdateIdempotent(todos: seq<UiTodo>, updated: UiTodo)
    ensures UpdateTodo(UpdateTodo(todos, updated), updated) == UpdateTodo(todos, updated)
  {
  }

  /** Deleting the id removes every todo carrying it. */
  lemma DeleteLeavesNoSuchId(todos: seq<UiTodo>, id: string)
    ensures forall t :: t in DeleteTodo(todos, id) ==> t.id != id
  {
  }

  /** Deletion works piecewise, so the survivors keep their relative order. */
  lemma {:induction false} DeleteConcat(a: seq<UiTodo>, b: seq<UiTodo>, id: string)
    ensures DeleteTodo(a + b, id) == DeleteTodo(a, id) + DeleteTodo(b, id)
  {
    if a == [] {
      assert a + b == b;
    } else {
      assert (a + b)[0] == a[0] && (a + b)[1..] == a[1..] + b;
      DeleteConcat(a[1..], b, id);
    }
  }

  /** Deleting an id the list does not hold leaves it as it was. */
  lemma {:induction false} DeleteAbsentId(todos: seq<UiTodo>, id: string)
    requires forall t :: t in todos ==> t.id != id
    ensures DeleteTodo(todos, id) == todos
  {
    if todos != [] {
      assert todos[0] in todos;
      assert forall t :: t in todos[1..] ==> t in todos;
      DeleteAbsentId(todos[1..], id);
    }
  }

  /** Deleting twice is deleting once. */
  lemma DeleteIdempotent(todos: seq<UiTodo>, id: string)
    ensures DeleteTodo(DeleteTodo(todos, id), id) == DeleteTodo(todos, id)
  {
    DeleteAbsentId(DeleteTodo(todos, id), id);
  }

  /** A todo added and then deleted by its id leaves the list with that id deleted. */
  lemma AddThenDelete(todos: seq<UiTodo>, added: UiTodo)
    ensures DeleteTodo(AddTodo(todos, added), added.id) == DeleteTodo(todos, added.id)
  {
    assert AddTodo(todos, added)[1..] == todos;
  }

  /** Deleting after an update of the same id is the same as deleting straight away. */
  lemma {:induction false} UpdateThenDelete(todos: seq<UiTodo>, updated: UiTodo)
    ensures DeleteTodo(UpdateTodo(todos, updated), updated.id) == DeleteTodo(todos, updated.id)
  {
    if todos != [] {
      var u := UpdateTodo(todos, updated);
      assert u[1..] == UpdateTodo(todos[1..], updated);
      UpdateThenDelete(todos[1..], updated);
    }
  }
}
