/**
 The unpersisted todo view (src/components/TodoList.jsx). It shares
 the toggle and delete logic of the persisted view but stores the input as
 typed (trimming only to decide blankness), keeps no creation stamp, has no
 filter, and accepts any text, blank included, when an edit is committed.
 */
module TodoList {
  import opened Whitespace
  import opened Todos
  import TodoApp

  /** The three `useState` slots of the component. */
  datatype ListState = ListState(todos: seq<Todo>, newTodo: string, editingId: Option<Id>)

  const Initial := ListState([], "", None)

  /** `addTodo`: blank input is ignored; otherwise one record holding the
      input exactly as typed, not completed, is appended after the unchanged
      earlier records, and the input box is emptied. */
  function AddTodo(s: ListState, id: Id): (r: ListState)
    ensures IsBlank(s.newTodo) ==> r == s
    ensures !IsBlank(s.newTodo) ==>
      && |r.todos| == |s.todos| + 1
      && r.todos[..|s.todos|] == s.todos
      && r.todos[|s.todos|].id == id
      && r.todos[|s.todos|].text == s.newTodo
      && !AllWhitespace(r.todos[|s.todos|].text)
      && !r.todos[|s.todos|].completed
      && r.todos[|s.todos|].createdAt == None
      && r == s.(todos := r.todos, newTodo := "")
  {
    if IsBlank(s.newTodo) then s
    else s.(todos := s.todos + [Todo(id, s.newTodo, false, None)], newTodo := "")
  }

  /** `toggleTodo`: flips `completed` on every record carrying `id`; nothing
      else changes. */
  function ToggleTodo(s: ListState, id: Id): (r: ListState)
    ensures Toggled(s.todos, r.todos, id)
    ensures r == s.(todos := r.todos)
  {
    s.(todos := ToggleWhere(s.todos, id))
  }

  /** `deleteTodo`: keeps exactly the records whose id differs, in order;
      nothing else changes. */
  function DeleteTodo(s: ListState, id: Id): (r: ListState)
    ensures Removed(s.todos, r.todos, id)
    ensures r == s.(todos := r.todos)
  {
    s.(todos := RemoveWhere(s.todos, id))
  }

  /** `startEditing(id)`: marks `id` as being edited; the list is untouched.
      The id need not belong to any record. */
  function StartEditing(s: ListState, id: Id): (r: ListState)
    ensures r.editingId == Some(id)
    ensures r.todos == s.todos && r.newTodo == s.newTodo
  {
    s.(editingId := Some(id))
  }

  /** `updateTodo(id, newText)`: every record carrying `id` gets `newText`
      verbatim, with no trimming and no blank check, and the edit always
      closes. */
  function UpdateTodo(s: ListState, id: Id, newText: string): (r: ListState)
    ensures Retexted(s.todos, r.todos, id, newText)
    ensures r.editingId == None && r.newTodo == s.newTodo
  {
    s.(todos := RetextWhere(s.todos, id, newText), editingId := None)
  }

  /** Toggling twice restores the state. */
  lemma ToggleTodoTwice(s: ListState, id: Id)
    ensures ToggleTodo(ToggleTodo(s, id), id) == s
  {
    ToggleTwice(s.todos, id);
  }

  /** Deleting an id no record carries changes nothing; with unique ids,
      deleting one that is present removes exactly one record. */
  lemma DeleteTodoCount(s: ListState, id: Id)
    requires UniqueIds(s.todos)
    ensures !Present(s.todos, id) ==> DeleteTodo(s, id) == s
    ensures Present(s.todos, id) ==> |DeleteTodo(s, id).todos| == |s.todos| - 1
  {
    if Present(s.todos, id) {
      RemoveOne(s.todos, id);
    } else {
      RemoveAbsent(s.todos, id);
    }
  }

  /** The two views accept and refuse the same inputs, and append records
      that differ only in the text (the persisted view's is the trim of this
      view's) and in the creation stamp. */
  lemma AddAgreesWithSubmit(todos: seq<Todo>, input: string, id: Id, now: Timestamp)
    ensures var a := TodoApp.HandleSubmit(TodoApp.AppState(todos, input, None, "", "all"), id, now);
            var l := AddTodo(ListState(todos, input, None), id);
            && |a.todos| == |l.todos|
            && (IsBlank(input) ==> a.todos == l.todos == todos)
            && (!IsBlank(input) ==>
                && a.todos[..|todos|] == l.todos[..|todos|] == todos
                && a.todos[|todos|] == l.todos[|todos|].(text := Trim(l.todos[|todos|].text), createdAt := Some(now)))
  {
  }

  /** Unlike the persisted view's save, an update can leave a record with blank
      text: here "  " is stored as given. */
  lemma UpdateTodoStoresBlank()
    ensures var s := UpdateTodo(ListState([Todo(1, "milk", false, None)], "", Some(1)), 1, "  ");
            && s.todos == [Todo(1, "  ", false, None)]
            && IsBlank(s.todos[0].text)
            && s.editingId == None
  {
    assert TrimStart("  ") == [] by {
      assert "  "[1..] == " ";
      assert " "[1..] == "";
    }
  }

  /** The unpersisted view stores surrounding whitespace that the persisted view
      would trim away. */
  lemma AddTodoKeepsSpaces()
    ensures AddTodo(ListState([], " milk ", None), 7).todos == [Todo(7, " milk ", false, None)]
  {
    BlankIffAllWhitespace(" milk ");
    assert !IsWhitespace(" milk "[1]);
  }

  /** What the user can do to the component. */
  datatype Event =
    | Add(id: Id)
    | Toggle(id: Id)
    | Delete(id: Id)
    | Edit(id: Id)
    | Update(id: Id, text: string)
    | TypeNewTodo(text: string)

  /** One event. Only typing and adding touch the input box, opening an
      edit and typing leave the list alone, and only an add can lengthen the
      list, by one record at most. */
  function Apply(s: ListState, e: Event): (r: ListState)
    ensures e.Add? || e.TypeNewTodo? || r.newTodo == s.newTodo
    ensures e.Add? || e.Toggle? || e.Delete? || e.Update? || r.todos == s.todos
    ensures |r.todos| <= |s.todos| + 1
    ensures e.Add? || |r.todos| <= |s.todos|
  {
    match e
    case Add(id) => AddTodo(s, id)
    case Toggle(id) => ToggleTodo(s, id)
    case Delete(id) => DeleteTodo(s, id)
    case Edit(id) => StartEditing(s, id)
    case Update(id, text) => UpdateTodo(s, id, text)
    case TypeNewTodo(text) => s.(newTodo := text)
  }

  function Run(s: ListState, es: seq<Event>): ListState
    decreases |es|
  {
    if |es| == 0 then s else Run(Apply(s, es[0]), es[1..])
  }

  /** Every add got an id no record had. */
  predicate FreshIds(s: ListState, es: seq<Event>)
    decreases |es|
  {
    |es| == 0 ||
    (&& (es[0].Add? ==> !Present(s.todos, es[0].id))
     && FreshIds(Apply(s, es[0]), es[1..]))
  }

  lemma ApplyKeepsUniqueIds(s: ListState, e: Event)
    requires UniqueIds(s.todos)
    requires e.Add? ==> !Present(s.todos, e.id)
    ensures UniqueIds(Apply(s, e).todos)
  {
    match e
    case Add(id) =>
      var r := AddTodo(s, id).todos;
      if !IsBlank(s.newTodo) {
        forall i, j | 0 <= i < j < |r|
          ensures r[i].id != r[j].id
        {
          assert r[i] == s.todos[i];
          if j < |s.todos| {
            assert r[j] == s.todos[j];
          }
        }
      }
    case Delete(id) => RemoveKeepsUniqueIds(s.todos, id);
    case _ =>
  }

  /** With a fresh id for every add, ids stay unique through any run. This is
      the only invariant the unpersisted view keeps: texts may become blank. */
  lemma {:induction false} RunKeepsUniqueIds(s: ListState, es: seq<Event>)
    requires UniqueIds(s.todos) && FreshIds(s, es)
    ensures UniqueIds(Run(s, es).todos)
    decreases |es|
  {
    if |es| > 0 {
      ApplyKeepsUniqueIds(s, es[0]);
      RunKeepsUniqueIds(Apply(s, es[0]), es[1..]);
    }
  }
}
