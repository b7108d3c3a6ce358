/**
 The persisted todo view (src/components/TodoApp.js): its React state
 as one immutable record and each event handler as a pure transition. The
 id and the creation stamp that the handler reads from the clock are
 parameters. Persistence of `todos` to local storage is not modelled.
 */
module TodoApp {
  import opened Sequences
  import opened Whitespace
  import opened Todos

  /** The five `useState` slots of the component. `filter` holds whatever
      string the filter buttons set; only "active" and "completed" mean
      anything, every other value shows the whole list. */
  datatype AppState = AppState(
    todos: seq<Todo>,
    newTodo: string,
    editingId: Option<Id>,
    editText: string,
    filter: string)

  /** A first visit with nothing saved. */
  const Initial := AppState([], "", None, "", "all")

  /** Every record has a text that `trim` leaves alone and that is not blank,
      and no two records share an id. The handlers keep this; a list hydrated
      from storage carries no such guarantee. */
  predicate WellFormed(s: AppState)
  {
    && UniqueIds(s.todos)
    && forall t :: t in s.todos ==> IsTidy(t.text)
  }

  /** `handleSubmit`: blank input is ignored altogether; otherwise one record
      with the trimmed input, not completed, is appended after the unchanged
      earlier records, and the input box is emptied. */
  function HandleSubmit(s: AppState, id: Id, now: Timestamp): (r: AppState)
    ensures IsBlank(s.newTodo) ==> r == s
    ensures !IsBlank(s.newTodo) ==> |r.todos| == |s.todos| + 1
    ensures !IsBlank(s.newTodo) ==> r.todos[..|s.todos|] == s.todos
    ensures !IsBlank(s.newTodo) ==> r.todos[|s.todos|..] == [Todo(id, Trim(s.newTodo), false, Some(now))]
    ensures !IsBlank(s.newTodo) ==> IsTidy(r.todos[|s.todos|].text)
    ensures !IsBlank(s.newTodo) ==> r == s.(todos := r.todos, newTodo := "")
  {
    if IsBlank(s.newTodo) then s
    else
      TrimIdempotent(s.newTodo);
      s.(todos := s.todos + [Todo(id, Trim(s.newTodo), false, Some(now))], newTodo := "")
  }

  /** `toggleTodo`: flips `completed` on every record carrying `id`; nothing
      else in the state changes. */
  function ToggleTodo(s: AppState, id: Id): (r: AppState)
    ensures Toggled(s.todos, r.todos, id)
    ensures r == s.(todos := r.todos)
  {
    s.(todos := ToggleWhere(s.todos, id))
  }

  /** `deleteTodo`: keeps exactly the records whose id differs, in order;
      nothing else in the state changes (an edit of a deleted record stays
      open). */
  function DeleteTodo(s: AppState, id: Id): (r: AppState)
    ensures Removed(s.todos, r.todos, id)
    ensures r == s.(todos := r.todos)
  {
    s.(todos := RemoveWhere(s.todos, id))
  }

  /** `startEditing(todo)`: opens an edit of `t` seeded with its text,
      replacing any edit in progress; the list is untouched. */
  function StartEditing(s: AppState, t: Todo): (r: AppState)
    ensures r.editingId == Some(t.id) && r.editText == t.text
    ensures r.todos == s.todos && r.newTodo == s.newTodo && r.filter == s.filter
  {
    s.(editingId := Some(t.id), editText := t.text)
  }

  /** `saveEdit(id)`: a blank edit buffer makes it return early, so the state
      is unchanged and the edit stays open; otherwise every record carrying
      `id` gets the trimmed buffer and the edit closes. The buffer itself is
      not cleared. */
  function SaveEdit(s: AppState, id: Id): (r: AppState)
    ensures IsBlank(s.editText) ==> r == s
    ensures !IsBlank(s.editText) ==>
      && Retexted(s.todos, r.todos, id, Trim(s.editText))
      && IsTidy(Trim(s.editText))
      && r == s.(todos := r.todos, editingId := None)
  {
    if IsBlank(s.editText) then s
    else
      TrimIdempotent(s.editText);
      s.(todos := RetextWhere(s.todos, id, Trim(s.editText)), editingId := None)
  }

  /** `cancelEdit`: closes the edit and empties its buffer; the list is
      untouched. */
  function CancelEdit(s: AppState): (r: AppState)
    ensures r.editingId == None && r.editText == []
    ensures r.todos == s.todos && r.newTodo == s.newTodo && r.filter == s.filter
  {
    s.(editingId := None, editText := [])
  }

  /** `clearCompleted`: keeps exactly the records not completed, in order. */
  function ClearCompleted(s: AppState): (r: AppState)
    ensures Selects(r.todos, s.todos, Not(IsCompleted))
    ensures forall t :: t in r.todos ==> !t.completed
    ensures forall i :: 0 <= i < |s.todos| && !s.todos[i].completed ==> s.todos[i] in r.todos
    ensures |r.todos| == |s.todos| - Count(s.todos, IsCompleted)
    ensures r == s.(todos := r.todos)
  {
    CountComplement(s.todos, IsCompleted);
    s.(todos := Filter(s.todos, Not(IsCompleted)))
  }

  /** The predicate `filteredTodos` applies for a filter string. */
  function Shows(filter: string): Todo -> bool
  {
    if filter == "active" then Not(IsCompleted)
    else if filter == "completed" then IsCompleted
    else (t: Todo) => true
  }

  /** `filteredTodos`: the records the current filter admits, in list order:
      the not-completed ones under "active", the completed ones under
      "completed", and the whole list under any other string. */
  function FilteredTodos(s: AppState): (r: seq<Todo>)
    ensures Selects(r, s.todos, Shows(s.filter))
    ensures s.filter == "active" ==> forall t :: t in r ==> !t.completed
    ensures s.filter == "completed" ==> forall t :: t in r ==> t.completed
    ensures s.filter != "active" && s.filter != "completed" ==> r == s.todos
  {
    var r := Filter(s.todos, Shows(s.filter));
    if s.filter == "active" then
      assert forall t :: t in r ==> Not(IsCompleted)(t);
      r
    else if s.filter == "completed" then
      assert forall t :: t in r ==> IsCompleted(t);
      r
    else
      FilterKeepsAll(s.todos, Shows(s.filter));
      r
  }

  /** The footer figures of "X of Y completed". */
  datatype Progress = Progress(completed: nat, total: nat)

  /** The footer summary, taken over the whole list whatever the filter: the
      completed count never exceeds the total and equals the length of the
      "completed" view. */
  function Summary(s: AppState): (p: Progress)
    ensures p.total == |s.todos|
    ensures p.completed == Count(s.todos, IsCompleted) <= p.total
    ensures p.completed == |FilteredTodos(s.(filter := "completed"))|
  {
    Progress(|Filter(s.todos, IsCompleted)|, |s.todos|)
  }

  /** The "active" and "completed" views split the list between them. */
  lemma ViewsPartition(s: AppState)
    ensures |FilteredTodos(s.(filter := "active"))| + |FilteredTodos(s.(filter := "completed"))| == |s.todos|
  {
    CountComplement(s.todos, IsCompleted);
  }

  /** Clearing completed records a second time changes nothing. */
  lemma ClearCompletedIdempotent(s: AppState)
    ensures ClearCompleted(ClearCompleted(s)) == ClearCompleted(s)
  {
    FilterIdempotent(s.todos, Not(IsCompleted));
  }

  /** After clearing, the "active" view is the whole list and the summary
      reports nothing completed. */
  lemma ClearCompletedLeavesOnlyActive(s: AppState)
    ensures FilteredTodos(ClearCompleted(s).(filter := "active")) == ClearCompleted(s).todos
    ensures Summary(ClearCompleted(s)).completed == 0
  {
    var c := ClearCompleted(s);
    FilterKeepsAll(c.todos, Not(IsCompleted));
    CountComplement(c.todos, IsCompleted);
  }

  /** Toggling twice restores the state. */
  lemma ToggleTodoTwice(s: AppState, id: Id)
    ensures ToggleTodo(ToggleTodo(s, id), id) == s
  {
    ToggleTwice(s.todos, id);
  }

  /** Deleting an id no record carries changes nothing; with unique ids,
      deleting one that is present removes exactly one record. */
  lemma DeleteTodoCount(s: AppState, id: Id)
    requires UniqueIds(s.todos)
    ensures !Present(s.todos, id) ==> DeleteTodo(s, id) == s
    ensures Present(s.todos, id) ==> |DeleteTodo(s, id).todos| == |s.todos| - 1
  {
    if Present(s.todos, id) {
      RemoveOne(s.todos, id);
    } else {
      RemoveAbsent(s.todos, id);
    }
  }

  /** Opening an edit of a record and saving it untouched changes no record
      and closes the edit: the seeded text is already tidy. */
  lemma StartThenSaveKeepsTodos(s: AppState, i: nat)
    requires WellFormed(s) && i < |s.todos|
    ensures SaveEdit(StartEditing(s, s.todos[i]), s.todos[i].id).todos == s.todos
    ensures SaveEdit(StartEditing(s, s.todos[i]), s.todos[i].id).editingId == None
  {
    var t := s.todos[i];
    assert IsTidy(t.text);
    var e := StartEditing(s, t);
    assert !IsBlank(e.editText);
    var r := SaveEdit(e, t.id).todos;
    assert Retexted(s.todos, r, t.id, t.text);
    forall j | 0 <= j < |s.todos| && s.todos[j].id == t.id
      ensures s.todos[j].text == t.text
    {
      assert j == i;
    }
    RetextedSameText(s.todos, r, t.id, t.text);
  }

  /** Opening an edit and cancelling it leaves the list and the input as
      they were, with no edit open. */
  lemma StartThenCancel(s: AppState, t: Todo)
    ensures CancelEdit(StartEditing(s, t)) == s.(editingId := None, editText := [])
  {
  }

  /** What the user can do to the component: the handlers above, the two
      input boxes' `onChange` setters and the filter buttons' `onClick`. */
  datatype Event =
    | Submit(id: Id, now: Timestamp)
    | Toggle(id: Id)
    | Delete(id: Id)
    | Edit(todo: Todo)
    | Save(id: Id)
    | Cancel
    | ClearDone
    | ChooseFilter(filter: string)
    | TypeNewTodo(text: string)
    | TypeEditText(text: string)

  /** One event. Only the filter buttons change the filter, only typing and
      submitting touch the input box, opening or closing an edit and the
      setters leave the list alone, and only a submit can lengthen the list,
      by one record at most. */
  function Apply(s: AppState, e: Event): (r: AppState)
    ensures e.ChooseFilter? || r.filter == s.filter
    ensures e.Submit? || e.TypeNewTodo? || r.newTodo == s.newTodo
    ensures e.Submit? || e.Toggle? || e.Delete? || e.Save? || e.ClearDone? || r.todos == s.todos
    ensures |r.todos| <= |s.todos| + 1
    ensures e.Submit? || |r.todos| <= |s.todos|
  {
    match e
    case Submit(id, now) => HandleSubmit(s, id, now)
    case Toggle(id) => ToggleTodo(s, id)
    case Delete(id) => DeleteTodo(s, id)
    case Edit(t) => StartEditing(s, t)
    case Save(id) => SaveEdit(s, id)
    case Cancel => CancelEdit(s)
    case ClearDone => ClearCompleted(s)
    case ChooseFilter(f) => s.(filter := f)
    case TypeNewTodo(text) => s.(newTodo := text)
    case TypeEditText(text) => s.(editText := text)
  }

  /** The events applied one after another. */
  function Run(s: AppState, es: seq<Event>): AppState
    decreases |es|
  {
    if |es| == 0 then s else Run(Apply(s, es[0]), es[1..])
  }

  /** The clock gave a new id to every submit: uniqueness of ids rests on
      this, since two submits within one millisecond would share an id. */
  predicate FreshIds(s: AppState, es: seq<Event>)
    decreases |es|
  {
    |es| == 0 ||
    (&& (es[0].Submit? ==> !Present(s.todos, es[0].id))
     && FreshIds(Apply(s, es[0]), es[1..]))
  }

  lemma SubmitKeepsWellFormed(s: AppState, id: Id, now: Timestamp)
    requires WellFormed(s) && !Present(s.todos, id)
    ensures WellFormed(HandleSubmit(s, id, now))
  {
    var r := HandleSubmit(s, id, now);
    if !IsBlank(s.newTodo) {
      assert r.todos == s.todos + [r.todos[|s.todos|]];
      forall i, j | 0 <= i < j < |r.todos|
        ensures r.todos[i].id != r.todos[j].id
      {
        if j == |s.todos| {
          assert r.todos[i] == s.todos[i];
        } else {
          assert r.todos[i] == s.todos[i] && r.todos[j] == s.todos[j];
        }
      }
    }
  }

  lemma ToggleKeepsWellFormed(s: AppState, id: Id)
    requires WellFormed(s)
    ensures WellFormed(ToggleTodo(s, id))
  {
    var r := ToggleTodo(s, id);
    forall t | t in r.todos
      ensures IsTidy(t.text)
    {
      var i :| 0 <= i < |r.todos| && r.todos[i] == t;
      assert s.todos[i] in s.todos;
    }
  }

  lemma DeleteKeepsWellFormed(s: AppState, id: Id)
    requires WellFormed(s)
    ensures WellFormed(DeleteTodo(s, id))
  {
    var r := DeleteTodo(s, id);
    RemoveKeepsUniqueIds(s.todos, id);
    SubsequenceMembers(r.todos, s.todos);
  }

  lemma SaveKeepsWellFormed(s: AppState, id: Id)
    requires WellFormed(s)
    ensures WellFormed(SaveEdit(s, id))
  {
    if !IsBlank(s.editText) {
      var r := SaveEdit(s, id).todos;
      RetextedKeepsUniqueIds(s.todos, r, id, Trim(s.editText));
      RetextedKeepsTidy(s.todos, r, id, Trim(s.editText));
    }
  }

  lemma RetextedKeepsTidy(s: seq<Todo>, r: seq<Todo>, id: Id, text: string)
    requires Retexted(s, r, id, text) && IsTidy(text)
    requires forall t :: t in s ==> IsTidy(t.text)
    ensures forall t :: t in r ==> IsTidy(t.text)
  {
    forall t | t in r
      ensures IsTidy(t.text)
    {
      var i :| 0 <= i < |r| && r[i] == t;
      assert s[i] in s;
    }
  }

  lemma ClearKeepsWellFormed(s: AppState)
    requires WellFormed(s)
    ensures WellFormed(ClearCompleted(s))
  {
    var r := ClearCompleted(s);
    SubsequenceKeepsUniqueIds(r.todos, s.todos);
    SubsequenceMembers(r.todos, s.todos);
  }

  /** One handler keeps the state well formed, given a fresh id on submit. */
  lemma ApplyKeepsWellFormed(s: AppState, e: Event)
    requires WellFormed(s)
    requires e.Submit? ==> !Present(s.todos, e.id)
    ensures WellFormed(Apply(s, e))
  {
    match e
    case Submit(id, now) => SubmitKeepsWellFormed(s, id, now);
    case Toggle(id) => ToggleKeepsWellFormed(s, id);
    case Delete(id) => DeleteKeepsWellFormed(s, id);
    case Save(id) => SaveKeepsWellFormed(s, id);
    case ClearDone => ClearKeepsWellFormed(s);
    case _ =>
  }

  /** Every run of handlers from a well-formed state, with a fresh id for
      each submit, ends in a well-formed state: texts stay tidy and
      non-blank, ids stay unique. */
  lemma {:induction false} RunKeepsWellFormed(s: AppState, es: seq<Event>)
    requires WellFormed(s) && FreshIds(s, es)
    ensures WellFormed(Run(s, es))
    decreases |es|
  {
    if |es| > 0 {
      ApplyKeepsWellFormed(s, es[0]);
      RunKeepsWellFormed(Apply(s, es[0]), es[1..]);
    }
  }

  /** Every state reachable from a first visit, with fresh ids, is well formed. */
  lemma ReachableWellFormed(es: seq<Event>)
    requires FreshIds(Initial, es)
    ensures WellFormed(Run(Initial, es))
  {
    RunKeepsWellFormed(Initial, es);
  }
}
