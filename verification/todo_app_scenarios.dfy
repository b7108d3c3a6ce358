/**
 Worked runs of the persisted view: concrete inputs whose outcome the handlers
 fix completely.
 */
module TodoAppScenarios {
  import opened Sequences
  import opened Whitespace
  import opened Todos
  import opened TodoApp

  /** Submitting "Buy milk", then "  ", then "Walk dog" on a fresh page
      leaves two open records in that order; the blank one is ignored. The
      strings are parameters fixed by `requires` so that the verifier does not
      unfold `Trim` over the literals character by character. */
  lemma SubmitScenario(milk: string, spaces: string, dog: string)
    requires milk == "Buy milk" && spaces == "  " && dog == "Walk dog"
    ensures var s1 := HandleSubmit(Initial.(newTodo := milk), 1, "t1");
            var s2 := HandleSubmit(s1.(newTodo := spaces), 2, "t2");
            var s3 := HandleSubmit(s2.(newTodo := dog), 3, "t3");
            s3.todos == [Todo(1, milk, false, Some("t1")), Todo(3, dog, false, Some("t3"))]
  {
    TidyIffTrimFixed(milk);
    TidyIffTrimFixed(dog);
    BlankIffAllWhitespace(spaces);
  }

  /** Two records, the first toggled: the footer reads "1 of 2 completed" and
      the "completed" view shows only the first. */
  lemma ToggleScenario(a: Todo, b: Todo)
    requires a.id != b.id && !a.completed && !b.completed
    ensures var s := ToggleTodo(Initial.(todos := [a, b]), a.id);
            && Summary(s) == Progress(1, 2)
            && FilteredTodos(s.(filter := "completed")) == [a.(completed := true)]
  {
    var s := ToggleTodo(Initial.(todos := [a, b]), a.id);
    assert s.todos == [a.(completed := true), b];
    var v := FilteredTodos(s.(filter := "completed"));
    assert Count(s.todos[1..], IsCompleted) == 0;
    FilterUnique([a.(completed := true)], s.todos, IsCompleted);
  }

  /** Saving "  new  " stores "new". */
  lemma SaveScenario(t: Todo)
    ensures var s := SaveEdit(Initial.(todos := [t], editingId := Some(t.id), editText := "  new  "), t.id);
            && s.todos == [t.(text := "new")]
            && s.editingId == None
  {
    assert "  new  " == "  " + "new" + "  ";
    TrimPadded("  ", "new", "  ");
  }
}
