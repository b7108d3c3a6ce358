# Todo list state logic, in Dafny

This project models the task-list state logic of a small React todo
application. The application has two competing views of the same list:

- `TodoApp` (src/components/TodoApp.js) is the persisted view, routed at
  `/todo` by src/App.js. It keeps a list
  of todo records (`id`, `text`, `completed`, `createdAt`), an input buffer
  `newTodo`, an edit session (`editingId`, `editText`) and a `filter`
  string. Its handlers are submit, toggle, delete, start/save/cancel edit and
  clear completed. It also derives the filtered list and the footer summary
  "X of Y completed".
- `TodoList` (src/components/TodoList.jsx) is the unpersisted view, routed
  at `/todos` by src/App.jsx.
  It has the same toggle and delete logic. Its add does not trim the stored
  text, and its `updateTodo` stores any text, blank included.

Each React `useState` group becomes one immutable Dafny record
(`TodoApp.AppState`, `TodoList.ListState`). Each handler becomes a pure
function from state to state. The clock values a handler reads (`Date.now()`
for the id, `new Date().toISOString()` for the stamp) become parameters.

Modules, one per file:

- `Whitespace` (whitespace.dfy) models JavaScript `String.prototype.trim`.
  Whitespace is the fixed set of ECMAScript WhiteSpace and LineTerminator
  characters: TAB, LF, VT, FF, CR, ZWNBSP (U+FEFF), LS, PS and the Unicode
  Zs category (U+0020, U+00A0, U+1680, U+2000 to U+200A, U+202F, U+205F,
  U+3000). `trim` is proved to remove only whitespace from each end, and to
  be idempotent.
- `Sequences` (sequences.dfy) models `Array.prototype.filter` and gives a
  declarative reference for it, `Selects`: an order-preserving subsequence,
  every element satisfies the predicate, and it is as long as the number of
  elements that satisfy it. `FilterUnique` proves that `Selects` determines
  the filter.
- `Todos` (todos.dfy) holds the record type and the id-matched `map`/`filter`
  updates that both views share. They act on every record with a matching
  id, not on the first one.
- `TodoApp` (todo_app.dfy) holds the persisted view's state and handlers. It
  defines an event type for the handlers, the two input boxes' `onChange`
  setters and the filter buttons' `onClick`. It also defines a
  well-formedness invariant: ids are unique and texts are non-empty with no
  whitespace at either end. A run of events keeps it when it starts from a
  well-formed state and every submit carries an id no record has
  (`FreshIds`).
- `TodoAppScenarios` (todo_app_scenarios.dfy) holds worked concrete runs.
- `TodoList` (todo_list.dfy) holds the unpersisted view's state and handlers. It
  has its own event run that keeps unique ids. It shows by witness that text
  can become blank, and relates its add to the persisted view's submit.

The model follows the code in these places, where a reader might expect
otherwise:

- A blank `saveEdit` returns early: the edit stays open and nothing changes.
  It does not end the edit session.
- A successful save does not clear `editText`.
- Toggle, delete and edit act on every record carrying the id. Ids come from
  `Date.now()`, so they are not guaranteed unique. Uniqueness is a
  precondition (`FreshIds`) wherever a property needs it.
- The filter is an arbitrary string. Any value other than "active" or
  "completed" shows the whole list.
- Deleting the record being edited leaves `editingId` pointing at it.

## Model

| member | source | states |
|---|---|---|
| `Whitespace.Trim` | src/components/TodoApp.js:22 | the trimmed string is no longer than the input, has non-whitespace at both ends, and is empty exactly when the input is all whitespace |
| `Whitespace.TrimPadded` | src/components/TodoApp.js:26 | text with non-whitespace ends, padded with whitespace on both sides, trims back to itself |
| `Whitespace.TrimIsMiddle` | src/components/TodoApp.js:26 | the trimmed text is a contiguous slice of the input with only whitespace cut from before and after it |
| `Whitespace.TrimIdempotent` | src/components/TodoApp.js:26 | trimming twice is trimming once; the trim of non-blank input is tidy |
| `Whitespace.TidyIffTrimFixed` | src/components/TodoApp.js:51 | text with non-whitespace ends is exactly the non-empty text `trim` leaves unchanged |
| `Whitespace.BlankIffAllWhitespace` | src/components/TodoApp.js:22 | the blankness test `!s.trim()` holds exactly for strings made only of whitespace |
| `Sequences.Filter` | src/components/TodoApp.js:40 | `filter` returns an order-preserving subsequence whose elements all satisfy the predicate, as long as the count of satisfying elements, dropping none of them |
| `Sequences.FilterUnique` | src/components/TodoApp.js:62 | any subsequence with all elements satisfying the predicate and of that count is the filter's result |
| `Sequences.FilterKeepsAll` | src/components/TodoApp.js:68 | filtering by a predicate every element meets returns the list unchanged |
| `Sequences.FilterIdempotent` | src/components/TodoApp.js:62 | filtering twice by one predicate equals filtering once |
| `Sequences.CountComplement` | src/components/TodoApp.js:65-67 | the counts of elements meeting a predicate and its complement sum to the length |
| `Sequences.SubsequenceCountBound` | src/components/TodoApp.js:40 | a subsequence of satisfying elements is no longer than the satisfying count |
| `Sequences.SubsequenceMembers` | src/components/TodoApp.js:40 | a subsequence holds only elements of the whole |
| `Todos.MapMatching` | src/components/TodoApp.js:34-35 | the id-matched `map` keeps length, applies the update at every matching index and keeps every other record |
| `Todos.ToggleWhere` | src/components/TodoApp.js:33-37 | toggle keeps length, order, ids, texts and stamps, flipping `completed` exactly where the id matches |
| `Todos.RetextWhere` | src/components/TodoApp.js:50-52 | edit keeps length, order, ids, completion and stamps, setting the new text exactly where the id matches |
| `Todos.RemoveWhere` | src/components/TodoApp.js:39-41 | delete yields exactly the records whose id differs, in order, shorter by the number of matching records |
| `Todos.RemovedIsRemoveWhere` | src/components/TodoApp.js:40 | the description of delete admits one list only, the delete's result |
| `Todos.RetextedSameText` | src/components/TodoApp.js:50-52 | rewriting matching records with the text they already hold changes nothing |
| `Todos.RetextedKeepsUniqueIds` | src/components/TodoApp.js:50-52 | editing texts keeps ids unique |
| `Todos.ToggleTwice` | src/components/TodoApp.js:34-35 | toggling the same id twice restores the list |
| `Todos.ToggleAbsent` | src/components/TodoApp.js:34-35 | toggling an id nobody carries leaves the list unchanged |
| `Todos.ToggleKeepsUniqueIds` | src/components/TodoApp.js:34-35 | toggling keeps ids unique |
| `Todos.RemoveAbsent` | src/components/TodoApp.js:40 | deleting an id nobody carries leaves the list unchanged |
| `Todos.CountUniqueId` | src/components/TodoApp.js:25 | under unique ids a present id is carried by exactly one record and an absent one by none |
| `Todos.RemoveOne` | src/components/TodoApp.js:39-41 | under unique ids deleting a present id removes exactly one record |
| `Todos.SubsequenceKeepsUniqueIds` | src/components/TodoApp.js:40 | every subsequence of a list with unique ids has unique ids |
| `Todos.RemoveKeepsUniqueIds` | src/components/TodoApp.js:39-41 | deleting keeps ids unique |
| `TodoApp.HandleSubmit` | src/components/TodoApp.js:20-31 | blank input leaves the whole state unchanged; otherwise exactly one record is appended after the untouched earlier ones, with the trimmed, tidy input, the given id and stamp, not completed, and `newTodo` becomes empty |
| `TodoApp.ToggleTodo` | src/components/TodoApp.js:33-37 | only `completed` of matching records flips; every other field and slot is unchanged |
| `TodoApp.DeleteTodo` | src/components/TodoApp.js:39-41 | the list becomes exactly the non-matching records in order; the edit session and other slots are unchanged |
| `TodoApp.StartEditing` | src/components/TodoApp.js:43-46 | the edit opens on the record's id with its text, leaving the list, input and filter alone |
| `TodoApp.SaveEdit` | src/components/TodoApp.js:48-54 | a blank buffer changes nothing and the edit stays open; otherwise matching records get the trimmed, tidy buffer, nothing else in them changes and the edit closes with the buffer kept |
| `TodoApp.CancelEdit` | src/components/TodoApp.js:56-59 | the edit closes and its buffer empties, with the list, input and filter untouched |
| `TodoApp.ClearCompleted` | src/components/TodoApp.js:61-63 | exactly the not-completed records remain, in order, none of them completed, shorter by the completed count |
| `TodoApp.FilteredTodos` | src/components/TodoApp.js:65-69 | the view is an order-preserving subsequence meeting the filter, complete for it, and equal to the list for any filter other than "active" and "completed" |
| `TodoApp.Summary` | src/components/TodoApp.js:266 | the footer counts completed records over the whole list, at most the total, equal to the "completed" view's length |
| `TodoApp.ViewsPartition` | src/components/TodoApp.js:65-67 | the "active" and "completed" views together are as long as the list |
| `TodoApp.ClearCompletedIdempotent` | src/components/TodoApp.js:61-63 | clearing completed twice equals clearing once |
| `TodoApp.ClearCompletedLeavesOnlyActive` | src/components/TodoApp.js:61-63 | after clearing, the "active" view is the whole list and the summary counts no completed record |
| `TodoApp.ToggleTodoTwice` | src/components/TodoApp.js:33-37 | toggling the same id twice restores the state |
| `TodoApp.DeleteTodoCount` | src/components/TodoApp.js:39-41 | under unique ids, deleting an absent id is a no-op and a present one removes one record |
| `TodoApp.StartThenSaveKeepsTodos` | src/components/TodoApp.js:43-54 | in a well-formed state, opening an edit on a record and saving it untouched leaves the list alone and closes the edit |
| `TodoApp.StartThenCancel` | src/components/TodoApp.js:43-59 | opening then cancelling an edit only clears the edit slots |
| `TodoApp.SubmitKeepsWellFormed` | src/components/TodoApp.js:20-31 | a submit with a fresh id keeps ids unique and texts tidy |
| `TodoApp.ToggleKeepsWellFormed` | src/components/TodoApp.js:33-37 | toggle keeps the state well formed |
| `TodoApp.DeleteKeepsWellFormed` | src/components/TodoApp.js:39-41 | delete keeps the state well formed |
| `TodoApp.SaveKeepsWellFormed` | src/components/TodoApp.js:48-54 | save keeps the state well formed, a blank buffer being refused |
| `TodoApp.RetextedKeepsTidy` | src/components/TodoApp.js:50-52 | writing tidy text into matching records keeps every text tidy |
| `TodoApp.ClearKeepsWellFormed` | src/components/TodoApp.js:61-63 | clearing completed keeps the state well formed |
| `TodoApp.Apply` | src/components/TodoApp.js:20-153 | one user event (a handler, `setNewTodo` at line 95, `setFilter` at line 116 or `setEditText` at line 153): only the filter buttons change the filter, only typing and submit touch `newTodo`, only submit, toggle, delete, save and clear change the list, and only submit lengthens it, by one at most |
| `TodoApp.ApplyKeepsWellFormed` | src/components/TodoApp.js:20-63 | every handler, given a fresh id on submit, keeps the state well formed |
| `TodoApp.RunKeepsWellFormed` | src/components/TodoApp.js:20-63 | any run of handlers with fresh ids from a well-formed state ends well formed |
| `TodoApp.ReachableWellFormed` | src/components/TodoApp.js:6-13 | every state reached from an empty first visit with fresh ids is well formed |
| `TodoAppScenarios.SubmitScenario` | src/components/TodoApp.js:20-31 | submitting "Buy milk", "  " and "Walk dog" leaves exactly the first and third, open, in order |
| `TodoAppScenarios.ToggleScenario` | src/components/TodoApp.js:33-69 | two open records with the first toggled give a summary of 1 of 2 and a "completed" view holding only the first |
| `TodoAppScenarios.SaveScenario` | src/components/TodoApp.js:48-54 | saving "  new  " stores "new" and closes the edit |
| `TodoList.AddTodo` | src/components/TodoList.jsx:15-28 | blank input leaves the state unchanged; otherwise one record holding the input verbatim, not all whitespace, not completed, with no stamp, is appended after the untouched earlier ones, and `newTodo` becomes empty |
| `TodoList.ToggleTodo` | src/components/TodoList.jsx:30-34 | only `completed` of matching records flips; the rest of the state is unchanged |
| `TodoList.DeleteTodo` | src/components/TodoList.jsx:36-38 | the list becomes exactly the non-matching records in order; the rest is unchanged |
| `TodoList.StartEditing` | src/components/TodoList.jsx:40-42 | the edit opens on the given id, with the list and input untouched |
| `TodoList.UpdateTodo` | src/components/TodoList.jsx:44-49 | matching records get the new text verbatim, nothing else in any record changes, and the edit always closes |
| `TodoList.ToggleTodoTwice` | src/components/TodoList.jsx:30-34 | toggling the same id twice restores the state |
| `TodoList.DeleteTodoCount` | src/components/TodoList.jsx:36-38 | under unique ids, deleting an absent id is a no-op and a present one removes one record |
| `TodoList.AddAgreesWithSubmit` | src/components/TodoList.jsx:15-28 | the two views refuse the same inputs and append records that differ only in the stamp and in the persisted view trimming the text |
| `TodoList.UpdateTodoStoresBlank` | src/components/TodoList.jsx:44-49 | updating with "  " stores blank text and closes the edit |
| `TodoList.AddTodoKeepsSpaces` | src/components/TodoList.jsx:19-27 | adding " milk " stores " milk " with its spaces |
| `TodoList.Apply` | src/components/TodoList.jsx:15-63 | one user event (a handler or `setNewTodo` at line 63): only typing and add touch `newTodo`, only add, toggle, delete and update change the list, and only add lengthens it, by one at most |
| `TodoList.ApplyKeepsUniqueIds` | src/components/TodoList.jsx:15-49 | every handler, given a fresh id on add, keeps ids unique |
| `TodoList.RunKeepsUniqueIds` | src/components/TodoList.jsx:15-49 | any run of handlers with fresh ids keeps ids unique |

## Left out

- Persistence: hydration from `localStorage` (src/components/TodoApp.js:6-9) and the write-back effect (lines 15-18) are browser I/O and JSON library code. A malformed saved value would throw at line 8, and nothing catches it; that path is not modelled. A hydrated list carries no well-formedness guarantee, so the invariant lemmas start from the empty first visit or assume `WellFormed`.
- The clock: `Date.now()` and `new Date().toISOString()` are parameters `id` and `now`. The date shown in the header and beside each task is display only.
- `e.preventDefault()` in the submit handlers is a DOM call with no state effect.
- The input boxes' `onChange` setters and the filter buttons' `onClick` are modelled only as the `TypeNewTodo`, `TypeEditText` and `ChooseFilter` events.
- Rendering, Tailwind classes, animations and icons in both components, the router glue (src/App.js, src/App.jsx, src/components/Navbar.js) and the landing pages are presentation with no state contract.
- Whitespace.IsWhitespace: fixes the Zs category as of Unicode 15. A JavaScript engine built on another Unicode version could differ in that category only.
- Strings are sequences of Unicode scalar values, not UTF-16 code units. A JavaScript input value can hold a lone surrogate and a Dafny string cannot. Nothing is lost for `trim`, because every whitespace character lies in the Basic Multilingual Plane.
- Ids are unbounded integers. A JavaScript number holds every millisecond timestamp exactly, so no rounding is modelled.
