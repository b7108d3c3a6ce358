/**
 The todo record and the list handlers both views share word for word:
 `toggleTodo` is a `map` that flips `completed` on every record whose id
 matches, and `deleteTodo` is a `filter` that keeps every record whose id
 differs. Neither looks for a single record: every record carrying the id is
 affected, and an id nobody carries leaves the list as it was.
 */
module Todos {
  import opened Sequences

  datatype Option<T> = None | Some(value: T)

  /** Ids are the millisecond clock reading taken when a record is created;
      the clock is outside the model, so callers supply the number. */
  type Id = int

  /** The ISO-8601 creation stamp of the persisted view, opaque here. */
  type Timestamp = string

  /** One task. The unpersisted view creates records without `createdAt`, modelled
      as `None`. */
  datatype Todo = Todo(id: Id, text: string, completed: bool, createdAt: Option<Timestamp>)

  /** The test `todo.id === id` of the handlers. */
  function HasId(id: Id): Todo -> bool
  {
    (t: Todo) => t.id == id
  }

  predicate IsCompleted(t: Todo)
  {
    t.completed
  }

  /** Some record of `s` carries `id`. */
  predicate Present(s: seq<Todo>, id: Id)
  {
    exists i :: 0 <= i < |s| && s[i].id == id
  }

  /** No two records of `s` share an id. */
  predicate UniqueIds(s: seq<Todo>)
  {
    forall i, j :: 0 <= i < j < |s| ==> s[i].id != s[j].id
  }

  /** `s.map(t => t.id === id ? f(t) : t)`. */
  function MapMatching(s: seq<Todo>, id: Id, f: Todo -> Todo): (r: seq<Todo>)
    ensures |r| == |s|
    ensures forall i :: 0 <= i < |s| && s[i].id == id ==> r[i] == f(s[i])
    ensures forall i :: 0 <= i < |s| && s[i].id != id ==> r[i] == s[i]
  {
    if |s| == 0 then []
    else [if s[0].id == id then f(s[0]) else s[0]] + MapMatching(s[1..], id, f)
  }

  /** `{ ...todo, completed: !todo.completed }`. */
  function Flip(t: Todo): Todo
  {
    t.(completed := !t.completed)
  }

  /** `{ ...todo, text: text }`. */
  function Retext(text: string): Todo -> Todo
  {
    (t: Todo) => t.(text := text)
  }

  /** `after` is `before` with `completed` flipped on exactly the records
      carrying `id`: length, order, ids, texts and creation stamps kept. */
  predicate Toggled(before: seq<Todo>, after: seq<Todo>, id: Id)
  {
    && |after| == |before|
    && forall i :: 0 <= i < |before| ==>
      && after[i].id == before[i].id
      && after[i].text == before[i].text
      && after[i].createdAt == before[i].createdAt
      && (after[i].completed <==> (before[i].completed != (before[i].id == id)))
  }

  /** `after` is `before` with `text` on exactly the records carrying `id`:
      length, order, ids, completion and creation stamps kept. */
  predicate Retexted(before: seq<Todo>, after: seq<Todo>, id: Id, text: string)
  {
    && |after| == |before|
    && forall i :: 0 <= i < |before| ==>
      && after[i].id == before[i].id
      && after[i].completed == before[i].completed
      && after[i].createdAt == before[i].createdAt
      && after[i].text == (if before[i].id == id then text else before[i].text)
  }

  /** `after` is exactly the records of `before` whose id differs from `id`,
      in their original relative order. */
  predicate Removed(before: seq<Todo>, after: seq<Todo>, id: Id)
  {
    && IsSubsequence(after, before)
    && (forall t :: t in after ==> t.id != id)
    && (forall i :: 0 <= i < |before| && before[i].id != id ==> before[i] in after)
    && |after| == |before| - Count(before, HasId(id))
  }

  /** The toggle handler's list update. */
  function ToggleWhere(s: seq<Todo>, id: Id): (r: seq<Todo>)
    ensures Toggled(s, r, id)
  {
    MapMatching(s, id, Flip)
  }

  /** The edit handlers' list update. */
  function RetextWhere(s: seq<Todo>, id: Id, text: string): (r: seq<Todo>)
    ensures Retexted(s, r, id, text)
  {
    MapMatching(s, id, Retext(text))
  }

  /** The delete handler's list update. */
  function RemoveWhere(s: seq<Todo>, id: Id): (r: seq<Todo>)
    ensures Removed(s, r, id)
  {
    CountComplement(s, HasId(id));
    Filter(s, Not(HasId(id)))
  }

  /** `Removed` leaves no choice: any list it relates to `s` is the result
      of deleting `id`. */
  lemma RemovedIsRemoveWhere(s: seq<Todo>, r: seq<Todo>, id: Id)
    requires Removed(s, r, id)
    ensures r == RemoveWhere(s, id)
  {
    CountComplement(s, HasId(id));
    FilterUnique(r, s, Not(HasId(id)));
  }

  /** Rewriting records with the text they already have changes nothing. */
  lemma RetextedSameText(s: seq<Todo>, r: seq<Todo>, id: Id, text: string)
    requires Retexted(s, r, id, text)
    requires forall i :: 0 <= i < |s| && s[i].id == id ==> s[i].text == text
    ensures r == s
  {
    forall i | 0 <= i < |s|
      ensures r[i] == s[i]
    {
    }
  }

  /** Rewriting texts keeps ids unique. */
  lemma RetextedKeepsUniqueIds(s: seq<Todo>, r: seq<Todo>, id: Id, text: string)
    requires Retexted(s, r, id, text) && UniqueIds(s)
    ensures UniqueIds(r)
  {
    forall i, j | 0 <= i < j < |r|
      ensures r[i].id != r[j].id
    {
      assert r[i].id == s[i].id && r[j].id == s[j].id;
    }
  }

  /** Toggling the same id twice restores the list. */
  lemma ToggleTwice(s: seq<Todo>, id: Id)
    ensures ToggleWhere(ToggleWhere(s, id), id) == s
  {
  }

  /** Toggling an id no record carries changes nothing. */
  lemma ToggleAbsent(s: seq<Todo>, id: Id)
    requires !Present(s, id)
    ensures ToggleWhere(s, id) == s
  {
  }

  /** Toggling keeps ids unique. */
  lemma ToggleKeepsUniqueIds(s: seq<Todo>, id: Id)
    requires UniqueIds(s)
    ensures UniqueIds(ToggleWhere(s, id))
  {
  }

  /** Deleting an id no record carries changes nothing. */
  lemma RemoveAbsent(s: seq<Todo>, id: Id)
    requires !Present(s, id)
    ensures RemoveWhere(s, id) == s
  {
    forall t | t in s
      ensures Not(HasId(id))(t)
    {
    }
    FilterKeepsAll(s, Not(HasId(id)));
  }

  /** With unique ids, a present id is carried by exactly one record. */
  lemma {:induction false} CountUniqueId(s: seq<Todo>, id: Id)
    requires UniqueIds(s)
    ensures Count(s, HasId(id)) == (if Present(s, id) then 1 else 0)
    decreases |s|
  {
    if |s| > 0 {
      CountUniqueId(s[1..], id);
      if Present(s[1..], id) {
        var i :| 0 <= i < |s[1..]| && s[1..][i].id == id;
        assert s[1 + i].id == id;
      }
      if Present(s, id) && s[0].id != id {
        var i :| 0 <= i < |s| && s[i].id == id;
        assert s[1..][i - 1].id == id;
      }
    }
  }

  /** With unique ids, deleting a present id removes exactly one record. */
  lemma RemoveOne(s: seq<Todo>, id: Id)
    requires UniqueIds(s) && Present(s, id)
    ensures |RemoveWhere(s, id)| == |s| - 1
  {
    CountUniqueId(s, id);
  }

  /** Every subsequence of a list with unique ids has unique ids. */
  lemma {:induction false} SubsequenceKeepsUniqueIds(a: seq<Todo>, b: seq<Todo>)
    requires IsSubsequence(a, b) && UniqueIds(b)
    ensures UniqueIds(a)
    decreases |b|
  {
    if |b| > 0 {
      if |a| > 0 && a[0] == b[0] && IsSubsequence(a[1..], b[1..]) {
        SubsequenceKeepsUniqueIds(a[1..], b[1..]);
        SubsequenceMembers(a[1..], b[1..]);
        forall j | 0 < j < |a|
          ensures a[0].id != a[j].id
        {
          assert a[j] == a[1..][j - 1];
          assert a[1..][j - 1] in a[1..];
          var m :| 0 <= m < |b[1..]| && b[1..][m] == a[j];
          assert b[m + 1] == a[j];
        }
        forall i, j | 0 <= i < j < |a|
          ensures a[i].id != a[j].id
        {
          if i > 0 {
            assert a[i] == a[1..][i - 1] && a[j] == a[1..][j - 1];
          }
        }
      } else {
        SubsequenceKeepsUniqueIds(a, b[1..]);
      }
    }
  }

  /** Deleting keeps ids unique. */
  lemma RemoveKeepsUniqueIds(s: seq<Todo>, id: Id)
    requires UniqueIds(s)
    ensures UniqueIds(RemoveWhere(s, id))
  {
    SubsequenceKeepsUniqueIds(RemoveWhere(s, id), s);
  }
}
