/** The list operations shared by the in-memory to-do stores: a to-do is an
    id, a text and a `done` flag, and every store keeps its to-dos in a
    list. The id type is a parameter: a UUID in the Rust and Vue stores, a
    UUID string in the Express and React stores, a millisecond clock
    reading in the standalone React app. */
module TodoLists {
  import opened Seqs

  datatype Todo<Id> = Todo(id: Id, text: string, done: bool)

  /** A list that owns to-do items (the Vue `List`, the React `ListItem`). */
  datatype TodoList<Id> = TodoList(id: Id, title: string, items: seq<Todo<Id>>)

  /** A fresh to-do: never done. */
  function NewTodo<Id>(id: Id, text: string): (t: Todo<Id>)
    ensures t.id == id && t.text == text && !t.done
  {
    Todo(id, text, false)
  }

  function Flip<Id>(t: Todo<Id>): Todo<Id> {
    t.(done := !t.done)
  }

  /** `find` / `findIndex`: the index of the first to-do with `id`, or -1. */
  function IndexOf<Id(==)>(s: seq<Todo<Id>>, id: Id): (k: int)
    ensures -1 <= k < |s|
    ensures k >= 0 ==> s[k].id == id
    ensures forall j :: 0 <= j < |s| && (k == -1 || j < k) ==> s[j].id != id
    decreases |s|
  {
    if s == [] then -1
    else if s[0].id == id then 0
    else
      var k := IndexOf(s[1..], id);
      assert forall j :: 1 <= j < |s| ==> s[j] == s[1..][j - 1];
      if k == -1 then -1 else k + 1
  }

  /** The search looks only at ids, so two lists with the same ids in the
      same places answer it alike. */
  lemma {:induction false} IndexOfSeesOnlyIds<Id>(s: seq<Todo<Id>>, u: seq<Todo<Id>>, id: Id)
    requires |s| == |u|
    requires forall j :: 0 <= j < |s| ==> s[j].id == u[j].id
    ensures IndexOf(s, id) == IndexOf(u, id)
    decreases |s|
  {
    if s != [] && s[0].id != id {
      IndexOfSeesOnlyIds(s[1..], u[1..], id);
    }
  }

  /** Find the first to-do with `id` and flip it; no match, no change. */
  function ToggleFirst<Id(==)>(s: seq<Todo<Id>>, id: Id): (r: seq<Todo<Id>>)
    ensures |r| == |s|
    ensures IndexOf(s, id) == -1 ==> r == s
    ensures forall j :: 0 <= j < |s| ==> r[j].id == s[j].id && r[j].text == s[j].text
    ensures forall j :: 0 <= j < |s| ==> (r[j].done != s[j].done <==> j == IndexOf(s, id))
  {
    var k := IndexOf(s, id);
    if k == -1 then s else s[k := Flip(s[k])]
  }

  /** Toggling the same id twice restores the list. */
  lemma ToggleFirstTwice<Id>(s: seq<Todo<Id>>, id: Id)
    ensures ToggleFirst(ToggleFirst(s, id), id) == s
  {
    IndexOfSeesOnlyIds(ToggleFirst(s, id), s, id);
  }

  /** `map(t => t.id === id ? {...t, done: !t.done} : t)`: flip every to-do
      with `id`, leave the others and the order alone. */
  function ToggleMatching<Id(==)>(s: seq<Todo<Id>>, id: Id): (r: seq<Todo<Id>>)
    ensures |r| == |s|
    ensures forall j :: 0 <= j < |s| ==> r[j].id == s[j].id && r[j].text == s[j].text
    ensures forall j :: 0 <= j < |s| ==> (r[j].done != s[j].done <==> s[j].id == id)
    decreases |s|
  {
    if s == [] then []
    else
      var rest := ToggleMatching(s[1..], id);
      assert forall j :: 1 <= j < |s| ==> s[j] == s[1..][j - 1];
      [if s[0].id == id then Flip(s[0]) else s[0]] + rest
  }

  /** Toggling the same id twice restores the list. */
  lemma ToggleMatchingTwice<Id>(s: seq<Todo<Id>>, id: Id)
    ensures ToggleMatching(ToggleMatching(s, id), id) == s
  {
  }

  /** With no to-do carrying the id, toggling changes nothing. */
  lemma ToggleMatchingAbsent<Id>(s: seq<Todo<Id>>, id: Id)
    requires IndexOf(s, id) == -1
    ensures ToggleMatching(s, id) == s
  {
  }

  function OtherThan<Id(==)>(id: Id): Todo<Id> -> bool {
    (t: Todo<Id>) => t.id != id
  }

  /** `filter(t => t.id !== id)` / `retain(|t| t.id != id)`: drop every
      to-do with `id`; the list shrinks exactly when one was there. */
  function RemoveMatching<Id(==)>(s: seq<Todo<Id>>, id: Id): (r: seq<Todo<Id>>)
    ensures forall j :: 0 <= j < |r| ==> r[j].id != id && r[j] in s
    ensures forall j :: 0 <= j < |s| && s[j].id != id ==> s[j] in r
    ensures |r| == |s| <==> IndexOf(s, id) == -1
    ensures IndexOf(s, id) == -1 ==> r == s
  {
    FilterKeepsAll(OtherThan(id), s);
    Filter(OtherThan(id), s)
  }

  /** Removal keeps the survivors in order: it distributes over any split
      of the list. */
  lemma RemoveMatchingKeepsOrder<Id>(a: seq<Todo<Id>>, b: seq<Todo<Id>>, id: Id)
    ensures RemoveMatching(a + b, id) == RemoveMatching(a, id) + RemoveMatching(b, id)
  {
    FilterConcat(OtherThan(id), a, b);
  }

  /** Removing twice is removing once. */
  lemma RemoveMatchingIdempotent<Id(!new)>(s: seq<Todo<Id>>, id: Id)
    ensures RemoveMatching(RemoveMatching(s, id), id) == RemoveMatching(s, id)
  {
    FilterIdempotent(OtherThan(id), s);
  }

  /** `findIndex` then `splice(idx, 1)`: drop only the first to-do with
      `id`; no match, no change. */
  function RemoveFirst<Id(==)>(s: seq<Todo<Id>>, id: Id): (r: seq<Todo<Id>>)
    ensures IndexOf(s, id) == -1 ==> r == s
    ensures IndexOf(s, id) >= 0 ==>
      |r| == |s| - 1 && multiset(r) + multiset{s[IndexOf(s, id)]} == multiset(s)
    ensures forall j :: 0 <= j < |r| && j < IndexOf(s, id) ==> r[j] == s[j]
    ensures forall j :: 0 <= IndexOf(s, id) <= j < |r| ==> r[j] == s[j + 1]
  {
    var k := IndexOf(s, id);
    if k == -1 then s
    else
      assert s == s[..k] + [s[k]] + s[k + 1..];
      s[..k] + s[k + 1..]
  }

  /** A later to-do with the same id survives the removal of the first. */
  lemma RemoveFirstKeepsLaterDuplicates<Id>(s: seq<Todo<Id>>, id: Id, j: int)
    requires 0 <= IndexOf(s, id) < j < |s|
    ensures s[j] in RemoveFirst(s, id)
  {
    assert RemoveFirst(s, id)[j - 1] == s[j];
  }

  function IsUndone<Id>(): Todo<Id> -> bool {
    (t: Todo<Id>) => !t.done
  }

  /** `filter(t => !t.done)`: keep exactly the undone to-dos, in order. */
  function ClearDone<Id>(s: seq<Todo<Id>>): (r: seq<Todo<Id>>)
    ensures forall j :: 0 <= j < |r| ==> !r[j].done && r[j] in s
    ensures forall j :: 0 <= j < |s| && !s[j].done ==> s[j] in r
    ensures |r| == CountUndone(s)
  {
    RemainingCounts(s);
    Filter(IsUndone(), s)
  }

  /** Clearing works piece by piece, so the kept to-dos stay in their order. */
  lemma ClearDoneKeepsOrder<Id>(a: seq<Todo<Id>>, b: seq<Todo<Id>>)
    ensures ClearDone(a + b) == ClearDone(a) + ClearDone(b)
  {
    FilterConcat(IsUndone(), a, b);
  }

  /** Clearing twice is clearing once. */
  lemma ClearDoneIdempotent<Id(!new)>(s: seq<Todo<Id>>)
    ensures ClearDone(ClearDone(s)) == ClearDone(s)
  {
    FilterIdempotent(IsUndone(), s);
  }

  /** The number of undone to-dos, counted one by one. */
  function CountUndone<Id>(s: seq<Todo<Id>>): nat {
    if s == [] then 0 else (if s[0].done then 0 else 1) + CountUndone(s[1..])
  }

  /** `filter(t => !t.done).length`: the "task(s) left" counter. */
  function Remaining<Id>(s: seq<Todo<Id>>): (n: nat)
    ensures n == CountUndone(s)
    ensures n <= |s|
  {
    RemainingCounts(s);
    |ClearDone(s)|
  }

  lemma {:induction false} RemainingCounts<Id>(s: seq<Todo<Id>>)
    ensures |Filter(IsUndone(), s)| == CountUndone(s)
  {
    if s != [] {
      RemainingCounts(s[1..]);
    }
  }

  /** After clearing the done to-dos, every remaining to-do counts as left. */
  lemma RemainingAfterClear<Id>(s: seq<Todo<Id>>)
    ensures Remaining(ClearDone(s)) == |ClearDone(s)|
  {
    FilterKeepsAll(IsUndone(), ClearDone(s));
  }
}
