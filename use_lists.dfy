/** The `useLists` hook of the React frontend
    (frontend/src/features/lists/useLists.ts): each action computes a new
    array of lists from the previous one. */
module UseLists {
  import opened TodoLists

  type Lists = seq<TodoList<string>>

  /** The state before any action. */
  const Initial: Lists := []

  /** `addList`: append a list with no items. */
  function AddList(l: Lists, title: string, freshId: string): (r: Lists)
    ensures |r| == |l| + 1 && r[..|l|] == l
    ensures r[|l|] == TodoList(freshId, title, [])
  {
    l + [TodoList(freshId, title, [])]
  }

  /** `addSubItem`: every list with `listId` gets one more undone item at
      the end; the other lists, and the number of lists, are kept. */
  function AddSubItem(l: Lists, listId: string, text: string, freshId: string): (r: Lists)
    ensures |r| == |l|
    ensures forall i :: 0 <= i < |l| && l[i].id != listId ==> r[i] == l[i]
    ensures forall i :: 0 <= i < |l| && l[i].id == listId ==>
      r[i].id == l[i].id && r[i].title == l[i].title &&
      r[i].items == l[i].items + [NewTodo(freshId, text)]
    decreases |l|
  {
    if l == [] then []
    else
      var head := if l[0].id == listId then l[0].(items := l[0].items + [NewTodo(freshId, text)]) else l[0];
      var rest := AddSubItem(l[1..], listId, text, freshId);
      assert forall i :: 1 <= i < |l| ==> l[i] == l[1..][i - 1];
      [head] + rest
  }

  /** An unknown list id leaves the state as it was. */
  lemma AddSubItemUnknownList(l: Lists, listId: string, text: string, freshId: string)
    requires forall i :: 0 <= i < |l| ==> l[i].id != listId
    ensures AddSubItem(l, listId, text, freshId) == l
  {
  }

  /** `toggleSubItem`: in every list with `listId`, flip every item with
      `itemId`; the other lists, and every length, are kept. */
  function ToggleSubItem(l: Lists, listId: string, itemId: string): (r: Lists)
    ensures |r| == |l|
    ensures forall i :: 0 <= i < |l| && l[i].id != listId ==> r[i] == l[i]
    ensures forall i :: 0 <= i < |l| && l[i].id == listId ==>
      r[i] == l[i].(items := ToggleMatching(l[i].items, itemId))
    decreases |l|
  {
    if l == [] then []
    else
      var head := if l[0].id == listId then l[0].(items := ToggleMatching(l[0].items, itemId)) else l[0];
      var rest := ToggleSubItem(l[1..], listId, itemId);
      assert forall i :: 1 <= i < |l| ==> l[i] == l[1..][i - 1];
      [head] + rest
  }

  /** Toggling the same item twice restores the state. */
  lemma ToggleSubItemTwice(l: Lists, listId: string, itemId: string)
    ensures ToggleSubItem(ToggleSubItem(l, listId, itemId), listId, itemId) == l
  {
    var once := ToggleSubItem(l, listId, itemId);
    var twice := ToggleSubItem(once, listId, itemId);
    forall i | 0 <= i < |l| ensures twice[i] == l[i] {
      if l[i].id == listId {
        ToggleMatchingTwice(l[i].items, itemId);
      }
    }
  }

  /** Toggling never changes how many items a list has. */
  lemma ToggleSubItemKeepsLengths(l: Lists, listId: string, itemId: string, i: int)
    requires 0 <= i < |l|
    ensures |ToggleSubItem(l, listId, itemId)[i].items| == |l[i].items|
  {
  }
}
