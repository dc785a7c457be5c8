/** The standalone React to-do app (todo-app/src/App.tsx, and the same
    handlers copied into frontend/src/App.tsx): a list of to-dos keyed by the
    millisecond clock reading at their creation, and the text of the input
    box. Toggling, deleting, clearing and counting are the shared list
    operations `TodoLists.ToggleMatching`, `TodoLists.RemoveMatching`,
    `TodoLists.ClearDone` and `TodoLists.Remaining`. */
module TodoApp {
  import opened JsStrings
  import opened TodoLists

  datatype AppState = AppState(todos: seq<Todo<int>>, newTodo: string)

  /** `handleAdd`: a blank input (empty after `trim`) is ignored; otherwise
      the trimmed text becomes a new undone to-do at the front, keyed by
      the clock reading `now`, and the input is cleared. */
  function HandleAdd(st: AppState, now: int): (r: AppState)
    ensures Trim(st.newTodo) == [] ==> r == st
    ensures Trim(st.newTodo) != [] ==>
      |r.todos| == |st.todos| + 1 &&
      r.todos[0] == NewTodo(now, Trim(st.newTodo)) &&
      r.todos[1..] == st.todos &&
      r.newTodo == []
  {
    var text := Trim(st.newTodo);
    if text == [] then st
    else AppState([NewTodo(now, text)] + st.todos, [])
  }

  /** An added to-do's text is the input without its surrounding white
      space: it is non-empty and neither starts nor ends with white space,
      and the input is blank exactly when nothing is added. */
  lemma AddedTextIsTrimmed(st: AppState, now: int)
    ensures |HandleAdd(st, now).todos| == |st.todos| + 1 <==>
      exists k :: 0 <= k < |st.newTodo| && !IsTrimmable(st.newTodo[k])
    ensures |HandleAdd(st, now).todos| == |st.todos| + 1 ==>
      var t := HandleAdd(st, now).todos[0].text;
      t != [] && !IsTrimmable(t[0]) && !IsTrimmable(t[|t| - 1])
  {
  }

  /** A second submit right after a successful one adds nothing: the input
      box has been cleared. */
  lemma SecondSubmitIgnored(st: AppState, now: int, later: int)
    ensures HandleAdd(HandleAdd(st, now), later) == HandleAdd(st, now)
  {
  }
}
