/** The `useDailyTasks` hook of the React frontend
    (frontend/src/features/dailyTasks/useDailyTasks.ts): a task array that
    starts empty, is emptied again when the component mounts, and is
    replaced by a new array on every action. `toggleTask` is
    `TodoLists.ToggleMatching`. */
module UseDailyTasks {
  import opened TodoLists

  type Tasks = seq<Todo<string>>

  /** `addTask`: append an undone task. */
  function AddTask(t: Tasks, text: string, freshId: string): (r: Tasks)
    ensures |r| == |t| + 1 && r[..|t|] == t
    ensures r[|t|] == NewTodo(freshId, text)
  {
    t + [NewTodo(freshId, text)]
  }

  /** What can happen to the hook's state: the mount effect, or an action. */
  datatype Action = Mounted | Added(text: string, freshId: string) | Toggled(id: string)

  function Apply(t: Tasks, a: Action): (r: Tasks)
    ensures a.Mounted? ==> r == []
    ensures !a.Mounted? ==> |r| == |t| + (if a.Added? then 1 else 0)
    ensures !a.Mounted? ==> forall j :: 0 <= j < |t| ==> r[j].id == t[j].id && r[j].text == t[j].text
    ensures a.Added? ==> r[|t|] == NewTodo(a.freshId, a.text)
  {
    match a
    case Mounted => []
    case Added(text, freshId) => AddTask(t, text, freshId)
    case Toggled(id) => ToggleMatching(t, id)
  }

  /** The state after a history of actions, starting from `useState([])`.
      Every task in it was added by some action, with the text it was added
      with: the hook never invents a task. */
  function Replay(actions: seq<Action>): (r: Tasks)
    ensures forall j :: 0 <= j < |r| ==>
      exists k :: 0 <= k < |actions| && actions[k] == Added(r[j].text, r[j].id)
    decreases |actions|
  {
    if actions == [] then []
    else
      var n := |actions| - 1;
      assert forall k :: 0 <= k < n ==> actions[..n][k] == actions[k];
      Apply(Replay(actions[..n]), actions[n])
  }

  /** How many tasks were added since the last mount. */
  function AddedSinceMount(actions: seq<Action>): nat
    decreases |actions|
  {
    if actions == [] then 0
    else
      var last := actions[|actions| - 1];
      var before := AddedSinceMount(actions[..|actions| - 1]);
      match last
      case Mounted => 0
      case Added(_, _) => before + 1
      case Toggled(_) => before
  }

  /** The number of tasks is the number added since the last mount: a
      mount empties the state and only `addTask` grows it. */
  lemma {:induction false} ReplayLength(actions: seq<Action>)
    ensures |Replay(actions)| == AddedSinceMount(actions)
    decreases |actions|
  {
    if actions != [] {
      ReplayLength(actions[..|actions| - 1]);
    }
  }

  /** A mount forgets everything before it. */
  lemma {:induction false} MountForgets(before: seq<Action>, after: seq<Action>)
    ensures Replay(before + [Mounted] + after) == Replay([Mounted] + after)
    decreases |after|
  {
    var x := before + [Mounted] + after;
    var y := [Mounted] + after;
    if after == [] {
      assert x[..|x| - 1] == before && x[|x| - 1] == Mounted;
      assert y[..|y| - 1] == [] && y[|y| - 1] == Mounted;
    } else {
      var n := |after| - 1;
      MountForgets(before, after[..n]);
      assert x[..|x| - 1] == before + [Mounted] + after[..n];
      assert y[..|y| - 1] == [Mounted] + after[..n];
      assert Replay(x) == Apply(Replay(x[..|x| - 1]), after[n]);
      assert Replay(y) == Apply(Replay(y[..|y| - 1]), after[n]);
    }
  }
}
