/** The Pinia board store of the Vue app (todo-vue/src/stores/board.ts): a
    daily column, a to-do column and any number of named lists, each an
    array of tasks that the actions push onto, splice and flip in place. */
module BoardStore {
  import opened TodoLists

  /** The store's state; a task's `title` is the `text` of a `Todo`. */
  datatype Board = Board(daily: seq<Todo<string>>, todos: seq<Todo<string>>, lists: seq<TodoList<string>>)

  /** Where a task array lives: the daily column, the to-do column, or the
      items of the list at an index. The actions that take a task or an
      array by reference (`toggleTask`, `removeTask`, `addListItem`) are
      modelled by the location of what they are handed. */
  datatype Column = Daily | Todos | Items(list: nat)

  predicate HasColumn(b: Board, c: Column) {
    c.Items? ==> c.list < |b.lists|
  }

  function Tasks(b: Board, c: Column): seq<Todo<string>>
    requires HasColumn(b, c)
  {
    match c
    case Daily => b.daily
    case Todos => b.todos
    case Items(i) => b.lists[i].items
  }

  /** The board with the array at `c` replaced by `s`: every other array,
      and every list's id and title, stay as they were. */
  function WithTasks(b: Board, c: Column, s: seq<Todo<string>>): (r: Board)
    requires HasColumn(b, c)
    ensures |r.lists| == |b.lists|
    ensures forall i :: 0 <= i < |b.lists| ==> r.lists[i].id == b.lists[i].id && r.lists[i].title == b.lists[i].title
    ensures Tasks(r, c) == s
    ensures forall d :: HasColumn(b, d) && d != c ==> Tasks(r, d) == Tasks(b, d)
  {
    match c
    case Daily => b.(daily := s)
    case Todos => b.(todos := s)
    case Items(i) => b.(lists := b.lists[i := b.lists[i].(items := s)])
  }

  /** `task.done = !task.done` on the task at index `i`. */
  function ToggleAt(s: seq<Todo<string>>, i: nat): (r: seq<Todo<string>>)
    requires i < |s|
    ensures |r| == |s|
    ensures r[i].id == s[i].id && r[i].text == s[i].text && r[i].done == !s[i].done
    ensures forall j :: 0 <= j < |s| && j != i ==> r[j] == s[j]
  {
    s[i := Flip(s[i])]
  }

  /** Flipping the same task twice restores it. */
  lemma ToggleAtTwice(s: seq<Todo<string>>, i: nat)
    requires i < |s|
    ensures ToggleAt(ToggleAt(s, i), i) == s
  {
  }

  class Store {
    var daily: seq<Todo<string>>
    var todos: seq<Todo<string>>
    var lists: seq<TodoList<string>>

    function State(): Board
      reads this
    {
      Board(daily, todos, lists)
    }

    constructor ()
      ensures State() == Board([], [], [])
    {
      daily, todos, lists := [], [], [];
    }

    /** Put `s` in place of the array at `c`. */
    method SetTasks(c: Column, s: seq<Todo<string>>)
      requires HasColumn(State(), c)
      modifies this
      ensures State() == WithTasks(old(State()), c, s)
    {
      match c
      case Daily => daily := s;
      case Todos => todos := s;
      case Items(i) => lists := lists[i := lists[i].(items := s)];
    }

    /** `addDaily`: push an undone task onto the daily column. */
    method AddDaily(title: string, freshId: string)
      modifies this
      ensures State() == WithTasks(old(State()), Daily, old(daily) + [NewTodo(freshId, title)])
    {
      daily := daily + [NewTodo(freshId, title)];
    }

    /** `addTodo`: push an undone task onto the to-do column. */
    method AddTodo(title: string, freshId: string)
      modifies this
      ensures State() == WithTasks(old(State()), Todos, old(todos) + [NewTodo(freshId, title)])
    {
      todos := todos + [NewTodo(freshId, title)];
    }

    /** `toggleTask`: flip the task at index `i` of the array at `c`. */
    method ToggleTask(c: Column, i: nat)
      requires HasColumn(State(), c) && i < |Tasks(State(), c)|
      modifies this
      ensures State() == WithTasks(old(State()), c, ToggleAt(Tasks(old(State()), c), i))
    {
      SetTasks(c, ToggleAt(Tasks(State(), c), i));
    }

    /** `removeTask`: splice out the first task with the id from the array
        at `c`, if there is one. */
    method RemoveTask(c: Column, id: string)
      requires HasColumn(State(), c)
      modifies this
      ensures State() == WithTasks(old(State()), c, RemoveFirst(Tasks(old(State()), c), id))
    {
      var s := Tasks(State(), c);
      var idx := IndexOf(s, id);
      if idx != -1 {
        SetTasks(c, s[..idx] + s[idx + 1..]);
      } else {
        assert WithTasks(State(), c, s) == State();
      }
    }

    /** `addList`: push a new list with no items. */
    method AddList(title: string, freshId: string)
      modifies this
      ensures daily == old(daily) && todos == old(todos)
      ensures lists == old(lists) + [TodoList(freshId, title, [])]
    {
      lists := lists + [TodoList(freshId, title, [])];
    }

    /** `addListItem`: push an undone task onto the items of one list. */
    method AddListItem(listIndex: nat, title: string, freshId: string)
      requires listIndex < |lists|
      modifies this
      ensures State() == WithTasks(old(State()), Items(listIndex), old(lists)[listIndex].items + [NewTodo(freshId, title)])
    {
      SetTasks(Items(listIndex), lists[listIndex].items + [NewTodo(freshId, title)]);
    }
  }

  /** Toggling the same task twice leaves the whole board as it was. */
  method ToggleTwice(store: Store, c: Column, i: nat)
    requires HasColumn(store.State(), c) && i < |Tasks(store.State(), c)|
    modifies store
    ensures store.State() == old(store.State())
  {
    store.ToggleTask(c, i);
    store.ToggleTask(c, i);
    ToggleAtTwice(Tasks(old(store.State()), c), i);
    assert WithTasks(old(store.State()), c, Tasks(old(store.State()), c)) == old(store.State());
  }
}
