/** The axum to-do routes of the Rust backend (backend/src/routes/todos.rs):
    one shared vector of tasks, changed in place by each handler while it
    holds the lock. */
module TodoRouter {
  import opened Options
  import opened TodoLists
  import opened HttpStatus

  class TodoRoutes {
    /** The shared `Vec<Task>`; ids are UUIDs, written here as their text. */
    var todos: seq<Todo<string>>

    constructor ()
      ensures todos == []
    {
      todos := [];
    }

    /** `get_todos`: a copy of the whole list. */
    method GetTodos() returns (r: seq<Todo<string>>)
      ensures r == todos
    {
      r := todos;
    }

    /** `create_todo`: push a new undone task with a fresh id at the end and
        answer 201 with it. */
    method CreateTodo(text: string, freshId: string) returns (status: int, todo: Todo<string>)
      modifies this
      ensures status == Created
      ensures todo == NewTodo(freshId, text)
      ensures todos == old(todos) + [todo]
    {
      todo := NewTodo(freshId, text);
      todos := todos + [todo];
      status := Created;
    }

    /** `toggle_todo`: flip the first task with the id and answer with it, or
        404 and no change when there is none. */
    method ToggleTodo(id: string) returns (status: int, todo: Option<Todo<string>>)
      modifies this
      ensures todos == ToggleFirst(old(todos), id)
      ensures status == NotFound <==> IndexOf(old(todos), id) == -1
      ensures status == NotFound ==> todo == None
      ensures status != NotFound ==> status == OK
      ensures status == OK ==> todo == Some(todos[IndexOf(old(todos), id)])
      ensures status == OK ==> todo.value.id == id
      ensures status == OK ==> todo.value.done == !old(todos)[IndexOf(old(todos), id)].done
    {
      var k := IndexOf(todos, id);
      if k == -1 {
        return NotFound, None;
      }
      todos := todos[k := Flip(todos[k])];
      status, todo := OK, Some(todos[k]);
    }

    /** `delete_todo`: retain the tasks with other ids; 404 when the length
        did not change, 204 otherwise. */
    method DeleteTodo(id: string) returns (status: int)
      modifies this
      ensures todos == RemoveMatching(old(todos), id)
      ensures status == NotFound <==> IndexOf(old(todos), id) == -1
      ensures status == NoContent <==> IndexOf(old(todos), id) != -1
    {
      var lenBefore := |todos|;
      todos := RemoveMatching(todos, id);
      status := if |todos| == lenBefore then NotFound else NoContent;
    }
  }

  /** Two toggles of the same id leave the list as it was. */
  method ToggleTwice(routes: TodoRoutes, id: string)
    modifies routes
    ensures routes.todos == old(routes.todos)
  {
    var _, _ := routes.ToggleTodo(id);
    var _, _ := routes.ToggleTodo(id);
    ToggleFirstTwice(old(routes.todos), id);
  }

  /** A created task can be toggled: the second request finds it. */
  method CreateThenToggle(routes: TodoRoutes, text: string, freshId: string)
    returns (status: int, todo: Option<Todo<string>>)
    modifies routes
    requires IndexOf(routes.todos, freshId) == -1
    ensures status == OK && todo == Some(Todo(freshId, text, true))
    ensures routes.todos == old(routes.todos) + [Todo(freshId, text, true)]
  {
    var _, created := routes.CreateTodo(text, freshId);
    assert IndexOf(routes.todos, freshId) == |old(routes.todos)| by {
      assert routes.todos[|old(routes.todos)|].id == freshId;
    }
    status, todo := routes.ToggleTodo(freshId);
  }
}
