/** The Express to-do server (backend/nodejs/index.js): a module-level
    array of to-dos that the handlers push to, flip in place and replace by
    a filtered copy. */
module ExpressTodos {
  import opened Options
  import opened TodoLists
  import opened HttpStatus

  class TodoServer {
    /** The module-level `todos` array; ids come from `crypto.randomUUID()`. */
    var todos: seq<Todo<string>>

    constructor ()
      ensures todos == []
    {
      todos := [];
    }

    /** GET /todos: the current array. */
    method GetTodos() returns (r: seq<Todo<string>>)
      ensures r == todos
    {
      r := todos;
    }

    /** POST /todos: push `{id, text, done: false}` and answer 201 with it. */
    method PostTodo(text: string, freshId: string) returns (status: int, todo: Todo<string>)
      modifies this
      ensures status == Created
      ensures todo == NewTodo(freshId, text)
      ensures todos == old(todos) + [todo]
    {
      todo := NewTodo(freshId, text);
      todos := todos + [todo];
      status := Created;
    }

    /** PATCH /todos/:id: flip the first to-do with the id and answer with
        it; 404 and no change when there is none. */
    method PatchTodo(id: string) returns (status: int, todo: Option<Todo<string>>)
      modifies this
      ensures todos == ToggleFirst(old(todos), id)
      ensures status == NotFound <==> IndexOf(old(todos), id) == -1
      ensures status == NotFound ==> todo == None
      ensures status != NotFound ==> status == OK
      ensures status == OK ==> todo == Some(todos[IndexOf(old(todos), id)])
      ensures status == OK ==> todo.value.id == id
      ensures status == OK ==> todo.value.done == !old(todos)[IndexOf(old(todos), id)].done
    {
      var k := IndexOf(todos, id);
      if k == -1 {
        return NotFound, None;
      }
      todos := todos[k := Flip(todos[k])];
      status, todo := OK, Some(todos[k]);
    }

    /** DELETE /todos/:id: keep the to-dos with other ids and answer 204,
        whether or not anything was removed. */
    method DeleteTodo(id: string) returns (status: int)
      modifies this
      ensures todos == RemoveMatching(old(todos), id)
      ensures status == NoContent
    {
      todos := RemoveMatching(todos, id);
      status := NoContent;
    }
  }

  /** Two PATCH requests for the same id leave the array as it was. */
  method PatchTwice(server: TodoServer, id: string)
    modifies server
    ensures server.todos == old(server.todos)
  {
    var _, _ := server.PatchTodo(id);
    var _, _ := server.PatchTodo(id);
    ToggleFirstTwice(old(server.todos), id);
  }

  /** A DELETE for an id that is not there answers 204 all the same and
      changes nothing. */
  method DeleteAbsent(server: TodoServer, id: string) returns (status: int)
    modifies server
    requires IndexOf(server.todos, id) == -1
    ensures status == NoContent && server.todos == old(server.todos)
  {
    status := server.DeleteTodo(id);
  }
}
