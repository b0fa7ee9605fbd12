/** A whole session against one store, end to end: a board is created, a todo added to it and
    completed, the pending filter then finds nothing, another user is refused, and once the board
    is deleted its todos are gone with it. */
module Scenarios {
  import opened Wrappers
  import opened Strings
  import opened Responses
  import opened Documents
  import opened Controllers
  import TodoModel
  import BoardModel

  lemma HeadIsMember<T>(s: seq<T>)
    ensures |s| > 0 ==> s[0] in s
  {
  }

  /** An answer holding exactly the stored todos that match a query nothing matches is empty. */
  lemma {:induction false} NothingMatches(data: seq<Todo>, todos: map<Id, Todo>, q: TodoQuery)
    requires forall t :: t in data <==> t in todos.Values && Matches(q, t)
    requires forall k :: k in todos ==> !Matches(q, todos[k])
    ensures data == []
  {
    assert forall t :: t in todos.Values ==> exists k :: k in todos && todos[k] == t;
    HeadIsMember(data);
  }

  /** Only a non-empty string trims to a non-empty one. */
  lemma NonBlankIsNonEmpty(s: string)
    requires Trim(s) != ""
    ensures s != ""
  {
  }

  /** Deleting the board of a store's only todo leaves no todos. */
  lemma CascadeOfOnlyTodo(k: Id, t: Todo)
    ensures RemoveBoardTodos(map[k := t], t.boardId) == map[]
  {
    var r := RemoveBoardTodos(map[k := t], t.boardId);
    assert k !in r;
  }

  /** A board is created for `uid`. */
  method AddBoard(store: Store, uid: string, name: string, now: nat) returns (boardId: Id)
    requires store.Valid() && uid != "" && Utf16Length(Trim(name)) >= BoardModel.MinNameLength
    modifies store
    ensures store.Valid() && store.todos == old(store.todos)
    ensures boardId in store.boards && store.boards[boardId].userId == uid
  {
    assert |Trim(name)| <= |name|;
    var board := store.CreateBoard(uid, Some(name), now);
    assert board.Created?;
    boardId := board.data.id;
  }

  /** A todo is added to that board, pending, as the store's only todo. */
  method AddTodo(store: Store, uid: string, boardId: Id, title: string, now: nat) returns (todo: Todo)
    requires store.Valid() && store.todos == map[] && Trim(title) != ""
    requires boardId in store.boards && store.boards[boardId].userId == uid
    modifies store
    ensures store.Valid() && store.boards == old(store.boards)
    ensures store.todos == map[todo.id := todo]
    ensures todo.boardId == boardId && todo.userId == uid && todo.status == TodoModel.Pending
  {
    NonBlankIsNonEmpty(title);
    var r := store.CreateTodo(uid, boardId, Some(title), None, now);
    assert r.Created?;
    todo := r.data;
  }

  /** The todo is then marked completed. */
  method Complete(store: Store, uid: string, todo: Todo) returns (done: Todo)
    requires store.Valid() && store.todos == map[todo.id := todo] && todo.userId == uid
    modifies store
    ensures store.Valid() && store.boards == old(store.boards)
    ensures done == todo.(status := TodoModel.Completed) && store.todos == map[todo.id := done]
  {
    TodoModel.StatusOnlyUpdate(todo, TodoModel.Completed);
    var r := store.UpdateTodo(uid, todo.id, TodoModel.Patch(None, None, Some("completed"), None, None));
    assert r.Ok?;
    done := r.data;
  }

  /** The board is created and a todo added to it and completed: the fresh store then holds the
      board and that one completed todo. */
  method CompletedTodoOnNewBoard(uid: string, boardName: string, title: string, now: nat)
    returns (store: Store, boardId: Id, done: Todo)
    requires uid != "" && Utf16Length(Trim(boardName)) >= BoardModel.MinNameLength && Trim(title) != ""
    ensures fresh(store) && store.Valid()
    ensures boardId in store.boards && store.boards[boardId].userId == uid
    ensures store.todos == map[done.id := done]
    ensures done.boardId == boardId && done.status == TodoModel.Completed
  {
    store := new Store();
    boardId := AddBoard(store, uid, boardName, now);
    var todo := AddTodo(store, uid, boardId, title, now + 1);
    done := Complete(store, uid, todo);
  }

  /** With its only todo completed, the board's pending filter finds nothing. */
  method PendingOfCompleted(store: Store, uid: string, boardId: Id, done: Todo, pendingFilter: string)
    returns (r: Outcome<seq<Todo>>)
    requires store.Valid() && ToLower(pendingFilter) == "pending"
    requires boardId in store.boards && store.boards[boardId].userId == uid
    requires store.todos == map[done.id := done] && done.status == TodoModel.Completed
    ensures r == Ok([])
  {
    r := store.GetTodos(uid, boardId, Some(pendingFilter));
    StatusFilterSelects(boardId, pendingFilter, TodoModel.Pending, done);
    NothingMatches(r.data, store.todos, Query(boardId, Some(pendingFilter)));
  }

  /** Once the owner deletes the board, its todos are gone and the board is not found. */
  method DeleteOnlyBoard(store: Store, uid: string, boardId: Id, done: Todo)
    returns (afterDelete: Outcome<seq<Todo>>, todosLeft: nat)
    requires store.Valid() && boardId in store.boards && store.boards[boardId].userId == uid
    requires store.todos == map[done.id := done] && done.boardId == boardId
    modifies store
    ensures afterDelete == NotFound(BoardNotFound) && todosLeft == 0
  {
    CascadeOfOnlyTodo(done.id, done);
    var deleted := store.DeleteBoard(uid, boardId);
    assert deleted.Ok?;
    afterDelete := store.GetTodos(uid, boardId, None);
    todosLeft := |store.todos|;
  }

  /** The whole session: after the todo is completed the pending filter finds nothing, another
      user is refused the board's todos, and once the board is deleted it is gone, todos and all. */
  method BoardLifecycle(uid: string, intruder: string, boardName: string, title: string,
                        pendingFilter: string, now: nat)
    returns (pendingAfterToggle: Outcome<seq<Todo>>, seenByIntruder: Outcome<seq<Todo>>,
             afterDelete: Outcome<seq<Todo>>, todosLeft: nat)
    requires uid != "" && intruder != uid
    requires Utf16Length(Trim(boardName)) >= BoardModel.MinNameLength && Trim(title) != ""
    requires ToLower(pendingFilter) == "pending"
    ensures pendingAfterToggle == Ok([])
    ensures seenByIntruder == Unauthorized(NotAuthorized)
    ensures afterDelete == NotFound(BoardNotFound)
    ensures todosLeft == 0
  {
    var store, boardId, done := CompletedTodoOnNewBoard(uid, boardName, title, now);
    pendingAfterToggle := PendingOfCompleted(store, uid, boardId, done, pendingFilter);
    seenByIntruder := store.GetTodos(intruder, boardId, None);
    afterDelete, todosLeft := DeleteOnlyBoard(store, uid, boardId, done);
  }
}
