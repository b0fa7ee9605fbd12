/** The board and todo controllers (backend/src/controllers/boardController.js and
    backend/src/controllers/todoController.js) as methods of one in-memory document store.
    `req.user.uid` is the parameter `uid`, route parameters and body fields are parameters,
    and the store's clock is the parameter `now`. */
module Controllers {
  import opened Wrappers
  import opened Strings
  import opened Documents
  import opened Responses
  import BoardModel
  import TodoModel

  type Board = BoardModel.Board
  type Todo = TodoModel.Todo

  const AddBoardName := "Please add a board name"
  const AddTitle := "Please add a title"
  const BoardNotFound := "Board not found"
  const TodoNotFound := "Todo not found"
  const NotAuthorized := "User not authorized"

  /** JavaScript `!v` for a body field that is a string or absent. */
  predicate Falsy(v: Option<string>) {
    v.None? || v.value == ""
  }

  // ---------------------------------------------------------------------------------------------
  // The todo list query of getTodos

  /** The query object `{ boardId }` or `{ boardId, status }`. */
  datatype TodoQuery = TodoQuery(boardId: Id, status: Option<TodoModel.Status>)

  /** The status narrowing of getTodos: only a `status` that lower-cases to one of the two enum
      values narrows the query; an absent, empty or "all" value, and any other value, does not. */
  function StatusFilter(status: Option<string>): (r: Option<TodoModel.Status>)
    ensures r == Some(TodoModel.Pending) <==> status.Some? && ToLower(status.value) == "pending"
    ensures r == Some(TodoModel.Completed) <==> status.Some? && ToLower(status.value) == "completed"
  {
    if status.Some? && status.value != "" && status.value != "all" then
      var filter := ToLower(status.value);
      if filter == "pending" then Some(TodoModel.Pending)
      else if filter == "completed" then Some(TodoModel.Completed)
      else None
    else
      assert status.Some? ==> ToLower(status.value) == status.value by {
        if status.Some? && status.value == "all" {
          assert ToLower("all")[0] == 'a' && ToLower("all")[1] == 'l' && ToLower("all")[2] == 'l';
        }
      }
      None
  }

  function Query(boardId: Id, status: Option<string>): TodoQuery {
    TodoQuery(boardId, StatusFilter(status))
  }

  /** The documents `Todo.find(query)` selects. */
  predicate Matches(q: TodoQuery, t: Todo) {
    t.boardId == q.boardId && (q.status.None? || t.status == q.status.value)
  }

  // ---------------------------------------------------------------------------------------------
  // find(...).sort({ createdAt: -1 }) over one collection

  ghost predicate Distinct(ks: seq<Id>) {
    forall i, j :: 0 <= i < j < |ks| ==> ks[i] != ks[j]
  }

  /** Keys of `m`, newest document first. */
  ghost predicate NewestFirst<T>(ks: seq<Id>, m: map<Id, T>, createdAt: T -> nat) {
    && (forall i :: 0 <= i < |ks| ==> ks[i] in m)
    && (forall i, j :: 0 <= i < j < |ks| ==> createdAt(m[ks[i]]) >= createdAt(m[ks[j]]))
  }

  lemma DistinctCons(x: Id, ks: seq<Id>)
    requires x !in ks && Distinct(ks)
    ensures Distinct([x] + ks)
  {
    var r := [x] + ks;
    forall i, j | 0 <= i < j < |r| ensures r[i] != r[j] {
      assert r[j] == ks[j - 1];
      if i > 0 { assert r[i] == ks[i - 1]; }
    }
  }

  lemma NewestFirstCons<T>(x: Id, ks: seq<Id>, m: map<Id, T>, createdAt: T -> nat)
    requires x in m && NewestFirst(ks, m, createdAt)
    requires forall i :: 0 <= i < |ks| ==> createdAt(m[x]) >= createdAt(m[ks[i]])
    ensures NewestFirst([x] + ks, m, createdAt)
  {
    var r := [x] + ks;
    forall i, j | 0 <= i < j < |r| ensures createdAt(m[r[i]]) >= createdAt(m[r[j]]) {
      assert r[j] == ks[j - 1];
      if i > 0 { assert r[i] == ks[i - 1]; }
    }
  }

  /** Places `k` before the first key that is not newer than it. */
  function InsertNewestFirst<T>(ks: seq<Id>, k: Id, m: map<Id, T>, createdAt: T -> nat): (r: seq<Id>)
    requires k in m && NewestFirst(ks, m, createdAt)
    ensures NewestFirst(r, m, createdAt)
    ensures |r| == |ks| + 1 && forall x :: x in r <==> x == k || x in ks
    ensures k !in ks && Distinct(ks) ==> Distinct(r)
    decreases |ks|
  {
    if ks == [] || createdAt(m[ks[0]]) <= createdAt(m[k]) then
      assert k !in ks && Distinct(ks) ==> Distinct([k] + ks) by {
        if k !in ks && Distinct(ks) { DistinctCons(k, ks); }
      }
      [k] + ks
    else
      var rest := InsertNewestFirst(ks[1..], k, m, createdAt);
      forall i | 0 <= i < |rest| ensures createdAt(m[ks[0]]) >= createdAt(m[rest[i]]) {
        assert rest[i] in rest;
        if rest[i] != k {
          var j :| 0 <= j < |ks[1..]| && ks[1..][j] == rest[i];
          assert ks[j + 1] == rest[i];
        }
      }
      NewestFirstCons(ks[0], rest, m, createdAt);
      assert k !in ks && Distinct(ks) ==> Distinct([ks[0]] + rest) by {
        if k !in ks && Distinct(ks) {
          assert ks[0] !in ks[1..];
          DistinctCons(ks[0], rest);
        }
      }
      [ks[0]] + rest
  }

  /** The keys of the documents `matches` selects, each once, newest first. */
  method FindNewestFirst<T>(m: map<Id, T>, matches: T -> bool, createdAt: T -> nat) returns (ks: seq<Id>)
    ensures forall k :: k in ks <==> k in m && matches(m[k])
    ensures Distinct(ks)
    ensures NewestFirst(ks, m, createdAt)
  {
    ks := [];
    var unseen := m.Keys;
    while unseen != {}
      invariant unseen <= m.Keys
      invariant forall k :: k in ks <==> k in m && k !in unseen && matches(m[k])
      invariant Distinct(ks)
      invariant NewestFirst(ks, m, createdAt)
      decreases |unseen|
    {
      var k :| k in unseen;
      if matches(m[k]) {
        ks := InsertNewestFirst(ks, k, m, createdAt);
      }
      unseen := unseen - {k};
    }
  }

  function Lookup<T>(m: map<Id, T>, ks: seq<Id>): (r: seq<T>)
    requires forall i :: 0 <= i < |ks| ==> ks[i] in m
    ensures |r| == |ks| && forall i :: 0 <= i < |ks| ==> r[i] == m[ks[i]]
  {
    seq(|ks|, i requires 0 <= i < |ks| => m[ks[i]])
  }

  /** `Todo.deleteMany({ boardId })`: the todos of every other board, untouched. */
  function RemoveBoardTodos(todos: map<Id, Todo>, boardId: Id): (r: map<Id, Todo>)
    ensures forall k :: k in r <==> k in todos && todos[k].boardId != boardId
    ensures forall k :: k in r ==> r[k] == todos[k]
  {
    map k | k in todos && todos[k].boardId != boardId :: todos[k]
  }

  /** Every stored document is keyed by its own id, passed its schema, and has an id
      the generator has already handed out. */
  ghost predicate Consistent(boards: map<Id, Board>, todos: map<Id, Todo>, nextId: Id) {
    && (forall k :: k in boards ==> boards[k].id == k && k < nextId && BoardModel.Valid(boards[k]))
    && (forall k :: k in todos ==> todos[k].id == k && k < nextId && TodoModel.Valid(todos[k]))
    && boards.Keys !! todos.Keys
  }

  /** Storing a valid document under a fresh id and advancing the generator keeps the store consistent. */
  lemma AddTodoKeepsConsistent(boards: map<Id, Board>, todos: map<Id, Todo>, nextId: Id, t: Todo)
    requires Consistent(boards, todos, nextId) && t.id == nextId && TodoModel.Valid(t)
    ensures Consistent(boards, todos[nextId := t], nextId + 1)
  {
    assert nextId !in boards;
  }

  lemma AddBoardKeepsConsistent(boards: map<Id, Board>, todos: map<Id, Todo>, nextId: Id, b: Board)
    requires Consistent(boards, todos, nextId) && b.id == nextId && BoardModel.Valid(b)
    ensures Consistent(boards[nextId := b], todos, nextId + 1)
  {
    assert nextId !in todos;
  }

  // ---------------------------------------------------------------------------------------------

  /** The two collections. `nextId` is the store's id generator: ids are unique across both. */
  class Store {
    var boards: map<Id, Board>
    var todos: map<Id, Todo>
    var nextId: Id

    ghost predicate Valid()
      reads this
    {
      Consistent(boards, todos, nextId)
    }

    constructor ()
      ensures Valid() && boards == map[] && todos == map[]
    {
      boards, todos, nextId := map[], map[], 0;
    }

    // ------------------------------------------------------------------------------ boards

    /** getBoards: the caller's boards, each once, newest first. */
    method GetBoards(uid: string) returns (r: Outcome<seq<Board>>)
      requires Valid()
      ensures r.Ok?
      ensures forall b :: b in r.data <==> b in boards.Values && b.userId == uid
      ensures forall i, j :: 0 <= i < j < |r.data| ==> r.data[i].createdAt >= r.data[j].createdAt
      ensures forall i, j :: 0 <= i < j < |r.data| ==> r.data[i].id != r.data[j].id
    {
      var ks := FindNewestFirst(boards, (b: Board) => b.userId == uid, (b: Board) => b.createdAt);
      var data := Lookup(boards, ks);
      forall b | b in boards.Values && b.userId == uid ensures b in data {
        var k :| k in boards && boards[k] == b;
        var j :| 0 <= j < |ks| && ks[j] == k;
        assert data[j] == b;
      }
      r := Ok(data);
    }

    /** createBoard. */
    method CreateBoard(uid: string, name: Option<string>, now: nat) returns (r: Outcome<Board>)
      requires Valid()
      modifies this
      ensures Valid()
      ensures todos == old(todos)
      ensures Falsy(name) ==> r == BadRequest(AddBoardName)
      ensures r.Created? <==> !Falsy(name) && Utf16Length(Trim(name.value)) >= BoardModel.MinNameLength && uid != ""
      ensures r.Created? ==> && r.data.id !in old(boards) && boards == old(boards)[r.data.id := r.data]
                             && r.data.name == Trim(name.value) && r.data.userId == uid
                             && r.data.createdAt == now && nextId == old(nextId) + 1
      ensures !Falsy(name) && !r.Created? ==> r == Thrown(BoardModel.Create(old(nextId), name.value, uid, now).error)
      ensures !r.Created? ==> boards == old(boards) && nextId == old(nextId)
    {
      if Falsy(name) {
        return BadRequest(AddBoardName);
      }
      match BoardModel.Create(nextId, name.value, uid, now)
      case Failure(message) =>
        r := Thrown(message);
      case Success(board) =>
        AddBoardKeepsConsistent(boards, todos, nextId, board);
        boards := boards[board.id := board];
        nextId := nextId + 1;
        r := Created(board);
    }

    /** updateBoard: existence first, then ownership, then the validated update. */
    method UpdateBoard(uid: string, id: Id, patch: BoardModel.Patch) returns (r: Outcome<Board>)
      requires Valid()
      modifies this
      ensures Valid()
      ensures todos == old(todos) && nextId == old(nextId)
      ensures id !in old(boards) ==> r == NotFound(BoardNotFound)
      ensures id in old(boards) && old(boards)[id].userId != uid ==> r == Unauthorized(NotAuthorized)
      ensures id in old(boards) && old(boards)[id].userId == uid ==>
                match BoardModel.Update(old(boards)[id], patch)
                case Success(b) => r == Ok(b) && boards == old(boards)[id := b]
                case Failure(message) => r == Thrown(message)
      ensures !r.Ok? ==> boards == old(boards)
    {
      if id !in boards {
        return NotFound(BoardNotFound);
      }
      var board := boards[id];
      if board.userId != uid {
        return Unauthorized(NotAuthorized);
      }
      match BoardModel.Update(board, patch)
      case Failure(message) =>
        r := Thrown(message);
      case Success(updated) =>
        boards := boards[id := updated];
        r := Ok(updated);
    }

    /** deleteBoard: after the same two checks, the board's todos go first, then the board. */
    method DeleteBoard(uid: string, id: Id) returns (r: Outcome<()>)
      requires Valid()
      modifies this
      ensures Valid()
      ensures nextId == old(nextId)
      ensures id !in old(boards) ==> r == NotFound(BoardNotFound)
      ensures id in old(boards) && old(boards)[id].userId != uid ==> r == Unauthorized(NotAuthorized)
      ensures r.Ok? <==> id in old(boards) && old(boards)[id].userId == uid
      ensures r.Ok? ==> boards == old(boards) - {id} && todos == RemoveBoardTodos(old(todos), id)
      ensures !r.Ok? ==> boards == old(boards) && todos == old(todos)
    {
      if id !in boards {
        return NotFound(BoardNotFound);
      }
      var board := boards[id];
      if board.userId != uid {
        return Unauthorized(NotAuthorized);
      }
      todos := RemoveBoardTodos(todos, board.id);
      boards := boards - {id};
      r := Ok(());
    }

    // ------------------------------------------------------------------------------ todos

    /** getTodos: existence and ownership of the board, then the board's todos matching the
        status filter, each once, newest first. */
    method GetTodos(uid: string, boardId: Id, status: Option<string>) returns (r: Outcome<seq<Todo>>)
      requires Valid()
      ensures boardId !in boards ==> r == NotFound(BoardNotFound)
      ensures boardId in boards && boards[boardId].userId != uid ==> r == Unauthorized(NotAuthorized)
      ensures r.Ok? <==> boardId in boards && boards[boardId].userId == uid
      ensures r.Ok? ==> forall t :: t in r.data <==> t in todos.Values && Matches(Query(boardId, status), t)
      ensures r.Ok? ==> forall i, j :: 0 <= i < j < |r.data| ==> r.data[i].createdAt >= r.data[j].createdAt
      ensures r.Ok? ==> forall i, j :: 0 <= i < j < |r.data| ==> r.data[i].id != r.data[j].id
    {
      if boardId !in boards {
        return NotFound(BoardNotFound);
      }
      if boards[boardId].userId != uid {
        return Unauthorized(NotAuthorized);
      }
      var query := Query(boardId, status);
      var ks := FindNewestFirst(todos, (t: Todo) => Matches(query, t), (t: Todo) => t.createdAt);
      var data := Lookup(todos, ks);
      forall t | t in todos.Values && Matches(query, t) ensures t in data {
        var k :| k in todos && todos[k] == t;
        var j :| 0 <= j < |ks| && ks[j] == k;
        assert data[j] == t;
      }
      r := Ok(data);
    }

    /** createTodo: the title check comes before the board lookup. */
    method CreateTodo(uid: string, boardId: Id, title: Option<string>, description: Option<string>, now: nat)
      returns (r: Outcome<Todo>)
      requires Valid()
      modifies this
      ensures Valid()
      ensures boards == old(boards)
      ensures Falsy(title) ==> r == BadRequest(AddTitle)
      ensures !Falsy(title) && boardId !in old(boards) ==> r == NotFound(BoardNotFound)
      ensures !Falsy(title) && boardId in old(boards) && old(boards)[boardId].userId != uid
              ==> r == Unauthorized(NotAuthorized)
      ensures r.Created? <==> && !Falsy(title) && boardId in old(boards)
                              && old(boards)[boardId].userId == uid && Trim(title.value) != ""
      ensures r.Created? ==> && r.data.id !in old(todos) && todos == old(todos)[r.data.id := r.data]
                             && r.data.status == TodoModel.Pending && r.data.userId == uid
                             && r.data.boardId == boardId && r.data.title == Trim(title.value)
                             && r.data.description == TodoModel.StoredDescription(description)
                             && r.data.createdAt == now && nextId == old(nextId) + 1
      ensures && !Falsy(title) && boardId in old(boards) && old(boards)[boardId].userId == uid
              && !r.Created? ==>
                r == Thrown(TodoModel.BlankTitleMessage())
      ensures !r.Created? ==> todos == old(todos) && nextId == old(nextId)
    {
      if Falsy(title) {
        return BadRequest(AddTitle);
      }
      if boardId !in boards {
        return NotFound(BoardNotFound);
      }
      var board := boards[boardId];
      if board.userId != uid {
        return Unauthorized(NotAuthorized);
      }
      assert uid != "" && TodoModel.ParseStatus("pending").Some?;
      match TodoModel.Create(nextId, title.value, description, Some("pending"), boardId, uid, now)
      case Failure(message) =>
        TodoModel.BlankTitleFails(nextId, title.value, description, boardId, uid, now);
        r := Thrown(message);
      case Success(todo) =>
        AddTodoKeepsConsistent(boards, todos, nextId, todo);
        todos := todos[todo.id := todo];
        nextId := nextId + 1;
        r := Created(todo);
    }

    /** updateTodo: the todo is looked up by its own id and its own `userId` is checked. */
    method UpdateTodo(uid: string, id: Id, patch: TodoModel.Patch) returns (r: Outcome<Todo>)
      requires Valid()
      modifies this
      ensures Valid()
      ensures boards == old(boards) && nextId == old(nextId)
      ensures id !in old(todos) ==> r == NotFound(TodoNotFound)
      ensures id in old(todos) && old(todos)[id].userId != uid ==> r == Unauthorized(NotAuthorized)
      ensures id in old(todos) && old(todos)[id].userId == uid ==>
                match TodoModel.Update(old(todos)[id], patch)
                case Success(t) => r == Ok(t) && todos == old(todos)[id := t]
                case Failure(message) => r == Thrown(message)
      ensures !r.Ok? ==> todos == old(todos)
    {
      if id !in todos {
        return NotFound(TodoNotFound);
      }
      var todo := todos[id];
      if todo.userId != uid {
        return Unauthorized(NotAuthorized);
      }
      match TodoModel.Update(todo, patch)
      case Failure(message) =>
        r := Thrown(message);
      case Success(updated) =>
        todos := todos[id := updated];
        r := Ok(updated);
    }

    /** deleteTodo: removes exactly that todo. */
    method DeleteTodo(uid: string, id: Id) returns (r: Outcome<()>)
      requires Valid()
      modifies this
      ensures Valid()
      ensures boards == old(boards) && nextId == old(nextId)
      ensures id !in old(todos) ==> r == NotFound(TodoNotFound)
      ensures id in old(todos) && old(todos)[id].userId != uid ==> r == Unauthorized(NotAuthorized)
      ensures r.Ok? <==> id in old(todos) && old(todos)[id].userId == uid
      ensures r.Ok? ==> todos == old(todos) - {id}
      ensures !r.Ok? ==> todos == old(todos)
    {
      if id !in todos {
        return NotFound(TodoNotFound);
      }
      var todo := todos[id];
      if todo.userId != uid {
        return Unauthorized(NotAuthorized);
      }
      todos := todos - {id};
      r := Ok(());
    }
  }

  // ---------------------------------------------------------------------------------------------
  // Properties of the query and of the cascade

  /** The status filter narrows the query exactly when the value lower-cases to an enum value;
      "all", the empty string and any other value leave every todo of the board selected. */
  lemma {:induction false} StatusFilterNarrowsOnlyOnEnum(boardId: Id, status: Option<string>, t: Todo)
    requires status.None? || (ToLower(status.value) != "pending" && ToLower(status.value) != "completed")
    ensures Matches(Query(boardId, status), t) <==> t.boardId == boardId
  {
    assert StatusFilter(status).None?;
  }

  /** With a status that lower-cases to an enum value, exactly the board's todos of that status match. */
  lemma StatusFilterSelects(boardId: Id, status: string, s: TodoModel.Status, t: Todo)
    requires ToLower(status) == TodoModel.StatusName(s)
    ensures Matches(Query(boardId, Some(status)), t) <==> t.boardId == boardId && t.status == s
  {
  }

  /** The filter is case-insensitive: "Completed" and "COMPLETED" narrow like "completed". */
  lemma StatusFilterCaseInsensitive()
    ensures StatusFilter(Some("COMPLETED")) == Some(TodoModel.Completed)
    ensures StatusFilter(Some("Pending")) == Some(TodoModel.Pending)
    ensures StatusFilter(Some("all")) == None && StatusFilter(Some("bogus")) == None
  {
    LowerCompleted();
    LowerPending();
    LowerBogus();
  }

  lemma LowerPending()
    ensures ToLower("Pending") == "pending"
  {
    var s := ToLower("Pending");
    assert s[0] == 'p' && s[1] == 'e' && s[2] == 'n' && s[3] == 'd';
    assert s[4] == 'i' && s[5] == 'n' && s[6] == 'g';
  }

  lemma LowerBogus()
    ensures ToLower("bogus") == "bogus"
  {
    var s := ToLower("bogus");
    assert s[0] == 'b' && s[1] == 'o' && s[2] == 'g' && s[3] == 'u' && s[4] == 's';
  }

  lemma LowerCompleted()
    ensures ToLower("COMPLETED") == "completed"
  {
    var s := ToLower("COMPLETED");
    assert |s| == 9;
    assert s[0] == 'c' && s[1] == 'o' && s[2] == 'm' && s[3] == 'p' && s[4] == 'l';
    assert s[5] == 'e' && s[6] == 't' && s[7] == 'e' && s[8] == 'd';
  }
}
