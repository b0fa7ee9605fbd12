/** The todo list of one board (frontend/src/components/TodoList.jsx): the status filter, the
    fetch it drives, the create form, and the two callbacks its rows report to. The component
    keeps the invariant that every todo it shows is one its filter admits. */
module TodoListView {
  import opened Wrappers
  import opened Strings
  import opened Lists
  import opened Documents
  import opened TodoModel
  import Controllers
  import TodoItemView

  /** The three filter buttons: 'all', 'pending', 'completed'. */
  datatype Filter = All | Only(status: Status)

  /** The value sent as `?status=` when fetching. */
  function FilterName(f: Filter): string {
    match f
    case All => "all"
    case Only(s) => StatusName(s)
  }

  predicate Shows(f: Filter, t: Todo) {
    f.All? || t.status == f.status
  }

  ghost predicate AllShown(todos: seq<Todo>, f: Filter) {
    forall i :: 0 <= i < |todos| ==> Shows(f, todos[i])
  }

  function TodoKey(t: Todo): Id {
    t.id
  }

  /** The component's state: the todos shown, the filter, the create form's two inputs and
      whether the mobile add sheet is open. */
  datatype View = View(todos: seq<Todo>, filter: Filter, newTitle: string, newDescription: string,
                       mobileAddOpen: bool)

  /** fetchTodos: the server answers `GET /boards/:boardId/todos?status=<filter>` with exactly
      the todos of the board that the filter shows, so a fetched list keeps the invariant. */
  lemma {:induction false} FetchQueryAgrees(f: Filter, boardId: Id, t: Todo)
    ensures Controllers.Matches(Controllers.Query(boardId, Some(FilterName(f))), t)
            <==> t.boardId == boardId && Shows(f, t)
  {
    match f
    case All =>
      assert ToLower("all") == "all";
      Controllers.StatusFilterNarrowsOnlyOnEnum(boardId, Some("all"), t);
    case Only(s) =>
      assert ToLower(StatusName(s)) == StatusName(s);
      Controllers.StatusFilterSelects(boardId, StatusName(s), s, t);
  }

  /** The POST body `{ title, description }`, both sent as typed. */
  datatype NewTodo = NewTodo(title: string, description: string)

  datatype CreateStep = CreateStep(request: Option<NewTodo>, view: View)

  /** handleCreateTodo. `reply` is the created todo, or `None` when the request failed. */
  function HandleCreateTodo(v: View, reply: Option<Todo>): (r: CreateStep)
    ensures r.request.Some? <==> Trim(v.newTitle) != ""
    ensures r.request.Some? ==> r.request.value == NewTodo(v.newTitle, v.newDescription)
    ensures r.request.None? || reply.None? ==> r.view == v
    ensures r.request.Some? && reply.Some? ==>
              && r.view.filter == v.filter
              && r.view.todos == (if v.filter == Only(Completed) then v.todos else [reply.value] + v.todos)
              && r.view.newTitle == "" && r.view.newDescription == "" && !r.view.mobileAddOpen
  {
    if Trim(v.newTitle) == "" then CreateStep(None, v)
    else
      var request := Some(NewTodo(v.newTitle, v.newDescription));
      match reply
      case None => CreateStep(request, v)
      case Some(t) =>
        var todos := if v.filter == Only(Completed) then v.todos else [t] + v.todos;
        CreateStep(request, v.(todos := todos, newTitle := "", newDescription := "", mobileAddOpen := false))
  }

  /** The server creates todos pending, so a created todo is prepended only where the filter
      shows it, and the list keeps showing only what its filter admits. */
  lemma {:induction false} CreateKeepsShown(v: View, reply: Option<Todo>)
    requires AllShown(v.todos, v.filter)
    requires reply.Some? ==> reply.value.status == Pending
    ensures AllShown(HandleCreateTodo(v, reply).view.todos, HandleCreateTodo(v, reply).view.filter)
  {
    if reply.Some? {
      PrependKeepsShown(v.todos, v.filter, reply.value);
    }
  }

  /** Prepending a todo the filter shows keeps every listed todo shown. */
  lemma PrependKeepsShown(todos: seq<Todo>, f: Filter, t: Todo)
    ensures AllShown(todos, f) && Shows(f, t) ==> AllShown([t] + todos, f)
  {
    if AllShown(todos, f) && Shows(f, t) {
      forall i | 0 <= i < |[t] + todos| ensures Shows(f, ([t] + todos)[i]) {
        if i > 0 { assert ([t] + todos)[i] == todos[i - 1]; }
      }
    }
  }

  /** handleUpdateTodo: a todo the filter still shows is replaced in place, one it no longer
      shows is dropped. */
  function HandleUpdateTodo(v: View, updated: Todo): (r: View)
    ensures r.filter == v.filter && r.newTitle == v.newTitle && r.newDescription == v.newDescription
    ensures r.mobileAddOpen == v.mobileAddOpen
    ensures Shows(v.filter, updated) ==> r.todos == ReplaceId(v.todos, TodoKey, updated)
    ensures !Shows(v.filter, updated) ==> r.todos == RemoveId(v.todos, TodoKey, updated.id)
  {
    if v.filter == All then v.(todos := ReplaceId(v.todos, TodoKey, updated))
    else if FilterName(v.filter) != StatusName(updated.status) && v.filter != All then
      v.(todos := RemoveId(v.todos, TodoKey, updated.id))
    else v.(todos := ReplaceId(v.todos, TodoKey, updated))
  }

  lemma {:induction false} UpdateKeepsShown(v: View, updated: Todo)
    requires AllShown(v.todos, v.filter)
    ensures AllShown(HandleUpdateTodo(v, updated).todos, v.filter)
  {
    var r := HandleUpdateTodo(v, updated).todos;
    if !Shows(v.filter, updated) {
      forall i | 0 <= i < |r| ensures Shows(v.filter, r[i]) {
        assert r[i] in r;
        var j :| 0 <= j < |v.todos| && v.todos[j] == r[i];
      }
    }
  }

  /** A todo the filter no longer shows leaves the list, and the rest keep their order. */
  lemma {:induction false} UpdateHidesMismatch(v: View, updated: Todo)
    requires !Shows(v.filter, updated)
    ensures !HasId(HandleUpdateTodo(v, updated).todos, TodoKey, updated.id)
    ensures IsSubsequence(HandleUpdateTodo(v, updated).todos, v.todos)
    ensures UniqueIds(v.todos, TodoKey) && HasId(v.todos, TodoKey, updated.id) ==>
              |HandleUpdateTodo(v, updated).todos| == |v.todos| - 1
  {
    RemoveIdIsSubsequence(v.todos, TodoKey, updated.id);
    if UniqueIds(v.todos, TodoKey) && HasId(v.todos, TodoKey, updated.id) {
      RemovePresentId(v.todos, TodoKey, updated.id);
    }
  }

  /** An update for a todo the list does not hold changes nothing, whether or not the filter shows it. */
  lemma {:induction false} UpdateOfUnlistedIsNoop(v: View, updated: Todo)
    requires !HasId(v.todos, TodoKey, updated.id)
    ensures HandleUpdateTodo(v, updated) == v
  {
    if Shows(v.filter, updated) {
      ReplaceAbsentId(v.todos, TodoKey, updated);
    } else {
      RemoveAbsentId(v.todos, TodoKey, updated.id);
    }
  }

  /** handleDeleteTodo. */
  function HandleDeleteTodo(v: View, id: Id): (r: View)
    ensures r.filter == v.filter && r.newTitle == v.newTitle && r.newDescription == v.newDescription
    ensures r.mobileAddOpen == v.mobileAddOpen
    ensures forall t :: t in r.todos <==> t in v.todos && t.id != id
    ensures IsSubsequence(r.todos, v.todos)
    ensures AllShown(v.todos, v.filter) ==> AllShown(r.todos, r.filter)
  {
    var r := v.(todos := RemoveId(v.todos, TodoKey, id));
    RemoveIdIsSubsequence(v.todos, TodoKey, id);
    assert AllShown(v.todos, v.filter) ==> AllShown(r.todos, r.filter) by {
      if AllShown(v.todos, v.filter) {
        forall i | 0 <= i < |r.todos| ensures Shows(r.filter, r.todos[i]) {
          assert r.todos[i] in r.todos;
          var j :| 0 <= j < |v.todos| && v.todos[j] == r.todos[i];
        }
      }
    }
    r
  }

  /** Deleting a listed todo from a list with unique ids drops exactly that one, and the ids stay unique. */
  lemma {:induction false} DeleteDropsExactlyOne(v: View, id: Id)
    requires UniqueIds(v.todos, TodoKey) && HasId(v.todos, TodoKey, id)
    ensures |HandleDeleteTodo(v, id).todos| == |v.todos| - 1
    ensures UniqueIds(HandleDeleteTodo(v, id).todos, TodoKey)
  {
    RemovePresentId(v.todos, TodoKey, id);
    RemoveIdKeepsUnique(v.todos, TodoKey, id);
  }

  /** A row toggled under a status filter: the server flips its status, and the list then drops it. */
  lemma {:induction false} ToggleUnderFilterHidesRow(v: View, i: nat)
    requires v.filter.Only? && AllShown(v.todos, v.filter) && i < |v.todos|
    ensures var t := v.todos[i];
            var t' := t.(status := TodoItemView.ToggleTarget(t.status));
            && Update(t, TodoItemView.ToggleRequest(TodoItemView.Mount(t))) == Success(t')
            && !HasId(HandleUpdateTodo(v, t').todos, TodoKey, t.id)
  {
    var t := v.todos[i];
    var t' := t.(status := TodoItemView.ToggleTarget(t.status));
    TodoItemView.ToggleRoundTrip(t);
    assert Shows(v.filter, t);
    UpdateHidesMismatch(v, t');
  }

  /** Under 'all' a toggled row stays where it was, carrying the server's answer. */
  lemma {:induction false} ToggleUnderAllKeepsRow(v: View, i: nat)
    requires v.filter == All && i < |v.todos|
    ensures var t := v.todos[i];
            var t' := t.(status := TodoItemView.ToggleTarget(t.status));
            && |HandleUpdateTodo(v, t').todos| == |v.todos|
            && HandleUpdateTodo(v, t').todos[i] == t'
  {
  }
}
