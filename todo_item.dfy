/** One todo row (frontend/src/components/TodoItem.jsx): its local edit state, the status toggle,
    the save that skips unchanged edits, cancel, and delete. Each handler is a function from the
    component's state (and the API's reply, `None` when the request failed and an alert was shown)
    to the request it sends, what it reports to the list (`onUpdate` / `onDelete`) and its next state. */
module TodoItemView {
  import opened Wrappers
  import opened Strings
  import opened Documents
  import opened TodoModel

  /** The props' `todo` and the component's state: `isEditing`, the edited `title` and
      `description`, and whether the delete confirmation is open. */
  datatype View = View(todo: Todo, editing: bool, title: string, description: string, deleteModalOpen: bool)

  /** The initial state. `todo.description || ''` is the description itself: the schema default
      makes it a string, and the empty string is its own fallback. */
  function Mount(todo: Todo): (v: View)
    ensures v.todo == todo && !v.editing && !v.deleteModalOpen
    ensures v.title == todo.title && v.description == todo.description
  {
    View(todo, false, todo.title, todo.description, false)
  }

  function StartEdit(v: View): View {
    v.(editing := true)
  }

  /** The status the toggle asks for: a completed todo goes back to pending, any other to completed. */
  function ToggleTarget(s: Status): (r: Status)
    ensures s == Completed ==> r == Pending
    ensures s != Completed ==> r == Completed
    ensures r != s
  {
    if s == Completed then Pending else Completed
  }

  /** Toggling twice restores the status. */
  lemma ToggleTwice(s: Status)
    ensures ToggleTarget(ToggleTarget(s)) == s
  {
  }

  /** toggleStatus: the body `{ status: newStatus }` of `PUT /todos/:id`. */
  function ToggleRequest(v: View): (p: Patch)
    ensures p.title.None? && p.description.None? && p.boardId.None? && p.userId.None?
    ensures p.status.Some? && ParseStatus(p.status.value) == Some(ToggleTarget(v.todo.status))
  {
    ParseStatusName(ToggleTarget(v.todo.status));
    Patch(None, None, Some(StatusName(ToggleTarget(v.todo.status))), None, None)
  }

  /** What the server makes of a toggle: the same todo with only its status flipped,
      so two toggles in a row give the todo back. */
  lemma {:induction false} ToggleRoundTrip(t: Todo)
    ensures Update(t, ToggleRequest(Mount(t))) == Success(t.(status := ToggleTarget(t.status)))
    ensures Update(t.(status := ToggleTarget(t.status)),
                   ToggleRequest(Mount(t.(status := ToggleTarget(t.status))))) == Success(t)
  {
    StatusOnlyUpdate(t, ToggleTarget(t.status));
    var t' := t.(status := ToggleTarget(t.status));
    StatusOnlyUpdate(t', ToggleTarget(t'.status));
    ToggleTwice(t.status);
  }

  /** The edit is a no-op when the trimmed inputs equal the stored title and description. */
  predicate Unchanged(v: View) {
    Trim(v.title) == v.todo.title && Trim(v.description) == v.todo.description
  }

  /** The body `{ title, description }` of the save, sent untrimmed. */
  function EditRequest(v: View): Patch {
    Patch(Some(v.title), Some(v.description), None, None, None)
  }

  datatype EditStep = EditStep(request: Option<Patch>, updated: Option<Todo>, view: View)

  /** handleEdit. */
  function HandleEdit(v: View, reply: Option<Todo>): (r: EditStep)
    ensures Unchanged(v) ==> r == EditStep(None, None, v.(editing := false))
    ensures !Unchanged(v) ==> r.request == Some(EditRequest(v))
    ensures !Unchanged(v) ==> r.updated == reply
    ensures !Unchanged(v) ==> r.view == if reply.Some? then v.(editing := false) else v
  {
    if Unchanged(v) then EditStep(None, None, v.(editing := false))
    else match reply
      case Some(t) => EditStep(Some(EditRequest(v)), Some(t), v.(editing := false))
      case None => EditStep(Some(EditRequest(v)), None, v)
  }

  /** The cancel button: the inputs go back to the todo's values and edit mode ends. */
  function CancelEdit(v: View): (r: View)
    ensures r.todo == v.todo && r.deleteModalOpen == v.deleteModalOpen && !r.editing
    ensures r.title == v.todo.title && r.description == v.todo.description
  {
    v.(title := v.todo.title, description := v.todo.description, editing := false)
  }

  /** The no-op detection is exact for a stored todo: a save sends a request precisely when
      the server would not answer it with the todo unchanged. */
  lemma {:induction false} EditSendsExactlyWhenItChanges(v: View, reply: Option<Todo>)
    requires Valid(v.todo)
    ensures HandleEdit(v, reply).request.None? <==> Update(v.todo, EditRequest(v)) == Success(v.todo)
  {
    if Unchanged(v) {
      assert v.todo.title != "";
    }
  }

  /** Opening the editor and saving at once, or saving after a cancel, sends nothing:
      stored values are already trimmed, and trimming them again changes nothing. */
  lemma {:induction false} SaveAfterCancelSendsNothing(v: View, reply: Option<Todo>)
    requires Valid(v.todo)
    ensures HandleEdit(StartEdit(CancelEdit(v)), reply) == EditStep(None, None, CancelEdit(v))
    ensures HandleEdit(StartEdit(Mount(v.todo)), reply).request.None?
  {
    TrimFixesTrimmed(v.todo.title);
    TrimFixesTrimmed(v.todo.description);
  }

  datatype DeleteStep = DeleteStep(request: Id, deleted: Option<Id>, view: View)

  /** confirmDelete: `DELETE /todos/:id`, `onDelete(id)` on success, and the modal closes either way. */
  function ConfirmDelete(v: View, succeeded: bool): (r: DeleteStep)
    ensures r.request == v.todo.id
    ensures r.deleted == if succeeded then Some(v.todo.id) else None
    ensures r.view == v.(deleteModalOpen := false)
  {
    DeleteStep(v.todo.id, if succeeded then Some(v.todo.id) else None, v.(deleteModalOpen := false))
  }
}
