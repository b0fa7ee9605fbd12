/** The board sidebar (frontend/src/components/BoardList.jsx): creating a board, the delete
    confirmation, and the selection it reports through `onSelectBoard`. The selection itself is
    the parent's `selectedBoardId`; it is carried here as part of the state the handlers change.
    The handlers keep the invariant that a selected board is one the sidebar lists. */
module BoardListView {
  import opened Wrappers
  import opened Strings
  import opened Lists
  import opened Documents
  import opened BoardModel

  function BoardKey(b: Board): Id {
    b.id
  }

  /** `deleteModal`: whether the confirmation is open, and for which board. */
  datatype DeleteModal = DeleteModal(open: bool, id: Option<Id>)

  const Closed := DeleteModal(false, None)

  datatype View = View(boards: seq<Board>, newName: string, selected: Option<Id>, modal: DeleteModal)

  /** The selected board, if any, is listed. */
  ghost predicate SelectionListed(v: View) {
    v.selected.None? || HasId(v.boards, BoardKey, v.selected.value)
  }

  datatype CreateStep = CreateStep(request: Option<string>, view: View)

  /** handleCreateBoard: `POST /boards` with `{ name }` unless the name is blank; on success the
      board is prepended, the input cleared and the new board selected. */
  function HandleCreateBoard(v: View, reply: Option<Board>): (r: CreateStep)
    ensures r.request.Some? <==> Trim(v.newName) != ""
    ensures r.request.Some? ==> r.request.value == v.newName
    ensures r.request.None? || reply.None? ==> r.view == v
    ensures r.request.Some? && reply.Some? ==>
              && r.view.boards == [reply.value] + v.boards && r.view.newName == ""
              && r.view.selected == Some(reply.value.id) && r.view.modal == v.modal
    ensures SelectionListed(v) ==> SelectionListed(r.view)
  {
    if Trim(v.newName) == "" then CreateStep(None, v)
    else match reply
      case None => CreateStep(Some(v.newName), v)
      case Some(b) =>
        var r := v.(boards := [b] + v.boards, newName := "", selected := Some(b.id));
        assert BoardKey(r.boards[0]) == b.id;
        CreateStep(Some(v.newName), r)
  }

  /** A click on a listed board: `onSelectBoard(board._id)`. */
  function SelectBoard(v: View, i: nat): (r: View)
    requires i < |v.boards|
    ensures r.boards == v.boards && r.newName == v.newName && r.modal == v.modal
    ensures r.selected == Some(v.boards[i].id)
    ensures SelectionListed(r)
  {
    v.(selected := Some(v.boards[i].id))
  }

  /** handleDeleteClick: open the confirmation for that board; nothing else changes. */
  function HandleDeleteClick(v: View, id: Id): (r: View)
    ensures r.modal.open && r.modal.id == Some(id)
    ensures r.boards == v.boards && r.newName == v.newName && r.selected == v.selected
  {
    v.(modal := DeleteModal(true, Some(id)))
  }

  /** The modal's `onClose`. */
  function CloseDeleteModal(v: View): (r: View)
    ensures r.modal == Closed
    ensures r.boards == v.boards && r.newName == v.newName && r.selected == v.selected
  {
    v.(modal := Closed)
  }

  datatype DeleteStep = DeleteStep(request: Option<Id>, view: View)

  /** confirmDeleteBoard: nothing happens without a board id (the modal is left as it is);
      otherwise `DELETE /boards/:id` is sent, on success the board leaves the list and the
      selection is cleared if it was that board, and the modal closes whatever the outcome. */
  function ConfirmDeleteBoard(v: View, succeeded: bool): (r: DeleteStep)
    ensures v.modal.id.None? ==> r == DeleteStep(None, v)
    ensures v.modal.id.Some? ==> r.request == v.modal.id && r.view.modal == Closed && r.view.newName == v.newName
    ensures v.modal.id.Some? && succeeded ==>
              && r.view.boards == RemoveId(v.boards, BoardKey, v.modal.id.value)
              && r.view.selected == (if v.selected == v.modal.id then None else v.selected)
    ensures v.modal.id.Some? && !succeeded ==> r.view.boards == v.boards && r.view.selected == v.selected
    ensures v.modal.id.Some? && succeeded ==>
              && !HasId(r.view.boards, BoardKey, v.modal.id.value)
              && (r.view.selected.None? <==> v.selected.None? || v.selected == v.modal.id)
  {
    match v.modal.id
    case None => DeleteStep(None, v)
    case Some(id) =>
      if succeeded then
        var selected := if v.selected == Some(id) then None else v.selected;
        DeleteStep(Some(id), v.(boards := RemoveId(v.boards, BoardKey, id), selected := selected, modal := Closed))
      else DeleteStep(Some(id), v.(modal := Closed))
  }

  /** Deleting never leaves a selection that points at a board no longer listed. */
  lemma {:induction false} DeleteKeepsSelectionListed(v: View, succeeded: bool)
    requires SelectionListed(v)
    ensures SelectionListed(ConfirmDeleteBoard(v, succeeded).view)
  {
    var r := ConfirmDeleteBoard(v, succeeded).view;
    if v.modal.id.Some? && succeeded && r.selected.Some? {
      var id := v.modal.id.value;
      var s := v.selected.value;
      assert s != id;
      var i :| 0 <= i < |v.boards| && BoardKey(v.boards[i]) == s;
      assert v.boards[i] in v.boards;
      assert v.boards[i] in r.boards;
      var j :| 0 <= j < |r.boards| && r.boards[j] == v.boards[i];
    }
  }
}
