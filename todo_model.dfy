/** The Todo schema (backend/src/models/Todo.js): a required, trimmed `title`; a trimmed `description`
    defaulting to the empty string; a `status` from the enum {pending, completed} defaulting to pending;
    required `boardId` and `userId`; and the store-managed `createdAt` timestamp. */
module TodoModel {
  import opened Wrappers
  import opened Strings
  import opened Documents

  datatype Status = Pending | Completed

  /** The enum value as the store and the API spell it. */
  function StatusName(s: Status): string {
    match s
    case Pending => "pending"
    case Completed => "completed"
  }

  /** The `enum` validator: exactly the two spellings, case-sensitive. */
  function ParseStatus(s: string): (r: Option<Status>)
    ensures r.Some? <==> s == "pending" || s == "completed"
    ensures r.Some? ==> StatusName(r.value) == s
  {
    if s == "pending" then Some(Pending)
    else if s == "completed" then Some(Completed)
    else None
  }

  lemma ParseStatusName(s: Status)
    ensures ParseStatus(StatusName(s)) == Some(s)
  {
  }

  datatype Todo = Todo(id: Id, title: string, description: string, status: Status,
                       boardId: Id, userId: string, createdAt: nat)

  /** What the schema admits into the store (the enum is enforced by the type of `status`). */
  predicate Valid(t: Todo) {
    IsTrimmed(t.title) && t.title != "" && IsTrimmed(t.description) && t.userId != ""
  }

  /** The `title` validator, run on the trimmed value. */
  function TitleError(title: string): (r: Option<FieldError>)
    ensures r.None? <==> title != ""
  {
    if title == [] then Some(TitleRequired) else None
  }

  const TitleRequired := FieldError("title", "Todo title is required")

  /** The only error of a creation whose title trims to nothing, while the rest is valid. */
  function BlankTitleMessage(): string {
    ValidationMessage("Todo validation failed", [TitleRequired])
  }

  function StatusError(status: string): (r: Option<FieldError>)
    ensures r.None? <==> ParseStatus(status).Some?
  {
    if ParseStatus(status).Some? then None
    else Some(FieldError("status", "`" + status + "` is not a valid enum value for path `status`."))
  }

  /** The `trim` setter and the default of `description`. */
  function StoredDescription(description: Option<string>): (r: string)
    ensures IsTrimmed(r)
    ensures description.None? ==> r == ""
    ensures description.Some? ==> r == Trim(description.value)
  {
    if description.Some? then Trim(description.value) else ""
  }

  /** `Todo.create({ title, description, boardId, userId, status })`: the document stored,
      or the message of the validation error thrown. */
  function Create(id: Id, title: string, description: Option<string>, status: Option<string>,
                  boardId: Id, userId: string, now: nat): (r: Result<Todo, string>)
    ensures r.Success? <==> Trim(title) != "" && (status.None? || ParseStatus(status.value).Some?)
                            && userId != ""
    ensures r.Success? ==> Valid(r.value)
    ensures r.Success? ==> && r.value.id == id && r.value.title == Trim(title)
                           && r.value.description == StoredDescription(description)
                           && r.value.status == (if status.Some? then ParseStatus(status.value).value else Pending)
                           && r.value.boardId == boardId && r.value.userId == userId
                           && r.value.createdAt == now
  {
    var titleCheck := TitleError(Trim(title));
    var statusCheck := if status.Some? then StatusError(status.value) else None;
    var userIdCheck := UserIdError(userId);
    var errors := Collect([titleCheck, statusCheck, userIdCheck]);
    CollectThree(titleCheck, statusCheck, userIdCheck);
    if errors == [] then
      var st := if status.Some? then ParseStatus(status.value).value else Pending;
      Success(Todo(id, Trim(title), StoredDescription(description), st, boardId, userId, now))
    else Failure(ValidationMessage("Todo validation failed", errors))
  }

  /** A title that trims to nothing is the one thing wrong with the controller's creation,
      which sets a valid status and the caller's uid; the error thrown names only the title. */
  lemma {:induction false} BlankTitleFails(id: Id, title: string, description: Option<string>,
                                           boardId: Id, userId: string, now: nat)
    requires Trim(title) == "" && userId != ""
    ensures Create(id, title, description, Some("pending"), boardId, userId, now) == Failure(BlankTitleMessage())
  {
    var errors := [TitleError(Trim(title)), StatusError("pending"), UserIdError(userId)];
    assert errors[1..] == [StatusError("pending"), UserIdError(userId)];
    CollectTwo(StatusError("pending"), UserIdError(userId));
  }

  /** The schema paths an update body can set; Mongoose's strict mode drops every other field. */
  datatype Patch = Patch(title: Option<string>, description: Option<string>, status: Option<string>,
                         boardId: Option<Id>, userId: Option<string>)

  /** `findByIdAndUpdate(id, body, { new: true, runValidators: true })` on one todo. */
  function Update(t: Todo, p: Patch): (r: Result<Todo, string>)
    ensures r.Success? <==> && (p.title.None? || Trim(p.title.value) != "")
                            && (p.status.None? || ParseStatus(p.status.value).Some?)
                            && (p.userId.None? || p.userId.value != "")
    ensures r.Success? ==> r.value.id == t.id && r.value.createdAt == t.createdAt
    ensures r.Success? ==> && r.value.title == (if p.title.Some? then Trim(p.title.value) else t.title)
                           && r.value.description == (if p.description.Some? then Trim(p.description.value) else t.description)
                           && r.value.status == (if p.status.Some? then ParseStatus(p.status.value).value else t.status)
                           && r.value.boardId == (if p.boardId.Some? then p.boardId.value else t.boardId)
                           && r.value.userId == (if p.userId.Some? then p.userId.value else t.userId)
    ensures r.Success? && Valid(t) ==> Valid(r.value)
  {
    var titleCheck := if p.title.Some? then TitleError(Trim(p.title.value)) else None;
    var statusCheck := if p.status.Some? then StatusError(p.status.value) else None;
    var userIdCheck := if p.userId.Some? then UserIdError(p.userId.value) else None;
    var errors := Collect([titleCheck, statusCheck, userIdCheck]);
    CollectThree(titleCheck, statusCheck, userIdCheck);
    if errors == [] then
      Success(t.(title := if p.title.Some? then Trim(p.title.value) else t.title,
                 description := if p.description.Some? then Trim(p.description.value) else t.description,
                 status := if p.status.Some? then ParseStatus(p.status.value).value else t.status,
                 boardId := if p.boardId.Some? then p.boardId.value else t.boardId,
                 userId := if p.userId.Some? then p.userId.value else t.userId))
    else Failure(ValidationMessage("Validation failed", errors))
  }

  /** Status is the only field a status-only update body touches. */
  lemma StatusOnlyUpdate(t: Todo, s: Status)
    ensures Update(t, Patch(None, None, Some(StatusName(s)), None, None)) == Success(t.(status := s))
  {
    ParseStatusName(s);
  }
}
