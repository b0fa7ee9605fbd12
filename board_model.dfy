/** The Board schema (backend/src/models/Board.js): a required, trimmed `name` whose JavaScript
    length (UTF-16 code units, as `minlength` counts them) is at least three, a required `userId`,
    and the store-managed `createdAt` timestamp. */
module BoardModel {
  import opened Wrappers
  import opened Strings
  import opened Documents

  datatype Board = Board(id: Id, name: string, userId: string, createdAt: nat)

  const MinNameLength: nat := 3

  /** What the schema admits into the store. */
  predicate Valid(b: Board) {
    IsTrimmed(b.name) && Utf16Length(b.name) >= MinNameLength && b.userId != ""
  }

  /** The `name` validators, run on the value the `trim` setter produced: `required`, then `minlength`. */
  function NameError(name: string): (r: Option<FieldError>)
    ensures r.None? <==> Utf16Length(name) >= MinNameLength
  {
    if name == [] then Some(FieldError("name", "Board name is required"))
    else if Utf16Length(name) < MinNameLength then Some(FieldError("name", "Board name must be at least 3 characters"))
    else None
  }

  /** `Board.create({ name, userId })`: the document stored, or the message of the validation error thrown. */
  function Create(id: Id, name: string, userId: string, now: nat): (r: Result<Board, string>)
    ensures r.Success? <==> Utf16Length(Trim(name)) >= MinNameLength && userId != ""
    ensures r.Success? ==> Valid(r.value)
    ensures r.Success? ==> r.value.id == id && r.value.name == Trim(name)
                           && r.value.userId == userId && r.value.createdAt == now
  {
    var nameCheck := NameError(Trim(name));
    var userIdCheck := UserIdError(userId);
    var errors := Collect([nameCheck, userIdCheck]);
    CollectTwo(nameCheck, userIdCheck);
    if errors == [] then Success(Board(id, Trim(name), userId, now))
    else Failure(ValidationMessage("Board validation failed", errors))
  }

  /** The schema paths an update body can set; Mongoose's strict mode drops every other field.
      Note that `userId` is among them. */
  datatype Patch = Patch(name: Option<string>, userId: Option<string>)

  /** `findByIdAndUpdate(id, body, { new: true, runValidators: true })` on one board:
      the setters and validators run on the paths the body sets, the other fields are kept. */
  function Update(b: Board, p: Patch): (r: Result<Board, string>)
    ensures r.Success? <==> (p.name.None? || Utf16Length(Trim(p.name.value)) >= MinNameLength)
                            && (p.userId.None? || p.userId.value != "")
    ensures r.Success? ==> r.value.id == b.id && r.value.createdAt == b.createdAt
    ensures r.Success? ==> r.value.name == (if p.name.Some? then Trim(p.name.value) else b.name)
    ensures r.Success? ==> r.value.userId == (if p.userId.Some? then p.userId.value else b.userId)
    ensures r.Success? && Valid(b) ==> Valid(r.value)
  {
    var name := if p.name.Some? then Trim(p.name.value) else b.name;
    var userId := if p.userId.Some? then p.userId.value else b.userId;
    var nameCheck := if p.name.Some? then NameError(name) else None;
    var userIdCheck := if p.userId.Some? then UserIdError(userId) else None;
    var errors := Collect([nameCheck, userIdCheck]);
    CollectTwo(nameCheck, userIdCheck);
    if errors == [] then Success(b.(name := name, userId := userId))
    else Failure(ValidationMessage("Validation failed", errors))
  }

  /** The length bound sits exactly at three UTF-16 code units: a name with nothing to trim is
      accepted precisely when its JavaScript length is at least three, which for a name inside the
      Basic Multilingual Plane means at least three characters. */
  lemma NameLengthBoundary(name: string, userId: string, now: nat)
    requires IsTrimmed(name) && userId != ""
    ensures Create(0, name, userId, now).Success? <==> Utf16Length(name) >= 3
    ensures (forall i :: 0 <= i < |name| ==> name[i] <= '\U{FFFF}') ==>
              (Create(0, name, userId, now).Success? <==> |name| >= 3)
  {
    TrimFixesTrimmed(name);
    if forall i :: 0 <= i < |name| ==> name[i] <= '\U{FFFF}' {
      Utf16LengthOfBmp(name);
    }
  }

  /** A character outside the Basic Multilingual Plane counts twice: "a" followed by an emoji
      has JavaScript length 3 and is accepted, the emoji alone (length 2) and "ab" are not. */
  lemma SurrogatePairsCountTwice(userId: string, now: nat)
    requires userId != ""
    ensures Create(0, "a\U{1F600}", userId, now).Success?
    ensures Create(0, "\U{1F600}", userId, now).Failure?
    ensures Create(0, "ab", userId, now).Failure?
  {
    var emoji := "\U{1F600}";
    assert Utf16Length(emoji) == 2;
    AcceptedIffLongEnough(emoji, userId, now);
    var mixed := "a\U{1F600}";
    assert mixed[1..] == emoji;
    assert Utf16Length(mixed) == 3;
    AcceptedIffLongEnough(mixed, userId, now);
    AcceptedIffLongEnough("ab", userId, now);
  }

  lemma AcceptedIffLongEnough(name: string, userId: string, now: nat)
    requires userId != "" && 0 < |name| <= 2
    requires forall i :: 0 <= i < |name| ==> !IsWhitespace(name[i])
    ensures Create(0, name, userId, now).Success? <==> Utf16Length(name) >= 3
  {
    assert IsTrimmed(name);
    TrimFixesTrimmed(name);
  }
}
