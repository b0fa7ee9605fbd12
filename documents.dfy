/** What the two Mongoose schemas share: document ids and the text of a schema validation failure. */
module Documents {
  import opened Wrappers

  /** A document's `_id`. The store hands them out; here they are natural numbers. */
  type Id = nat

  /** One failed validator: the schema path and the validator's message. */
  datatype FieldError = FieldError(path: string, message: string)

  /** The `path: message` pairs of a validation failure, separated by ", ". */
  function Describe(errors: seq<FieldError>): string
    decreases |errors|
  {
    if errors == [] then []
    else
      var head := errors[0].path + ": " + errors[0].message;
      if |errors| == 1 then head else head + ", " + Describe(errors[1..])
  }

  /** The message of the `ValidationError` a failed save or update throws,
      for example "Board validation failed: name: Board name is required". */
  function ValidationMessage(prefix: string, errors: seq<FieldError>): string {
    prefix + ": " + Describe(errors)
  }

  /** Mongoose's default message for a `required` path. */
  function RequiredMessage(path: string): string {
    "Path `" + path + "` is required."
  }

  /** The `userId` path both schemas declare as a required string. */
  function UserIdError(userId: string): (r: Option<FieldError>)
    ensures r.None? <==> userId != ""
  {
    if userId == [] then Some(FieldError("userId", RequiredMessage("userId"))) else None
  }

  /** The errors of the paths that failed, in schema order. */
  function Collect(errors: seq<Option<FieldError>>): (r: seq<FieldError>)
    ensures r == [] <==> forall i :: 0 <= i < |errors| ==> errors[i].None?
    decreases |errors|
  {
    if errors == [] then []
    else (if errors[0].Some? then [errors[0].value] else []) + Collect(errors[1..])
  }

  lemma CollectTwo(a: Option<FieldError>, b: Option<FieldError>)
    ensures Collect([a, b]) == [] <==> a.None? && b.None?
  {
    var s := [a, b];
    assert s[0] == a && s[1] == b;
    if a.None? && b.None? {
      assert forall i :: 0 <= i < |s| ==> s[i].None?;
    }
  }

  lemma CollectThree(a: Option<FieldError>, b: Option<FieldError>, c: Option<FieldError>)
    ensures Collect([a, b, c]) == [] <==> a.None? && b.None? && c.None?
  {
    var s := [a, b, c];
    assert s[0] == a && s[1] == b && s[2] == c;
    if a.None? && b.None? && c.None? {
      assert forall i :: 0 <= i < |s| ==> s[i].None?;
    }
  }
}
