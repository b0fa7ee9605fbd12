/** How a controller's outcome reaches the client. A handler either answers itself with
    `res.status(200 | 201).json({ success: true, data })`, or sets `res.status(400 | 401 | 404)`,
    throws, and its `catch` passes the error to `next`, so that the centralised responder writes
    the envelope. A store failure (a schema validation error, say) is thrown without any status
    having been set, so it reaches the responder with the default status 200. */
module Responses {
  import opened Wrappers
  import ErrorHandler

  /** What a handler does, with the message of the `Error` it throws. */
  datatype Outcome<+T> =
    | Ok(data: T)
    | Created(data: T)
    | BadRequest(message: string)
    | NotFound(message: string)
    | Unauthorized(message: string)
    | Thrown(message: string)

  /** `res.statusCode` at the moment the handler answers or calls `next(error)`. */
  function StatusSet<T>(o: Outcome<T>): int {
    match o
    case Ok(_) => 200
    case Created(_) => 201
    case BadRequest(_) => 400
    case NotFound(_) => 404
    case Unauthorized(_) => 401
    case Thrown(_) => 200
  }

  function Message<T>(o: Outcome<T>): string
    requires !o.Ok? && !o.Created?
  {
    match o
    case BadRequest(m) => m
    case NotFound(m) => m
    case Unauthorized(m) => m
    case Thrown(m) => m
  }

  /** The reply on the wire: `{ success: true, data }` with its status, or the responder's envelope. */
  datatype Reply<+T> = Json(status: int, data: T) | Failed(envelope: ErrorHandler.Envelope)

  /** The HTTP reply for an outcome; `stack` is the thrown error's stack trace and `nodeEnv` is `NODE_ENV`. */
  function Respond<T>(o: Outcome<T>, stack: Option<string>, nodeEnv: Option<string>): (r: Reply<T>)
    ensures r.Json? <==> o.Ok? || o.Created?
    ensures o.Ok? ==> r == Json(200, o.data)
    ensures o.Created? ==> r == Json(201, o.data)
    ensures r.Failed? ==> !r.envelope.success && r.envelope.error == Message(o)
    ensures o.BadRequest? ==> r.Failed? && r.envelope.status == 400
    ensures o.NotFound? ==> r.Failed? && r.envelope.status == 404
    ensures o.Unauthorized? ==> r.Failed? && r.envelope.status == 401
    ensures o.Thrown? ==> r.Failed? && r.envelope.status == 500
  {
    if o.Ok? || o.Created? then Json(StatusSet(o), o.data)
    else Failed(ErrorHandler.Handle(StatusSet(o), ErrorHandler.Error(Message(o), stack), nodeEnv))
  }
}
