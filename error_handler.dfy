/** The centralised error responder (backend/src/middleware/errorHandler.js). */
module ErrorHandler {
  import opened Wrappers

  /** The thrown JavaScript `Error`, as far as the responder reads it. */
  datatype Error = Error(message: string, stack: Option<string>)

  /** The response the responder writes: its HTTP status and the JSON body
      `{ success, error, stack }`, where `stack: None` is JSON `null`. */
  datatype Envelope = Envelope(status: int, success: bool, error: string, stack: Option<string>)

  predicate IsProduction(nodeEnv: Option<string>) {
    nodeEnv == Some("production")
  }

  /** `errorHandler(err, req, res, next)` given the status already set on `res` and `NODE_ENV`.
      A status still at its default of 200 becomes 500; any other status is kept. */
  function Handle(resStatus: int, err: Error, nodeEnv: Option<string>): (r: Envelope)
    ensures resStatus == 200 ==> r.status == 500
    ensures resStatus != 200 ==> r.status == resStatus
    ensures !r.success && r.error == err.message
    ensures IsProduction(nodeEnv) ==> r.stack.None?
    ensures !IsProduction(nodeEnv) ==> r.stack == err.stack
  {
    var status := if resStatus == 200 then 500 else resStatus;
    Envelope(status, false, err.message, if IsProduction(nodeEnv) then None else err.stack)
  }

  /** The responder never reports success: no error reply carries status 200. */
  lemma HandleNeverOk(resStatus: int, err: Error, nodeEnv: Option<string>)
    ensures Handle(resStatus, err, nodeEnv).status != 200
  {
  }
}
