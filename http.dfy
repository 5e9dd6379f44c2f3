/** The JSON envelopes the service answers with, and what a handler does with a request. */
module Http {
  import opened Wrappers
  import opened Domain
  import opened Errors

  datatype Payload =
    | TaskData(task: Task)
    | ListData(tasks: seq<Task>, pagination: Pagination)

  /**
   * `{ success: true, message?, data }` or `{ success: false, error, stack?,
   * statusCode?, isOperational? }`; an absent Option is a key that is not written.
   */
  datatype Body =
    | SuccessBody(message: Option<string>, data: Payload)
    | ErrorBody(error: string, stack: Option<string>, statusCode: Option<nat>, isOperational: Option<bool>)
  {
    predicate Success() { SuccessBody? }
  }

  datatype Response = Response(status: nat, body: Body)

  /** A handler either writes a response or passes the error to `next`. */
  datatype HandlerOutcome = Respond(response: Response) | Forward(fault: Fault)

  /** `res.status(status).json({ success: false, error })`, the controller's own rejections. */
  function Reject(status: nat, error: string): (r: Response)
    ensures r.status == status && !r.body.Success() && r.body.error == error
    ensures r.body.stack.None? && r.body.statusCode.None? && r.body.isOperational.None?
  {
    Response(status, ErrorBody(error, None, None, None))
  }
}
