/**
 * The error middleware: turns anything a handler forwarded into the JSON error
 * response. The environment flag is the value of NODE_ENV, if set. Logging is
 * not part of this model.
 */
module ErrorHandler {
  import opened Wrappers
  import opened Errors
  import opened Http

  const InvalidJsonMessage := "Formato JSON inválido. Verifica que el contenido enviado sea un JSON válido"
  const InternalErrorMessage := "Error interno del servidor"
  const InternalErrorStatus: nat := 500

  function StackOf(err: Fault): Option<string> {
    match err
    case AppFault(_, stack) => stack
    case SyntaxFault(_, _, stack) => stack
    case DuplicateKeyFault(_, stack) => stack
    case PlainFault(_, stack) => stack
  }

  predicate Development(nodeEnv: Option<string>) {
    nodeEnv == Some("development")
  }

  /**
   * A SyntaxError carrying `body` (the JSON parser's) gets 400 and a fixed
   * message. Anything else gets the status of its error class, or 500 when it
   * is not an application error, and its own message, or a fixed one when that
   * is empty. Only in development does the body also carry the stack and, for
   * application errors, the status code and the operational flag.
   */
  function HandleError(err: Fault, nodeEnv: Option<string>): (r: Response)
    ensures !r.body.Success()
    ensures err.SyntaxFault? && err.hasBody ==> r == Reject(400, InvalidJsonMessage)
    ensures !(err.SyntaxFault? && err.hasBody) ==>
              && r.status == (if err.AppFault? then err.error.Status() else InternalErrorStatus)
              && r.body.error == (if err.Message() == [] then InternalErrorMessage else err.Message())
              && r.body.stack == (if Development(nodeEnv) then StackOf(err) else None)
              && r.body.statusCode == (if Development(nodeEnv) && err.AppFault? then Some(err.error.Status()) else None)
              && r.body.isOperational == (if Development(nodeEnv) && err.AppFault? then Some(err.error.isOperational) else None)
  {
    if err.SyntaxFault? && err.hasBody then
      Response(400, ErrorBody(InvalidJsonMessage, None, None, None))
    else
      var statusCode := if err.AppFault? then err.error.Status() else InternalErrorStatus;
      var message := if err.Message() != [] then err.Message() else InternalErrorMessage;
      var body :=
        if Development(nodeEnv) then
          if err.AppFault? then ErrorBody(message, StackOf(err), Some(err.error.Status()), Some(err.error.isOperational))
          else ErrorBody(message, StackOf(err), None, None)
        else ErrorBody(message, None, None, None);
      Response(statusCode, body)
  }

  /** The status is always one of the five the service uses, and the error
      message is never empty. */
  lemma StatusAndMessage(err: Fault, nodeEnv: Option<string>)
    ensures HandleError(err, nodeEnv).status in {400, 401, 403, 404, 500}
    ensures HandleError(err, nodeEnv).body.error != []
    ensures HandleError(err, nodeEnv).status == 500 <==> !err.AppFault? && !(err.SyntaxFault? && err.hasBody)
  {
  }

  /** The environment changes only the extra fields of the body: the status and
      the message are the same in every environment, and outside development
      no extra field is written. */
  lemma EnvironmentOnlyAddsDetails(err: Fault, env1: Option<string>, env2: Option<string>)
    ensures HandleError(err, env1).status == HandleError(err, env2).status
    ensures HandleError(err, env1).body.error == HandleError(err, env2).body.error
    ensures !Development(env1) ==>
              var b := HandleError(err, env1).body;
              b.stack.None? && b.statusCode.None? && b.isOperational.None?
  {
  }

  /** An application error keeps its own status code and message. */
  lemma AppErrorPassesThrough(e: AppError, stack: Option<string>, nodeEnv: Option<string>)
    requires e.message != []
    ensures HandleError(AppFault(e, stack), nodeEnv).status == StatusCode(e.kind)
    ensures HandleError(AppFault(e, stack), nodeEnv).body.error == e.message
  {
  }
}
