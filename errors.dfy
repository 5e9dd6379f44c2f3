/**
 * The operational error kinds of the service and every other value a handler
 * can throw. The four error classes share one base class that carries an HTTP
 * status code and an `isOperational` flag; here they are one tagged variant.
 */
module Errors {
  import opened Wrappers

  datatype AppErrorKind = BadRequest | Unauthorized | Forbidden | NotFound

  /** The status code each error class passes to its base class. */
  function StatusCode(kind: AppErrorKind): (code: nat)
    ensures 400 <= code < 500
    ensures code == 400 <==> kind == BadRequest
    ensures code == 401 <==> kind == Unauthorized
    ensures code == 403 <==> kind == Forbidden
    ensures code == 404 <==> kind == NotFound
  {
    match kind
    case BadRequest => 400
    case Unauthorized => 401
    case Forbidden => 403
    case NotFound => 404
  }

  /** The message each error class uses when constructed without one. */
  function DefaultMessage(kind: AppErrorKind): (m: string)
    ensures m != []
  {
    match kind
    case BadRequest => "Bad request"
    case Unauthorized => "Unauthorized access"
    case Forbidden => "Forbidden - Insufficient permissions"
    case NotFound => "Resource not found"
  }

  /** An instance of one of the error classes. */
  datatype AppError = AppError(kind: AppErrorKind, message: string, isOperational: bool) {
    function Status(): nat { StatusCode(kind) }
  }

  /** `new XError(message?)`: the constructors of the four classes, all operational. */
  function NewAppError(kind: AppErrorKind, message: Option<string>): (e: AppError)
    ensures e.kind == kind && e.isOperational
    ensures message.Some? ==> e.message == message.value
    ensures message.None? ==> e.message == DefaultMessage(kind)
  {
    AppError(kind, if message.Some? then message.value else DefaultMessage(kind), true)
  }

  /**
   * Anything thrown while a request is handled: an application error, a
   * SyntaxError (with or without a `body` property, which the JSON body parser
   * adds), the database driver's duplicate-key error for an `_id`, or any
   * other Error, such as a validation error of the database layer. `stack` is
   * the runtime stack trace, if there is one.
   */
  datatype Fault =
    | AppFault(error: AppError, stack: Option<string>)
    | SyntaxFault(hasBody: bool, syntaxMessage: string, stack: Option<string>)
    | DuplicateKeyFault(key: string, stack: Option<string>)
    | PlainFault(plainMessage: string, stack: Option<string>)
  {
    function Message(): string {
      match this
      case AppFault(e, _) => e.message
      case SyntaxFault(_, m, _) => m
      case DuplicateKeyFault(key, _) => DuplicateKeyMessage(key)
      case PlainFault(m, _) => m
    }
  }

  /** The message of the driver's error for an `_id` already in the tasks
      collection (the database name is left out). */
  function DuplicateKeyMessage(id: string): string {
    "E11000 duplicate key error collection: tasks index: _id_ dup key: { _id: ObjectId('" + id + "') }"
  }

  /** `throw new BadRequestError(message)` and the like, as raised by the use cases. */
  function Raise(kind: AppErrorKind, message: string): (f: Fault)
    ensures f.AppFault? && f.error.kind == kind && f.Message() == message
  {
    AppFault(NewAppError(kind, Some(message)), None)
  }
}
