/**
 * The exception hierarchy of app/core/exceptions.py. Every exception carries a
 * message and an HTTP status code, both fixed when it is constructed.
 */
module Errors {
  import opened Wrappers

  /** The UnauthorizedError message of the services' ownership checks. */
  const AccessDeniedMessage := "Access denied to this account"

  /**
   * One constructor per exception class. `Base` is BankAPIException raised
   * directly, which takes its status code as an argument.
   */
  datatype ErrorClass =
    | Base(status: int)
    | Authentication
    | Unauthorized
    | NotFound
    | Validation
    | InsufficientFunds
    | AccountNotFound
    | TransactionFailed

  datatype BankError = BankError(cls: ErrorClass, message: string)

  /** What a service call returns: its value, or the exception it raises. */
  datatype Result<+T> = Ok(value: T) | Err(error: BankError)

  /** The status code BankAPIException uses when none is given. */
  const DefaultStatus := 400

  /** `isinstance(e, NotFoundError)`: AccountNotFoundError is a subclass. */
  predicate IsNotFound(cls: ErrorClass) {
    cls.NotFound? || cls.AccountNotFound?
  }

  /** The status code each class passes to BankAPIException. */
  function StatusCode(cls: ErrorClass): (code: int)
    ensures cls.Base? ==> code == cls.status
    ensures IsNotFound(cls) ==> code == 404
    ensures !cls.Base? ==> 400 <= code < 500
  {
    match cls
    case Base(status) => status
    case Authentication => 401
    case Unauthorized => 403
    case NotFound => 404
    case Validation => 422
    case InsufficientFunds => 400
    case AccountNotFound => 404
    case TransactionFailed => 400
  }

  /** The message each subclass uses when raised without one. */
  function DefaultMessage(cls: ErrorClass): string
    requires !cls.Base?
  {
    match cls
    case Authentication => "Authentication failed"
    case Unauthorized => "Unauthorized access"
    case NotFound => "Resource not found"
    case Validation => "Validation error"
    case InsufficientFunds => "Insufficient funds"
    case AccountNotFound => "Account not found"
    case TransactionFailed => "Transaction failed"
  }

  /** Raising a subclass, with its optional message argument. */
  function Raise(cls: ErrorClass, message: Option<string>): (e: BankError)
    requires !cls.Base?
    ensures e.cls == cls
    ensures message.None? ==> e.message == DefaultMessage(cls)
    ensures message.Some? ==> e.message == message.value
  {
    BankError(cls, message.GetOr(DefaultMessage(cls)))
  }

  /** Raising BankAPIException itself, with its optional status argument. */
  function RaiseBase(message: string, status: Option<int>): (e: BankError)
    ensures e.message == message
    ensures StatusCode(e.cls) == status.GetOr(DefaultStatus)
  {
    BankError(Base(status.GetOr(DefaultStatus)), message)
  }

  /** The status-code taxonomy, class by class. */
  lemma StatusCodeTaxonomy()
    ensures StatusCode(Authentication) == 401
    ensures StatusCode(Unauthorized) == 403
    ensures StatusCode(NotFound) == 404 && StatusCode(AccountNotFound) == 404
    ensures StatusCode(Validation) == 422
    ensures StatusCode(InsufficientFunds) == 400 && StatusCode(TransactionFailed) == 400
    ensures StatusCode(RaiseBase("", None).cls) == 400
    ensures DefaultMessage(AccountNotFound) == "Account not found"
    ensures DefaultMessage(InsufficientFunds) == "Insufficient funds"
  {
  }
}
