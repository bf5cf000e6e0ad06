/**
 * How a service call fails. Each failure is one exception the services
 * throw, identified by its message; the exception class decides the HTTP
 * status the client sees. Anything else thrown inside a service (a
 * malformed UUID, an enum name `valueOf` rejects, a row the database
 * refuses) reaches the catch-all handler and becomes an internal error
 * whose message is always the same.
 */
module Errors {
  import opened Decimal
  import opened Tables

  datatype ErrorKind = BadRequest | Unauthorized | Forbidden | NotFound | Conflict | Validation | Internal

  /** The HTTP status each exception class carries. */
  function StatusCode(k: ErrorKind): (code: int)
    ensures 400 <= code <= 500
    ensures code == 500 <==> k == Internal
  {
    match k
    case BadRequest => 400
    case Unauthorized => 401
    case Forbidden => 403
    case NotFound => 404
    case Conflict => 409
    case Validation => 422
    case Internal => 500
  }

  datatype Failure =
    // accounts
    | BlankAccountName
    | NameContainsColon
    | InvalidAccountType(accountType: string)
    | InvalidCurrency(currency: string)
    | ParentNotFound
    | ParentTypeMismatch(parentType: AccountType)
    | DuplicateSibling(name: string)
    | AccountNotFound
    | NewParentNotFound
    | MoveTypeMismatch
    | MoveUnderDescendant
    | AccountHasTransactions
    | AccountHasChildren
    // transactions
    | BlankDescription
    | InvalidDateFormat
    | TooFewSplits
    | InvalidAccountId(accountId: string)
    | InvalidAmount(amount: string)
    | Unbalanced(currencyKey: string, sum: Dec)
    | AccountsNotFound
    | PlaceholderAccounts(names: multiset<string>)
    | TransactionNotFound
    | AlreadyVoided
    | NotVoided
    | InvalidReconcileStatus(status: string)
    | SplitNotFound
    // users
    | BlankUsername
    | UsernameTooShort
    | UsernameTooLong
    | UsernameCharacters
    | PasswordTooShort
    | InvalidEmail
    | UsernameTaken(username: string)
    | EmailRegistered(email: string)
    | InvalidCredentials
    // anything not thrown on purpose
    | Unexpected

  /** The exception class each failure is thrown as. */
  function Kind(f: Failure): ErrorKind {
    match f
    case BlankAccountName | NameContainsColon | InvalidAccountType(_) | InvalidCurrency(_)
       | ParentTypeMismatch(_) | MoveTypeMismatch | MoveUnderDescendant
       | AccountHasTransactions | AccountHasChildren
       | BlankDescription | InvalidDateFormat | InvalidAccountId(_) | InvalidAmount(_)
       | PlaceholderAccounts(_) | AlreadyVoided | NotVoided | InvalidReconcileStatus(_)
       | BlankUsername | UsernameTooShort | UsernameTooLong | UsernameCharacters
       | PasswordTooShort | InvalidEmail
      => BadRequest
    case ParentNotFound | AccountNotFound | NewParentNotFound
       | AccountsNotFound | TransactionNotFound | SplitNotFound
      => NotFound
    case DuplicateSibling(_) | UsernameTaken(_) | EmailRegistered(_) => Conflict
    case InvalidCredentials => Unauthorized
    case TooFewSplits | Unbalanced(_, _) => Validation
    case Unexpected => Internal
  }

  datatype Result<+T> = Ok(value: T) | Err(failure: Failure)

}
