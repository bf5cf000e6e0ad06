/**
 * The client's `ApiResult`: the data of a successful call, or the error
 * message and optional status code of a failed one. `getOrThrow` throws
 * an `ApiException` carrying the same message and code; the model
 * returns that exception as a value. The actions of `onSuccess` and
 * `onError` are side effects: the model returns the argument each action
 * is called with, if it is called at all.
 */
module ApiResults {
  import opened Wrappers

  datatype ApiResult<T> = Success(data: T) | Error(message: string, code: Option<int>)

  datatype ApiException = ApiException(message: string, code: Option<int>)

  /** A value, or the exception `getOrThrow` throws instead. */
  datatype Outcome<T> = Returned(value: T) | Thrown(exception: ApiException)

  predicate IsSuccess<T>(r: ApiResult<T>) {
    r.Success?
  }

  predicate IsError<T>(r: ApiResult<T>) {
    r.Error?
  }

  /** Exactly one of `isSuccess` and `isError` holds. */
  lemma SuccessXorError<T>(r: ApiResult<T>)
    ensures IsSuccess(r) != IsError(r)
  {
  }

  function GetOrNull<T>(r: ApiResult<T>): (v: Option<T>)
    ensures v.Some? <==> r.Success?
    ensures r.Success? ==> v == Some(r.data)
  {
    match r
    case Success(data) => Some(data)
    case Error(_, _) => None
  }

  function GetOrThrow<T>(r: ApiResult<T>): (o: Outcome<T>)
    ensures r.Success? ==> o == Returned(r.data)
    ensures r.Error? ==> o == Thrown(ApiException(r.message, r.code))
  {
    match r
    case Success(data) => Returned(data)
    case Error(message, code) => Thrown(ApiException(message, code))
  }

  function Map<T, R>(r: ApiResult<T>, transform: T -> R): (m: ApiResult<R>)
    ensures r.Success? ==> m == Success(transform(r.data))
    ensures r.Error? ==> m == Error(r.message, r.code)
  {
    match r
    case Success(data) => Success(transform(data))
    case Error(message, code) => Error(message, code)
  }

  /** The argument `onSuccess` calls its action with, and the receiver it returns. */
  function OnSuccess<T>(r: ApiResult<T>): (res: (ApiResult<T>, Option<T>))
    ensures res.0 == r
    ensures res.1 == GetOrNull(r)
  {
    (r, if r.Success? then Some(r.data) else None)
  }

  /** The message `onError` calls its action with, and the receiver it returns. */
  function OnError<T>(r: ApiResult<T>): (res: (ApiResult<T>, Option<string>))
    ensures res.0 == r
    ensures res.1.Some? <==> r.Error?
    ensures r.Error? ==> res.1 == Some(r.message)
  {
    (r, if r.Error? then Some(r.message) else None)
  }

  /** `map` with the identity function changes nothing. */
  lemma MapIdentity<T>(r: ApiResult<T>)
    ensures Map(r, x => x) == r
  {
  }

  /** Mapping twice is mapping once with the composed function. */
  lemma MapCompose<T, U, R>(r: ApiResult<T>, f: T -> U, g: U -> R)
    ensures Map(Map(r, f), g) == Map(r, x => g(f(x)))
  {
  }

  /** Reading a mapped result is mapping the read value. */
  lemma MapGetOrNull<T, R>(r: ApiResult<T>, f: T -> R)
    ensures GetOrNull(Map(r, f)) == if r.Success? then Some(f(r.data)) else None
  {
  }

  /** For every result exactly one of the two actions runs. */
  lemma OneActionRuns<T>(r: ApiResult<T>)
    ensures OnSuccess(r).1.Some? != OnError(r).1.Some?
  {
  }
}
