/**
 * Kafka's `ApiError`: an immutable pair of a classified error kind and an
 * optional message, where the message is normally present only when it adds
 * something to the kind's default message.
 */
module Requests {
  import opened Wrappers
  import opened Throwables
  import opened Protocol

  /**
   * The two-argument constructor `ApiError(Errors, String)`: both fields are
   * stored verbatim; `error` and `message` are the accessors `error()` and
   * `message()`.
   */
  datatype ApiError = ApiError(error: Errors, message: Option<string>)
  {
    /** `is(Errors)`: the stored kind is `k`. */
    predicate Is(k: Errors)
      ensures Is(k) <==> error == k
    {
      error == k
    }

    /** `isSuccess()`: the kind is the success sentinel `NONE`. */
    predicate IsSuccess()
      ensures IsSuccess() <==> error == Errors.NONE
    {
      Is(Errors.NONE)
    }

    /** `isFailure()`: any kind other than `NONE`. */
    predicate IsFailure()
      ensures IsFailure() <==> error != Errors.NONE
    {
      !IsSuccess()
    }

    /** `messageWithFallback()`: the stored message, or the kind's default message when none is stored. */
    function MessageWithFallback(tax: Taxonomy): (r: string)
      ensures message.Some? ==> r == message.value
      ensures message.None? ==> r == tax.defaultMessage(error)
    {
      if message.None? then tax.defaultMessage(error) else message.value
    }

    /** `exception()`: the kind's `ApiException`, built from the stored (possibly absent) message. */
    function Exception(tax: Taxonomy): (r: Throwable)
      ensures r == tax.exception(error, message)
    {
      tax.exception(error, message)
    }

    /** `equals(Object)`: true exactly for another ApiError with the same kind and the same optional message. */
    predicate Equals(o: Object)
      ensures Equals(o) <==> o.ApiErrorObject? && o.value == this
    {
      match o
      case ApiErrorObject(other) => error == other.error && message == other.message
      case OtherObject => false
    }

    /**
     * `toString()`: the prefix `ApiError(error=`, the kind's name, `, message=`,
     * the message text (`null` when absent) and a closing parenthesis.
     */
    function ToString(): (r: string)
      ensures |r| == 26 + |error.Name()| + |Rendered(message)|
      ensures r[..15] == "ApiError(error="
      ensures r[15..15 + |error.Name()|] == error.Name()
      ensures r[15 + |error.Name()|..25 + |error.Name()|] == ", message="
      ensures r[25 + |error.Name()|..|r| - 1] == Rendered(message)
      ensures r[|r| - 1] == ')'
    {
      "ApiError(error=" + error.Name() + ", message=" + Rendered(message) + ")"
    }
  }

  /** The argument of `equals`: an ApiError, or anything else (another class, or `null`). */
  datatype Object = ApiErrorObject(value: ApiError) | OtherObject

  /** How Java's string concatenation prints a nullable string. */
  function Rendered(m: Option<string>): string {
    match m
    case None => "null"
    case Some(s) => s
  }

  /** The shared success constant `ApiError.NONE`. */
  const NONE: ApiError := ApiError(Errors.NONE, None)

  /** The one-argument constructor `ApiError(Errors)`: the message is the kind's default message. */
  function OfKind(tax: Taxonomy, k: Errors): (r: ApiError)
    ensures r.Is(k)
    ensures r.message == Some(tax.defaultMessage(k))
    ensures r.MessageWithFallback(tax) == tax.defaultMessage(k)
  {
    ApiError(k, Some(tax.defaultMessage(k)))
  }

  /** The constructor `ApiError(short, String)`: the kind is looked up by its wire code, the message stored verbatim. */
  function OfCode(tax: Taxonomy, code: Short, m: Option<string>): (r: ApiError)
    ensures r.Is(tax.forCode(code))
    ensures r.message == m
  {
    ApiError(tax.forCode(code), m)
  }

  /** The throwable `fromThrowable` classifies: one `CompletionException` layer is removed, nothing more. */
  function Unwrapped(t: Throwable): (r: Throwable)
    ensures t.Completion? ==> r == t.cause
    ensures !t.Completion? ==> r == t
  {
    match t
    case Completion(_, cause) => cause
    case Thrown(_, _) => t
  }

  /**
   * True when `fromThrowable` must not keep a throwable's message `m` for the
   * kind `k`: the kind is the catch-all, or the message only repeats the
   * kind's default message (an absent message is never equal to it).
   */
  predicate Suppressed(tax: Taxonomy, k: Errors, m: Option<string>)
    ensures k == UNKNOWN_SERVER_ERROR ==> Suppressed(tax, k, m)
    ensures k != UNKNOWN_SERVER_ERROR && m.None? ==> !Suppressed(tax, k, m)
    ensures k != UNKNOWN_SERVER_ERROR && m.Some? ==> (Suppressed(tax, k, m) <==> m.value == tax.defaultMessage(k))
  {
    k == UNKNOWN_SERVER_ERROR || m == Some(tax.defaultMessage(k))
  }

  /** `fromThrowable(Throwable)`. */
  function FromThrowable(tax: Taxonomy, t: Throwable): (r: ApiError)
    ensures r.error == tax.forException(Unwrapped(t))
    ensures r.error == UNKNOWN_SERVER_ERROR ==> r.message == None
    ensures Unwrapped(t).Message() == Some(tax.defaultMessage(r.error)) ==> r.message == None
    ensures r.error != UNKNOWN_SERVER_ERROR && Unwrapped(t).Message() != Some(tax.defaultMessage(r.error))
            ==> r.message == Unwrapped(t).Message()
    ensures r.message.Some? ==> !Suppressed(tax, r.error, r.message)
  {
    var decoded := Unwrapped(t);
    var error := tax.forException(decoded);
    var message := if Suppressed(tax, error, decoded.Message()) then None else decoded.Message();
    ApiError(error, message)
  }

  /**
   * An ApiError in the form `fromThrowable` produces: it holds a message only
   * when that message is not suppressed for its kind.
   */
  predicate Canonical(tax: Taxonomy, e: ApiError) {
    e.message.Some? ==> !Suppressed(tax, e.error, e.message)
  }

  /** `e` with a suppressed message dropped: what survives a trip through `exception()` and `fromThrowable`. */
  function Normalized(tax: Taxonomy, e: ApiError): (r: ApiError)
    ensures r.error == e.error
    ensures Canonical(tax, r)
    ensures Canonical(tax, e) <==> r == e
    ensures !Canonical(tax, e) ==> r.message == None
  {
    if e.message.Some? && Suppressed(tax, e.error, e.message) then ApiError(e.error, None) else e
  }
}
