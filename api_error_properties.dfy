/**
 * Properties of the ApiError model that relate several of its operations:
 * accessors against constructors, the success predicates, the one-level
 * unwrapping and message suppression of `fromThrowable`, the trip through
 * `exception()`, structural equality and the `toString` rendering.
 */
module ApiErrorProperties {
  import opened Wrappers
  import opened Throwables
  import opened Protocol
  import opened Requests

  /** The two-argument constructor stores kind and message verbatim, an absent message included. */
  lemma AccessorsReturnConstructorArguments(tax: Taxonomy, k: Errors, m: Option<string>)
    ensures ApiError(k, m).error == k && ApiError(k, m).message == m
    ensures ApiError(k, m).Is(k)
    ensures ApiError(k, m).MessageWithFallback(tax) == if m.Some? then m.value else tax.defaultMessage(k)
  {
  }

  /** Every value is exactly one of a success and a failure. */
  lemma SuccessIffNoneKind(e: ApiError)
    ensures e.IsFailure() <==> !e.IsSuccess()
  {
  }

  /** The shared constant `ApiError.NONE` is a success with no message, and renders with the kind and `null`. */
  lemma NoneConstantIsSuccess(tax: Taxonomy)
    ensures NONE.IsSuccess() && !NONE.IsFailure()
    ensures NONE.message == None
    ensures NONE.MessageWithFallback(tax) == tax.defaultMessage(Errors.NONE)
    ensures NONE.ToString() == "ApiError(error=NONE, message=null)"
  {
  }

  /** Wrapping a throwable that is not itself a `CompletionException` in one changes nothing. */
  lemma FromThrowableUnwrapsCompletion(tax: Taxonomy, m: Option<string>, c: Throwable)
    requires !c.Completion?
    ensures FromThrowable(tax, Completion(m, c)) == FromThrowable(tax, c)
  {
  }

  /**
   * Only one layer is removed: in a `CompletionException` around another one,
   * the inner wrapper itself is classified and its own message is used.
   */
  lemma FromThrowableUnwrapsOnce(tax: Taxonomy, m1: Option<string>, m2: Option<string>, c: Throwable)
    ensures FromThrowable(tax, Completion(m1, Completion(m2, c))).error == tax.forException(Completion(m2, c))
    ensures FromThrowable(tax, Completion(m1, Completion(m2, c))).message ==
            if Suppressed(tax, tax.forException(Completion(m2, c)), m2) then None else m2
  {
  }

  /**
   * So "a `CompletionException` around `c` gives the same result as `c`" can
   * fail when `c` is itself a `CompletionException`: on this table the outer
   * value is the catch-all kind while the inner one is classified.
   */
  lemma NestedCompletionIsNotUnwrappedTwice()
    ensures var tax := Taxonomy(
              (k: Errors) => "default",
              (code: Short) => UNKNOWN_SERVER_ERROR,
              (t: Throwable) => if t.Completion? then UNKNOWN_SERVER_ERROR else Other("INVALID_REQUEST"),
              (k: Errors, m: Option<string>) => Thrown("ApiException", m));
            var c := Completion(None, Thrown("InvalidRequestException", Some("bad")));
            FromThrowable(tax, Completion(None, c)) == ApiError(UNKNOWN_SERVER_ERROR, None) &&
            FromThrowable(tax, c) == ApiError(Other("INVALID_REQUEST"), Some("bad"))
  {
  }

  /** Whatever the throwable, `fromThrowable` yields a value in canonical form. */
  lemma FromThrowableIsCanonical(tax: Taxonomy, t: Throwable)
    ensures Canonical(tax, FromThrowable(tax, t))
    ensures Normalized(tax, FromThrowable(tax, t)) == FromThrowable(tax, t)
  {
  }

  /**
   * `exception()` followed by `fromThrowable` gives back the kind and the
   * message, except for the suppressed messages, provided the kind's
   * `ApiException` is classified back to that kind and carries the message
   * (the default message when none is given), as the `Errors` table does.
   * A canonical value survives the trip unchanged.
   */
  lemma ExceptionRoundTrip(tax: Taxonomy, e: ApiError)
    requires !e.Exception(tax).Completion?
    requires tax.forException(e.Exception(tax)) == e.error
    requires e.Exception(tax).Message() == Some(e.MessageWithFallback(tax))
    ensures FromThrowable(tax, e.Exception(tax)) == Normalized(tax, e)
    ensures Canonical(tax, e) ==> FromThrowable(tax, e.Exception(tax)) == e
  {
  }

  /** Equality is structural: same kind and same optional message, absent equal to absent. */
  lemma EqualsIsStructural(a: ApiError, b: ApiError)
    ensures a.Equals(ApiErrorObject(b)) <==> a.error == b.error && a.message == b.message
    ensures a.Equals(ApiErrorObject(b)) <==> a == b
    ensures !a.Equals(OtherObject)
  {
  }

  /** Equality is reflexive, symmetric and transitive. */
  lemma EqualsIsEquivalence(a: ApiError, b: ApiError, c: ApiError)
    ensures a.Equals(ApiErrorObject(a))
    ensures a.Equals(ApiErrorObject(b)) <==> b.Equals(ApiErrorObject(a))
    ensures a.Equals(ApiErrorObject(b)) && b.Equals(ApiErrorObject(c)) ==> a.Equals(ApiErrorObject(c))
  {
  }

  /** The character at position `i` of `n + r`: inside `n`, or the first one of `r`. */
  lemma CharacterOfConcat(n: string, r: string, i: nat)
    ensures i < |n| ==> (n + r)[i] == n[i] && n[i] in n
    ensures i == |n| && |r| > 0 ==> (n + r)[i] == r[0]
  {
  }

  /** Two strings that each start with a comma-free part followed by a comma split at the same place. */
  lemma {:induction false} SplitAtFirstComma(n1: string, r1: string, n2: string, r2: string)
    requires ',' !in n1 && ',' !in n2
    requires |r1| > 0 && r1[0] == ',' && |r2| > 0 && r2[0] == ','
    requires n1 + r1 == n2 + r2
    ensures n1 == n2 && r1 == r2
  {
    if |n1| < |n2| {
      CharacterOfConcat(n2, r2, |n1|);
      CharacterOfConcat(n1, r1, |n1|);
      assert false;
    } else if |n2| < |n1| {
      CharacterOfConcat(n1, r1, |n2|);
      CharacterOfConcat(n2, r2, |n2|);
      assert false;
    } else {
      assert n1 == (n1 + r1)[..|n1|] == (n2 + r2)[..|n2|] == n2;
      assert r1 == (n1 + r1)[|n1|..] == (n2 + r2)[|n2|..] == r2;
    }
  }

  /** What `toString` prints after the kind's name. */
  function RenderedTail(e: ApiError): string {
    ", message=" + Rendered(e.message) + ")"
  }

  /**
   * After the fixed prefix, the rendering is the kind's name followed by
   * `RenderedTail`, which starts with a comma and holds the message text.
   */
  lemma {:induction false} ToStringParts(e: ApiError)
    ensures e.ToString()[15..] == e.error.Name() + RenderedTail(e)
    ensures RenderedTail(e)[0] == ','
    ensures Rendered(e.message) == RenderedTail(e)[10..|RenderedTail(e)| - 1]
  {
  }

  /**
   * For well-named kinds the rendering of `toString` determines the kind and
   * the printed message text, and conversely.
   */
  lemma {:induction false} ToStringDeterminesKindAndText(a: ApiError, b: ApiError)
    requires WellNamed(a.error) && WellNamed(b.error)
    ensures a.ToString() == b.ToString() <==> a.error == b.error && Rendered(a.message) == Rendered(b.message)
  {
    if a.ToString() == b.ToString() {
      ToStringParts(a);
      ToStringParts(b);
      NamesIdentifyKinds(a.error, b.error);
      NamesIdentifyKinds(b.error, a.error);
      SplitAtFirstComma(a.error.Name(), RenderedTail(a), b.error.Name(), RenderedTail(b));
    }
  }

  /**
   * The rendering does not determine the value: an absent message and the
   * message "null" print alike, while the values differ.
   */
  lemma AbsentAndNullTextRenderAlike(k: Errors)
    ensures ApiError(k, None).ToString() == ApiError(k, Some("null")).ToString()
    ensures !ApiError(k, None).Equals(ApiErrorObject(ApiError(k, Some("null"))))
  {
  }
}
