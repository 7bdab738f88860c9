/**
 * The classified error kinds (Kafka's `Errors` enum) and the lookups ApiError
 * consumes from them. The enum's table of codes, classes and default messages
 * is not part of this model: a `Taxonomy` value carries those lookups as
 * functions, so every property proved about ApiError holds for any table.
 */
module Protocol {
  import opened Wrappers
  import opened Throwables

  /** Java's 16-bit `short`, the width of an error code on the wire. */
  newtype Short = x: int | -0x8000 <= x < 0x8000

  /**
   * An `Errors` constant. `NONE` is the success sentinel and
   * `UNKNOWN_SERVER_ERROR` the catch-all; every other constant is known by
   * its enum name.
   */
  datatype Errors = NONE | UNKNOWN_SERVER_ERROR | Other(constName: string)
  {
    /** The enum constant's name, which is also what Java's `toString` prints for it. */
    function Name(): string {
      match this
      case NONE => "NONE"
      case UNKNOWN_SERVER_ERROR => "UNKNOWN_SERVER_ERROR"
      case Other(n) => n
    }
  }

  /** A Java constant name: upper-case letters, digits and underscores. */
  predicate IsConstantName(s: string) {
    |s| > 0 && forall i :: 0 <= i < |s| ==> ('A' <= s[i] <= 'Z' || '0' <= s[i] <= '9' || s[i] == '_')
  }

  /** An enum constant whose name is a constant name and is not the name of a distinguished constant. */
  predicate WellNamed(k: Errors) {
    k.Other? ==> IsConstantName(k.constName) && k.constName != "NONE" && k.constName != "UNKNOWN_SERVER_ERROR"
  }

  /** Distinct well-named constants have distinct names, and no name contains a comma. */
  lemma NamesIdentifyKinds(k1: Errors, k2: Errors)
    requires WellNamed(k1) && WellNamed(k2)
    ensures k1.Name() == k2.Name() <==> k1 == k2
    ensures ',' !in k1.Name()
  {
  }

  /**
   * The lookups of the `Errors` enum that ApiError uses:
   * `defaultMessage` is `Errors.message()`, `forCode` is `Errors.forCode(short)`,
   * `forException` is `Errors.forException(Throwable)` and `exception` is
   * `Errors.exception(String)`, which builds the kind's `ApiException`.
   */
  datatype Taxonomy = Taxonomy(
    defaultMessage: Errors -> string,
    forCode: Short -> Errors,
    forException: Throwable -> Errors,
    exception: (Errors, Option<string>) -> Throwable)
}
