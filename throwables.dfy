/**
 * The part of Java's exception hierarchy that ApiError looks at: whether a
 * throwable is a `java.util.concurrent.CompletionException` (a wrapper that a
 * future puts around the real failure), its cause, and its message.
 */
module Throwables {
  import opened Wrappers

  datatype Throwable =
    /** A `CompletionException` with its own (possibly absent) message and the cause it wraps. */
    | Completion(completionMessage: Option<string>, cause: Throwable)
    /** Any other throwable, identified by its class name. */
    | Thrown(className: string, thrownMessage: Option<string>)
  {
    /** `getMessage()`: the detail message, `None` for a Java `null`. */
    function Message(): Option<string> {
      match this
      case Completion(m, _) => m
      case Thrown(_, m) => m
    }
  }
}
