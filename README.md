# ApiError — a Dafny model of Kafka's API error value

Kafka's request layer reports the outcome of an operation as an `ApiError`. It is an
immutable pair: a classified error kind (a constant of the `Errors` enum) and an
optional human-readable message. The message is normally present only when it says more
than the kind's default message. This project models that class as values and functions
and proves what it promises:

- the three constructors;
- `fromThrowable`, which unwraps one `CompletionException`, classifies the exception and
  suppresses its message for the catch-all kind `UNKNOWN_SERVER_ERROR` or when the message
  only repeats the kind's default;
- `is`, `isSuccess` and `isFailure`;
- the `message` accessor and `messageWithFallback`;
- `exception()`, structural `equals`, and `toString`.

Files:

- `wrappers.dfy`: `Option`, which stands for Java's nullable strings (`None` is `null`).
- `throwables.dfy`: the throwables `fromThrowable` sees. A `Completion` is a
  `CompletionException` with its message and its cause. `Thrown` is any other exception.
- `protocol.dfy`: the `Errors` kinds and the `Taxonomy` record. The `Errors` kinds are
  `NONE`, `UNKNOWN_SERVER_ERROR` and the other constants, each known by its name. The
  `Taxonomy` record holds the lookups of the `Errors` enum: `message()`, `forCode`,
  `forException` and `exception(String)`.
- `api_error.dfy`: module `Requests`, holding the `ApiError` datatype and its operations.
- `api_error_properties.dfy`: lemmas that relate the operations.

The `Errors` enum's table is not part of this model. It maps codes and exception classes
to kinds and gives each kind its default message. Every operation that consults the enum
therefore takes a `Taxonomy` value, and every property holds for any table. The Java
`short` code is the newtype `Protocol.Short`.

Two consequences of the code as written:

- `fromThrowable` removes only one `CompletionException` layer. So wrapping a throwable
  `c` in a `CompletionException` gives the same result as `c` whenever `c` is not itself a
  `CompletionException` (`FromThrowableUnwrapsCompletion`). When `c` is one, the inner
  wrapper is classified instead (`FromThrowableUnwrapsOnce`), and the result can differ
  (`NestedCompletionIsNotUnwrappedTwice`).
- Two things are up to the `Errors` enum, which is not modelled: whether unknown codes map
  to `UNKNOWN_SERVER_ERROR`, and whether an exception from `exception()` is classified
  back to its kind. So `OfCode` states its kind through `Taxonomy.forCode`, and
  `ExceptionRoundTrip` takes the reclassification as explicit hypotheses.

## Model

| member | source | states |
|---|---|---|
| `ApiErrorProperties.AccessorsReturnConstructorArguments` | clients/src/main/java/org/apache/kafka/common/requests/ApiError.java:57-88 | the two-argument constructor stores the kind and the message verbatim (an absent message included); `error()`/`message()` return them and `is(k)` holds |
| `Requests.OfKind` | clients/src/main/java/org/apache/kafka/common/requests/ApiError.java:53-55 | the kind-only constructor keeps the kind, and both `message()` and `messageWithFallback()` equal the kind's default message |
| `Requests.OfCode` | clients/src/main/java/org/apache/kafka/common/requests/ApiError.java:62-65 | the code constructor has the kind `forCode(code)` gives and keeps the message verbatim |
| `Requests.ApiError.MessageWithFallback` | clients/src/main/java/org/apache/kafka/common/requests/ApiError.java:94-98 | returns the stored message when present, the kind's default message otherwise; the result is never absent |
| `Requests.ApiError.Is` | clients/src/main/java/org/apache/kafka/common/requests/ApiError.java:67-69 | `is(k)` holds exactly when the stored kind is `k` |
| `Requests.ApiError.IsSuccess` | clients/src/main/java/org/apache/kafka/common/requests/ApiError.java:75-77 | `isSuccess()` holds exactly when the kind is `NONE` |
| `Requests.ApiError.IsFailure` | clients/src/main/java/org/apache/kafka/common/requests/ApiError.java:71-73 | `isFailure()` holds exactly when the kind is not `NONE` |
| `Requests.ApiError.Exception` | clients/src/main/java/org/apache/kafka/common/requests/ApiError.java:100-102 | the exception comes from the kind's builder, given the stored message (absent stays absent, not the fallback) |
| `Requests.ApiError.Equals` | clients/src/main/java/org/apache/kafka/common/requests/ApiError.java:110-117 | `equals(o)` holds exactly when `o` is an `ApiError` equal to this one as a value, so anything else (another class or `null`) is unequal |
| `Requests.ApiError.ToString` | clients/src/main/java/org/apache/kafka/common/requests/ApiError.java:120-122 | the rendering is the prefix `ApiError(error=`, the kind's name, `, message=`, the message text (`null` when absent) and `)`, with its length the sum of those parts |
| `Requests.Suppressed` | clients/src/main/java/org/apache/kafka/common/requests/ApiError.java:48-49 | a message is suppressed for `UNKNOWN_SERVER_ERROR` whatever it is; for any other kind, an absent message is not suppressed and a present one is suppressed iff it equals the kind's default message |
| `ApiErrorProperties.SuccessIffNoneKind` | clients/src/main/java/org/apache/kafka/common/requests/ApiError.java:67-77 | every value is exactly one of a success and a failure: `isFailure()` is the negation of `isSuccess()` |
| `Requests.NONE` | clients/src/main/java/org/apache/kafka/common/requests/ApiError.java:34 | the shared success constant: kind `NONE` and an absent message |
| `ApiErrorProperties.NoneConstantIsSuccess` | clients/src/main/java/org/apache/kafka/common/requests/ApiError.java:34 | the `NONE` constant is a success with an absent message; its fallback message is `NONE`'s default; it renders as `ApiError(error=NONE, message=null)` |
| `Requests.Unwrapped` | clients/src/main/java/org/apache/kafka/common/requests/ApiError.java:40-44 | a `CompletionException` is replaced by its cause; any other throwable is left as it is |
| `Requests.FromThrowable` | clients/src/main/java/org/apache/kafka/common/requests/ApiError.java:39-51 | the kind is the classification of the unwrapped throwable. The message is absent for `UNKNOWN_SERVER_ERROR` or when the throwable's message equals the kind's default. Otherwise it is the throwable's message verbatim. A kept message is never a suppressed one |
| `ApiErrorProperties.FromThrowableUnwrapsCompletion` | clients/src/main/java/org/apache/kafka/common/requests/ApiError.java:40-44 | a `CompletionException` around a throwable that is not one itself gives the same result as that throwable |
| `ApiErrorProperties.FromThrowableUnwrapsOnce` | clients/src/main/java/org/apache/kafka/common/requests/ApiError.java:40-44 | only one layer is removed: for nested `CompletionException`s the inner wrapper is what gets classified, and its message is what gets kept or suppressed |
| `ApiErrorProperties.NestedCompletionIsNotUnwrappedTwice` | clients/src/main/java/org/apache/kafka/common/requests/ApiError.java:40-44 | a concrete table and throwable where wrapping `c` in a `CompletionException` changes the result, because `c` is itself one |
| `ApiErrorProperties.FromThrowableIsCanonical` | clients/src/main/java/org/apache/kafka/common/requests/ApiError.java:45-50 | every result of `fromThrowable` holds no suppressed message, so normalising it changes nothing |
| `Requests.Normalized` | clients/src/main/java/org/apache/kafka/common/requests/ApiError.java:45-50 | dropping a suppressed message keeps the kind and gives a canonical value; a value is canonical iff normalising leaves it unchanged |
| `ApiErrorProperties.ExceptionRoundTrip` | clients/src/main/java/org/apache/kafka/common/requests/ApiError.java:100-102 | assume the kind's exception is classified back to the kind and carries the fallback message. Then `fromThrowable(exception())` is the value with any suppressed message dropped. A canonical value comes back unchanged |
| `ApiErrorProperties.EqualsIsStructural` | clients/src/main/java/org/apache/kafka/common/requests/ApiError.java:110-117 | `equals` holds iff the kinds are equal and the optional messages are equal (absent equals absent); it is false for anything that is not an `ApiError` |
| `ApiErrorProperties.EqualsIsEquivalence` | clients/src/main/java/org/apache/kafka/common/requests/ApiError.java:110-117 | `equals` is reflexive, symmetric and transitive |
| `ApiErrorProperties.ToStringParts` | clients/src/main/java/org/apache/kafka/common/requests/ApiError.java:120-122 | after the 15-character prefix, the rendering is the kind's name followed by a tail that starts with a comma and holds the message text (`null` when absent) from its eleventh character up to, not including, its last |
| `ApiErrorProperties.ToStringDeterminesKindAndText` | clients/src/main/java/org/apache/kafka/common/requests/ApiError.java:120-122 | for kinds with constant-style names, two renderings are equal iff the kinds are equal and the printed message texts are equal |
| `ApiErrorProperties.AbsentAndNullTextRenderAlike` | clients/src/main/java/org/apache/kafka/common/requests/ApiError.java:120-122 | an absent message and the message text `"null"` render alike, though the two values are not equal |

## Left out

- `hashCode` (`Objects.hash` over the kind and the message): the hashing algorithm and the
  enum's identity hash are library details. That equal values hash alike follows from
  hashing the same two fields.
- The `Errors` enum's table (codes, exception classes, default message strings, the
  exception each kind builds): it is not part of this model. It enters only through the
  `Taxonomy` functions. Default messages are assumed non-null, which the `string` type
  enforces.
- A `CompletionException` whose cause is `null`: in Java, `fromThrowable` then fails with a
  `NullPointerException`. In the model every `Completion` has a cause.
- Subclasses of `CompletionException` and the rest of Java's class hierarchy: a `Completion`
  stands for any instance of that class, and `Thrown` stands for every other throwable.
- A `null` kind passed to a constructor: the model's kind is always present.
- A `null` throwable passed to `fromThrowable`: in Java it fails with a
  `NullPointerException`. `Throwable` has no null case, so the model does not capture that failure.
- Kinds that Java cannot have: `Errors.Other` accepts any name, so `Other("NONE")` is a kind
  distinct from `NONE` that prints the same name. Only `WellNamed` rules such kinds out, and
  only `ToStringDeterminesKindAndText` and its helper `NamesIdentifyKinds` require it.
- `MockTimeTest`: a test of the mock clock, which is unrelated to `ApiError`.
