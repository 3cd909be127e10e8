/** The outcome of `promiseHack`: waiting on a host promise until it settles.
    The callback registration and the 2 ms sleep-poll loop only decide WHEN the
    caller sees the outcome; the model states WHAT the caller sees once the
    promise has settled. */
module DeferredBridge {
  import opened Wrappers
  import opened Errors

  /** What the `catch` callback receives: no argument at all (the branch the
      code handles first), an object whose `message` property is defined
      (carried as the Go `String()` of that property), or any other object
      (carried as its JavaScript `String(...)` coercion). */
  datatype Payload = NoArgs | WithMessage(message: string) | Other(coerced: string)

  /** A host promise after it has settled. */
  datatype Settlement<+T> = Resolved(value: T) | Rejected(payload: Payload)

  /** The error the `catch` callback builds from a rejection payload. */
  function RejectionError(p: Payload): (e: Error)
    ensures e != EOF
  {
    match p
    case NoArgs => ErrorText("")
    case WithMessage(m) => ErrorText(m)
    case Other(s) => ErrorText(s)
  }

  /** The `(value, error)` pair `promiseHack` returns for a settled promise. */
  function Await<T>(s: Settlement<T>): (r: Result<T, Error>)
    ensures r.Failure? <==> s.Rejected?
    ensures s.Resolved? ==> r == Success(s.value)
    ensures s == Rejected(NoArgs) ==> r == Failure(ErrorText(""))
    ensures forall m :: s == Rejected(WithMessage(m)) ==> r == Failure(ErrorText(m))
    ensures forall c :: s == Rejected(Other(c)) ==> r == Failure(ErrorText(c))
  {
    match s
    case Resolved(v) => Success(v)
    case Rejected(p) => Failure(RejectionError(p))
  }
}
