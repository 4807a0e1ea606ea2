/** The failed case of a result (AdventOfCode/Common/Failure.cs). */
module Failures {
  import opened Optional
  import opened Errors
  import opened Results
  import opened Strings

  /** `new Failure<T>(error, value)` (Failure.cs:19-23): a missing error is
      refused; the error and the (possibly missing) offending value are
      stored as given. */
  function NewFailure<T>(error: Option<Error>, value: Option<Payload>): (o: Outcome<Result<T>>)
    ensures o.Returned? <==> error.Some?
    ensures error.None? ==> o.exception == ArgumentNull("error")
    ensures error.Some? ==> o.value.Failure? && o.value.error == error.value && o.value.cause == value
  {
    match error
    case None => Threw(ArgumentNull("error"))
    case Some(e) => Returned(Failure(e, value))
  }

  /** `failure.ToString()` (Failure.cs:28-29): the error's rendering, one line
      per error of its tree. */
  function FailureToString<T>(f: Result<T>): (s: string)
    requires f.Failure?
    ensures s == Join("\n", Lines(f.error, 0))
  {
    ToString(f.error)
  }

  /** The rendering of a failure has as many lines as its error tree has errors. */
  lemma FailureToStringLines<T>(f: Result<T>)
    requires f.Failure?
    ensures |Lines(f.error, 0)| == Size(f.error)
    ensures FailureToString(f) == Render(f.error, 0)
  {
    LinesCount(f.error, 0);
    RenderLines(f.error, 0);
  }

}
