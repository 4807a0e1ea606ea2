/** The successful case of a result (AdventOfCode/Common/Success.cs). */
module Successes {
  import opened Optional
  import opened Errors
  import opened Results

  /** `new Success<T>(value)` (Success.cs:19-20), which is also what the
      implicit conversions from a value do (Success.cs:28-29, Result.cs:51-52):
      a missing value is refused. */
  function NewSuccess<T>(value: Option<T>): (o: Outcome<Result<T>>)
    ensures o.Returned? <==> value.Some?
    ensures value.None? ==> o.exception == ArgumentNull("value")
    ensures value.Some? ==> o.value.Success? && o.value.value == value.value
  {
    match value
    case None => Threw(ArgumentNull("value"))
    case Some(v) => Returned(Success(v))
  }

  /** The implicit conversion of a success back to its value (Success.cs:37-38). */
  function ToValue<T>(s: Result<T>): T
    requires s.Success?
  {
    s.value
  }

  /** Converting a value to a success and back gives the value. */
  lemma ConversionRoundTrip<T>(v: T)
    ensures NewSuccess(Some(v)).Returned? && ToValue(NewSuccess(Some(v)).value) == v
  {
  }

  /** What `Equals(obj)` may be handed: null, the receiver itself, another
      `Success<T>`, or an object of any other type. */
  datatype Other<T> = Null | Itself | SuccessOf(value: T) | Unrelated

  /** `success.Equals(obj)` for the success holding `value` (Success.cs:56-59). */
  function Equals<T(==)>(value: T, obj: Other<T>): bool
  {
    obj != Null && (obj == Itself || (obj.SuccessOf? && value == obj.value))
  }

  /** Two successes are equal exactly when their values are; a success never
      equals null or an object that is not a success. */
  lemma EqualsSpec<T>(value: T, obj: Other<T>)
    ensures obj.SuccessOf? ==> (Equals(value, obj) <==> obj.value == value)
    ensures obj.Null? || obj.Unrelated? ==> !Equals(value, obj)
    ensures Equals(value, Itself)
  {
  }

  /** `GetHashCode` (Success.cs:64-65): the value's own hash. */
  function HashCode<T>(value: T, hash: T -> int): int
  {
    hash(value)
  }

  /** Equal successes have equal hash codes. */
  lemma EqualsHash<T>(a: T, b: T, hash: T -> int)
    requires Equals(a, SuccessOf(b))
    ensures HashCode(a, hash) == HashCode(b, hash)
  {
  }

  /** `ToString` (Success.cs:50-51): the value's own text. */
  function ToString<T>(value: T, show: T -> string): string
  {
    show(value)
  }
}
