/** `Maybe<T>`: a value that may be absent (AdventOfCode/Common/Maybe.cs).
    The struct's `(value, hasValue)` pair is observed only through
    `hasValue`, so a Maybe without a value is `None` whatever it stores. */
module Maybes {
  import Optional
  import opened Errors

  datatype Maybe<+T> = None | Some(value: T)

  /** The private constructor (Maybe.cs:12-18): a null value cannot be
      marked as present. */
  function Make<T>(value: Optional.Option<T>, hasValue: bool): (o: Outcome<Maybe<T>>)
    ensures value.None? && hasValue ==> o == Threw(InvalidOperation("Can not set 'null' as a value."))
    ensures !(value.None? && hasValue) ==> o.Returned? && (o.value.Some? <==> hasValue)
    ensures o.Returned? && o.value.Some? ==> o.value.value == value.value
  {
    if value.None? && hasValue then Threw(InvalidOperation("Can not set 'null' as a value."))
    else if hasValue then Returned(Some(value.value))
    else Returned(None)
  }

  /** The implicit conversion from a value (Maybe.cs:92-93): present exactly
      when the value is not null; it never throws. */
  function FromNullable<T>(value: Optional.Option<T>): (m: Maybe<T>)
    ensures Make(value, value.Some?) == Returned(m)
    ensures m.Some? <==> value.Some?
    ensures m.Some? ==> m.value == value.value
  {
    if value.Some? then Some(value.value) else None
  }

  /** `Maybe<T>.Some(value, hasValue)` (Maybe.cs:124-125). */
  function SomeOf<T>(value: Optional.Option<T>, hasValue: bool): (o: Outcome<Maybe<T>>)
    ensures hasValue && value.Some? ==> o == Returned(Some(value.value))
    ensures hasValue && value.None? ==> o == Threw(InvalidOperation("Can not set 'null' as a value."))
    ensures !hasValue ==> o == Returned(None)
  {
    Make(value, hasValue)
  }

  /** What `Equals(other)` may be handed: null, a boxed `T`, a boxed
      `Maybe<T>`, or an object of any other type. */
  datatype Other<T> = Null | Value(value: T) | MaybeOf(maybe: Maybe<T>) | Unrelated

  /** `maybe.Equals(other)` (Maybe.cs:22-31). */
  function Equals<T(==)>(m: Maybe<T>, other: Other<T>): bool
  {
    match other
    case Value(v) => m.Some? && m.value == v
    case MaybeOf(n) => if m.Some? then n.Some? && m.value == n.value else n.None?
    case Null => m.None?
    case Unrelated => false
  }

  /** Equality of maybes is equality of the values they hold: None equals
      None and null, Some never equals None, Some a equals Some b iff a == b. */
  lemma EqualsSpec<T>(m: Maybe<T>, n: Maybe<T>, v: T)
    ensures Equals(m, MaybeOf(n)) <==> m == n
    ensures Equals(m, Value(v)) <==> m == Some(v)
    ensures Equals(m, Null) <==> m == None
    ensures !Equals(m, Unrelated)
  {
  }

  /** `left == right` and `left != right` on two maybes (Maybe.cs:96-97, 108-109). */
  function Eq<T(==)>(left: Maybe<T>, right: Maybe<T>): bool
  {
    Equals(left, MaybeOf(right))
  }

  function NotEq<T(==)>(left: Maybe<T>, right: Maybe<T>): (b: bool)
    ensures b <==> left != right
  {
    !Equals(left, MaybeOf(right))
  }

  /** `maybe == value` and `value == maybe`, and their negations
      (Maybe.cs:100-117): both ask the maybe. */
  function EqValue<T(==)>(m: Maybe<T>, v: T): (b: bool)
    ensures b <==> m == Some(v)
  {
    Equals(m, Value(v))
  }

  function NotEqValue<T(==)>(m: Maybe<T>, v: T): (b: bool)
    ensures b <==> m != Some(v)
  {
    !Equals(m, Value(v))
  }

  /** `GetHashCode` (Maybe.cs:34-35): the value's hash, 0 without one. */
  function HashCode<T>(m: Maybe<T>, hash: T -> int): (h: int)
    ensures m.None? ==> h == 0
  {
    if m.Some? then hash(m.value) else 0
  }

  /** Equal maybes have equal hash codes. */
  lemma EqualsHash<T>(m: Maybe<T>, n: Maybe<T>, hash: T -> int)
    requires Equals(m, MaybeOf(n))
    ensures HashCode(m, hash) == HashCode(n, hash)
  {
  }

  /** `ToString` (Maybe.cs:72-73): the value's text, empty without one. */
  function ToString<T>(m: Maybe<T>, show: T -> string): (s: string)
    ensures m.None? ==> s == ""
  {
    if m.Some? then show(m.value) else ""
  }

  /** `maybe.Select(onSome, onNone)` (Maybe.cs:59-69): null callbacks are
      refused; otherwise the callback for the case at hand runs and its
      result is converted back, a null result giving None. */
  function Select<T, R>(m: Maybe<T>, onSome: Optional.Option<T -> Optional.Option<R>>,
                        onNone: Optional.Option<() -> Optional.Option<R>>): (o: Outcome<Maybe<R>>)
    ensures onSome.None? ==> o == Threw(ArgumentNull("onSome"))
    ensures onSome.Some? && onNone.None? ==> o == Threw(ArgumentNull("onNone"))
    ensures onSome.Some? && onNone.Some? && m.Some? ==> o == Returned(FromNullable(onSome.value(m.value)))
    ensures onSome.Some? && onNone.Some? && m.None? ==> o == Returned(FromNullable(onNone.value()))
  {
    if onSome.None? then Threw(ArgumentNull("onSome"))
    else if onNone.None? then Threw(ArgumentNull("onNone"))
    else if m.Some? then Returned(FromNullable(onSome.value(m.value)))
    else Returned(FromNullable(onNone.value()))
  }

  /** `maybe.OnSome(f)` with a function (Maybe.cs:38-39): `Select` with the
      default of the result type on the None side, which is null for a
      reference type and a value for a value type. */
  function OnSome<T, R>(m: Maybe<T>, f: Optional.Option<T -> Optional.Option<R>>,
                        defaultOfR: Optional.Option<R>): Outcome<Maybe<R>>
  {
    Select(m, f, Optional.Some(() => defaultOfR))
  }

  /** `OnSome` maps a present value and leaves absence as the type's default. */
  lemma OnSomeSpec<T, R>(m: Maybe<T>, f: T -> Optional.Option<R>, defaultOfR: Optional.Option<R>)
    ensures m.Some? ==> OnSome(m, Optional.Some(f), defaultOfR) == Returned(FromNullable(f(m.value)))
    ensures m.None? ==> OnSome(m, Optional.Some(f), defaultOfR) == Returned(FromNullable(defaultOfR))
    ensures OnSome(m, Optional.None, defaultOfR) == Threw(ArgumentNull("onSome"))
  {
  }

  /** `maybe.OnSome(action)` (Maybe.cs:41-49): the action is called with the
      value only when there is one, and the receiver is returned unchanged.
      The result pairs the receiver with the argument the action received. */
  function OnSomeAction<T>(m: Maybe<T>, action: Optional.Option<T -> ()>): (o: Outcome<(Maybe<T>, Optional.Option<T>)>)
    ensures m.None? ==> o == Returned((m, Optional.None))
    ensures m.Some? && action.Some? ==> o == Returned((m, Optional.Some(m.value)))
    ensures m.Some? && action.None? ==> o == Threw(NullReference)
  {
    if m.Some? then
      if action.None? then Threw(NullReference) else Returned((m, Optional.Some(m.value)))
    else Returned((m, Optional.None))
  }

  /** `maybe.Unwrap()` (Maybe.cs:76-80). */
  function Unwrap<T>(m: Maybe<T>): (o: Outcome<T>)
    ensures m.Some? ==> o == Returned(m.value)
    ensures m.None? ==> o == Threw(InvalidOperation("Can not unwrap a maybe with no value."))
  {
    if m.None? then Threw(InvalidOperation("Can not unwrap a maybe with no value.")) else Returned(m.value)
  }

  /** Converting a non-null value and unwrapping it gives the value back. */
  lemma UnwrapFromNullable<T>(v: T)
    ensures Unwrap(FromNullable(Optional.Some(v))) == Returned(v)
  {
  }

  /** `maybe.Where(predicate)` (Maybe.cs:82-89). */
  function Where<T>(m: Maybe<T>, pred: Optional.Option<T -> bool>): (o: Outcome<Maybe<T>>)
    ensures pred.None? ==> o == Threw(ArgumentNull("predicate"))
    ensures pred.Some? ==> o.Returned? && (o.value == m || o.value == None)
    ensures pred.Some? ==> (o.value == m && m.Some? <==> m.Some? && pred.value(m.value))
  {
    if pred.None? then Threw(ArgumentNull("predicate"))
    else if m.Some? && pred.value(m.value) then Returned(m)
    else Returned(None)
  }

  /** Filtering twice by the same predicate is filtering once. */
  lemma WhereIdempotent<T>(m: Maybe<T>, p: T -> bool)
    ensures Where(Where(m, Optional.Some(p)).value, Optional.Some(p)) == Where(m, Optional.Some(p))
  {
  }

  /** Filtering by p and then q is filtering by "p and q". */
  lemma WhereWhere<T>(m: Maybe<T>, p: T -> bool, q: T -> bool)
    ensures Where(Where(m, Optional.Some(p)).value, Optional.Some(q))
            == Where(m, Optional.Some((x: T) => p(x) && q(x)))
  {
  }
}
