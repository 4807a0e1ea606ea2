/** The absence of a value. `None` stands for C#'s `null` wherever the source
    accepts or checks a nullable reference. */
module Optional {

  datatype Option<+T> = None | Some(value: T)

  /** The entries of `xs` that are present, in order (C#: `xs.Where(x => x != null)`). */
  function Present<T>(xs: seq<Option<T>>): (r: seq<T>)
    ensures |r| <= |xs|
    ensures forall x | x in r :: Some(x) in xs
    ensures forall i | 0 <= i < |xs| && xs[i].Some? :: xs[i].value in r
    ensures (forall i | 0 <= i < |xs| :: xs[i].None?) ==> r == []
  {
    if xs == [] then []
    else (if xs[0].Some? then [xs[0].value] else []) + Present(xs[1..])
  }

  /** Nothing is filtered out of a sequence with no missing entries. */
  lemma {:induction false} PresentAll<T>(xs: seq<T>)
    ensures Present(Lift(xs)) == xs
  {
    if xs != [] {
      assert Lift(xs)[1..] == Lift(xs[1..]);
      PresentAll(xs[1..]);
    }
  }

  /** Every entry present (C#: an array with no null entries). */
  function Lift<T>(xs: seq<T>): (r: seq<Option<T>>)
    ensures |r| == |xs|
    ensures forall i | 0 <= i < |xs| :: r[i] == Some(xs[i])
    ensures None !in r
  {
    seq(|xs|, i requires 0 <= i < |xs| => Some(xs[i]))
  }

  /** Lifting one value in front. */
  lemma LiftCons<T>(x: T, xs: seq<T>)
    ensures Lift([x] + xs) == [Some(x)] + Lift(xs)
  {
  }

  /** Filtering distributes over concatenation. */
  lemma {:induction false} PresentConcat<T>(a: seq<Option<T>>, b: seq<Option<T>>)
    ensures Present(a + b) == Present(a) + Present(b)
  {
    if a != [] {
      assert (a + b)[1..] == a[1..] + b;
      PresentConcat(a[1..], b);
    } else {
      assert a + b == b;
    }
  }
}
