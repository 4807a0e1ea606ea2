/** The answer record of one puzzle day: its title and the answers to both
    parts (AdventOfCode/Day.cs). */
module Days {
  import opened Optional
  import opened Strings
  import opened Errors

  datatype Day = Day(title: string, partA: string, partB: string)

  /** `new Day(title, partA, partB)` (Day.cs:12-17): each argument must be
      present, checked in order. */
  function NewDay(title: Option<string>, partA: Option<string>, partB: Option<string>): (o: Outcome<Day>)
    ensures o.Returned? <==> title.Some? && partA.Some? && partB.Some?
    ensures o.Returned? ==> o.value == Day(title.value, partA.value, partB.value)
    ensures title.None? ==> o == Threw(ArgumentNull("title"))
    ensures title.Some? && partA.None? ==> o == Threw(ArgumentNull("partA"))
    ensures title.Some? && partA.Some? && partB.None? ==> o == Threw(ArgumentNull("partB"))
  {
    if title.None? then Threw(ArgumentNull("title"))
    else if partA.None? then Threw(ArgumentNull("partA"))
    else if partB.None? then Threw(ArgumentNull("partB"))
    else Returned(Day(title.value, partA.value, partB.value))
  }

  /** `new Day(title, (A, B))` (Day.cs:21-26): the same checks; the
      exceptions name the tuple's fields `A` and `B`. */
  function NewDayFromPair(title: Option<string>, part: (Option<string>, Option<string>)): (o: Outcome<Day>)
  {
    if title.None? then Threw(ArgumentNull("title"))
    else if part.0.None? then Threw(ArgumentNull("A"))
    else if part.1.None? then Threw(ArgumentNull("B"))
    else Returned(Day(title.value, part.0.value, part.1.value))
  }

  /** The two constructors build the same record and fail in the same
      cases; only the parameter names in their exceptions differ. */
  lemma ConstructorsAgree(title: Option<string>, partA: Option<string>, partB: Option<string>)
    ensures NewDayFromPair(title, (partA, partB)).Returned? <==> NewDay(title, partA, partB).Returned?
    ensures NewDay(title, partA, partB).Returned? ==> NewDayFromPair(title, (partA, partB)) == NewDay(title, partA, partB)
    ensures title.Some? && partA.None? ==> NewDayFromPair(title, (partA, partB)) == Threw(ArgumentNull("A"))
    ensures title.Some? && partA.Some? && partB.None? ==> NewDayFromPair(title, (partA, partB)) == Threw(ArgumentNull("B"))
  {
  }

  /** `day.Equals(other)` (Day.cs:51-54). */
  function Equals(a: Day, b: Day): bool
  {
    a.partA == b.partA && a.partB == b.partB && a.title == b.title
  }

  /** `day.Equals(obj)` (Day.cs:46-47): `None` for an object that is not a Day. */
  function EqualsObject(a: Day, obj: Option<Day>): bool
  {
    obj.Some? && Equals(a, obj.value)
  }

  /** `a == b` and `a != b` (Day.cs:36-42). */
  function Eq(a: Day, b: Day): bool
  {
    Equals(a, b)
  }

  function NotEq(a: Day, b: Day): bool
  {
    !Eq(a, b)
  }

  /** Days are equal exactly when title and both answers are; `==` agrees
      with `Equals` and `!=` is its negation. */
  lemma EqualsSpec(a: Day, b: Day)
    ensures Equals(a, b) <==> a == b
    ensures Eq(a, b) == EqualsObject(a, Some(b))
    ensures NotEq(a, b) <==> a != b
    ensures !EqualsObject(a, None)
  {
  }

  /** `day.ToString()` (Day.cs:71-72): three lines, title first. */
  function ToString(d: Day): string
  {
    d.title + "\nPartA: " + d.partA + "\nPartB: " + d.partB
  }

  /** Reads a rendered day back: the inverse of `ToString` for titles and
      first answers without a newline. */
  function ParseDay(s: string): (d: Option<Day>)
  {
    var lines := SplitOnce(s, '\n');
    if |lines| == 1 then None
    else
      var rest := SplitOnce(lines[1], '\n');
      if |rest| == 1 || |rest[0]| < 7 || |rest[1]| < 7 then None
      else if rest[0][..7] != "PartA: " || rest[1][..7] != "PartB: " then None
      else Some(Day(lines[0], rest[0][7..], rest[1][7..]))
  }

  lemma ToStringRoundTrip(d: Day)
    requires '\n' !in d.title && '\n' !in d.partA
    ensures ParseDay(ToString(d)) == Some(d)
  {
    var first := "PartA: " + d.partA;
    var second := "PartB: " + d.partB;
    assert ToString(d) == d.title + ['\n'] + (first + ['\n'] + second);
    SplitOnceAt(d.title, '\n', first + ['\n'] + second);
    assert '\n' !in first by {
      assert forall i | 7 <= i < |first| :: first[i] == d.partA[i - 7];
    }
    SplitOnceAt(first, '\n', second);
    assert first[..7] == "PartA: " && first[7..] == d.partA;
    assert second[..7] == "PartB: " && second[7..] == d.partB;
  }

  /** Distinct days render differently when their titles and first answers
      hold no newline. */
  lemma ToStringInjective(a: Day, b: Day)
    requires '\n' !in a.title && '\n' !in a.partA
    requires '\n' !in b.title && '\n' !in b.partA
    requires ToString(a) == ToString(b)
    ensures a == b
  {
    ToStringRoundTrip(a);
    ToStringRoundTrip(b);
  }
}
