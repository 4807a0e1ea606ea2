/** Day 2, "Password Philosophy": parse password policies and count the
    passwords each reading of the policy accepts (AdventOfCode/Day2.cs). */
module Day2 {
  import opened Optional
  import opened Strings
  import opened Errors
  import opened Days

  const Title := "--- Day 2: Password Philosophy ---"

  /** `Policy` (Day2.cs:105-119). */
  datatype Policy = Policy(min: int, max: int, letter: char)

  /** One line of the input: a policy and the password it governs. */
  datatype Entry = Entry(policy: Policy, password: string)

  /** `int.Parse`: a malformed number is a `FormatException`. */
  function ParseNumber(s: string): (o: Outcome<int>)
    ensures o.Returned? <==> ParseInt(s).Some?
    ensures o.Returned? ==> o.value == ParseInt(s).value
    ensures o.Threw? ==> o.exception == Format
  {
    match ParseInt(s)
    case Some(n) => Returned(n)
    case None => Threw(Format)
  }

  /** The per-line parse of `ParseInput` (Day2.cs:37-54): split on ": ", then
      the policy on " ", then the bounds on "-"; the bounds and the letter are
      read before the password, and a missing piece is an index error. */
  function ParseLine(line: string): Outcome<Entry>
  {
    var split := Split(line, ": ");
    var policyStr := Split(split[0], " ");
    var minMax := Split(policyStr[0], "-");
    match ParseNumber(minMax[0])
    case Threw(x) => Threw(x)
    case Returned(min) =>
      if |minMax| < 2 then Threw(IndexOutOfRange)
      else
        match ParseNumber(minMax[1])
        case Threw(x) => Threw(x)
        case Returned(max) =>
          if |policyStr| < 2 || |policyStr[1]| == 0 || |split| < 2 then Threw(IndexOutOfRange)
          else Returned(Entry(Policy(min, max, policyStr[1][0]), split[1]))
  }

  /** `ParseInput` (Day2.cs:32-55): every line in order; the first line that
      fails to parse stops it. */
  function ParseInput(lines: seq<string>): (o: Outcome<seq<Entry>>)
    ensures o.Returned? <==> forall i | 0 <= i < |lines| :: ParseLine(lines[i]).Returned?
    ensures o.Returned? ==> |o.value| == |lines|
    ensures o.Returned? ==> forall i | 0 <= i < |lines| :: ParseLine(lines[i]) == Returned(o.value[i])
  {
    if lines == [] then Returned([])
    else
      match ParseLine(lines[0])
      case Threw(x) => Threw(x)
      case Returned(e) =>
        match ParseInput(lines[1..])
        case Threw(x) =>
          TailThrows(lines, ParseLine);
          Threw(x)
        case Returned(es) =>
          ConsReturns(lines, ParseLine, e, es);
          Returned([e] + es)
  }

  /** An element of the tail that throws is an element that throws. */
  lemma TailThrows<A, B>(xs: seq<A>, f: A -> Outcome<B>)
    requires xs != [] && exists j | 0 <= j < |xs[1..]| :: f(xs[1..][j]).Threw?
    ensures exists i | 0 <= i < |xs| :: f(xs[i]).Threw?
  {
    var j :| 0 <= j < |xs[1..]| && f(xs[1..][j]).Threw?;
    assert xs[1..][j] == xs[j + 1];
  }

  /** The head's value before the tail's values, element by element. */
  lemma ConsReturns<A, B>(xs: seq<A>, f: A -> Outcome<B>, y: B, ys: seq<B>)
    requires xs != [] && f(xs[0]) == Returned(y) && |ys| == |xs| - 1
    requires forall j | 0 <= j < |xs[1..]| :: f(xs[1..][j]) == Returned(ys[j])
    ensures forall i | 0 <= i < |xs| :: f(xs[i]) == Returned(([y] + ys)[i])
  {
    forall i | 1 <= i < |xs| ensures f(xs[i]) == Returned(([y] + ys)[i]) {
      assert xs[i] == xs[1..][i - 1];
    }
  }

  /** The printed form of a policy line, "min-max letter: password". */
  function FormatLine(min: nat, max: nat, letter: char, password: string): string
  {
    NatToString(min) + "-" + NatToString(max) + " " + [letter] + ": " + password
  }

  lemma DigitsHaveNo(s: string, sep: string)
    requires forall i | 0 <= i < |s| :: IsDigit(s[i])
    requires |sep| > 0 && !IsDigit(sep[0])
    ensures forall k | 0 <= k :: !OccursAt(s, sep, k)
  {
    forall k | 0 <= k ensures !OccursAt(s, sep, k) {
      if k + |sep| <= |s| {
        assert s[k..k + |sep|][0] == s[k];
      }
    }
  }

  /** Parsing a printed policy line gives back its policy and password, when
      the letter is not a space and the password does not contain ": ". */
  lemma ParseFormat(min: nat, max: nat, letter: char, password: string)
    requires letter != ' '
    requires forall k | 0 <= k :: !OccursAt(password, ": ", k)
    ensures ParseLine(FormatLine(min, max, letter, password)) == Returned(Entry(Policy(min, max, letter), password))
  {
    var m1, m2 := NatToString(min), NatToString(max);
    var bounds := m1 + "-" + m2;
    var policy := bounds + " " + [letter];
    assert policy + ": " + password == FormatLine(min, max, letter, password);
    SplitLine(m1, m2, letter, password);
    SplitPolicy(m1, m2, letter);
    SplitBounds(m1, m2);
    ParseIntToString(min);
    ParseIntToString(max);
  }

  /** The ": " after the letter is the first one in a printed line. */
  lemma SplitLine(m1: string, m2: string, letter: char, password: string)
    requires AllDigits(m1) && AllDigits(m2)
    requires forall k | 0 <= k :: !OccursAt(password, ": ", k)
    ensures Split(m1 + "-" + m2 + " " + [letter] + ": " + password, ": ") == [m1 + "-" + m2 + " " + [letter], password]
  {
    var bounds := m1 + "-" + m2;
    var policy := bounds + " " + [letter];
    var line := policy + ": " + password;
    forall k | 0 <= k < |policy| ensures !OccursAt(line, ": ", k) {
      if k + 2 <= |line| {
        var w := line[k..k + 2];
        assert w[0] == line[k] && w[1] == line[k + 1];
        if k < |m1| {
          assert line[k] == m1[k];
        } else if k == |m1| {
          assert line[k] == '-';
        } else if k < |bounds| {
          assert line[k] == m2[k - |m1| - 1];
        } else if k == |bounds| {
          assert line[k] == ' ';
        } else {
          assert line[k + 1] == ':';
        }
      }
    }
    SplitAt(policy, ": ", password);
    SplitNone(password, ": ");
  }

  /** A printed policy splits at its one space into the bounds and the letter. */
  lemma SplitPolicy(m1: string, m2: string, letter: char)
    requires AllDigits(m1) && AllDigits(m2) && letter != ' '
    ensures Split(m1 + "-" + m2 + " " + [letter], " ") == [m1 + "-" + m2, [letter]]
  {
    var bounds := m1 + "-" + m2;
    var policy := bounds + " " + [letter];
    forall k | 0 <= k < |bounds| ensures !OccursAt(policy, " ", k) {
      assert policy[k..k + 1][0] == policy[k];
      if k < |m1| {
        assert policy[k] == m1[k];
      } else if k > |m1| {
        assert policy[k] == m2[k - |m1| - 1];
      }
    }
    SplitAt(bounds, " ", [letter]);
    forall k | 0 <= k ensures !OccursAt([letter], " ", k) {
      if k == 0 { assert [letter][0..1][0] == letter; }
    }
    SplitNone([letter], " ");
  }

  /** Printed bounds split at their one "-" into the two numbers. */
  lemma SplitBounds(m1: string, m2: string)
    requires AllDigits(m1) && AllDigits(m2)
    ensures Split(m1 + "-" + m2, "-") == [m1, m2]
  {
    var bounds := m1 + "-" + m2;
    forall k | 0 <= k < |m1| ensures !OccursAt(bounds, "-", k) {
      assert bounds[k..k + 1][0] == bounds[k] == m1[k];
    }
    SplitAt(m1, "-", m2);
    DigitsHaveNo(m2, "-");
    SplitNone(m2, "-");
  }

  /** The first reading of a policy: the letter occurs between min and max
      times (Day2.cs:73-74). */
  predicate ValidA(e: Entry)
  {
    e.policy.min <= Occurrences(e.password, e.policy.letter) <= e.policy.max
  }

  /** `RunPartA` (Day2.cs:67-78): the fold that adds one per accepted entry. */
  function CountA(entries: seq<Entry>): (n: nat)
    ensures n <= |entries|
  {
    if entries == [] then 0
    else CountA(entries[..|entries| - 1]) + (if ValidA(entries[|entries| - 1]) then 1 else 0)
  }

  /** The accepted entries, by position. */
  function AcceptedA(entries: seq<Entry>): set<nat>
  {
    set i: nat | i < |entries| && ValidA(entries[i])
  }

  /** Part A counts exactly the entries whose letter count is within bounds. */
  lemma {:induction false} CountAIsAccepted(entries: seq<Entry>)
    ensures CountA(entries) == |AcceptedA(entries)|
  {
    if entries != [] {
      var p := entries[..|entries| - 1];
      var last := |entries| - 1;
      CountAIsAccepted(p);
      if ValidA(entries[last]) {
        assert AcceptedA(entries) == AcceptedA(p) + {last};
      } else {
        assert AcceptedA(entries) == AcceptedA(p);
      }
    }
  }

  /** Counting two batches is adding their counts. */
  lemma {:induction false} CountAAppend(a: seq<Entry>, b: seq<Entry>)
    ensures CountA(a + b) == CountA(a) + CountA(b)
    decreases |b|
  {
    if b == [] {
      assert a + b == a;
    } else {
      assert (a + b)[..|a + b| - 1] == a + b[..|b| - 1];
      CountAAppend(a, b[..|b| - 1]);
    }
  }

  /** `x.Password[i]`: an index outside the password throws. */
  function At(s: string, i: int): (o: Outcome<char>)
    ensures o.Returned? <==> 0 <= i < |s|
    ensures o.Returned? ==> o.value == s[i]
    ensures o.Threw? ==> o.exception == IndexOutOfRange
  {
    if 0 <= i < |s| then Returned(s[i]) else Threw(IndexOutOfRange)
  }

  /** The second reading (Day2.cs:96-98): the password is at least max long
      and exactly one of the 1-based positions min and max holds the letter.
      Both positions are read once the length check passes. */
  function CheckB(e: Entry): Outcome<bool>
  {
    if !(|e.password| >= e.policy.max) then Returned(false)
    else
      match At(e.password, e.policy.min - 1)
      case Threw(x) => Threw(x)
      case Returned(first) =>
        match At(e.password, e.policy.max - 1)
        case Threw(x) => Threw(x)
        case Returned(second) => Returned((first == e.policy.letter) != (second == e.policy.letter))
  }

  /** `RunPartB` (Day2.cs:91-101): the fold that adds one per accepted entry;
      an index error stops it. */
  function CountB(entries: seq<Entry>): (o: Outcome<nat>)
    ensures o.Returned? ==> o.value <= |entries|
  {
    if entries == [] then Returned(0)
    else
      match CountB(entries[..|entries| - 1])
      case Threw(x) => Threw(x)
      case Returned(n) =>
        match CheckB(entries[|entries| - 1])
        case Threw(x) => Threw(x)
        case Returned(ok) => Returned(n + if ok then 1 else 0)
  }

  /** A policy whose bounds are 1-based positions in order. */
  predicate WellFormed(p: Policy)
  {
    1 <= p.min <= p.max
  }

  /** The second reading, for a well-formed policy: long enough, and the
      letter at exactly one of the two positions. */
  predicate ValidB(e: Entry)
  {
    WellFormed(e.policy) && |e.password| >= e.policy.max
    && ((e.password[e.policy.min - 1] == e.policy.letter) != (e.password[e.policy.max - 1] == e.policy.letter))
  }

  /** A well-formed policy never sends `CheckB` out of the password. */
  lemma CheckBWellFormed(e: Entry)
    requires WellFormed(e.policy)
    ensures CheckB(e) == Returned(ValidB(e))
  {
  }

  /** A position below 1 is read as index -1 once the password is long enough. */
  lemma CheckBThrows(e: Entry)
    requires e.policy.min < 1 <= e.policy.max <= |e.password|
    ensures CheckB(e) == Threw(IndexOutOfRange)
  {
  }

  /** The accepted entries of the second reading, by position. */
  function AcceptedB(entries: seq<Entry>): set<nat>
  {
    set i: nat | i < |entries| && ValidB(entries[i])
  }

  /** With well-formed policies Part B never throws, and counts exactly the
      entries with the letter at one of the two positions but not both. */
  lemma {:induction false} CountBIsAccepted(entries: seq<Entry>)
    requires forall i | 0 <= i < |entries| :: WellFormed(entries[i].policy)
    ensures CountB(entries) == Returned(|AcceptedB(entries)|)
  {
    if entries != [] {
      var last := |entries| - 1;
      var p := entries[..last];
      assert forall i | 0 <= i < |p| :: p[i] == entries[i];
      CountBIsAccepted(p);
      CheckBWellFormed(entries[last]);
      var n := |AcceptedB(p)|;
      assert CountB(entries) == Returned(n + if ValidB(entries[last]) then 1 else 0);
      AcceptedBSnoc(entries);
      if ValidB(entries[last]) {
        assert last !in AcceptedB(p);
        assert |AcceptedB(entries)| == n + 1;
      }
    }
  }

  /** The entries Part B accepts, grown by one entry. */
  lemma AcceptedBSnoc(entries: seq<Entry>)
    requires entries != []
    ensures var n := |entries| - 1;
            AcceptedB(entries) == AcceptedB(entries[..n]) + if ValidB(entries[n]) then {n} else {}
  {
    var n := |entries| - 1;
    var p := entries[..n];
    forall i: nat
      ensures i in AcceptedB(entries) <==> i in AcceptedB(p) + if ValidB(entries[n]) then {n} else {}
    {
      if i < n {
        assert p[i] == entries[i];
      }
    }
  }

  /** `Run` (Day2.cs:15-23): both counts printed into the day. */
  function Run(lines: seq<string>): Outcome<Day>
  {
    match ParseInput(lines)
    case Threw(x) => Threw(x)
    case Returned(entries) =>
      match CountB(entries)
      case Threw(x) => Threw(x)
      case Returned(b) => Returned(Day(Title, NatToString(CountA(entries)), NatToString(b)))
  }

  /** When every line parses into a well-formed policy, the day holds the
      number of entries each reading accepts; a line that does not parse
      makes `Run` throw what parsing it throws. */
  lemma RunCounts(lines: seq<string>)
    ensures ParseInput(lines).Threw? ==> Run(lines) == Threw(ParseInput(lines).exception)
    ensures ParseInput(lines).Returned? && (forall i | 0 <= i < |lines| :: WellFormed(ParseInput(lines).value[i].policy)) ==>
              Run(lines) == Returned(Day(Title, NatToString(|AcceptedA(ParseInput(lines).value)|),
                                         NatToString(|AcceptedB(ParseInput(lines).value)|)))
  {
    var o := ParseInput(lines);
    if o.Returned? && forall i | 0 <= i < |lines| :: WellFormed(o.value[i].policy) {
      CountAIsAccepted(o.value);
      CountBIsAccepted(o.value);
    }
  }

  const Sample: seq<string> := ["1-3 a: abcde", "1-3 b: cdefg", "2-9 c: ccccccccc"]

  const SampleEntries: seq<Entry> := [Entry(Policy(1, 3, 'a'), "abcde"),
                                      Entry(Policy(1, 3, 'b'), "cdefg"),
                                      Entry(Policy(2, 9, 'c'), "ccccccccc")]

  lemma NoColon(password: string)
    requires ':' !in password
    ensures forall k | 0 <= k :: !OccursAt(password, ": ", k)
  {
    forall k | 0 <= k ensures !OccursAt(password, ": ", k) {
      if k + 2 <= |password| {
        assert password[k..k + 2][0] == password[k];
      }
    }
  }

  lemma SampleLine0()
    ensures ParseLine(Sample[0]) == Returned(SampleEntries[0])
  {
    assert NatToString(1) == "1" && NatToString(3) == "3";
    assert FormatLine(1, 3, 'a', "abcde") == Sample[0];
    NoColon("abcde");
    ParseFormat(1, 3, 'a', "abcde");
  }

  lemma SampleLine1()
    ensures ParseLine(Sample[1]) == Returned(SampleEntries[1])
  {
    assert NatToString(1) == "1" && NatToString(3) == "3";
    assert FormatLine(1, 3, 'b', "cdefg") == Sample[1];
    NoColon("cdefg");
    ParseFormat(1, 3, 'b', "cdefg");
  }

  lemma SampleLine2()
    ensures ParseLine(Sample[2]) == Returned(SampleEntries[2])
  {
    assert NatToString(2) == "2" && NatToString(9) == "9";
    assert FormatLine(2, 9, 'c', "ccccccccc") == Sample[2];
    NoColon("ccccccccc");
    ParseFormat(2, 9, 'c', "ccccccccc");
  }

  /** The example's three lines parse to their three policies. */
  lemma SampleParse()
    ensures ParseInput(Sample) == Returned(SampleEntries)
  {
    SampleLine0();
    SampleLine1();
    SampleLine2();
    forall i | 0 <= i < |Sample| ensures ParseLine(Sample[i]) == Returned(SampleEntries[i]) {
      if i == 0 { } else if i == 1 { } else { }
    }
    ParseAll(Sample, SampleEntries);
  }

  /** Lines that each parse to an entry parse to those entries, in order. */
  lemma ParseAll(lines: seq<string>, entries: seq<Entry>)
    requires |lines| == |entries|
    requires forall i | 0 <= i < |lines| :: ParseLine(lines[i]) == Returned(entries[i])
    ensures ParseInput(lines) == Returned(entries)
  {
    var o := ParseInput(lines);
    assert o.Returned?;
    assert |o.value| == |entries|;
    forall i | 0 <= i < |lines| ensures o.value[i] == entries[i] {
      assert ParseLine(lines[i]) == Returned(o.value[i]);
    }
    assert o.value == entries;
  }

  /** The first reading accepts the first and third sample passwords. */
  lemma SampleValidA()
    ensures ValidA(SampleEntries[0]) && !ValidA(SampleEntries[1]) && ValidA(SampleEntries[2])
  {
    OccurrencesCons('a', "bcde", 'a');
    assert "abcde" == ['a'] + "bcde" && 'a' !in "bcde";
    assert 'b' !in "cdefg";
    OccurrencesOnly("ccccccccc", 'c');
  }

  lemma SampleCountA()
    ensures CountA(SampleEntries) == 2
  {
    SampleValidA();
    CountAOfThree(SampleEntries);
  }

  /** The count of three entries, one entry at a time. */
  lemma CountAOfThree(e: seq<Entry>)
    requires |e| == 3
    ensures CountA(e) == (if ValidA(e[0]) then 1 else 0) + (if ValidA(e[1]) then 1 else 0) + (if ValidA(e[2]) then 1 else 0)
  {
    assert e[..2][..1][..0] == [];
    assert e[..2][..1] == e[..1] && e[..2][1] == e[1] && e[..1][0] == e[0];
  }

  lemma SampleCountB()
    ensures CountB(SampleEntries) == Returned(1)
  {
    var e := SampleEntries;
    assert ValidB(e[0]);
    assert !ValidB(e[1]);
    assert !ValidB(e[2]);
    assert e[..2][..1][..0] == [];
    CountBIsAccepted(e);
    assert AcceptedB(e) == {0};
  }

  /** The published example: two passwords pass the first reading, one the second. */
  lemma SampleAnswers()
    ensures Run(Sample) == Returned(Day(Title, "2", "1"))
  {
    SampleParse();
    SampleCountA();
    SampleCountB();
  }
}
