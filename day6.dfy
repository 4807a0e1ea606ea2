/** Day 6, "Custom Customs": the answer lines are grouped at blank lines and
    each group's questions a..z are counted, once for the questions anyone in
    the group answered and once for the questions everyone answered
    (AdventOfCode/Day6.cs). */
module Day6 {
  import opened Strings
  import opened Errors
  import opened Days

  const Title := "--- Day 6: Custom Customs ---"

  // ---------------------------------------------------------------------
  // Grouping the lines (Day6.cs:27-44)

  /** The groups the fold of `ParseInput` holds after `lines` (Day6.cs:31-41):
      it starts from one empty group, an empty line opens a new group and any
      other line joins the last group. */
  function Grouped(lines: seq<string>): (groups: seq<seq<string>>)
    ensures |groups| >= 1
  {
    if lines == [] then [[]]
    else
      var groups := Grouped(lines[..|lines| - 1]);
      var line := lines[|lines| - 1];
      if line == "" then groups + [[]]
      else groups[..|groups| - 1] + [groups[|groups| - 1] + [line]]
  }

  /** `ParseInput` (Day6.cs:27-44): the list of groups is extended line by
      line, in place. */
  method ParseInput(input: seq<string>) returns (groups: seq<seq<string>>)
    ensures groups == Grouped(input)
  {
    groups := [[]];
    for i := 0 to |input|
      invariant groups == Grouped(input[..i])
    {
      assert input[..i + 1][..i] == input[..i];
      if input[i] == "" {
        groups := groups + [[]];
      } else {
        groups := groups[..|groups| - 1] + [groups[|groups| - 1] + [input[i]]];
      }
    }
    assert input[..|input|] == input;
  }

  /** The number of empty lines. */
  function Blanks(lines: seq<string>): nat
  {
    if lines == [] then 0
    else Blanks(lines[..|lines| - 1]) + (if lines[|lines| - 1] == "" then 1 else 0)
  }

  /** The non-empty lines, in input order. */
  function Answers(lines: seq<string>): seq<string>
  {
    if lines == [] then []
    else
      var line := lines[|lines| - 1];
      Answers(lines[..|lines| - 1]) + (if line == "" then [] else [line])
  }

  /** k empty lines give k + 1 groups. */
  lemma {:induction false} GroupedCount(lines: seq<string>)
    ensures |Grouped(lines)| == Blanks(lines) + 1
  {
    if lines != [] {
      GroupedCount(lines[..|lines| - 1]);
    }
  }

  lemma {:induction false} ConcatAppend<T>(a: seq<seq<T>>, b: seq<seq<T>>)
    ensures Concat(a + b) == Concat(a) + Concat(b)
  {
    if a != [] {
      assert (a + b)[1..] == a[1..] + b;
      ConcatAppend(a[1..], b);
    } else {
      assert a + b == b;
    }
  }

  lemma ConcatSnoc<T>(a: seq<seq<T>>, b: seq<T>)
    ensures Concat(a + [b]) == Concat(a) + b
  {
    ConcatAppend(a, [b]);
    assert Concat([b]) == b + Concat([b][1..]);
  }

  /** The groups, laid end to end, are exactly the non-empty lines in input
      order: no line is lost, duplicated or moved. */
  lemma {:induction false} GroupedConcat(lines: seq<string>)
    ensures Concat(Grouped(lines)) == Answers(lines)
  {
    if lines != [] {
      var init := lines[..|lines| - 1];
      var line := lines[|lines| - 1];
      GroupedConcat(init);
      var groups := Grouped(init);
      var n := |groups|;
      if line == "" {
        ConcatSnoc(groups, []);
      } else {
        assert groups == groups[..n - 1] + [groups[n - 1]];
        ConcatSnoc(groups[..n - 1], groups[n - 1]);
        ConcatSnoc(groups[..n - 1], groups[n - 1] + [line]);
      }
    }
  }

  /** Lines without an empty one form a single group. */
  lemma {:induction false} GroupedSingle(lines: seq<string>)
    requires forall i | 0 <= i < |lines| :: lines[i] != ""
    ensures Grouped(lines) == [lines]
  {
    if lines != [] {
      var init := lines[..|lines| - 1];
      GroupedSingle(init);
      assert lines == init + [lines[|lines| - 1]];
    }
  }

  /** One more line: a new group for an empty line, otherwise the line joins
      the last group. */
  lemma GroupedStep(lines: seq<string>, line: string, groups: seq<seq<string>>)
    requires groups == Grouped(lines)
    ensures line == "" ==> Grouped(lines + [line]) == groups + [[]]
    ensures line != "" ==> Grouped(lines + [line]) == groups[..|groups| - 1] + [groups[|groups| - 1] + [line]]
  {
    assert (lines + [line])[..|lines|] == lines;
  }

  /** An empty line separates: the groups of a, an empty line and b are the
      groups of a followed by the groups of b. With `GroupedSingle` this
      determines every grouping. */
  lemma {:induction false} GroupedSplit(a: seq<string>, b: seq<string>)
    ensures Grouped(a + [""] + b) == Grouped(a) + Grouped(b)
    decreases |b|
  {
    var ga := Grouped(a);
    if b == [] {
      assert a + [""] + b == a + [""];
      GroupedStep(a, "", ga);
    } else {
      var init := b[..|b| - 1];
      var line := b[|b| - 1];
      var gb := Grouped(init);
      var prefix := a + [""] + init;
      SnocSplit(a + [""], b);
      GroupedSplit(a, init);
      GroupedStep(prefix, line, ga + gb);
      GroupedStep(init, line, gb);
      JoinLast(ga, gb, line);
    }
  }

  /** Cutting the last line off the part after a prefix. */
  lemma SnocSplit<T>(p: seq<T>, b: seq<T>)
    requires b != []
    ensures b == b[..|b| - 1] + [b[|b| - 1]]
    ensures p + b == (p + b[..|b| - 1]) + [b[|b| - 1]]
  {
    assert b == b[..|b| - 1] + [b[|b| - 1]];
  }

  /** Adding a group or a line at the end of the groups of a, then b. */
  lemma JoinLast<T>(ga: seq<seq<T>>, gb: seq<seq<T>>, line: T)
    requires gb != []
    ensures ga + (gb + [[]]) == (ga + gb) + [[]]
    ensures var g := ga + gb;
      g[..|g| - 1] + [g[|g| - 1] + [line]] == ga + (gb[..|gb| - 1] + [gb[|gb| - 1] + [line]])
  {
    var g := ga + gb;
    assert g[..|g| - 1] == ga + gb[..|gb| - 1];
  }

  // ---------------------------------------------------------------------
  // Tallying a group (Day6.cs:55-64)

  /** The letter with code 97 + k: 'a' for 0 up to 'z' for 25. */
  function Letter(k: nat): (c: char)
    requires k < 26
    ensures 'a' <= c <= 'z' && c as int - 97 == k
  {
    (97 + k) as char
  }

  /** Every character is a letter a..z, so `c - 97` indexes the tally. */
  predicate Lowercase(s: string)
  {
    forall i | 0 <= i < |s| :: 'a' <= s[i] <= 'z'
  }

  /** How often each letter a..z occurs in s. */
  function Counts(s: string): (counts: seq<nat>)
    ensures |counts| == 26
  {
    seq(26, k requires 0 <= k < 26 => Occurrences(s, Letter(k)))
  }

  /** The tally `RunPart` builds for a group (Day6.cs:55-64): every
      occurrence of a letter in any of its lines adds one; a character outside
      a..z indexes outside the 26-entry array and throws. */
  function Tallied(group: seq<string>): (o: Outcome<seq<nat>>)
  {
    var answers := Concat(group);
    if Lowercase(answers) then Returned(Counts(answers)) else Threw(IndexOutOfRange)
  }

  lemma {:induction false} OccurrencesSnoc(s: string, c: char, x: char)
    ensures Occurrences(s + [x], c) == Occurrences(s, c) + (if x == c then 1 else 0)
  {
    if s != [] {
      assert (s + [x])[1..] == s[1..] + [x];
      OccurrencesSnoc(s[1..], c, x);
    }
  }

  /** One more letter x adds one to x's count and leaves the others. */
  lemma CountsSnoc(s: string, x: char)
    requires 'a' <= x <= 'z'
    ensures Counts(s + [x]) == Counts(s)[x as int - 97 := Counts(s)[x as int - 97] + 1]
  {
    forall k | 0 <= k < 26
      ensures Counts(s + [x])[k] == Counts(s)[x as int - 97 := Counts(s)[x as int - 97] + 1][k]
    {
      OccurrencesSnoc(s, Letter(k), x);
    }
  }

  /** The inner loops of `RunPart` (Day6.cs:55-64): a fresh 26-entry array
      is incremented at `c - 97` for each character of each line. */
  method Tally(group: seq<string>) returns (o: Outcome<seq<nat>>)
    ensures o == Tallied(group)
  {
    var tally := new nat[26](_ => 0);
    assert tally[..] == Counts([]);
    for j := 0 to |group|
      invariant Lowercase(Concat(group[..j]))
      invariant tally[..] == Counts(Concat(group[..j]))
    {
      var ok := TallyLine(tally, group[j], Concat(group[..j]));
      if !ok {
        LetterOutside(group, j);
        return Threw(IndexOutOfRange);
      }
      ConcatPrefix(group, j);
    }
    assert group[..|group|] == group;
    return Returned(tally[..]);
  }

  /** The loop over one line's characters (Day6.cs:59-63): each letter adds
      one at `c - 97`; the first character outside a..z throws. */
  method TallyLine(tally: array<nat>, line: string, ghost before: string) returns (ok: bool)
    requires tally.Length == 26 && Lowercase(before) && tally[..] == Counts(before)
    modifies tally
    ensures ok <==> Lowercase(line)
    ensures ok ==> Lowercase(before + line) && tally[..] == Counts(before + line)
  {
    ghost var seen := before;
    PrefixEnds(before, line);
    for p := 0 to |line|
      invariant seen == before + line[..p]
      invariant Lowercase(seen) && Lowercase(line[..p])
      invariant tally[..] == Counts(seen)
    {
      var i := line[p] as int - 97;
      if i < 0 || i >= 26 {
        return false;
      }
      ghost var counts := tally[..];
      CountsSnoc(seen, line[p]);
      LowercaseSnoc(seen, line[p]);
      LowercaseSnoc(line[..p], line[p]);
      tally[i] := tally[i] + 1;
      assert tally[..] == counts[i := counts[i] + 1];
      PrefixSnoc(before, line, p);
      seen := seen + [line[p]];
    }
    return true;
  }

  lemma LowercaseSnoc(s: string, x: char)
    requires Lowercase(s) && 'a' <= x <= 'z'
    ensures Lowercase(s + [x])
  {
  }

  /** The first p + 1 characters of a line after some text. */
  lemma PrefixSnoc<T>(before: seq<T>, line: seq<T>, p: nat)
    requires p < |line|
    ensures line[..p + 1] == line[..p] + [line[p]]
    ensures before + line[..p + 1] == (before + line[..p]) + [line[p]]
  {
    assert line[..p + 1] == line[..p] + [line[p]];
  }

  /** The whole line, or none of it, after some text. */
  lemma PrefixEnds<T>(before: seq<T>, line: seq<T>)
    ensures before + line[..0] == before
    ensures line[..|line|] == line && before + line[..|line|] == before + line
  {
    assert line[..0] == [];
  }

  /** The lines up to j, laid end to end, then line j. */
  lemma ConcatPrefix<T>(group: seq<seq<T>>, j: nat)
    requires j < |group|
    ensures Concat(group[..j + 1]) == Concat(group[..j]) + group[j]
  {
    assert group[..j + 1] == group[..j] + [group[j]];
    ConcatSnoc(group[..j], group[j]);
  }

  /** A character of one of the lines is a character of the group. */
  lemma LetterOutside(group: seq<string>, j: nat)
    requires j < |group| && !Lowercase(group[j])
    ensures !Lowercase(Concat(group))
  {
    var p :| 0 <= p < |group[j]| && !('a' <= group[j][p] <= 'z');
    assert group == group[..j] + [group[j]] + group[j + 1..];
    ConcatAppend(group[..j] + [group[j]], group[j + 1..]);
    ConcatSnoc(group[..j], group[j]);
    var at := |Concat(group[..j])| + p;
    assert Concat(group)[at] == group[j][p];
  }

  // ---------------------------------------------------------------------
  // Counting the questions (Day6.cs:66-71)

  /** Whether question k counts: anyone answered it (tally above 0), or, with
      `allAnswered`, its tally equals the group size (Day6.cs:69-71). */
  predicate Counted(tally: seq<nat>, size: nat, allAnswered: bool, k: nat)
    requires k < |tally|
  {
    if allAnswered then tally[k] == size else tally[k] > 0
  }

  /** The fold over `Enumerable.Range(0, n)` (Day6.cs:67-71); n is 26 there. */
  function CountQuestions(tally: seq<nat>, size: nat, allAnswered: bool, n: nat): (c: nat)
    requires n <= |tally|
    ensures c <= n
  {
    if n == 0 then 0
    else CountQuestions(tally, size, allAnswered, n - 1) + (if Counted(tally, size, allAnswered, n - 1) then 1 else 0)
  }

  /** The count is the number of questions below n that count. */
  lemma {:induction false} CountQuestionsCardinality(tally: seq<nat>, size: nat, allAnswered: bool, n: nat)
    requires n <= |tally|
    ensures CountQuestions(tally, size, allAnswered, n) == |set k | 0 <= k < n && Counted(tally, size, allAnswered, k)|
  {
    if n > 0 {
      CountQuestionsCardinality(tally, size, allAnswered, n - 1);
      var below := set k | 0 <= k < n - 1 && Counted(tally, size, allAnswered, k);
      var upTo := set k | 0 <= k < n && Counted(tally, size, allAnswered, k);
      if Counted(tally, size, allAnswered, n - 1) {
        assert upTo == below + {n - 1};
      } else {
        assert upTo == below;
      }
    }
  }

  /** A character is in a concatenation iff it is in one of the parts. */
  lemma {:induction false} InConcat(group: seq<string>, c: char)
    ensures c in Concat(group) <==> exists line | line in group :: c in line
  {
    if group != [] {
      InConcat(group[1..], c);
      assert forall line | line in group :: line == group[0] || line in group[1..];
    }
  }

  /** "Anyone": a letter's tally is above 0 iff some line of the group has
      the letter. */
  lemma AnyoneAnswered(group: seq<string>, k: nat)
    requires Tallied(group).Returned? && k < 26
    ensures Tallied(group).value[k] > 0 <==> exists line | line in group :: Letter(k) in line
  {
    InConcat(group, Letter(k));
  }

  /** A line that lists no question twice, as the puzzle's answers do. */
  predicate NoRepeats(line: string)
  {
    forall i, j | 0 <= i < j < |line| :: line[i] != line[j]
  }

  lemma {:induction false} AtMostOnce(line: string, c: char)
    requires NoRepeats(line)
    ensures Occurrences(line, c) == (if c in line then 1 else 0)
  {
    if line != [] {
      AtMostOnce(line[1..], c);
      if line[0] == c {
        assert c !in line[1..] by {
          forall i | 0 <= i < |line[1..]| ensures line[1..][i] != c {
            assert line[1..][i] == line[i + 1];
          }
        }
      }
    }
  }

  lemma {:induction false} OccurrencesAppend(a: string, b: string, c: char)
    ensures Occurrences(a + b, c) == Occurrences(a, c) + Occurrences(b, c)
  {
    if a != [] {
      assert (a + b)[1..] == a[1..] + b;
      OccurrencesAppend(a[1..], b, c);
    } else {
      assert a + b == b;
    }
  }

  /** With no repeated letter in a line, a letter occurs at most once per
      line, and as many times as there are lines iff every line has it. */
  lemma {:induction false} OccurrencesPerLine(group: seq<string>, c: char)
    requires forall line | line in group :: NoRepeats(line)
    ensures Occurrences(Concat(group), c) <= |group|
    ensures Occurrences(Concat(group), c) == |group| <==> forall line | line in group :: c in line
  {
    if group != [] {
      OccurrencesPerLine(group[1..], c);
      OccurrencesAppend(group[0], Concat(group[1..]), c);
      AtMostOnce(group[0], c);
      assert forall line | line in group :: line == group[0] || line in group[1..];
    }
  }

  /** "Everyone": when no line repeats a letter, a letter's tally equals the
      group size iff every line of the group has the letter. The source
      compares the number of occurrences, so a repeated letter would count
      twice. */
  lemma EveryoneAnswered(group: seq<string>, k: nat)
    requires Tallied(group).Returned? && k < 26
    requires forall line | line in group :: NoRepeats(line)
    ensures Tallied(group).value[k] == |group| <==> forall line | line in group :: Letter(k) in line
  {
    OccurrencesPerLine(group, Letter(k));
  }

  /** Every question counts when all do. */
  lemma {:induction false} CountQuestionsAll(tally: seq<nat>, size: nat, allAnswered: bool, n: nat)
    requires n <= |tally|
    requires forall k | 0 <= k < n :: Counted(tally, size, allAnswered, k)
    ensures CountQuestions(tally, size, allAnswered, n) == n
  {
    if n > 0 {
      CountQuestionsAll(tally, size, allAnswered, n - 1);
    }
  }

  /** An empty group (two empty lines in a row, or an empty last line) has an
      all-zero tally, which equals its size 0: it adds 26 to the "everyone"
      count and nothing to the "anyone" count. */
  lemma EmptyGroup()
    ensures Tallied([]).Returned?
    ensures CountQuestions(Tallied([]).value, 0, true, 26) == 26
    ensures CountQuestions(Tallied([]).value, 0, false, 26) == 0
  {
    var tally := Tallied([]).value;
    CountQuestionsAll(tally, 0, true, 26);
    CountQuestionsCardinality(tally, 0, false, 26);
    assert (set k | 0 <= k < 26 && Counted(tally, 0, false, k)) == {};
  }

  // ---------------------------------------------------------------------
  // The parts (Day6.cs:14-22, 47-73)

  /** What a group adds to the total. */
  function GroupCount(group: seq<string>, allAnswered: bool): (o: Outcome<nat>)
    ensures o.Returned? ==> o.value <= 26
  {
    match Tallied(group)
    case Threw(x) => Threw(x)
    case Returned(tally) => Returned(CountQuestions(tally, |group|, allAnswered, 26))
  }

  /** The fold over the groups in `RunPart` (Day6.cs:52-72), before printing. */
  function Total(groups: seq<seq<string>>, allAnswered: bool): (o: Outcome<nat>)
    ensures o.Returned? ==> o.value <= 26 * |groups|
  {
    if groups == [] then Returned(0)
    else
      match Total(groups[..|groups| - 1], allAnswered)
      case Threw(x) => Threw(x)
      case Returned(t) =>
        match GroupCount(groups[|groups| - 1], allAnswered)
        case Threw(x) => Threw(x)
        case Returned(c) => Returned(t + c)
  }

  /** The total throws iff some group holds a character outside a..z. */
  lemma {:induction false} TotalThrows(groups: seq<seq<string>>, allAnswered: bool)
    ensures Total(groups, allAnswered).Threw? <==> exists g | g in groups :: !Lowercase(Concat(g))
    ensures Total(groups, allAnswered).Threw? ==> Total(groups, allAnswered).exception == IndexOutOfRange
  {
    if groups != [] {
      var init := groups[..|groups| - 1];
      var last := groups[|groups| - 1];
      TotalThrows(init, allAnswered);
      assert forall g | g in groups :: g in init || g == last;
      assert forall g | g in init :: g in groups;
      if Total(init, allAnswered).Returned? && !Lowercase(Concat(last)) {
        assert last in groups;
      }
    }
  }

  /** Once a prefix of the groups throws, so does the whole fold. */
  lemma {:induction false} TotalPrefixThrows(groups: seq<seq<string>>, allAnswered: bool, n: nat)
    requires n <= |groups|
    requires Total(groups[..n], allAnswered).Threw?
    ensures Total(groups, allAnswered) == Total(groups[..n], allAnswered)
    decreases |groups| - n
  {
    if n < |groups| {
      assert groups[..n + 1][..n] == groups[..n];
      TotalPrefixThrows(groups, allAnswered, n + 1);
    } else {
      assert groups[..n] == groups;
    }
  }

  /** The printed answer of a part. */
  function Answer(groups: seq<seq<string>>, allAnswered: bool): (o: Outcome<string>)
  {
    match Total(groups, allAnswered)
    case Threw(x) => Threw(x)
    case Returned(t) => Returned(NatToString(t))
  }

  /** `RunPart` (Day6.cs:47-73): each group is tallied and its count added
      to the running total. */
  method RunPart(groups: seq<seq<string>>, allAnswered: bool) returns (o: Outcome<string>)
    ensures o == Answer(groups, allAnswered)
  {
    var total := 0;
    for j := 0 to |groups|
      invariant Total(groups[..j], allAnswered) == Returned(total)
    {
      assert groups[..j + 1][..j] == groups[..j];
      var tally := Tally(groups[j]);
      if tally.Threw? {
        TotalPrefixThrows(groups, allAnswered, j + 1);
        return Threw(tally.exception);
      }
      total := total + CountQuestions(tally.value, |groups[j]|, allAnswered, 26);
    }
    assert groups[..|groups|] == groups;
    return Returned(NatToString(total));
  }

  /** What `Run` returns or throws (Day6.cs:14-22). */
  function RunDay(input: seq<string>): (o: Outcome<Day>)
    ensures o.Returned? ==> o.value.title == Title
    ensures o.Returned? <==> forall g | g in Grouped(input) :: Lowercase(Concat(g))
  {
    TotalThrows(Grouped(input), false);
    TotalThrows(Grouped(input), true);
    match Answer(Grouped(input), false)
    case Threw(x) => Threw(x)
    case Returned(a) =>
      match Answer(Grouped(input), true)
      case Threw(x) => Threw(x)
      case Returned(b) => Returned(Day(Title, a, b))
  }

  /** `Run` (Day6.cs:14-22). */
  method Run(input: seq<string>) returns (o: Outcome<Day>)
    ensures o == RunDay(input)
  {
    var groups := ParseInput(input);
    var a := RunPart(groups, false);
    if a.Threw? {
      return Threw(a.exception);
    }
    var b := RunPart(groups, true);
    if b.Threw? {
      return Threw(b.exception);
    }
    o := Returned(Day(Title, a.value, b.value));
  }

  // ---------------------------------------------------------------------
  // What the answers mean

  /** The questions a group counts: those anyone in it answered, or, with
      `allAnswered`, those everyone in it answered. */
  function Questions(group: seq<string>, allAnswered: bool): set<nat>
  {
    if allAnswered then set k | 0 <= k < 26 && forall line | line in group :: Letter(k) in line
    else set k | 0 <= k < 26 && exists line | line in group :: Letter(k) in line
  }

  /** The questions counted, summed over the groups. */
  function QuestionsTotal(groups: seq<seq<string>>, allAnswered: bool): nat
  {
    if groups == [] then 0
    else QuestionsTotal(groups[..|groups| - 1], allAnswered) + |Questions(groups[|groups| - 1], allAnswered)|
  }

  /** Answers written as the puzzle writes them: letters a..z only, no letter
      twice on a line. */
  predicate Answered(group: seq<string>)
  {
    Lowercase(Concat(group)) && forall line | line in group :: NoRepeats(line)
  }

  /** On such a group the tally counts exactly the questions anyone, or
      everyone, answered. */
  lemma GroupCountIsQuestions(group: seq<string>, allAnswered: bool)
    requires Answered(group)
    ensures GroupCount(group, allAnswered) == Returned(|Questions(group, allAnswered)|)
  {
    var tally := Tallied(group).value;
    var chosen := Questions(group, allAnswered);
    forall k | 0 <= k < 26
      ensures Counted(tally, |group|, allAnswered, k) <==> k in chosen
    {
      AnyoneAnswered(group, k);
      EveryoneAnswered(group, k);
    }
    CountQuestionsBySet(tally, |group|, allAnswered, chosen);
  }

  /** An empty group: everyone of its nobody answered all 26 questions, and
      anyone none. */
  lemma EmptyGroupQuestions()
    ensures |Questions([], true)| == 26 && Questions([], false) == {}
  {
    EmptyGroup();
    GroupCountIsQuestions([], true);
    GroupCountIsQuestions([], false);
  }

  /** The fold over such groups adds up the questions counted per group. */
  lemma {:induction false} TotalIsQuestions(groups: seq<seq<string>>, allAnswered: bool)
    requires forall g | g in groups :: Answered(g)
    ensures Total(groups, allAnswered) == Returned(QuestionsTotal(groups, allAnswered))
  {
    if groups != [] {
      var init := groups[..|groups| - 1];
      assert forall g | g in init :: g in groups;
      TotalIsQuestions(init, allAnswered);
      GroupCountIsQuestions(groups[|groups| - 1], allAnswered);
    }
  }

  /** On answers written as the puzzle writes them, part A is the number of
      questions anyone answered and part B the number everyone answered,
      summed over the groups; an empty group counts all 26 for part B. */
  lemma RunAnswers(input: seq<string>)
    requires forall g | g in Grouped(input) :: Answered(g)
    ensures RunDay(input) == Returned(Day(Title, NatToString(QuestionsTotal(Grouped(input), false)), NatToString(QuestionsTotal(Grouped(input), true))))
  {
    TotalIsQuestions(Grouped(input), false);
    TotalIsQuestions(Grouped(input), true);
  }

  // ---------------------------------------------------------------------
  // The published example: 11 and 6

  const Sample: seq<string> :=
    ["abc", "", "a", "b", "c", "", "ab", "ac", "", "a", "a", "a", "a", "", "b"]

  const SampleGroups: seq<seq<string>> :=
    [["abc"], ["a", "b", "c"], ["ab", "ac"], ["a", "a", "a", "a"], ["b"]]

  /** A group, an empty line, then the rest. */
  lemma GroupedFirst(group: seq<string>, rest: seq<string>)
    requires forall i | 0 <= i < |group| :: group[i] != ""
    ensures Grouped(group + [""] + rest) == [group] + Grouped(rest)
  {
    GroupedSingle(group);
    GroupedSplit(group, rest);
  }

  /** One group of the sample, then an empty line, then the rest. */
  lemma SampleGroupedFrom(k: nat, j: nat, i: nat)
    requires k <= j <= |Sample| && i < |SampleGroups|
    requires forall n | 0 <= n < |SampleGroups[i]| :: SampleGroups[i][n] != ""
    requires Sample[k..] == SampleGroups[i] + [""] + Sample[j..]
    requires Grouped(Sample[j..]) == SampleGroups[i + 1..]
    ensures Grouped(Sample[k..]) == SampleGroups[i..]
  {
    GroupedFirst(SampleGroups[i], Sample[j..]);
    assert SampleGroups[i..] == [SampleGroups[i]] + SampleGroups[i + 1..];
  }

  lemma SampleGroupedFrom9()
    ensures Grouped(Sample[9..]) == SampleGroups[3..]
  {
    var g := SampleGroups;
    assert Sample[14..] == g[4];
    GroupedSingle(g[4]);
    assert g[4..] == [g[4]];
    assert Sample[9..] == g[3] + [""] + Sample[14..];
    SampleGroupedFrom(9, 14, 3);
  }

  lemma SampleGroupedFrom2()
    ensures Grouped(Sample[2..]) == SampleGroups[1..]
  {
    var g := SampleGroups;
    SampleGroupedFrom9();
    assert Sample[6..] == g[2] + [""] + Sample[9..];
    SampleGroupedFrom(6, 9, 2);
    assert Sample[2..] == g[1] + [""] + Sample[6..];
    SampleGroupedFrom(2, 6, 1);
  }

  lemma SampleGrouped()
    ensures Grouped(Sample) == SampleGroups
  {
    var g := SampleGroups;
    SampleGroupedFrom2();
    assert Sample[0..] == g[0] + [""] + Sample[2..];
    SampleGroupedFrom(0, 2, 0);
    assert Sample[0..] == Sample && g[0..] == g;
  }

  /** The count over 26 questions is the size of the set of questions that
      count. */
  lemma CountQuestionsBySet(tally: seq<nat>, size: nat, allAnswered: bool, chosen: set<nat>)
    requires |tally| == 26
    requires forall k | 0 <= k < 26 :: Counted(tally, size, allAnswered, k) <==> k in chosen
    requires forall k | k in chosen :: k < 26
    ensures CountQuestions(tally, size, allAnswered, 26) == |chosen|
  {
    CountQuestionsCardinality(tally, size, allAnswered, 26);
    assert (set k | 0 <= k < 26 && Counted(tally, size, allAnswered, k)) == chosen;
  }

  /** The count of a group whose lines hold only letters, from the sets of
      questions that count for anyone and for everyone. */
  lemma GroupCountBySets(group: seq<string>, anyone: set<nat>, everyone: set<nat>)
    requires Lowercase(Concat(group))
    requires forall k | 0 <= k < 26 :: Occurrences(Concat(group), Letter(k)) > 0 <==> k in anyone
    requires forall k | 0 <= k < 26 :: Occurrences(Concat(group), Letter(k)) == |group| <==> k in everyone
    requires forall k | k in anyone :: k < 26
    requires forall k | k in everyone :: k < 26
    ensures GroupCount(group, false) == Returned(|anyone|)
    ensures GroupCount(group, true) == Returned(|everyone|)
  {
    var tally := Counts(Concat(group));
    forall k | 0 <= k < 26
      ensures Counted(tally, |group|, false, k) <==> k in anyone
      ensures Counted(tally, |group|, true, k) <==> k in everyone
    {
      assert tally[k] == Occurrences(Concat(group), Letter(k));
    }
    CountQuestionsBySet(tally, |group|, false, anyone);
    CountQuestionsBySet(tally, |group|, true, everyone);
  }

  /** How often each letter occurs in "abc". */
  lemma Abc(k: nat)
    requires k < 26
    ensures Occurrences("abc", Letter(k)) == (if k < 3 then 1 else 0)
  {
    var c := Letter(k);
    assert "abc" == ['a'] + (['b'] + (['c'] + []));
    OccurrencesCons('c', [], c);
    OccurrencesCons('b', ['c'] + [], c);
    OccurrencesCons('a', ['b'] + (['c'] + []), c);
  }

  lemma SampleGroup0()
    ensures GroupCount(SampleGroups[0], false) == Returned(3)
    ensures GroupCount(SampleGroups[0], true) == Returned(3)
  {
    var group := SampleGroups[0];
    assert Concat(group) == "abc";
    forall k | 0 <= k < 26
      ensures Occurrences(Concat(group), Letter(k)) > 0 <==> k in {0, 1, 2}
      ensures Occurrences(Concat(group), Letter(k)) == |group| <==> k in {0, 1, 2}
    {
      Abc(k);
    }
    assert |{0, 1, 2}| == 3;
    GroupCountBySets(group, {0, 1, 2}, {0, 1, 2});
  }

  lemma SampleGroup1()
    ensures GroupCount(SampleGroups[1], false) == Returned(3)
    ensures GroupCount(SampleGroups[1], true) == Returned(0)
  {
    var group := SampleGroups[1];
    assert Concat(group) == "abc";
    forall k | 0 <= k < 26
      ensures Occurrences(Concat(group), Letter(k)) > 0 <==> k in {0, 1, 2}
      ensures Occurrences(Concat(group), Letter(k)) == |group| <==> k in {}
    {
      Abc(k);
    }
    assert |{0, 1, 2}| == 3;
    GroupCountBySets(group, {0, 1, 2}, {});
  }

  /** How often each letter occurs in "abac". */
  lemma Abac(k: nat)
    requires k < 26
    ensures Occurrences("abac", Letter(k)) == (if k == 0 then 2 else if k < 3 then 1 else 0)
  {
    var c := Letter(k);
    assert "abac" == ['a'] + (['b'] + (['a'] + (['c'] + [])));
    OccurrencesCons('c', [], c);
    OccurrencesCons('a', ['c'] + [], c);
    OccurrencesCons('b', ['a'] + (['c'] + []), c);
    OccurrencesCons('a', ['b'] + (['a'] + (['c'] + [])), c);
  }

  lemma SampleGroup2()
    ensures GroupCount(SampleGroups[2], false) == Returned(3)
    ensures GroupCount(SampleGroups[2], true) == Returned(1)
  {
    var group := SampleGroups[2];
    assert Concat(group) == "abac";
    forall k | 0 <= k < 26
      ensures Occurrences(Concat(group), Letter(k)) > 0 <==> k in {0, 1, 2}
      ensures Occurrences(Concat(group), Letter(k)) == |group| <==> k in {0}
    {
      Abac(k);
    }
    assert |{0, 1, 2}| == 3 && |{0}| == 1;
    GroupCountBySets(group, {0, 1, 2}, {0});
  }

  /** How often each letter occurs in "aaaa". */
  lemma Aaaa(k: nat)
    requires k < 26
    ensures Occurrences("aaaa", Letter(k)) == (if k == 0 then 4 else 0)
  {
    var c := Letter(k);
    assert "aaaa" == ['a'] + (['a'] + (['a'] + (['a'] + [])));
    OccurrencesCons('a', [], c);
    OccurrencesCons('a', ['a'] + [], c);
    OccurrencesCons('a', ['a'] + (['a'] + []), c);
    OccurrencesCons('a', ['a'] + (['a'] + (['a'] + [])), c);
  }

  lemma SampleGroup3()
    ensures GroupCount(SampleGroups[3], false) == Returned(1)
    ensures GroupCount(SampleGroups[3], true) == Returned(1)
  {
    var group := SampleGroups[3];
    assert Concat(group) == "aaaa";
    forall k | 0 <= k < 26
      ensures Occurrences(Concat(group), Letter(k)) > 0 <==> k in {0}
      ensures Occurrences(Concat(group), Letter(k)) == |group| <==> k in {0}
    {
      Aaaa(k);
    }
    assert |{0}| == 1;
    GroupCountBySets(group, {0}, {0});
  }

  lemma SampleGroup4()
    ensures GroupCount(SampleGroups[4], false) == Returned(1)
    ensures GroupCount(SampleGroups[4], true) == Returned(1)
  {
    var group := SampleGroups[4];
    assert Concat(group) == "b";
    forall k | 0 <= k < 26
      ensures Occurrences(Concat(group), Letter(k)) > 0 <==> k in {1}
      ensures Occurrences(Concat(group), Letter(k)) == |group| <==> k in {1}
    {
      OccurrencesCons('b', [], Letter(k));
      assert "b" == ['b'] + [];
    }
    assert |{1}| == 1;
    GroupCountBySets(group, {1}, {1});
  }

  /** The published answers: 11 questions answered by anyone, 6 by
      everyone. */
  lemma SampleAnswers()
    ensures RunDay(Sample) == Returned(Day(Title, "11", "6"))
  {
    SampleGrouped();
    SampleGroup0();
    SampleGroup1();
    SampleGroup2();
    SampleGroup3();
    SampleGroup4();
    TotalOfFive(SampleGroups, false, 3, 3, 3, 1, 1);
    TotalOfFive(SampleGroups, true, 3, 0, 1, 1, 1);
    assert NatToString(11) == "11" && NatToString(6) == "6";
  }

  /** The total over five groups, one group at a time. */
  lemma TotalOfFive(g: seq<seq<string>>, allAnswered: bool, c0: nat, c1: nat, c2: nat, c3: nat, c4: nat)
    requires |g| == 5
    requires GroupCount(g[0], allAnswered) == Returned(c0) && GroupCount(g[1], allAnswered) == Returned(c1)
    requires GroupCount(g[2], allAnswered) == Returned(c2) && GroupCount(g[3], allAnswered) == Returned(c3)
    requires GroupCount(g[4], allAnswered) == Returned(c4)
    ensures Total(g, allAnswered) == Returned(c0 + c1 + c2 + c3 + c4)
  {
    assert g[..0] == [];
    TotalStep(g, allAnswered, 0, 0, c0);
    TotalStep(g, allAnswered, 1, c0, c1);
    TotalStep(g, allAnswered, 2, c0 + c1, c2);
    TotalStep(g, allAnswered, 3, c0 + c1 + c2, c3);
    TotalStep(g, allAnswered, 4, c0 + c1 + c2 + c3, c4);
    assert g[..5] == g;
  }

  /** One more group adds its count to the total. */
  lemma TotalStep(g: seq<seq<string>>, allAnswered: bool, k: nat, t: nat, c: nat)
    requires k < |g| && Total(g[..k], allAnswered) == Returned(t)
    requires GroupCount(g[k], allAnswered) == Returned(c)
    ensures Total(g[..k + 1], allAnswered) == Returned(t + c)
  {
    assert g[..k + 1][..k] == g[..k];
    assert g[..k + 1][k] == g[k];
  }
}
