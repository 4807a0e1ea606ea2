/** The two examples of the Day 7 puzzle, whose answers the repository's
    test expects (AdventOfCode.Test/Day7Tests.cs:16-22), written out as
    puzzle input, read and answered. Each example is stated over any
    colours that are distinct and can be written in a rule, and then for
    the puzzle's own colours. */
module Day7Examples {
  import opened Strings
  import opened Errors
  import opened Days
  import opened Day7

  /** `n` distinct colours, the one at `start` being shiny gold. */
  ghost predicate Colours(c: seq<string>, n: nat, start: nat)
  {
    |c| == n && start < n && c[start] == Start && Distinct(c)
  }

  /** Such colours that a rule can also carry. */
  ghost predicate Palette(c: seq<string>, n: nat, start: nat)
  {
    Colours(c, n, start) && forall i | 0 <= i < n :: Plain(c[i])
  }

  /** A colour the rule format can carry, shown by a letter of "bag" and a
      letter of "contain" that the colour lacks. */
  lemma PlainName(name: string, b: char, c: char)
    requires name != [] && !IsWhiteSpace(name[0]) && !IsWhiteSpace(name[|name| - 1])
    requires '.' !in name && ',' !in name
    requires b in "bag" && b !in name && c in "contain" && c !in name
    ensures Plain(name)
  {
    Absent(name, "bag", b);
    Absent(name, "contain", c);
  }

  /** Written rules are read back, and their counts are positive. */
  lemma ReadBackAll(rules: seq<Rule>)
    requires forall r | r in rules :: Printable(r)
    ensures Parsed(Written(rules)) == Returned(Build(rules))
    ensures Counted(rules)
  {
    ParsedWritten(rules);
  }

  /** A bag without children holds nothing. */
  lemma InnerEmpty(bags: Bags, name: string, depth: nat)
    requires name in bags && bags[name].children == [] && depth >= 1
    ensures Inner(bags, name, depth) == Returned(0)
  {
  }

  /** A bag with one child holds it and, as many times, what it holds. */
  lemma InnerOne(bags: Bags, name: string, depth: nat, a: Content, inA: int)
    requires name in bags && bags[name].children == [a] && depth >= 1
    requires Inner(bags, a.name, depth - 1) == Returned(inA)
    ensures Inner(bags, name, depth) == Returned(a.count + a.count * inA)
  {
    assert [a][..0] == [];
    assert SumChildren(bags, [a], depth - 1) == Returned(a.count + a.count * inA);
  }

  /** A bag with two children holds each and, as many times, what each
      holds. */
  lemma InnerTwo(bags: Bags, name: string, depth: nat, a: Content, b: Content, inA: int, inB: int)
    requires name in bags && bags[name].children == [a, b] && depth >= 1
    requires Inner(bags, a.name, depth - 1) == Returned(inA)
    requires Inner(bags, b.name, depth - 1) == Returned(inB)
    ensures Inner(bags, name, depth) == Returned(a.count + a.count * inA + (b.count + b.count * inB))
  {
    assert [a, b][..1] == [a] && [a][..0] == [];
    assert SumChildren(bags, [a], depth - 1) == Returned(a.count + a.count * inA);
    assert SumChildren(bags, [a, b], depth - 1)
      == Returned(a.count + a.count * inA + (b.count + b.count * inB));
  }

  // ---------------------------------------------------------------------
  // The first example

  /** The first example's nine rules, over colours light red, dark orange,
      bright white, muted yellow, shiny gold, dark olive, vibrant plum,
      faded blue and dotted black in that order: rule i is colour i's. */
  function FirstOver(c: seq<string>): (rules: seq<Rule>)
    requires |c| == 9
    ensures |rules| == 9 && forall i | 0 <= i < 9 :: rules[i].key == c[i]
  {
    [Rule(c[0], [Content(c[2], 1), Content(c[3], 2)]),
     Rule(c[1], [Content(c[2], 3), Content(c[3], 4)]),
     Rule(c[2], [Content(c[4], 1)]),
     Rule(c[3], [Content(c[4], 2), Content(c[7], 9)]),
     Rule(c[4], [Content(c[5], 1), Content(c[6], 2)]),
     Rule(c[5], [Content(c[7], 3), Content(c[8], 4)]),
     Rule(c[6], [Content(c[7], 5), Content(c[8], 6)]),
     Rule(c[7], []),
     Rule(c[8], [])]
  }

  /** The first example's rules can be written out. */
  lemma FirstWritable(c: seq<string>)
    requires Palette(c, 9, 4)
    ensures forall r | r in FirstOver(c) :: Printable(r)
  {
    var rules := FirstOver(c);
    forall i | 0 <= i < 9 ensures Printable(rules[i]) {
      if i == 0 {} else if i == 1 {} else if i == 2 {} else if i == 3 {} else if i == 4 {}
      else if i == 5 {} else if i == 6 {} else if i == 7 {} else {}
    }
  }

  /** No colour of the first example has two rules, nor lists a colour
      twice. */
  lemma FirstKeyed(c: seq<string>)
    requires Colours(c, 9, 4)
    ensures Keyed(FirstOver(c)) && Listed(FirstOver(c))
  {
    var rules := FirstOver(c);
    forall i | 0 <= i < 9 ensures Distinct(Names(rules[i].contents)) {
      if i == 0 {} else if i == 1 {} else if i == 2 {} else if i == 3 {} else if i == 4 {}
      else if i == 5 {} else if i == 6 {} else if i == 7 {} else {}
    }
  }

  /** Every count of the first example is positive. */
  lemma FirstCounted(c: seq<string>)
    requires |c| == 9
    ensures Counted(FirstOver(c))
  {
    var rules := FirstOver(c);
    forall i, x | 0 <= i < 9 && x in rules[i].contents ensures x.count > 0 {
      if i == 0 {} else if i == 1 {} else if i == 2 {} else if i == 3 {} else if i == 4 {}
      else if i == 5 {} else if i == 6 {} else if i == 7 {} else {}
    }
  }

  /** Ranks given colour by colour. */
  function Ranks(c: seq<string>, r: seq<nat>): (rank: map<string, nat>)
    requires |r| == |c| && Distinct(c)
    ensures forall i | 0 <= i < |c| :: c[i] in rank && rank[c[i]] == r[i]
  {
    map i | 0 <= i < |c| :: c[i] := r[i]
  }

  /** Each colour of the first example lists only colours of a higher
      rank. */
  lemma FirstRankFacts(c: seq<string>)
    requires Colours(c, 9, 4)
    ensures forall i, x | 0 <= i < 9 && x in FirstOver(c)[i].contents ::
      && FirstOver(c)[i].key in Ranks(c, [0, 0, 1, 1, 2, 3, 3, 4, 4])
      && x.name in Ranks(c, [0, 0, 1, 1, 2, 3, 3, 4, 4])
      && Ranks(c, [0, 0, 1, 1, 2, 3, 3, 4, 4])[FirstOver(c)[i].key] < Ranks(c, [0, 0, 1, 1, 2, 3, 3, 4, 4])[x.name]
  {
    FirstRankLow(c);
    FirstRankHigh(c);
  }

  lemma FirstRankLow(c: seq<string>)
    requires Colours(c, 9, 4)
    ensures forall i, x | 0 <= i < 4 && x in FirstOver(c)[i].contents ::
      && FirstOver(c)[i].key in Ranks(c, [0, 0, 1, 1, 2, 3, 3, 4, 4])
      && x.name in Ranks(c, [0, 0, 1, 1, 2, 3, 3, 4, 4])
      && Ranks(c, [0, 0, 1, 1, 2, 3, 3, 4, 4])[FirstOver(c)[i].key] < Ranks(c, [0, 0, 1, 1, 2, 3, 3, 4, 4])[x.name]
  {
    var rules := FirstOver(c);
    var rank := Ranks(c, [0, 0, 1, 1, 2, 3, 3, 4, 4]);
    forall i, x | 0 <= i < 4 && x in rules[i].contents
      ensures rules[i].key in rank && x.name in rank && rank[rules[i].key] < rank[x.name]
    {
      if i == 0 {} else if i == 1 {} else if i == 2 {} else {}
    }
  }

  lemma FirstRankHigh(c: seq<string>)
    requires Colours(c, 9, 4)
    ensures forall i, x | 4 <= i < 9 && x in FirstOver(c)[i].contents ::
      && FirstOver(c)[i].key in Ranks(c, [0, 0, 1, 1, 2, 3, 3, 4, 4])
      && x.name in Ranks(c, [0, 0, 1, 1, 2, 3, 3, 4, 4])
      && Ranks(c, [0, 0, 1, 1, 2, 3, 3, 4, 4])[FirstOver(c)[i].key] < Ranks(c, [0, 0, 1, 1, 2, 3, 3, 4, 4])[x.name]
  {
    var rules := FirstOver(c);
    var rank := Ranks(c, [0, 0, 1, 1, 2, 3, 3, 4, 4]);
    forall i, x | 4 <= i < 9 && x in rules[i].contents
      ensures rules[i].key in rank && x.name in rank && rank[rules[i].key] < rank[x.name]
    {
      if i == 4 {} else if i == 5 {} else if i == 6 {} else if i == 7 {} else {}
    }
  }

  /** Ranks that grow from each colour of the first example towards its
      parents. */
  lemma FirstRanked(c: seq<string>)
    requires Colours(c, 9, 4)
    ensures RankedUp(Build(FirstOver(c)), Ranks(c, [0, 0, 1, 1, 2, 3, 3, 4, 4]))
  {
    FirstCounted(c);
    FirstRankFacts(c);
    RankedBuild(FirstOver(c), Ranks(c, [0, 0, 1, 1, 2, 3, 3, 4, 4]));
  }

  /** Part A's search returns once the stack has room for three nested
      calls. */
  lemma FirstReturns(c: seq<string>, depth: nat)
    requires Colours(c, 9, 4) && depth >= 3
    ensures Visit(Build(FirstOver(c)), Start, depth).Returned?
  {
    var rules := FirstOver(c);
    FirstRanked(c);
    FirstLinks(c);
    VisitRanked(Build(rules), Ranks(c, [0, 0, 1, 1, 2, 3, 3, 4, 4]), Start, depth);
  }

  /** Only the first four colours list one of the first four colours. */
  lemma FirstHolders(c: seq<string>)
    requires Colours(c, 9, 4)
    ensures forall i, x | 0 <= i < 9 && x in FirstOver(c)[i].contents && x.name in {c[0], c[1], c[2], c[3]} ::
      FirstOver(c)[i].key in {c[0], c[1], c[2], c[3]}
  {
    var rules := FirstOver(c);
    forall i, x | 0 <= i < 9 && x in rules[i].contents && x.name in {c[0], c[1], c[2], c[3]}
      ensures rules[i].key in {c[0], c[1], c[2], c[3]}
    {
      if i == 0 {} else if i == 1 {} else if i == 2 {} else if i == 3 {} else if i == 4 {}
      else if i == 5 {} else if i == 6 {} else if i == 7 {} else {}
    }
  }

  /** Only the first four colours list a shiny gold bag. */
  lemma FirstGoldHolders(c: seq<string>)
    requires Colours(c, 9, 4)
    ensures forall i, x | 0 <= i < 9 && x in FirstOver(c)[i].contents && x.name == c[4] ::
      FirstOver(c)[i].key in {c[0], c[1], c[2], c[3]}
  {
    var rules := FirstOver(c);
    forall i, x | 0 <= i < 9 && x in rules[i].contents && x.name == c[4]
      ensures rules[i].key in {c[0], c[1], c[2], c[3]}
    {
      if i == 0 {} else if i == 1 {} else if i == 2 {} else if i == 3 {} else if i == 4 {}
      else if i == 5 {} else if i == 6 {} else if i == 7 {} else {}
    }
  }

  /** Every parent of a shiny gold bag is one of the first four colours. */
  lemma FirstGoldParents(c: seq<string>)
    requires Colours(c, 9, 4)
    ensures Start in Build(FirstOver(c)) ==>
      forall p | p in Build(FirstOver(c))[Start].parents :: p in {c[0], c[1], c[2], c[3]}
  {
    FirstCounted(c);
    FirstGoldHolders(c);
    HoldersIn(FirstOver(c), c[4], {c[0], c[1], c[2], c[3]});
  }

  /** Every parent of one of the first four colours is one of them. */
  lemma FirstUpward(c: seq<string>)
    requires Colours(c, 9, 4)
    ensures Upward(Build(FirstOver(c)), {c[0], c[1], c[2], c[3]})
  {
    FirstCounted(c);
    FirstHolders(c);
    UpwardBuild(FirstOver(c), {c[0], c[1], c[2], c[3]});
  }

  /** The first four colours can each hold a shiny gold bag. */
  lemma FirstLinks(c: seq<string>)
    requires Colours(c, 9, 4)
    ensures Links(Build(FirstOver(c)), c[2], c[4]) && Links(Build(FirstOver(c)), c[3], c[4])
    ensures Links(Build(FirstOver(c)), c[0], c[2]) && Links(Build(FirstOver(c)), c[1], c[2])
  {
    var rules := FirstOver(c);
    FirstCounted(c);
    BuildValid(rules);
    assert rules[2].contents[0] in rules[2].contents && rules[3].contents[0] in rules[3].contents;
    assert rules[0].contents[0] in rules[0].contents && rules[1].contents[0] in rules[1].contents;
  }

  /** A shiny gold bag can end up inside exactly the first four colours. */
  lemma FirstPartA(c: seq<string>, depth: nat)
    requires Colours(c, 9, 4) && depth >= 3
    ensures Visit(Build(FirstOver(c)), Start, depth) == Returned({c[0], c[1], c[2], c[3]})
  {
    var bags := Build(FirstOver(c));
    FirstReturns(c, depth);
    FirstGoldParents(c);
    FirstUpward(c);
    FirstLinks(c);
    VisitLeast(bags, Start, depth, {c[0], c[1], c[2], c[3]});
    VisitClosed(bags, Start, depth);
    var found := Visit(bags, Start, depth).value;
    assert c[2] in found && c[3] in found;
    assert c[0] in found && c[1] in found;
    assert found == {c[0], c[1], c[2], c[3]};
  }

  /** A shiny gold bag holds 32 bags. */
  lemma FirstPartB(c: seq<string>, depth: nat)
    requires Colours(c, 9, 4) && depth >= 3
    ensures Inner(Build(FirstOver(c)), Start, depth) == Returned(32)
  {
    var rules := FirstOver(c);
    var bags := Build(rules);
    FirstKeyed(c);
    FirstCounted(c);
    BuildExact(rules);
    assert rules[4].key == c[4] && rules[5].key == c[5] && rules[6].key == c[6];
    assert rules[7].key == c[7] && rules[8].key == c[8];
    InnerEmpty(bags, c[7], depth - 2);
    InnerEmpty(bags, c[8], depth - 2);
    InnerTwo(bags, c[5], depth - 1, Content(c[7], 3), Content(c[8], 4), 0, 0);
    InnerTwo(bags, c[6], depth - 1, Content(c[7], 5), Content(c[8], 6), 0, 0);
    InnerTwo(bags, c[4], depth, Content(c[5], 1), Content(c[6], 2), 7, 11);
  }

  /** The answers' numerals. */
  lemma Numerals()
    ensures NatToString(0) == "0" && NatToString(4) == "4"
    ensures IntToString(32) == "32" && IntToString(126) == "126"
  {
    assert NatToString(32) == NatToString(3) + [DigitChar(2)];
    assert NatToString(126) == NatToString(12) + [DigitChar(6)];
    assert NatToString(12) == NatToString(1) + [DigitChar(2)];
  }

  /** Four distinct colours make a set of four. */
  lemma FourColours(c: seq<string>)
    requires |c| >= 4 && Distinct(c)
    ensures |{c[0], c[1], c[2], c[3]}| == 4
  {
    assert c[0] != c[1] && c[0] != c[2] && c[0] != c[3];
    assert c[1] != c[2] && c[1] != c[3] && c[2] != c[3];
  }

  /** Both parts answered on the first example's graph. */
  lemma FirstParts(c: seq<string>, depth: nat)
    requires Colours(c, 9, 4) && depth >= 3
    ensures PartA(Build(FirstOver(c)), Start, depth) == Returned("4")
    ensures PartB(Build(FirstOver(c)), Start, depth) == Returned("32")
  {
    FirstLinks(c);
    FirstPartA(c, depth);
    FirstPartB(c, depth);
    FourColours(c);
    Numerals();
  }

  /** Reading the first example and answering both parts gives "4" and
      "32", whatever room the stack has beyond three nested calls. */
  lemma FirstAnswersOver(c: seq<string>, depth: nat)
    requires Palette(c, 9, 4) && depth >= 3
    ensures RunDay(Written(FirstOver(c)), depth) == Returned(Day(Title, "4", "32"))
  {
    FirstWritable(c);
    FirstCounted(c);
    ReadBackAll(FirstOver(c));
    FirstParts(c, depth);
  }

  // ---------------------------------------------------------------------
  // The second example

  /** The second example's seven rules, over colours shiny gold, dark red,
      dark orange, dark yellow, dark green, dark blue and dark violet in
      that order: each colour holds two of the next, the last none. */
  function SecondOver(c: seq<string>): (rules: seq<Rule>)
    requires |c| == 7
    ensures |rules| == 7 && forall i | 0 <= i < 7 :: rules[i].key == c[i]
  {
    [Rule(c[0], [Content(c[1], 2)]),
     Rule(c[1], [Content(c[2], 2)]),
     Rule(c[2], [Content(c[3], 2)]),
     Rule(c[3], [Content(c[4], 2)]),
     Rule(c[4], [Content(c[5], 2)]),
     Rule(c[5], [Content(c[6], 2)]),
     Rule(c[6], [])]
  }

  /** The second example's rules can be written out. */
  lemma SecondWritable(c: seq<string>)
    requires Palette(c, 7, 0)
    ensures forall r | r in SecondOver(c) :: Printable(r)
  {
    var rules := SecondOver(c);
    forall i | 0 <= i < 7 ensures Printable(rules[i]) {
      if i == 0 {} else if i == 1 {} else if i == 2 {} else if i == 3 {} else if i == 4 {}
      else if i == 5 {} else {}
    }
  }

  /** Every count of the second example is positive, no colour has two
      rules, and each lists only the next colour. */
  lemma SecondShape(c: seq<string>)
    requires Colours(c, 7, 0)
    ensures Counted(SecondOver(c)) && Keyed(SecondOver(c)) && Listed(SecondOver(c))
    ensures forall i, x | 0 <= i < 7 && x in SecondOver(c)[i].contents :: i < 6 && x.name == c[i + 1]
  {
    var rules := SecondOver(c);
    forall i, x | 0 <= i < 7 && x in rules[i].contents ensures i < 6 && x.name == c[i + 1] && x.count > 0 {
      if i == 0 {} else if i == 1 {} else if i == 2 {} else if i == 3 {} else if i == 4 {}
      else if i == 5 {} else {}
    }
  }

  /** Each colour of the second example lists only a colour of a higher
      rank. */
  lemma SecondRankFacts(c: seq<string>)
    requires Colours(c, 7, 0)
    ensures forall i, x | 0 <= i < 7 && x in SecondOver(c)[i].contents ::
      && SecondOver(c)[i].key in Ranks(c, [0, 1, 2, 3, 4, 5, 6])
      && x.name in Ranks(c, [0, 1, 2, 3, 4, 5, 6])
      && Ranks(c, [0, 1, 2, 3, 4, 5, 6])[SecondOver(c)[i].key] < Ranks(c, [0, 1, 2, 3, 4, 5, 6])[x.name]
  {
    var rules := SecondOver(c);
    var rank := Ranks(c, [0, 1, 2, 3, 4, 5, 6]);
    SecondShape(c);
    forall i, x | 0 <= i < 7 && x in rules[i].contents
      ensures rules[i].key in rank && x.name in rank && rank[rules[i].key] < rank[x.name]
    {
      assert rank[c[i + 1]] == [0, 1, 2, 3, 4, 5, 6][i + 1];
    }
  }

  /** Ranks that grow from each colour of the second example towards its
      parents. */
  lemma SecondRanked(c: seq<string>)
    requires Colours(c, 7, 0)
    ensures RankedUp(Build(SecondOver(c)), Ranks(c, [0, 1, 2, 3, 4, 5, 6]))
  {
    SecondShape(c);
    SecondRankFacts(c);
    RankedBuild(SecondOver(c), Ranks(c, [0, 1, 2, 3, 4, 5, 6]));
  }

  /** No colour of the second example has a shiny gold bag as parent. */
  lemma SecondNoHolder(c: seq<string>)
    requires Colours(c, 7, 0)
    ensures Start in Build(SecondOver(c)) ==> forall p :: p !in Build(SecondOver(c))[Start].parents
  {
    var rules := SecondOver(c);
    SecondShape(c);
    HoldersIn(rules, Start, {});
  }

  /** Part A's search returns once the stack has room for one call. */
  lemma SecondReturns(c: seq<string>, depth: nat)
    requires Colours(c, 7, 0) && depth >= 1
    ensures Visit(Build(SecondOver(c)), Start, depth).Returned?
  {
    SecondStart(c);
    SecondRanked(c);
    VisitRanked(Build(SecondOver(c)), Ranks(c, [0, 1, 2, 3, 4, 5, 6]), Start, depth);
  }

  /** Part A's search finds nothing: no colour lists a shiny gold bag. */
  lemma SecondPartA(c: seq<string>, depth: nat)
    requires Colours(c, 7, 0) && depth >= 1
    ensures Visit(Build(SecondOver(c)), Start, depth) == Returned({})
  {
    var bags := Build(SecondOver(c));
    SecondReturns(c, depth);
    SecondNoHolder(c);
    VisitLeast(bags, Start, depth, {});
    var found := Visit(bags, Start, depth).value;
    assert found == {};
  }

  /** A shiny gold bag holds 126 bags. */
  lemma SecondPartB(c: seq<string>, depth: nat)
    requires Colours(c, 7, 0) && depth >= 7
    ensures Inner(Build(SecondOver(c)), Start, depth) == Returned(126)
  {
    var rules := SecondOver(c);
    var bags := Build(rules);
    SecondShape(c);
    BuildExact(rules);
    assert rules[0].key == c[0] && rules[1].key == c[1] && rules[2].key == c[2] && rules[3].key == c[3];
    assert rules[4].key == c[4] && rules[5].key == c[5] && rules[6].key == c[6];
    InnerEmpty(bags, c[6], depth - 6);
    InnerOne(bags, c[5], depth - 5, Content(c[6], 2), 0);
    InnerOne(bags, c[4], depth - 4, Content(c[5], 2), 2);
    InnerOne(bags, c[3], depth - 3, Content(c[4], 2), 6);
    InnerOne(bags, c[2], depth - 2, Content(c[3], 2), 14);
    InnerOne(bags, c[1], depth - 1, Content(c[2], 2), 30);
    InnerOne(bags, c[0], depth, Content(c[1], 2), 62);
  }

  /** A shiny gold bag has an entry in the second example's graph. */
  lemma SecondStart(c: seq<string>)
    requires Colours(c, 7, 0)
    ensures Start in Build(SecondOver(c))
  {
    SecondShape(c);
    BuildExact(SecondOver(c));
    assert SecondOver(c)[0].key == Start;
  }

  /** Both parts answered on the second example's graph. */
  lemma SecondParts(c: seq<string>, depth: nat)
    requires Colours(c, 7, 0) && depth >= 7
    ensures PartA(Build(SecondOver(c)), Start, depth) == Returned("0")
    ensures PartB(Build(SecondOver(c)), Start, depth) == Returned("126")
  {
    SecondStart(c);
    SecondPartA(c, depth);
    SecondPartB(c, depth);
    Numerals();
  }

  /** Reading the second example and answering both parts gives "0" and
      "126", whatever room the stack has beyond seven nested calls. */
  lemma SecondAnswersOver(c: seq<string>, depth: nat)
    requires Palette(c, 7, 0) && depth >= 7
    ensures RunDay(Written(SecondOver(c)), depth) == Returned(Day(Title, "0", "126"))
  {
    SecondWritable(c);
    SecondShape(c);
    ReadBackAll(SecondOver(c));
    SecondParts(c, depth);
  }

  // ---------------------------------------------------------------------
  // The puzzle's colours

  lemma LightRed() ensures Plain("light red") { PlainName("light red", 'b', 'c'); }
  lemma DarkOrange() ensures Plain("dark orange") { PlainName("dark orange", 'b', 'c'); }
  lemma BrightWhite() ensures Plain("bright white") { PlainName("bright white", 'a', 'c'); }
  lemma MutedYellow() ensures Plain("muted yellow") { PlainName("muted yellow", 'b', 'c'); }
  lemma ShinyGold() ensures Plain("shiny gold") { PlainName("shiny gold", 'b', 'c'); }
  lemma DarkOlive() ensures Plain("dark olive") { PlainName("dark olive", 'b', 'c'); }
  lemma VibrantPlum() ensures Plain("vibrant plum") { PlainName("vibrant plum", 'g', 'c'); }
  lemma FadedBlue() ensures Plain("faded blue") { PlainName("faded blue", 'g', 'c'); }
  lemma DottedBlack() ensures Plain("dotted black") { PlainName("dotted black", 'g', 'n'); }
  lemma DarkRed() ensures Plain("dark red") { PlainName("dark red", 'b', 'c'); }
  lemma DarkYellow() ensures Plain("dark yellow") { PlainName("dark yellow", 'b', 'c'); }
  lemma DarkGreen() ensures Plain("dark green") { PlainName("dark green", 'b', 'c'); }
  lemma DarkBlue() ensures Plain("dark blue") { PlainName("dark blue", 'g', 'c'); }
  lemma DarkViolet() ensures Plain("dark violet") { PlainName("dark violet", 'b', 'c'); }

  function FirstColours(): (c: seq<string>)
    ensures |c| == 9 && c[4] == Start
  {
    ["light red", "dark orange", "bright white", "muted yellow", "shiny gold",
     "dark olive", "vibrant plum", "faded blue", "dotted black"]
  }

  lemma FirstDistinct()
    ensures Distinct(FirstColours())
  {
    var c := FirstColours();
    forall i, j | 0 <= i < j < 9 ensures c[i] != c[j] {
      if i == 0 {} else if i == 1 {} else if i == 2 {} else if i == 3 {}
      else if i == 4 {} else if i == 5 {} else if i == 6 {} else {}
    }
  }

  lemma FirstPalette()
    ensures Palette(FirstColours(), 9, 4)
  {
    var c := FirstColours();
    FirstDistinct();
    LightRed(); DarkOrange(); BrightWhite(); MutedYellow(); ShinyGold();
    DarkOlive(); VibrantPlum(); FadedBlue(); DottedBlack();
    forall i | 0 <= i < 9 ensures Plain(c[i]) {
      if i == 0 {} else if i == 1 {} else if i == 2 {} else if i == 3 {} else if i == 4 {}
      else if i == 5 {} else if i == 6 {} else if i == 7 {} else {}
    }
  }

  /** The first example as the puzzle states it: its nine rules, one per
      line. */
  function FirstInput(): (lines: seq<string>)
    ensures |lines| == 9
  {
    Written(FirstOver(FirstColours()))
  }

  /** The repository's first expectation for Day 7. */
  lemma FirstAnswers(depth: nat)
    requires depth >= 3
    ensures RunDay(FirstInput(), depth) == Returned(Day(Title, "4", "32"))
  {
    FirstPalette();
    FirstAnswersOver(FirstColours(), depth);
  }

  function SecondColours(): (c: seq<string>)
    ensures |c| == 7 && c[0] == Start
  {
    ["shiny gold", "dark red", "dark orange", "dark yellow", "dark green", "dark blue", "dark violet"]
  }

  lemma SecondDistinct()
    ensures Distinct(SecondColours())
  {
    var c := SecondColours();
    forall i, j | 0 <= i < j < 7 ensures c[i] != c[j] {
      if i == 0 {} else if i == 1 {} else if i == 2 {} else if i == 3 {}
      else if i == 4 {} else {}
    }
  }

  lemma SecondPalette()
    ensures Palette(SecondColours(), 7, 0)
  {
    var c := SecondColours();
    SecondDistinct();
    ShinyGold(); DarkRed(); DarkOrange(); DarkYellow(); DarkGreen(); DarkBlue(); DarkViolet();
    forall i | 0 <= i < 7 ensures Plain(c[i]) {
      if i == 0 {} else if i == 1 {} else if i == 2 {} else if i == 3 {} else if i == 4 {}
      else if i == 5 {} else {}
    }
  }

  /** The second example as the puzzle states it. */
  function SecondInput(): (lines: seq<string>)
    ensures |lines| == 7
  {
    Written(SecondOver(SecondColours()))
  }

  /** The repository's second expectation for Day 7. */
  lemma SecondAnswers(depth: nat)
    requires depth >= 7
    ensures RunDay(SecondInput(), depth) == Returned(Day(Title, "0", "126"))
  {
    SecondPalette();
    SecondAnswersOver(SecondColours(), depth);
  }
}
