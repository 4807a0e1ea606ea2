/** Day 7, "Handy Haversacks": rules "X bags contain n Y bags, ..." build a
    graph of bags; part A counts the bags that can end up holding a shiny gold
    bag and part B counts the bags a shiny gold bag holds
    (AdventOfCode/Day7.cs). */
module Day7 {
  import opened Optional
  import opened Strings
  import opened Errors
  import opened Days

  const Title := "--- Day 7: Handy Haversacks ---"
  const Start := "shiny gold"

  /** One entry of a bag's `Children` dictionary: a bag it directly holds,
      and how many of it. */
  datatype Content = Content(name: string, count: nat)

  /** What one rule line says: the bag, and what it directly holds. */
  datatype Rule = Rule(key: string, contents: seq<Content>)

  // ---------------------------------------------------------------------
  // Reading a line (Day7.cs:33-46)

  /** `Regex.Replace(line, "(bags|bag|\\.)", "")` (Day7.cs:33): scanning from
      the left, "bags", else "bag", else "." is removed where it starts; what a
      removal joins together is not scanned again. */
  function Clean(s: string): (r: string)
    ensures |r| <= |s|
    ensures '.' !in r
    decreases |s|
  {
    if s == [] then []
    else if |s| >= 4 && s[..4] == "bags" then Clean(s[4..])
    else if |s| >= 3 && s[..3] == "bag" then Clean(s[3..])
    else if s[0] == '.' then Clean(s[1..])
    else [s[0]] + Clean(s[1..])
  }

  /** The per-item lambda (Day7.cs:38-45): the trimmed item is cut at its
      first space; a first word "no" counts 0, any other goes through
      `int.Parse`; the trimmed rest is the name, and an item without a space
      has no rest to index. */
  function ParseItem(item: string): (o: Outcome<(int, string)>)
  {
    var parts := SplitOnce(Trim(item), ' ');
    var word := Trim(parts[0]);
    var count := if word == "no" then Some(0) else ParseInt(word);
    if count.None? then Threw(Format)
    else if |parts| < 2 then Threw(IndexOutOfRange)
    else Returned((count.value, Trim(parts[1])))
  }

  /** Enumerating `xs.Select(f)` (Day7.cs:37-46, consumed at Day7.cs:51): the
      values in order, or the first exception `f` throws. */
  function Gather<A, B>(xs: seq<A>, f: A -> Outcome<B>): (o: Outcome<seq<B>>)
    ensures o.Returned? ==> |o.value| == |xs|
  {
    if xs == [] then Returned([])
    else
      match Gather(xs[..|xs| - 1], f)
      case Threw(x) => Threw(x)
      case Returned(init) =>
        match f(xs[|xs| - 1])
        case Threw(x) => Threw(x)
        case Returned(y) => Returned(init + [y])
  }

  /** Each element maps to the value at its index. */
  ghost predicate Each<A, B>(xs: seq<A>, f: A -> Outcome<B>, ys: seq<B>)
  {
    |ys| == |xs| && forall i | 0 <= i < |xs| :: f(xs[i]) == Returned(ys[i])
  }

  /** One more element that maps to a value. */
  lemma EachStep<A, B>(xs: seq<A>, f: A -> Outcome<B>, ys: seq<B>, i: nat, y: B)
    requires i < |xs| && Each(xs[..i], f, ys) && f(xs[i]) == Returned(y)
    ensures Each(xs[..i + 1], f, ys + [y])
  {
    assert forall j | 0 <= j < i :: xs[..i + 1][j] == xs[..i][j];
  }

  /** Elements that each map to a value gather to the list of those values. */
  lemma {:induction false} GatherAll<A, B>(xs: seq<A>, f: A -> Outcome<B>, ys: seq<B>)
    requires Each(xs, f, ys)
    ensures Gather(xs, f) == Returned(ys)
  {
    if xs != [] {
      var n := |xs| - 1;
      GatherAll(xs[..n], f, ys[..n]);
      assert f(xs[n]) == Returned(ys[n]);
      assert ys == ys[..n] + [ys[n]];
    }
  }

  /** The first element that throws decides the outcome. */
  lemma {:induction false} GatherThrows<A, B>(xs: seq<A>, f: A -> Outcome<B>, i: nat)
    requires i < |xs| && f(xs[i]).Threw?
    requires forall j | 0 <= j < i :: f(xs[j]).Returned?
    ensures Gather(xs, f) == Threw(f(xs[i]).exception)
  {
    var n := |xs| - 1;
    if i < n {
      GatherThrows(xs[..n], f, i);
    } else {
      var ys := seq(n, j requires 0 <= j < n => f(xs[j]).value);
      GatherAll(xs[..n], f, ys);
    }
  }

  /** Elements that each map to a value, then one that throws. */
  lemma EachThrows<A, B>(xs: seq<A>, f: A -> Outcome<B>, ys: seq<B>, i: nat)
    requires i < |xs| && Each(xs[..i], f, ys) && f(xs[i]).Threw?
    ensures Gather(xs, f) == Threw(f(xs[i]).exception)
  {
    assert forall j | 0 <= j < i :: xs[..i][j] == xs[j];
    GatherThrows(xs, f, i);
  }

  /** A gathered list holds each element's value, in order. */
  lemma {:induction false} GatherEach<A, B>(xs: seq<A>, f: A -> Outcome<B>)
    requires Gather(xs, f).Returned?
    ensures forall i | 0 <= i < |xs| :: f(xs[i]) == Returned(Gather(xs, f).value[i])
  {
    if xs != [] {
      var n := |xs| - 1;
      GatherEach(xs[..n], f);
    }
  }

  /** The `Where(x => x.count > 0)` filter (Day7.cs:46): "no other" (count 0)
      and any other count below 1 are dropped. */
  function Positive(items: seq<(int, string)>): (cs: seq<Content>)
    ensures forall c | c in cs :: c.count > 0
    ensures |cs| <= |items|
  {
    if items == [] then []
    else
      var item := items[|items| - 1];
      Positive(items[..|items| - 1]) + (if item.0 > 0 then [Content(item.1, item.0)] else [])
  }

  /** What `ParseInput` reads from one line once `Clean` has run
      (Day7.cs:34-46): the trimmed text before the first "contain" is the
      key, the text between it and the next "contain" holds the items; a line
      without "contain" has no second piece to index. */
  function ReadRule(cleaned: string): (o: Outcome<Rule>)
    ensures o.Returned? ==> forall c | c in o.value.contents :: c.count > 0
  {
    var split := Split(cleaned, "contain");
    if |split| < 2 then Threw(IndexOutOfRange)
    else
      match Gather(Split(split[1], ","), ParseItem)
      case Threw(x) => Threw(x)
      case Returned(items) => Returned(Rule(Trim(split[0]), Positive(items)))
  }

  /** What `ParseInput` reads from one line (Day7.cs:33-46). */
  function ParseLine(line: string): (o: Outcome<Rule>)
  {
    ReadRule(Clean(line))
  }

  /** An item " <word> <name> " reads as the word's count and the name. */
  lemma ParseItemShape(word: string, name: string, count: int)
    requires word != [] && ' ' !in word && !IsWhiteSpace(word[0]) && !IsWhiteSpace(word[|word| - 1])
    requires name != [] && !IsWhiteSpace(name[0]) && !IsWhiteSpace(name[|name| - 1])
    requires (if word == "no" then Some(0) else ParseInt(word)) == Some(count)
    ensures ParseItem(" " + word + " " + name + " ") == Returned((count, name))
  {
    var core := word + [' '] + name;
    assert " " + word + " " + name + " " == " " + core + " ";
    assert core[0] == word[0] && core[|core| - 1] == name[|name| - 1];
    TrimPadded(" ", core, " ");
    SplitOnceAt(word, ' ', name);
    TrimIdentity(word);
    TrimIdentity(name);
  }

  /** "no other" reads as count 0 under the name "other", which the filter
      drops: such a bag holds nothing. */
  lemma NoOther(item: string)
    requires item == " " + ("no" + " " + "other" + " ")
    ensures ParseItem(item) == Returned((0, "other"))
    ensures Positive([(0, "other")]) == []
  {
    ParseItemShape("no", "other", 0);
    Prepend(" ", "no", " ", "other", " ");
  }

  // ---------------------------------------------------------------------
  // Writing a rule, and reading it back

  /** A bag colour the rule format can carry: not empty, no white space at
      either end, and no "bag", ".", "," or "contain" inside. */
  ghost predicate Plain(name: string)
  {
    && name != []
    && !IsWhiteSpace(name[0])
    && !IsWhiteSpace(name[|name| - 1])
    && '.' !in name
    && ',' !in name
    && (forall k: nat :: !OccursAt(name, "bag", k))
    && (forall k: nat :: !OccursAt(name, "contain", k))
  }

  /** A rule the puzzle's format can state: plain names and counts of at
      least one. */
  ghost predicate Printable(rule: Rule)
  {
    Plain(rule.key) && forall c | c in rule.contents :: Plain(c.name) && c.count > 0
  }

  function ItemText(c: Content): string
  {
    NatToString(c.count) + " " + c.name + (if c.count == 1 then " bag" else " bags")
  }

  function ItemsText(cs: seq<Content>): string
    requires cs != []
  {
    if |cs| == 1 then ItemText(cs[0]) else ItemText(cs[0]) + ", " + ItemsText(cs[1..])
  }

  /** A rule as the puzzle input writes it: "light red bags contain 1 bright
      white bag, 2 muted yellow bags." or "faded blue bags contain no other
      bags.". */
  function FormatLine(rule: Rule): string
  {
    rule.key + " bags contain "
      + (if rule.contents == [] then "no other bags" else ItemsText(rule.contents)) + "."
  }

  /** A string without the first character of sep has no occurrence of it. */
  lemma NoFirst(s: string, sep: string)
    requires |sep| > 0 && sep[0] !in s
    ensures forall k: nat :: !OccursAt(s, sep, k)
  {
    forall k: nat ensures !OccursAt(s, sep, k) {
      if k + |sep| <= |s| {
        assert s[k..k + |sep|][0] == s[k];
      }
    }
  }

  /** A string that lacks some character of sep has no occurrence of it. */
  lemma Absent(s: string, sep: string, x: char)
    requires x in sep && x !in s
    ensures forall k: nat :: !OccursAt(s, sep, k)
  {
    var j :| 0 <= j < |sep| && sep[j] == x;
    forall k: nat ensures !OccursAt(s, sep, k) {
      if k + |sep| <= |s| {
        assert s[k..k + |sep|][j] == s[k + j];
      }
    }
  }

  /** An occurrence of a separator without spaces that starts in a cannot
      reach past a space at the end of a or the start of b. */
  lemma NoneBefore(a: string, b: string, sep: string)
    requires |sep| > 0 && ' ' !in sep
    requires forall k: nat :: !OccursAt(a, sep, k)
    requires (a != [] && a[|a| - 1] == ' ') || b == [] || b[0] == ' '
    ensures forall k | 0 <= k < |a| :: !OccursAt(a + b, sep, k)
  {
    var s := a + b;
    forall k | 0 <= k < |a| ensures !OccursAt(s, sep, k) {
      if k + |sep| <= |a| {
        assert s[k..k + |sep|] == a[k..k + |sep|];
        assert !OccursAt(a, sep, k);
      } else if k + |sep| <= |s| {
        var j := if a[|a| - 1] == ' ' then |a| - 1 else |a|;
        assert s[j] == ' ';
        assert s[k..k + |sep|][j - k] == ' ';
        assert s[k..k + |sep|] != sep;
      }
    }
  }

  /** No occurrence of a separator without spaces straddles a space. */
  lemma NoneJoined(a: string, b: string, sep: string)
    requires |sep| > 0 && ' ' !in sep
    requires forall k: nat :: !OccursAt(a, sep, k)
    requires forall k: nat :: !OccursAt(b, sep, k)
    requires (a != [] && a[|a| - 1] == ' ') || (b != [] && b[0] == ' ')
    ensures forall k: nat :: !OccursAt(a + b, sep, k)
  {
    var s := a + b;
    NoneBefore(a, b, sep);
    forall k: nat | |a| <= k ensures !OccursAt(s, sep, k) {
      if k + |sep| <= |s| {
        assert s[k..k + |sep|] == b[k - |a|..k - |a| + |sep|];
        assert !OccursAt(b, sep, k - |a|);
      }
    }
  }

  /** Text that starts with neither "bag" nor "." keeps its first character. */
  lemma CleanFirst(s: string)
    requires s != [] && s[0] != '.' && !OccursAt(s, "bag", 0)
    ensures Clean(s) == [s[0]] + Clean(s[1..])
  {
    assert |s| >= 4 ==> s[..4][..3] == s[..3];
  }

  /** Dropping the first character of a keeps the rest of a free of "bag". */
  lemma ShiftFree(a: string, b: string)
    requires a != [] && forall k | 0 <= k < |a| :: !OccursAt(a + b, "bag", k)
    ensures forall k | 0 <= k < |a| - 1 :: !OccursAt(a[1..] + b, "bag", k)
  {
    var s := a + b;
    assert s[1..] == a[1..] + b;
    forall k | 0 <= k < |a| - 1 ensures !OccursAt(a[1..] + b, "bag", k) {
      assert !OccursAt(s, "bag", k + 1);
      if k + 3 <= |s[1..]| {
        assert s[1..][k..k + 3] == s[k + 1..k + 4];
      }
    }
  }

  lemma Uncons(a: string, c: string)
    requires a != []
    ensures [a[0]] + (a[1..] + c) == a + c
  {
    assert a == [a[0]] + a[1..];
  }

  /** Text without "." and without a "bag" starting in it survives `Clean`. */
  lemma {:induction false} CleanKeeps(a: string, b: string)
    requires '.' !in a
    requires forall k | 0 <= k < |a| :: !OccursAt(a + b, "bag", k)
    ensures Clean(a + b) == a + Clean(b)
    decreases |a|
  {
    if a == [] {
      assert a + b == b;
    } else {
      var s := a + b;
      assert s[0] == a[0] && s[1..] == a[1..] + b;
      assert !OccursAt(s, "bag", 0);
      CleanFirst(s);
      ShiftFree(a, b);
      assert '.' !in a[1..];
      CleanKeeps(a[1..], b);
      Uncons(a, Clean(b));
    }
  }

  lemma CleanBags(rest: string)
    ensures Clean("bags" + rest) == Clean(rest)
  {
    var s := "bags" + rest;
    assert s[..4] == "bags" && s[4..] == rest;
  }

  lemma CleanBag(rest: string)
    requires rest == [] || rest[0] != 's'
    ensures Clean("bag" + rest) == Clean(rest)
  {
    var s := "bag" + rest;
    assert s[..3] == "bag" && s[3..] == rest;
    if |s| >= 4 {
      assert s[..4][3] == rest[0] != 's';
      assert s[..4] != "bags";
    }
  }

  lemma CleanDot()
    ensures Clean(".") == ""
  {
  }

  /** Plain text followed by a space survives `Clean`. */
  lemma CleanPlain(a: string, b: string)
    requires '.' !in a
    requires forall k: nat :: !OccursAt(a, "bag", k)
    requires (a != [] && a[|a| - 1] == ' ') || b == [] || b[0] == ' '
    ensures Clean(a + b) == a + Clean(b)
  {
    NoneBefore(a, b, "bag");
    CleanKeeps(a, b);
  }

  /** What an item looks like once cleaned: "2 muted yellow ". */
  function Core(c: Content): string
  {
    NatToString(c.count) + " " + c.name + " "
  }

  function CleanedItems(cs: seq<Content>): string
    requires cs != []
  {
    if |cs| == 1 then Core(cs[0]) else Core(cs[0]) + ", " + CleanedItems(cs[1..])
  }

  lemma NoLetterInDigits(n: nat, x: char)
    requires !IsDigit(x)
    ensures x !in NatToString(n)
  {
  }

  lemma Regroup(a: string, b: string, c: string, d: string)
    ensures a + (b + (c + d)) == a + b + c + d
  {
  }

  lemma Regroup3(a: string, b: string, c: string)
    ensures a + (b + c) == a + b + c
  {
  }

  lemma Prepend(a: string, b: string, c: string, d: string, e: string)
    ensures a + (b + c + d + e) == a + b + c + d + e
  {
  }

  /** The count and the name of an item survive `Clean`. */
  lemma CleanCore(c: Content, rest: string)
    requires Plain(c.name)
    requires rest == [] || rest[0] == ' '
    ensures Clean(NatToString(c.count) + " " + c.name + rest) == NatToString(c.count) + " " + c.name + Clean(rest)
  {
    var digits := NatToString(c.count);
    Regroup(digits, " ", c.name, rest);
    NoLetterInDigits(c.count, 'b');
    NoLetterInDigits(c.count, '.');
    NoFirst(digits, "bag");
    CleanPlain(digits, " " + (c.name + rest));
    NoFirst(" ", "bag");
    CleanPlain(" ", c.name + rest);
    CleanPlain(c.name, rest);
    Regroup(digits, " ", c.name, Clean(rest));
  }

  /** Cleaning removes the word "bag" or "bags" after a space. */
  lemma CleanWord(word: string, tail: string)
    requires word == "bags" || (word == "bag" && (tail == [] || tail[0] != 's'))
    ensures Clean(" " + (word + tail)) == " " + Clean(tail)
  {
    NoFirst(" ", "bag");
    CleanPlain(" ", word + tail);
    if word == "bag" {
      CleanBag(tail);
    } else {
      CleanBags(tail);
    }
  }

  /** Cleaning an item removes its trailing " bag" or " bags". */
  lemma CleanItem(c: Content, tail: string)
    requires Plain(c.name)
    requires tail == [] || tail[0] != 's'
    ensures Clean(ItemText(c) + tail) == Core(c) + Clean(tail)
  {
    var word := if c.count == 1 then "bag" else "bags";
    var front := NatToString(c.count) + " " + c.name;
    assert ItemText(c) + tail == front + (" " + (word + tail));
    CleanCore(c, " " + (word + tail));
    CleanWord(word, tail);
    Regroup3(front, " ", Clean(tail));
  }

  lemma {:induction false} CleanItems(cs: seq<Content>)
    requires cs != []
    requires forall c | c in cs :: Plain(c.name)
    ensures Clean(ItemsText(cs) + ".") == CleanedItems(cs)
    decreases |cs|
  {
    if |cs| == 1 {
      CleanItem(cs[0], ".");
      CleanDot();
    } else {
      var rest := ItemsText(cs[1..]) + ".";
      assert ItemsText(cs) + "." == ItemText(cs[0]) + (", " + rest);
      CleanItem(cs[0], ", " + rest);
      NoFirst(", ", "bag");
      CleanPlain(", ", rest);
      assert cs[0] in cs;
      assert forall c | c in cs[1..] :: c in cs;
      CleanItems(cs[1..]);
    }
  }

  /** An item in the form `Core` leaves reads back as its count and name. */
  lemma ParseCore(c: Content)
    requires Plain(c.name)
    ensures ParseItem(" " + Core(c)) == Returned((c.count as int, c.name))
  {
    var word := NatToString(c.count);
    NoLetterInDigits(c.count, ' ');
    NoLetterInDigits(c.count, 'n');
    assert word != "no" by { assert "no"[0] == 'n'; }
    ParseIntToString(c.count);
    ParseItemShape(word, c.name, c.count);
    Prepend(" ", word, " ", c.name, " ");
  }

  /** The item strings `Split(',')` cuts from " " + CleanedItems(cs). */
  function ItemPieces(cs: seq<Content>): (ps: seq<string>)
    ensures |ps| == |cs|
  {
    seq(|cs|, i requires 0 <= i < |cs| => " " + Core(cs[i]))
  }

  lemma NoCommaInCore(c: Content)
    requires Plain(c.name)
    ensures ',' !in " " + Core(c)
  {
    NoLetterInDigits(c.count, ',');
  }

  /** A split at "," first cuts at the first comma. */
  lemma SplitComma(a: string, b: string)
    requires ',' !in a
    ensures Split(a + "," + b, ",") == [a] + Split(b, ",")
  {
    var s := a + "," + b;
    forall k | 0 <= k < |a| ensures !OccursAt(s, ",", k) {
      assert s[k..k + 1][0] == a[k];
    }
    SplitAt(a, ",", b);
  }

  lemma CommaRegroup(x: string, y: string)
    ensures " " + (x + ", " + y) == " " + x + "," + (" " + y)
  {
  }

  lemma ItemPiecesCons(cs: seq<Content>)
    requires cs != []
    ensures ItemPieces(cs) == [" " + Core(cs[0])] + ItemPieces(cs[1..])
  {
    assert forall i | 0 <= i < |cs| - 1 :: cs[1..][i] == cs[i + 1];
  }

  lemma {:induction false} SplitItems(cs: seq<Content>)
    requires cs != []
    requires forall c | c in cs :: Plain(c.name)
    ensures Split(" " + CleanedItems(cs), ",") == ItemPieces(cs)
    decreases |cs|
  {
    var a := " " + Core(cs[0]);
    assert cs[0] in cs;
    NoCommaInCore(cs[0]);
    if |cs| == 1 {
      NoFirst(a, ",");
      SplitNone(a, ",");
      assert ItemPieces(cs) == [a];
    } else {
      var b := " " + CleanedItems(cs[1..]);
      CommaRegroup(Core(cs[0]), CleanedItems(cs[1..]));
      SplitComma(a, b);
      assert forall c | c in cs[1..] :: c in cs;
      SplitItems(cs[1..]);
      ItemPiecesCons(cs);
    }
  }

  /** The (count, name) pairs a rule's contents are read as. */
  function Pairs(cs: seq<Content>): (ps: seq<(int, string)>)
    ensures |ps| == |cs|
  {
    seq(|cs|, i requires 0 <= i < |cs| => (cs[i].count as int, cs[i].name))
  }

  /** Keeping the positive pairs of contents that all have positive counts
      gives the contents back. */
  lemma {:induction false} PositivePairs(cs: seq<Content>)
    requires forall c | c in cs :: c.count > 0
    ensures Positive(Pairs(cs)) == cs
  {
    if cs != [] {
      var n := |cs| - 1;
      assert Pairs(cs)[..n] == Pairs(cs[..n]);
      assert forall c | c in cs[..n] :: c in cs;
      PositivePairs(cs[..n]);
      assert cs[n] in cs;
      assert cs == cs[..n] + [cs[n]];
    }
  }

  lemma NoContainInCore(c: Content)
    requires Plain(c.name)
    ensures forall k: nat :: !OccursAt(Core(c), "contain", k)
  {
    var digits := NatToString(c.count);
    NoLetterInDigits(c.count, 'c');
    NoFirst(digits, "contain");
    NoFirst(" ", "contain");
    NoneJoined(digits, " ", "contain");
    NoneJoined(digits + " ", c.name, "contain");
    NoneJoined(digits + " " + c.name, " ", "contain");
  }

  lemma {:induction false} NoContainInItems(cs: seq<Content>)
    requires cs != []
    requires forall c | c in cs :: Plain(c.name)
    ensures forall k: nat :: !OccursAt(CleanedItems(cs), "contain", k)
    decreases |cs|
  {
    assert cs[0] in cs;
    NoContainInCore(cs[0]);
    if |cs| > 1 {
      assert forall c | c in cs[1..] :: c in cs;
      NoContainInItems(cs[1..]);
      NoFirst(", ", "contain");
      NoneJoined(Core(cs[0]), ", ", "contain");
      NoneJoined(Core(cs[0]) + ", ", CleanedItems(cs[1..]), "contain");
    }
  }

  /** What `Clean` leaves of a rule after its "contain". */
  function Remains(rule: Rule): string
  {
    if rule.contents == [] then "no" + " " + "other" + " " else CleanedItems(rule.contents)
  }

  lemma CleanNoOther()
    ensures Clean("no other bags" + ".") == "no" + " " + "other" + " "
  {
    assert "no other bags" + "." == "no other " + ("bags" + ".");
    NoFirst("no other ", "bag");
    CleanPlain("no other ", "bags" + ".");
    CleanBags(".");
    CleanDot();
  }

  lemma FormatPieces(key: string, body: string)
    ensures key + " bags contain " + body + "." == key + (" " + ("bags" + (" contain " + (body + "."))))
  {
  }

  lemma ContainPieces(key: string, r: string)
    ensures key + (" " + (" contain " + r)) == key + "  " + "contain" + (" " + r)
  {
  }

  /** `Clean` drops the "bags", "bag" and "." a written rule carries. */
  lemma CleanLine(rule: Rule)
    requires Printable(rule)
    ensures Clean(FormatLine(rule)) == rule.key + "  " + "contain" + (" " + Remains(rule))
  {
    var body := if rule.contents == [] then "no other bags" else ItemsText(rule.contents);
    var r := Remains(rule);
    var tail := " contain " + (body + ".");
    if rule.contents == [] {
      CleanNoOther();
    } else {
      CleanItems(rule.contents);
    }
    assert Clean(body + ".") == r;
    NoFirst(" contain ", "bag");
    CleanPlain(" contain ", body + ".");
    assert Clean(tail) == " contain " + r;
    CleanBags(tail);
    NoFirst(" ", "bag");
    CleanPlain(" ", "bags" + tail);
    assert Clean(" " + ("bags" + tail)) == " " + (" contain " + r);
    FormatPieces(rule.key, body);
    assert FormatLine(rule) == rule.key + (" " + ("bags" + tail));
    CleanPlain(rule.key, " " + ("bags" + tail));
    ContainPieces(rule.key, r);
  }

  /** Only the first "contain" of a cleaned rule cuts it. */
  lemma ContainSplit(rule: Rule)
    requires Printable(rule)
    ensures Split(rule.key + "  " + "contain" + (" " + Remains(rule)), "contain") == [rule.key + "  ", " " + Remains(rule)]
  {
    var a := rule.key + "  ";
    var b := " " + Remains(rule);
    NoFirst("  ", "contain");
    NoneJoined(rule.key, "  ", "contain");
    NoneBefore(a, "contain" + b, "contain");
    assert a + ("contain" + b) == a + "contain" + b;
    SplitAt(a, "contain", b);
    NoFirst(" ", "contain");
    if rule.contents == [] {
      NoFirst(Remains(rule), "contain");
    } else {
      NoContainInItems(rule.contents);
    }
    NoneJoined(" ", Remains(rule), "contain");
    SplitNone(b, "contain");
  }

  /** The items after "contain" read back as the rule's contents. */
  lemma ItemsRead(rule: Rule)
    requires Printable(rule)
    ensures Gather(Split(" " + Remains(rule), ","), ParseItem).Returned?
    ensures Positive(Gather(Split(" " + Remains(rule), ","), ParseItem).value) == rule.contents
  {
    var b := " " + Remains(rule);
    if rule.contents == [] {
      NoFirst(b, ",");
      SplitNone(b, ",");
      NoOther(b);
      GatherAll([b], ParseItem, [(0, "other")]);
    } else {
      var cs := rule.contents;
      SplitItems(cs);
      forall i | 0 <= i < |cs| ensures ParseItem(ItemPieces(cs)[i]) == Returned(Pairs(cs)[i]) {
        assert cs[i] in cs;
        ParseCore(cs[i]);
      }
      GatherAll(ItemPieces(cs), ParseItem, Pairs(cs));
      PositivePairs(cs);
    }
  }

  lemma TrimKey(key: string)
    requires Plain(key)
    ensures Trim(key + "  ") == key
  {
    TrimPadded([], key, "  ");
    assert [] + key + "  " == key + "  ";
  }

  /** A cleaned rule reads back as the rule. */
  lemma ReadBack(rule: Rule)
    requires Printable(rule)
    ensures ReadRule(rule.key + "  " + "contain" + (" " + Remains(rule))) == Returned(rule)
  {
    ContainSplit(rule);
    ItemsRead(rule);
    TrimKey(rule.key);
  }

  /** Reading a written rule gives the rule back: `ParseInput`'s reading of
      a line inverts the puzzle's format. */
  lemma ParseFormat(rule: Rule)
    requires Printable(rule)
    ensures ParseLine(FormatLine(rule)) == Returned(rule)
  {
    CleanLine(rule);
    ReadBack(rule);
  }

  // ---------------------------------------------------------------------
  // The bag graph (Day7.cs:28-62, 103-107)

  /** A `Bag` (Day7.cs:103-107): its `Children` dictionary and its `Parents`
      set, each in insertion order. */
  datatype Bag = Bag(children: seq<Content>, parents: seq<string>)

  /** The `Dictionary<string, Bag>` built by `ParseInput`. */
  type Bags = map<string, Bag>

  function Names(cs: seq<Content>): (ns: seq<string>)
    ensures |ns| == |cs|
  {
    seq(|cs|, i requires 0 <= i < |cs| => cs[i].name)
  }

  /** `if (!bags.ContainsKey(name)) { bags.Add(name, new Bag()); }`. */
  function Ensure(bags: Bags, name: string): (r: Bags)
    ensures r.Keys == bags.Keys + {name}
    ensures forall k | k in bags :: r[k] == bags[k]
    ensures name !in bags ==> r[name] == Bag([], [])
  {
    if name in bags then bags else bags[name := Bag([], [])]
  }

  /** One pass of the inner loop (Day7.cs:53-57): the child gets an entry,
      the key's bag records the child unless it already holds a bag of that
      name (so the first count stays), and the child records the key among
      its parents. When the child is the key's own bag both updates reach the
      same bag, which is why the entry is read again between them. */
  function AddContent(bags: Bags, key: string, c: Content): (r: Bags)
    requires key in bags
    ensures r.Keys == bags.Keys + {c.name}
  {
    var withChild := Ensure(bags, c.name);
    var bag := withChild[key];
    var linked := if c.name in Names(bag.children) then withChild
      else withChild[key := bag.(children := bag.children + [c])];
    var child := linked[c.name];
    if key in child.parents then linked
    else linked[c.name := child.(parents := child.parents + [key])]
  }

  /** The inner loop over one rule's contents (Day7.cs:51-58). */
  function AddContents(bags: Bags, key: string, cs: seq<Content>): (r: Bags)
    requires key in bags
    ensures key in r && bags.Keys <= r.Keys
  {
    if cs == [] then bags
    else AddContent(AddContents(bags, key, cs[..|cs| - 1]), key, cs[|cs| - 1])
  }

  /** The names of some contents. */
  function NameSet(cs: seq<Content>): set<string>
  {
    if cs == [] then {} else NameSet(cs[..|cs| - 1]) + {cs[|cs| - 1].name}
  }

  /** The inner loop gives an entry to each child and to nothing else. */
  lemma {:induction false} AddContentsKeys(bags: Bags, key: string, cs: seq<Content>)
    requires key in bags
    ensures AddContents(bags, key, cs).Keys == bags.Keys + NameSet(cs)
  {
    if cs != [] {
      AddContentsKeys(bags, key, cs[..|cs| - 1]);
    }
  }

  lemma {:induction false} NameSetHas(cs: seq<Content>)
    ensures forall c | c in cs :: c.name in NameSet(cs)
  {
    if cs != [] {
      var n := |cs| - 1;
      NameSetHas(cs[..n]);
      assert forall c | c in cs :: c in cs[..n] || c == cs[n];
    }
  }

  /** What one rule adds to the graph (Day7.cs:48-58). */
  function AddRule(bags: Bags, rule: Rule): (r: Bags)
  {
    AddContents(Ensure(bags, rule.key), rule.key, rule.contents)
  }

  /** The graph the rules build, one after the other. */
  function Build(rules: seq<Rule>): (bags: Bags)
  {
    if rules == [] then map[] else AddRule(Build(rules[..|rules| - 1]), rules[|rules| - 1])
  }

  lemma BuildStep(rules: seq<Rule>, rule: Rule)
    ensures Build(rules + [rule]) == AddRule(Build(rules), rule)
  {
    assert (rules + [rule])[..|rules|] == rules;
  }

  /** The graph `ParseInput` returns for `lines` (Day7.cs:28-62), or the
      exception of the first line it cannot read. Each line is read before
      it changes the graph, and an exception discards the graph, so reading
      all lines first and building afterwards gives the same outcome. */
  function Parsed(lines: seq<string>): (o: Outcome<Bags>)
  {
    match Gather(lines, ParseLine)
    case Threw(x) => Threw(x)
    case Returned(rules) => Returned(Build(rules))
  }

  /** The body of `ParseInput`'s loop for one rule (Day7.cs:48-58). */
  method AddRuleTo(bags: Bags, rule: Rule) returns (r: Bags)
    ensures r == AddRule(bags, rule)
  {
    r := bags;
    if rule.key !in r {
      r := r[rule.key := Bag([], [])];
    }
    for j := 0 to |rule.contents|
      invariant rule.key in r
      invariant r == AddContents(Ensure(bags, rule.key), rule.key, rule.contents[..j])
    {
      AddContentsStep(Ensure(bags, rule.key), rule.key, rule.contents, j);
      r := AddContentTo(r, rule.key, rule.contents[j]);
    }
    assert rule.contents[..|rule.contents|] == rule.contents;
  }

  /** One pass of the inner loop (Day7.cs:53-57). */
  method AddContentTo(bags: Bags, key: string, c: Content) returns (r: Bags)
    requires key in bags
    ensures r == AddContent(bags, key, c)
  {
    r := bags;
    if c.name !in r {
      r := r[c.name := Bag([], [])];
    }
    if c.name !in Names(r[key].children) {
      r := r[key := r[key].(children := r[key].children + [c])];
    }
    if key !in r[c.name].parents {
      r := r[c.name := r[c.name].(parents := r[c.name].parents + [key])];
    }
  }

  lemma AddContentsStep(bags: Bags, key: string, cs: seq<Content>, j: nat)
    requires key in bags && j < |cs|
    ensures AddContents(bags, key, cs[..j + 1]) == AddContent(AddContents(bags, key, cs[..j]), key, cs[j])
  {
    var xs := cs[..j + 1];
    assert xs[..|xs| - 1] == cs[..j] && xs[|xs| - 1] == cs[j];
    assert AddContents(bags, key, xs) == AddContent(AddContents(bags, key, xs[..|xs| - 1]), key, xs[|xs| - 1]);
  }

  method ParseInput(input: seq<string>) returns (o: Outcome<Bags>)
    ensures o == Parsed(input)
  {
    var bags: Bags := map[];
    ghost var rules: seq<Rule> := [];
    for i := 0 to |input|
      invariant Each(input[..i], ParseLine, rules)
      invariant bags == Build(rules)
    {
      var read := ParseLine(input[i]);
      if read.Threw? {
        EachThrows(input, ParseLine, rules, i);
        return Threw(read.exception);
      }
      EachStep(input, ParseLine, rules, i, read.value);
      BuildStep(rules, read.value);
      bags := AddRuleTo(bags, read.value);
      rules := rules + [read.value];
    }
    assert input[..|input|] == input;
    GatherAll(input, ParseLine, rules);
    o := Returned(bags);
  }

  // ---------------------------------------------------------------------
  // What the graph keeps

  /** No entry twice. */
  ghost predicate Distinct(s: seq<string>)
  {
    forall i, j | 0 <= i < j < |s| :: s[i] != s[j]
  }

  /** Every child has an entry of its own that lists the bag among its
      parents, and every count is positive. */
  ghost predicate ChildrenLinked(bags: Bags)
  {
    forall k, c | k in bags && c in bags[k].children ::
      c.count > 0 && c.name in bags && k in bags[c.name].parents
  }

  /** Every parent has an entry of its own that names the bag as a child. */
  ghost predicate ParentsLinked(bags: Bags)
  {
    forall k, p | k in bags && p in bags[k].parents :: p in bags && k in Names(bags[p].children)
  }

  /** A bag lists a child or a parent at most once. */
  ghost predicate Unique(bags: Bags)
  {
    forall k | k in bags :: Distinct(Names(bags[k].children)) && Distinct(bags[k].parents)
  }

  /** The shape `ParseInput` keeps. */
  ghost predicate Valid(bags: Bags)
  {
    ChildrenLinked(bags) && ParentsLinked(bags) && Unique(bags)
  }

  /** Nothing is ever removed or changed: entries stay, and each bag's
      children and parents only grow at the end. */
  ghost predicate Grows(bags: Bags, r: Bags)
  {
    && bags.Keys <= r.Keys
    && forall k | k in bags :: bags[k].children <= r[k].children && bags[k].parents <= r[k].parents
  }

  lemma GrowsTransitive(a: Bags, b: Bags, c: Bags)
    requires Grows(a, b) && Grows(b, c)
    ensures Grows(a, c)
  {
    forall k | k in a ensures a[k].children <= c[k].children && a[k].parents <= c[k].parents {
      assert a[k].children <= b[k].children <= c[k].children;
      assert a[k].parents <= b[k].parents <= c[k].parents;
    }
  }

  lemma NamesAppend(a: seq<Content>, b: seq<Content>)
    ensures Names(a + b) == Names(a) + Names(b)
  {
  }

  function Entry(bags: Bags, name: string): Bag
  {
    if name in bags then bags[name] else Bag([], [])
  }

  /** Exactly what one content changes: the key's bag gains the content at
      the end unless it already names that child, and the child gains the key
      at the end of its parents unless it already lists it. */
  lemma AddContentShape(bags: Bags, key: string, c: Content)
    requires key in bags
    ensures AddContent(bags, key, c).Keys == bags.Keys + {c.name}
    ensures forall k | k in AddContent(bags, key, c) ::
      AddContent(bags, key, c)[k].children == Entry(bags, k).children
        + (if k == key && c.name !in Names(bags[key].children) then [c] else [])
    ensures forall k | k in AddContent(bags, key, c) ::
      AddContent(bags, key, c)[k].parents == Entry(bags, k).parents
        + (if k == c.name && key !in Entry(bags, c.name).parents then [key] else [])
  {
  }

  /** Linked both ways: the key names the child and the child lists the key. */
  ghost predicate Links(bags: Bags, key: string, name: string)
  {
    key in bags && name in bags && name in Names(bags[key].children) && key in bags[name].parents
  }

  lemma AddContentGrows(bags: Bags, key: string, c: Content)
    requires key in bags
    ensures Grows(bags, AddContent(bags, key, c))
    ensures Links(AddContent(bags, key, c), key, c.name)
  {
    var r := AddContent(bags, key, c);
    AddContentShape(bags, key, c);
    if c.name !in Names(bags[key].children) {
      NamesAppend(bags[key].children, [c]);
      assert Names([c])[0] == c.name;
    }
  }

  /** The update `AddContentShape` describes, on its own. */
  ghost predicate Shaped(bags: Bags, key: string, c: Content, r: Bags)
    requires key in bags
  {
    && r.Keys == bags.Keys + {c.name}
    && (forall k | k in r :: r[k].children == Entry(bags, k).children
         + (if k == key && c.name !in Names(bags[key].children) then [c] else []))
    && (forall k | k in r :: r[k].parents == Entry(bags, k).parents
         + (if k == c.name && key !in Entry(bags, c.name).parents then [key] else []))
  }

  lemma ShapedChildren(bags: Bags, key: string, c: Content, r: Bags)
    requires key in bags && Shaped(bags, key, c, r)
    requires ChildrenLinked(bags) && c.count > 0
    ensures ChildrenLinked(r)
  {
    forall k, d | k in r && d in r[k].children
      ensures d.count > 0 && d.name in r && k in r[d.name].parents
    {
      if d in Entry(bags, k).children {
        assert k in bags;
        assert bags[d.name].parents <= r[d.name].parents;
      } else {
        assert k == key && d == c;
      }
    }
  }

  lemma ShapedParent(bags: Bags, key: string, c: Content, r: Bags, k: string, p: string)
    requires key in bags && Shaped(bags, key, c, r)
    requires ParentsLinked(bags)
    requires k in r && p in r[k].parents
    ensures p in r && k in Names(r[p].children)
  {
    var extra := if p == key && c.name !in Names(bags[key].children) then [c] else [];
    assert r[p].children == Entry(bags, p).children + extra;
    NamesAppend(Entry(bags, p).children, extra);
    if p in Entry(bags, k).parents {
      assert k in bags && p in bags;
      assert k in Names(bags[p].children);
    } else {
      assert p == key && k == c.name;
      assert Names([c]) == [c.name];
    }
  }

  lemma ShapedParents(bags: Bags, key: string, c: Content, r: Bags)
    requires key in bags && Shaped(bags, key, c, r)
    requires ParentsLinked(bags)
    ensures ParentsLinked(r)
  {
    forall k, p | k in r && p in r[k].parents
      ensures p in r && k in Names(r[p].children)
    {
      ShapedParent(bags, key, c, r, k, p);
    }
  }

  lemma DistinctAppend(s: seq<string>, x: string)
    requires Distinct(s) && x !in s
    ensures Distinct(s + [x])
  {
  }

  lemma ShapedUnique(bags: Bags, key: string, c: Content, r: Bags)
    requires key in bags && Shaped(bags, key, c, r)
    requires Unique(bags)
    ensures Unique(r)
  {
    forall k | k in r ensures Distinct(Names(r[k].children)) && Distinct(r[k].parents) {
      var before := Entry(bags, k);
      assert k in bags ==> Distinct(Names(before.children)) && Distinct(before.parents);
      if k == key && c.name !in Names(bags[key].children) {
        NamesAppend(before.children, [c]);
        assert Names([c]) == [c.name];
        DistinctAppend(Names(before.children), c.name);
      } else {
        assert r[k].children == before.children;
      }
      if k == c.name && key !in before.parents {
        DistinctAppend(before.parents, key);
      } else {
        assert r[k].parents == before.parents;
      }
    }
  }

  lemma AddContentValid(bags: Bags, key: string, c: Content)
    requires Valid(bags) && key in bags && c.count > 0
    ensures Valid(AddContent(bags, key, c))
  {
    var r := AddContent(bags, key, c);
    AddContentShape(bags, key, c);
    assert Shaped(bags, key, c, r);
    ShapedChildren(bags, key, c, r);
    ShapedParents(bags, key, c, r);
    ShapedUnique(bags, key, c, r);
  }

  lemma {:induction false} AddContentsValid(bags: Bags, key: string, cs: seq<Content>)
    requires Valid(bags) && key in bags
    requires forall c | c in cs :: c.count > 0
    ensures Valid(AddContents(bags, key, cs))
    ensures Grows(bags, AddContents(bags, key, cs))
  {
    if cs != [] {
      var n := |cs| - 1;
      var mid := AddContents(bags, key, cs[..n]);
      assert forall c | c in cs[..n] :: c in cs;
      AddContentsValid(bags, key, cs[..n]);
      assert cs[n] in cs;
      AddContentValid(mid, key, cs[n]);
      AddContentGrows(mid, key, cs[n]);
      GrowsTransitive(bags, mid, AddContent(mid, key, cs[n]));
    }
  }

  /** A link stays once made. */
  lemma StillLinked(a: Bags, b: Bags, k: string, n: string)
    requires Grows(a, b) && k in a
    ensures n in Names(a[k].children) ==> n in Names(b[k].children)
    ensures n in a[k].parents ==> n in b[k].parents
  {
    var cs := a[k].children;
    NamesAppend(cs, b[k].children[|cs|..]);
    assert b[k].children == cs + b[k].children[|cs|..];
    var ps := a[k].parents;
    assert b[k].parents == ps + b[k].parents[|ps|..];
  }

  lemma LinksStay(a: Bags, b: Bags, key: string, cs: seq<Content>)
    requires Grows(a, b)
    requires forall c | c in cs :: Links(a, key, c.name)
    ensures forall c | c in cs :: Links(b, key, c.name)
  {
    forall c | c in cs ensures Links(b, key, c.name) {
      StillLinked(a, b, key, c.name);
      StillLinked(a, b, c.name, key);
    }
  }

  /** After a rule's contents are added, the key names each of them as a
      child and each lists the key as a parent. */
  lemma {:induction false} AddContentsLinks(bags: Bags, key: string, cs: seq<Content>)
    requires key in bags
    ensures forall c | c in cs :: Links(AddContents(bags, key, cs), key, c.name)
  {
    if cs != [] {
      var n := |cs| - 1;
      var mid := AddContents(bags, key, cs[..n]);
      AddContentsLinks(bags, key, cs[..n]);
      AddContentGrows(mid, key, cs[n]);
      LinksStay(mid, AddContent(mid, key, cs[n]), key, cs[..n]);
      assert forall c | c in cs :: c in cs[..n] || c == cs[n];
    }
  }

  lemma EnsureValid(bags: Bags, name: string)
    requires Valid(bags)
    ensures Valid(Ensure(bags, name)) && Grows(bags, Ensure(bags, name))
  {
  }

  /** Rules read from lines carry positive counts only. */
  ghost predicate Counted(rules: seq<Rule>)
  {
    forall r, c | r in rules && c in r.contents :: c.count > 0
  }

  /** Each rule keeps the graph valid and only adds to it. */
  lemma AddRuleValid(bags: Bags, rule: Rule)
    requires Valid(bags) && forall c | c in rule.contents :: c.count > 0
    ensures Valid(AddRule(bags, rule)) && Grows(bags, AddRule(bags, rule))
    ensures forall c | c in rule.contents :: Links(AddRule(bags, rule), rule.key, c.name)
    ensures rule.key in AddRule(bags, rule)
  {
    var start := Ensure(bags, rule.key);
    EnsureValid(bags, rule.key);
    AddContentsValid(start, rule.key, rule.contents);
    GrowsTransitive(bags, start, AddRule(bags, rule));
    AddContentsLinks(start, rule.key, rule.contents);
  }

  /** Every rule's key has an entry, linked both ways to each of its
      contents. */
  ghost predicate Holds(bags: Bags, rules: seq<Rule>)
  {
    && (forall i | 0 <= i < |rules| :: rules[i].key in bags)
    && (forall i, c | 0 <= i < |rules| && c in rules[i].contents :: Links(bags, rules[i].key, c.name))
  }

  /** What a step of `Build` keeps of the earlier rules' links. */
  lemma KeepLinks(rules: seq<Rule>, before: Bags, after: Bags)
    requires rules != [] && Grows(before, after)
    requires Holds(before, rules[..|rules| - 1])
    requires rules[|rules| - 1].key in after
    requires forall c | c in rules[|rules| - 1].contents :: Links(after, rules[|rules| - 1].key, c.name)
    ensures Holds(after, rules)
  {
    var n := |rules| - 1;
    assert forall i | 0 <= i < n :: rules[..n][i] == rules[i];
    forall i, c | 0 <= i < n && c in rules[i].contents ensures Links(after, rules[i].key, c.name) {
      assert Links(before, rules[..n][i].key, c.name);
      LinksStay(before, after, rules[i].key, [c]);
    }
  }

  /** The graph built from any rules with positive counts is valid, and
      every rule's key has an entry linked both ways to each of its
      contents. */
  lemma {:induction false} BuildValid(rules: seq<Rule>)
    requires Counted(rules)
    ensures Valid(Build(rules)) && Holds(Build(rules), rules)
  {
    if rules != [] {
      var n := |rules| - 1;
      var before := Build(rules[..n]);
      assert forall r | r in rules[..n] :: r in rules;
      BuildValid(rules[..n]);
      assert rules[n] in rules;
      AddRuleValid(before, rules[n]);
      KeepLinks(rules, before, AddRule(before, rules[n]));
    }
  }

  /** What every value of a gathered list satisfies, when every value `f`
      returns does. */
  lemma {:induction false} GatherKeeps<A, B>(xs: seq<A>, f: A -> Outcome<B>, p: B -> bool)
    requires forall x :: f(x).Returned? ==> p(f(x).value)
    requires Gather(xs, f).Returned?
    ensures forall y | y in Gather(xs, f).value :: p(y)
  {
    if xs != [] {
      GatherKeeps(xs[..|xs| - 1], f, p);
    }
  }

  /** Rules read from lines carry positive counts only. */
  lemma GatherCounted(lines: seq<string>, rules: seq<Rule>)
    requires Gather(lines, ParseLine) == Returned(rules)
    ensures Counted(rules)
  {
    GatherKeeps(lines, ParseLine, (r: Rule) => forall c | c in r.contents :: c.count > 0);
  }

  /** Every graph `ParseInput` returns is valid. */
  lemma ParsedValid(lines: seq<string>)
    requires Parsed(lines).Returned?
    ensures Valid(Parsed(lines).value)
  {
    var rules := Gather(lines, ParseLine).value;
    GatherCounted(lines, rules);
    BuildValid(rules);
  }

  /** Each line's rule is in the graph `ParseInput` returns: the line's key
      has an entry, linked both ways to each bag the line lists. */
  lemma ParsedRule(lines: seq<string>, i: nat, rule: Rule)
    requires Parsed(lines).Returned?
    requires i < |lines| && ParseLine(lines[i]) == Returned(rule)
    ensures rule.key in Parsed(lines).value
    ensures forall c | c in rule.contents :: Links(Parsed(lines).value, rule.key, c.name)
  {
    var rules := Gather(lines, ParseLine).value;
    GatherEach(lines, ParseLine);
    assert rules[i] == rule;
    GatherCounted(lines, rules);
    BuildValid(rules);
    assert Holds(Build(rules), rules);
  }

  // ---------------------------------------------------------------------
  // The graph, exactly

  /** Some rule for `k` lists `c`. */
  ghost predicate Lists(rules: seq<Rule>, k: string, c: Content)
  {
    exists i | 0 <= i < |rules| :: rules[i].key == k && c in rules[i].contents
  }

  /** Some rule is for `k` or lists a bag of colour `k`. */
  ghost predicate Mentions(rules: seq<Rule>, k: string)
  {
    exists i | 0 <= i < |rules| :: rules[i].key == k || k in NameSet(rules[i].contents)
  }

  /** No two rules are for the same colour. */
  ghost predicate Keyed(rules: seq<Rule>)
  {
    forall i, j | 0 <= i < j < |rules| :: rules[i].key != rules[j].key
  }

  /** No rule lists a colour twice. */
  ghost predicate Listed(rules: seq<Rule>)
  {
    forall i | 0 <= i < |rules| :: Distinct(Names(rules[i].contents))
  }

  lemma {:induction false} NameSetFrom(cs: seq<Content>, x: string)
    requires x in NameSet(cs)
    ensures exists c | c in cs :: c.name == x
  {
    var n := |cs| - 1;
    if x != cs[n].name {
      NameSetFrom(cs[..n], x);
      var c :| c in cs[..n] && c.name == x;
      assert c in cs;
    }
  }

  /** What one content does to the children. */
  lemma AddContentChildren(bags: Bags, key: string, c: Content)
    requires key in bags
    ensures forall k | k in AddContent(bags, key, c) ::
      AddContent(bags, key, c)[k].children == Entry(bags, k).children
        + (if k == key && c.name !in Names(bags[key].children) then [c] else [])
  {
    AddContentShape(bags, key, c);
  }

  /** The inner loop leaves the children of every other bag alone. */
  lemma {:induction false} AddContentsOthers(bags: Bags, key: string, cs: seq<Content>)
    requires key in bags
    ensures forall k | k in AddContents(bags, key, cs) && k != key ::
      AddContents(bags, key, cs)[k].children == Entry(bags, k).children
  {
    if cs != [] {
      var n := |cs| - 1;
      var mid := AddContents(bags, key, cs[..n]);
      AddContentsOthers(bags, key, cs[..n]);
      AddContentChildren(mid, key, cs[n]);
      forall k | k in AddContents(bags, key, cs) && k != key
        ensures AddContents(bags, key, cs)[k].children == Entry(bags, k).children
      {
        if k !in mid {
          AddContentsKeys(bags, key, cs[..n]);
        }
      }
    }
  }

  /** The key's bag gains only listed contents. */
  lemma {:induction false} AddContentsOwn(bags: Bags, key: string, cs: seq<Content>)
    requires key in bags
    ensures forall c | c in AddContents(bags, key, cs)[key].children :: c in bags[key].children || c in cs
  {
    if cs != [] {
      var n := |cs| - 1;
      var mid := AddContents(bags, key, cs[..n]);
      AddContentsOwn(bags, key, cs[..n]);
      AddContentChildren(mid, key, cs[n]);
      assert forall c | c in cs[..n] :: c in cs;
    }
  }

  /** A key without children whose contents name distinct colours ends up
      holding exactly them, in order. */
  lemma {:induction false} AddContentsExact(bags: Bags, key: string, cs: seq<Content>)
    requires key in bags && bags[key].children == [] && Distinct(Names(cs))
    ensures AddContents(bags, key, cs)[key].children == cs
  {
    if cs != [] {
      var n := |cs| - 1;
      var mid := AddContents(bags, key, cs[..n]);
      assert Names(cs[..n]) == Names(cs)[..n];
      AddContentsExact(bags, key, cs[..n]);
      AddContentChildren(mid, key, cs[n]);
      assert cs[n].name !in Names(cs[..n]) by {
        assert Names(cs)[n] == cs[n].name;
      }
      assert cs == cs[..n] + [cs[n]];
    }
  }

  /** The graph the rules build holds no child a rule does not list. */
  lemma {:induction false} BuildListed(rules: seq<Rule>)
    ensures forall k, c | k in Build(rules) && c in Build(rules)[k].children :: Lists(rules, k, c)
  {
    if rules != [] {
      var n := |rules| - 1;
      var rule := rules[n];
      var prefix := rules[..n];
      var before := Build(prefix);
      var start := Ensure(before, rule.key);
      var after := Build(rules);
      BuildListed(prefix);
      AddContentsOthers(start, rule.key, rule.contents);
      AddContentsOwn(start, rule.key, rule.contents);
      forall k, c | k in after && c in after[k].children ensures Lists(rules, k, c) {
        if k == rule.key && c in rule.contents {
          assert rules[n] == rule;
        } else {
          assert k in before && c in before[k].children;
          var i :| 0 <= i < n && prefix[i].key == k && c in prefix[i].contents;
          assert rules[i] == prefix[i];
        }
      }
    }
  }

  /** The graph the rules build holds no entry a rule does not mention. */
  lemma {:induction false} BuildMentions(rules: seq<Rule>)
    ensures forall k | k in Build(rules) :: Mentions(rules, k)
  {
    if rules != [] {
      var n := |rules| - 1;
      var rule := rules[n];
      var prefix := rules[..n];
      var before := Build(prefix);
      var start := Ensure(before, rule.key);
      BuildMentions(prefix);
      AddContentsKeys(start, rule.key, rule.contents);
      forall k | k in Build(rules) ensures Mentions(rules, k) {
        if k == rule.key || k in NameSet(rule.contents) {
          assert rules[n] == rule;
        } else {
          var i :| 0 <= i < n && (prefix[i].key == k || k in NameSet(prefix[i].contents));
          assert rules[i] == prefix[i];
        }
      }
    }
  }

  /** A bag no rule is for holds nothing. */
  lemma {:induction false} BuildUnkeyed(rules: seq<Rule>)
    ensures forall k | k in Build(rules) && (forall i | 0 <= i < |rules| :: rules[i].key != k) ::
      Build(rules)[k].children == []
  {
    if rules != [] {
      var n := |rules| - 1;
      var rule := rules[n];
      var prefix := rules[..n];
      var before := Build(prefix);
      var start := Ensure(before, rule.key);
      BuildUnkeyed(prefix);
      AddContentsOthers(start, rule.key, rule.contents);
      forall k | k in Build(rules) && (forall i | 0 <= i < |rules| :: rules[i].key != k)
        ensures Build(rules)[k].children == []
      {
        assert rules[n] == rule;
        assert forall i | 0 <= i < n :: prefix[i] == rules[i];
      }
    }
  }

  /** When no two rules share a colour and no rule lists a colour twice,
      each rule's bag holds exactly its contents, in order. */
  lemma {:induction false} BuildExact(rules: seq<Rule>)
    requires Keyed(rules) && Listed(rules)
    ensures forall i | 0 <= i < |rules| ::
      rules[i].key in Build(rules) && Build(rules)[rules[i].key].children == rules[i].contents
  {
    if rules != [] {
      var n := |rules| - 1;
      var rule := rules[n];
      var prefix := rules[..n];
      var before := Build(prefix);
      var start := Ensure(before, rule.key);
      var after := Build(rules);
      assert Keyed(prefix) && Listed(prefix);
      BuildExact(prefix);
      assert forall i | 0 <= i < n :: prefix[i].key != rule.key by {
        assert forall i | 0 <= i < n :: prefix[i] == rules[i];
      }
      BuildUnkeyed(prefix);
      assert start[rule.key].children == [];
      AddContentsOthers(start, rule.key, rule.contents);
      AddContentsExact(start, rule.key, rule.contents);
      forall i | 0 <= i < |rules|
        ensures rules[i].key in after && after[rules[i].key].children == rules[i].contents
      {
        if i < n {
          assert rules[i] == prefix[i];
          assert rules[i].key != rule.key;
        }
      }
    }
  }

  /** The puzzle input that states the rules, one line per rule. */
  function Written(rules: seq<Rule>): (lines: seq<string>)
    ensures |lines| == |rules|
    ensures forall i | 0 <= i < |rules| :: lines[i] == FormatLine(rules[i])
  {
    seq(|rules|, i requires 0 <= i < |rules| => FormatLine(rules[i]))
  }

  /** Reading written rules builds the graph of those rules. */
  lemma ParsedWritten(rules: seq<Rule>)
    requires forall r | r in rules :: Printable(r)
    ensures Parsed(Written(rules)) == Returned(Build(rules))
  {
    var lines := Written(rules);
    forall i | 0 <= i < |rules| ensures ParseLine(lines[i]) == Returned(rules[i]) {
      assert rules[i] in rules;
      ParseFormat(rules[i]);
    }
    GatherAll(lines, ParseLine, rules);
  }

  // ---------------------------------------------------------------------
  // Part A: the bags that can end up holding the start bag (Day7.cs:67-85)

  /** The names `Recurse` adds to `ancestors` when it starts at `name`
      (Day7.cs:71-79) with room for `depth` nested calls on the stack: each
      parent, then what lies above it. `Recurse` walks every parent again
      even when it is already in the set, so a bag that can hold itself
      exhausts any stack. A missing entry throws. */
  function Visit(bags: Bags, name: string, depth: nat): (o: Outcome<set<string>>)
    decreases depth, 0, 0
  {
    if depth == 0 then Threw(StackOverflow)
    else if name !in bags then Threw(KeyNotFound)
    else VisitAll(bags, bags[name].parents, depth - 1)
  }

  /** The loop over the parents (Day7.cs:74-78), in order. */
  function VisitAll(bags: Bags, ps: seq<string>, depth: nat): (o: Outcome<set<string>>)
    decreases depth, 1, |ps|
  {
    if ps == [] then Returned({})
    else
      match VisitAll(bags, ps[..|ps| - 1], depth)
      case Threw(x) => Threw(x)
      case Returned(below) =>
        match Visit(bags, ps[|ps| - 1], depth)
        case Threw(x) => Threw(x)
        case Returned(above) => Returned(below + {ps[|ps| - 1]} + above)
  }

  /** The set after a call that started with `acc`. */
  function Grow(acc: set<string>, o: Outcome<set<string>>): (r: Outcome<set<string>>)
  {
    match o
    case Threw(x) => Threw(x)
    case Returned(found) => Returned(acc + found)
  }

  lemma {:induction false} VisitAllPrefixThrows(bags: Bags, ps: seq<string>, depth: nat, n: nat)
    requires n <= |ps| && VisitAll(bags, ps[..n], depth).Threw?
    ensures VisitAll(bags, ps, depth) == VisitAll(bags, ps[..n], depth)
    decreases |ps|
  {
    if n < |ps| {
      var m := |ps| - 1;
      assert ps[..m][..n] == ps[..n];
      VisitAllPrefixThrows(bags, ps[..m], depth, n);
    } else {
      assert ps[..n] == ps;
    }
  }

  /** The local function `Recurse` of `RunPartA` (Day7.cs:71-79): it adds
      to `ancestors` in place, here threaded through as a value. */
  method Recurse(bags: Bags, ancestors: set<string>, name: string, depth: nat) returns (o: Outcome<set<string>>)
    ensures o == Grow(ancestors, Visit(bags, name, depth))
    decreases depth
  {
    if depth == 0 {
      return Threw(StackOverflow);
    }
    if name !in bags {
      return Threw(KeyNotFound);
    }
    var parents := bags[name].parents;
    var acc := ancestors;
    assert parents[..0] == [] && ancestors + {} == ancestors;
    for i := 0 to |parents|
      invariant Grow(ancestors, VisitAll(bags, parents[..i], depth - 1)) == Returned(acc)
    {
      assert parents[..i + 1][..i] == parents[..i];
      var parent := parents[i];
      if parent !in acc {
        acc := acc + {parent};
      }
      ghost var below := VisitAll(bags, parents[..i], depth - 1).value;
      assert acc == ancestors + below + {parent};
      var r := Recurse(bags, acc, parent, depth - 1);
      if r.Threw? {
        VisitAllPrefixThrows(bags, parents, depth - 1, i + 1);
        return r;
      }
      ghost var above := Visit(bags, parent, depth - 1).value;
      assert VisitAll(bags, parents[..i + 1], depth - 1) == Returned(below + {parent} + above);
      assert r.value == ancestors + (below + {parent} + above);
      acc := r.value;
    }
    assert parents[..|parents|] == parents;
    o := Returned(acc);
  }

  /** `RunPartA`'s answer (Day7.cs:67-85): how many bags can end up holding
      the start bag, or the exception. */
  function PartA(bags: Bags, start: string, depth: nat): (o: Outcome<string>)
  {
    if start !in bags then Threw(InvalidOperation("Bag does not exist"))
    else
      match Visit(bags, start, depth)
      case Threw(x) => Threw(x)
      case Returned(ancestors) => Returned(NatToString(|ancestors|))
  }

  /** `RunPartA` (Day7.cs:67-85). */
  method RunPartA(bags: Bags, start: string, depth: nat) returns (o: Outcome<string>)
    ensures o == PartA(bags, start, depth)
  {
    if start !in bags {
      return Threw(InvalidOperation("Bag does not exist"));
    }
    var ancestors := Recurse(bags, {}, start, depth);
    if ancestors.Threw? {
      return Threw(ancestors.exception);
    }
    o := Returned(NatToString(|ancestors.value|));
  }

  /** Every member of s has an entry, and its parents are in s too. */
  ghost predicate Closed(bags: Bags, s: set<string>)
  {
    forall x | x in s :: x in bags && forall p | p in bags[x].parents :: p in s
  }

  /** The parents of every member of s that has an entry are in s. */
  ghost predicate Upward(bags: Bags, s: set<string>)
  {
    forall x | x in s && x in bags :: forall p | p in bags[x].parents :: p in s
  }

  /** What `Recurse` finds holds the start bag's parents and is closed:
      every bag that can hold a found bag is found. */
  lemma {:induction false} VisitClosed(bags: Bags, name: string, depth: nat)
    requires Visit(bags, name, depth).Returned?
    ensures name in bags
    ensures forall p | p in bags[name].parents :: p in Visit(bags, name, depth).value
    ensures Closed(bags, Visit(bags, name, depth).value)
    decreases depth, 0, 0
  {
    VisitAllClosed(bags, bags[name].parents, depth - 1);
  }

  lemma {:induction false} VisitAllClosed(bags: Bags, ps: seq<string>, depth: nat)
    requires VisitAll(bags, ps, depth).Returned?
    ensures forall p | p in ps :: p in VisitAll(bags, ps, depth).value
    ensures Closed(bags, VisitAll(bags, ps, depth).value)
    decreases depth, 1, |ps|
  {
    if ps != [] {
      var n := |ps| - 1;
      VisitAllClosed(bags, ps[..n], depth);
      VisitClosed(bags, ps[n], depth);
      assert forall p | p in ps :: p in ps[..n] || p == ps[n];
    }
  }

  /** What `Recurse` finds lies inside every set that holds the start bag's
      parents and is closed upwards: it finds nothing that cannot hold the
      start bag. */
  lemma {:induction false} VisitLeast(bags: Bags, name: string, depth: nat, s: set<string>)
    requires Visit(bags, name, depth).Returned?
    requires name in bags ==> forall p | p in bags[name].parents :: p in s
    requires Upward(bags, s)
    ensures Visit(bags, name, depth).value <= s
    decreases depth, 0, 0
  {
    VisitAllLeast(bags, bags[name].parents, depth - 1, s);
  }

  lemma {:induction false} VisitAllLeast(bags: Bags, ps: seq<string>, depth: nat, s: set<string>)
    requires VisitAll(bags, ps, depth).Returned?
    requires forall p | p in ps :: p in s
    requires Upward(bags, s)
    ensures VisitAll(bags, ps, depth).value <= s
    decreases depth, 1, |ps|
  {
    if ps != [] {
      var n := |ps| - 1;
      assert forall p | p in ps[..n] :: p in ps;
      VisitAllLeast(bags, ps[..n], depth, s);
      assert ps[n] in ps;
      VisitLeast(bags, ps[n], depth, s);
    }
  }

  /** Every bag `Recurse` finds was itself visited, deeper on the stack,
      and that visit returned. */
  lemma {:induction false} VisitReaches(bags: Bags, name: string, depth: nat, y: string)
    requires Visit(bags, name, depth).Returned? && y in Visit(bags, name, depth).value
    ensures exists d: nat :: d < depth && Visit(bags, y, d).Returned?
    decreases depth, 0, 0
  {
    VisitAllReaches(bags, bags[name].parents, depth - 1, y);
  }

  lemma {:induction false} VisitAllReaches(bags: Bags, ps: seq<string>, depth: nat, y: string)
    requires VisitAll(bags, ps, depth).Returned? && y in VisitAll(bags, ps, depth).value
    ensures exists d: nat :: d <= depth && Visit(bags, y, d).Returned?
    decreases depth, 1, |ps|
  {
    var n := |ps| - 1;
    if y in VisitAll(bags, ps[..n], depth).value {
      VisitAllReaches(bags, ps[..n], depth, y);
    } else if y != ps[n] {
      VisitReaches(bags, ps[n], depth, y);
    }
  }

  /** A bag that can end up inside itself makes `Recurse` run out of stack,
      however deep the stack: when `Recurse` returns, the start bag is not
      among the bags it found. */
  lemma {:induction false} VisitNoCycle(bags: Bags, name: string, depth: nat)
    requires Visit(bags, name, depth).Returned?
    ensures name !in Visit(bags, name, depth).value
    decreases depth
  {
    var found := Visit(bags, name, depth).value;
    if name in found {
      VisitReaches(bags, name, depth, name);
      var d: nat :| d < depth && Visit(bags, name, d).Returned?;
      var inner := Visit(bags, name, d).value;
      VisitClosed(bags, name, d);
      VisitLeast(bags, name, depth, inner);
      VisitNoCycle(bags, name, d);
      assert false;
    }
  }

  /** Ranks that grow from each bag to its parents. */
  ghost predicate RankedUp(bags: Bags, rank: map<string, nat>)
  {
    forall x | x in bags ::
      x in rank && forall p | p in bags[x].parents :: p in bags && p in rank && rank[p] < rank[x]
  }

  /** Where every parent has an entry and the graph has no cycle (some rank
      grows towards the parents), `Recurse` returns once the stack has room
      for more calls than the start bag's rank. */
  lemma {:induction false} VisitRanked(bags: Bags, rank: map<string, nat>, name: string, depth: nat)
    requires RankedUp(bags, rank) && name in bags && rank[name] < depth
    ensures Visit(bags, name, depth).Returned?
    decreases depth, 0, 0
  {
    VisitAllRanked(bags, rank, bags[name].parents, depth - 1);
  }

  lemma {:induction false} VisitAllRanked(bags: Bags, rank: map<string, nat>, ps: seq<string>, depth: nat)
    requires RankedUp(bags, rank)
    requires forall p | p in ps :: p in bags && rank[p] < depth
    ensures VisitAll(bags, ps, depth).Returned?
    decreases depth, 1, |ps|
  {
    if ps != [] {
      var n := |ps| - 1;
      assert forall p | p in ps[..n] :: p in ps;
      VisitAllRanked(bags, rank, ps[..n], depth);
      assert ps[n] in ps;
      VisitRanked(bags, rank, ps[n], depth);
    }
  }

  /** Once `Recurse` fits on the stack, a deeper stack changes nothing. */
  lemma {:induction false} VisitDeeper(bags: Bags, name: string, d: nat, e: nat)
    requires Visit(bags, name, d).Returned? && d <= e
    ensures Visit(bags, name, e) == Visit(bags, name, d)
    decreases d, 0, 0
  {
    VisitAllDeeper(bags, bags[name].parents, d - 1, e - 1);
  }

  lemma {:induction false} VisitAllDeeper(bags: Bags, ps: seq<string>, d: nat, e: nat)
    requires VisitAll(bags, ps, d).Returned? && d <= e
    ensures VisitAll(bags, ps, e) == VisitAll(bags, ps, d)
    decreases d, 1, |ps|
  {
    if ps != [] {
      var n := |ps| - 1;
      VisitAllDeeper(bags, ps[..n], d, e);
      VisitDeeper(bags, ps[n], d, e);
    }
  }

  /** A parent the built graph records for `x` is the colour of a rule that
      lists `x`. */
  lemma ParentListed(rules: seq<Rule>, x: string, p: string)
    requires Counted(rules)
    requires x in Build(rules) && p in Build(rules)[x].parents
    ensures p in Build(rules)
    ensures exists i, c | 0 <= i < |rules| && c in rules[i].contents :: rules[i].key == p && c.name == x
  {
    var bags := Build(rules);
    BuildValid(rules);
    assert ParentsLinked(bags);
    assert p in bags && x in Names(bags[p].children);
    var j :| 0 <= j < |bags[p].children| && Names(bags[p].children)[j] == x;
    var c := bags[p].children[j];
    BuildListed(rules);
    assert Lists(rules, p, c);
    var i :| 0 <= i < |rules| && rules[i].key == p && c in rules[i].contents;
    assert c.name == x;
  }

  /** The parents a built graph records for `x` are the colours whose rules
      list `x`: when every such colour is in `s`, so is every parent. */
  lemma HoldersIn(rules: seq<Rule>, x: string, s: set<string>)
    requires Counted(rules)
    requires forall i, c | 0 <= i < |rules| && c in rules[i].contents && c.name == x :: rules[i].key in s
    ensures x in Build(rules) ==> forall p | p in Build(rules)[x].parents :: p in s
  {
    if x in Build(rules) {
      forall p | p in Build(rules)[x].parents ensures p in s {
        ParentListed(rules, x, p);
      }
    }
  }

  /** A set that holds the colour of every rule listing one of its members
      is closed upwards in the built graph. */
  lemma UpwardBuild(rules: seq<Rule>, s: set<string>)
    requires Counted(rules)
    requires forall i, c | 0 <= i < |rules| && c in rules[i].contents && c.name in s :: rules[i].key in s
    ensures Upward(Build(rules), s)
  {
    forall x | x in s && x in Build(rules) ensures forall p | p in Build(rules)[x].parents :: p in s {
      HoldersIn(rules, x, s);
    }
  }

  /** Ranks that grow from each rule's colour to the colours it lists grow
      towards the parents of the built graph. */
  lemma RankedBuild(rules: seq<Rule>, rank: map<string, nat>)
    requires Counted(rules)
    requires forall i | 0 <= i < |rules| :: rules[i].key in rank
    requires forall i, c | 0 <= i < |rules| && c in rules[i].contents ::
      c.name in rank && rank[rules[i].key] < rank[c.name]
    ensures RankedUp(Build(rules), rank)
  {
    var bags := Build(rules);
    BuildMentions(rules);
    forall x | x in bags
      ensures x in rank && forall p | p in bags[x].parents :: p in bags && p in rank && rank[p] < rank[x]
    {
      var i :| 0 <= i < |rules| && (rules[i].key == x || x in NameSet(rules[i].contents));
      if rules[i].key != x {
        NameSetFrom(rules[i].contents, x);
      }
      forall p | p in bags[x].parents ensures p in bags && p in rank && rank[p] < rank[x] {
        ParentListed(rules, x, p);
      }
    }
  }

  // ---------------------------------------------------------------------
  // Part B: how many bags the start bag holds (Day7.cs:90-99)

  /** The local function `Recurse` of `RunPartB` (Day7.cs:94-96), with room
      for `depth` nested calls: each child counts itself and, as many times,
      what it holds. */
  function Inner(bags: Bags, name: string, depth: nat): (o: Outcome<int>)
    decreases depth, 0, 0
  {
    if depth == 0 then Threw(StackOverflow)
    else if name !in bags then Threw(KeyNotFound)
    else SumChildren(bags, bags[name].children, depth - 1)
  }

  /** The `Sum` over a bag's children (Day7.cs:95-96), in order. */
  function SumChildren(bags: Bags, cs: seq<Content>, depth: nat): (o: Outcome<int>)
    decreases depth, 1, |cs|
  {
    if cs == [] then Returned(0)
    else
      match SumChildren(bags, cs[..|cs| - 1], depth)
      case Threw(x) => Threw(x)
      case Returned(sum) =>
        var c := cs[|cs| - 1];
        match Inner(bags, c.name, depth)
        case Threw(x) => Threw(x)
        case Returned(inner) => Returned(sum + (c.count + c.count * inner))
  }

  /** `RunPartB` (Day7.cs:90-99). */
  function PartB(bags: Bags, start: string, depth: nat): (o: Outcome<string>)
  {
    if start !in bags then Threw(InvalidOperation("Bag does not exist"))
    else
      match Inner(bags, start, depth)
      case Threw(x) => Threw(x)
      case Returned(total) => Returned(IntToString(total))
  }

  /** Every count is positive. */
  ghost predicate Positives(bags: Bags)
  {
    forall x, c | x in bags && c in bags[x].children :: c.count > 0
  }

  /** With positive counts a bag holds at least one bag per child, and holds
      none exactly when it has no children. */
  lemma {:induction false} InnerCounts(bags: Bags, name: string, depth: nat)
    requires Positives(bags) && Inner(bags, name, depth).Returned?
    ensures Inner(bags, name, depth).value >= |bags[name].children|
    ensures Inner(bags, name, depth).value == 0 <==> bags[name].children == []
    decreases depth, 0, 0
  {
    var cs := bags[name].children;
    assert forall c | c in cs :: c.count > 0;
    SumChildrenCounts(bags, cs, depth - 1);
  }

  lemma {:induction false} SumChildrenCounts(bags: Bags, cs: seq<Content>, depth: nat)
    requires Positives(bags) && forall c | c in cs :: c.count > 0
    requires SumChildren(bags, cs, depth).Returned?
    ensures SumChildren(bags, cs, depth).value >= |cs|
    decreases depth, 1, |cs|
  {
    if cs != [] {
      var n := |cs| - 1;
      assert forall c | c in cs[..n] :: c in cs;
      SumChildrenCounts(bags, cs[..n], depth);
      assert cs[n] in cs;
      InnerCounts(bags, cs[n].name, depth);
    }
  }

  /** Ranks that grow from each bag to its children. */
  ghost predicate RankedDown(bags: Bags, rank: map<string, nat>)
  {
    forall x | x in bags ::
      x in rank && forall c | c in bags[x].children :: c.name in bags && c.name in rank && rank[c.name] < rank[x]
  }

  /** Where every child has an entry and the graph has no cycle, Part B's
      recursion returns once the stack has room for more calls than the
      start bag's rank. */
  lemma {:induction false} InnerRanked(bags: Bags, rank: map<string, nat>, name: string, depth: nat)
    requires RankedDown(bags, rank) && name in bags && rank[name] < depth
    ensures Inner(bags, name, depth).Returned?
    decreases depth, 0, 0
  {
    SumChildrenRanked(bags, rank, bags[name].children, depth - 1);
  }

  lemma {:induction false} SumChildrenRanked(bags: Bags, rank: map<string, nat>, cs: seq<Content>, depth: nat)
    requires RankedDown(bags, rank)
    requires forall c | c in cs :: c.name in bags && rank[c.name] < depth
    ensures SumChildren(bags, cs, depth).Returned?
    decreases depth, 1, |cs|
  {
    if cs != [] {
      var n := |cs| - 1;
      assert forall c | c in cs[..n] :: c in cs;
      SumChildrenRanked(bags, rank, cs[..n], depth);
      assert cs[n] in cs;
      InnerRanked(bags, rank, cs[n].name, depth);
    }
  }

  /** A bag that holds a bag of its own colour never gets an answer: the
      recursion runs out of stack (or meets a missing entry first). */
  lemma {:induction false} InnerSelfThrows(bags: Bags, name: string, depth: nat)
    requires name in bags && name in Names(bags[name].children)
    ensures Inner(bags, name, depth).Threw?
    decreases depth
  {
    if depth > 0 {
      var cs := bags[name].children;
      var i :| 0 <= i < |cs| && Names(cs)[i] == name;
      if depth > 1 {
        InnerSelfThrows(bags, name, depth - 1);
      }
      SumChildrenThrows(bags, cs, depth - 1, i);
    }
  }

  /** A child whose count throws makes the sum throw. */
  lemma {:induction false} SumChildrenThrows(bags: Bags, cs: seq<Content>, depth: nat, i: nat)
    requires i < |cs| && Inner(bags, cs[i].name, depth).Threw?
    ensures SumChildren(bags, cs, depth).Threw?
  {
    var n := |cs| - 1;
    if i < n {
      SumChildrenThrows(bags, cs[..n], depth, i);
    }
  }

  /** `n` copies of `s`, one after the other. */
  function Copies(s: seq<string>, n: nat): (r: seq<string>)
    ensures |r| == n * |s|
    ensures forall x | x in r :: x in s
  {
    if n == 0 then [] else Copies(s, n - 1) + s
  }

  /** Every bag inside `name`, unpacked, with room for `depth` nested
      calls: for each child in order, `count` copies of the child, each
      followed by everything it holds in turn. A missing entry throws, and
      so does running out of stack. */
  function Unpack(bags: Bags, name: string, depth: nat): (o: Outcome<seq<string>>)
    decreases depth, 0, 0
  {
    if depth == 0 then Threw(StackOverflow)
    else if name !in bags then Threw(KeyNotFound)
    else UnpackAll(bags, bags[name].children, depth - 1)
  }

  function UnpackAll(bags: Bags, cs: seq<Content>, depth: nat): (o: Outcome<seq<string>>)
    decreases depth, 1, |cs|
  {
    if cs == [] then Returned([])
    else
      match UnpackAll(bags, cs[..|cs| - 1], depth)
      case Threw(x) => Threw(x)
      case Returned(front) =>
        var c := cs[|cs| - 1];
        match Unpack(bags, c.name, depth)
        case Threw(x) => Threw(x)
        case Returned(inside) => Returned(front + Copies([c.name] + inside, c.count))
  }

  /** The length of an unpacked list, or its exception. */
  function Size(o: Outcome<seq<string>>): (r: Outcome<int>)
  {
    match o
    case Threw(x) => Threw(x)
    case Returned(s) => Returned(|s|)
  }

  /** Part B's sum counts exactly the bags of the unpacked list: each child
      `count` times, and as many times everything it holds. */
  lemma {:induction false} InnerUnpacked(bags: Bags, name: string, depth: nat)
    ensures Inner(bags, name, depth) == Size(Unpack(bags, name, depth))
    decreases depth, 0, 0
  {
    if depth > 0 && name in bags {
      SumChildrenUnpacked(bags, bags[name].children, depth - 1);
    }
  }

  lemma {:induction false} SumChildrenUnpacked(bags: Bags, cs: seq<Content>, depth: nat)
    ensures SumChildren(bags, cs, depth) == Size(UnpackAll(bags, cs, depth))
    decreases depth, 1, |cs|
  {
    if cs != [] {
      var c := cs[|cs| - 1];
      SumChildrenUnpacked(bags, cs[..|cs| - 1], depth);
      InnerUnpacked(bags, c.name, depth);
      if UnpackAll(bags, cs, depth).Returned? {
        var inside := Unpack(bags, c.name, depth).value;
        assert c.count * |[c.name] + inside| == c.count + c.count * |inside|;
      }
    }
  }

  // ---------------------------------------------------------------------
  // A small graph

  /** Light red bags hold two shiny gold bags, each of which holds three
      dark blue bags. */
  function Example(): (r: seq<Rule>)
    ensures |r| == 3
  {
    [Rule("light red", [Content(Start, 2)]),
     Rule(Start, [Content("dark blue", 3)]),
     Rule("dark blue", [])]
  }

  /** The graph the example builds. */
  function ExampleGraph(): (bags: Bags)
    ensures bags.Keys == {"light red", Start, "dark blue"}
  {
    map["light red" := Bag([Content(Start, 2)], []),
        Start := Bag([Content("dark blue", 3)], ["light red"]),
        "dark blue" := Bag([], [Start])]
  }

  /** The first example rule adds light red and its child. */
  lemma ExampleFirst(e0: Bags, c0: Content)
    requires e0 == map["light red" := Bag([], [])] && c0 == Content(Start, 2)
    ensures AddContent(e0, "light red", c0)
      == map["light red" := Bag([c0], []), Start := Bag([], ["light red"])]
  {
    var withChild := e0[Start := Bag([], [])];
    assert Ensure(e0, c0.name) == withChild;
    assert withChild["light red"].children == [];
    assert Names([]) == [];
    var linked := withChild["light red" := Bag([c0], [])];
    assert |"light red"| != |Start|;
    assert [] + [c0] == [c0] && [] + ["light red"] == ["light red"];
    assert linked[Start] == Bag([], []);
    assert "light red" !in linked[Start].parents;
    var r := linked[Start := Bag([], ["light red"])];
    assert AddContent(e0, "light red", c0) == r;
    assert r.Keys == {"light red", Start};
    assert r == map["light red" := Bag([c0], []), Start := Bag([], ["light red"])];
  }

  /** The second example rule adds dark blue under shiny gold. */
  lemma ExampleSecond(b1: Bags, c0: Content, c1: Content)
    requires b1 == map["light red" := Bag([c0], []), Start := Bag([], ["light red"])]
    requires c1 == Content("dark blue", 3)
    ensures AddContent(b1, Start, c1) == map["light red" := Bag([c0], []),
      Start := Bag([c1], ["light red"]), "dark blue" := Bag([], [Start])]
  {
    assert |"light red"| != |Start| && |"dark blue"| != |Start|;
    assert "light red" != "dark blue";
    var withChild := b1["dark blue" := Bag([], [])];
    assert Ensure(b1, c1.name) == withChild;
    assert withChild[Start].children == [];
    assert Names([]) == [];
    assert [] + [c1] == [c1] && [] + [Start] == [Start];
    var linked := withChild[Start := Bag([c1], ["light red"])];
    assert linked["dark blue"] == Bag([], []);
    var r := linked["dark blue" := Bag([], [Start])];
    assert AddContent(b1, Start, c1) == r;
    assert r.Keys == {"light red", Start, "dark blue"};
  }

  /** The first example rule. */
  lemma ExampleOne()
    ensures Build(Example()[..1])
      == map["light red" := Bag([Content(Start, 2)], []), Start := Bag([], ["light red"])]
  {
    var rules := Example();
    var c0 := Content(Start, 2);
    var e0 := map["light red" := Bag([], [])];
    assert [c0][..0] == [];
    assert AddContents(e0, "light red", [c0]) == AddContent(e0, "light red", c0);
    ExampleFirst(e0, c0);
    BuildStep([], rules[0]);
    assert [rules[0]] == rules[..1];
  }

  /** The first two example rules. */
  lemma ExampleTwo()
    ensures Build(Example()[..2]) == map["light red" := Bag([Content(Start, 2)], []),
      Start := Bag([Content("dark blue", 3)], ["light red"]), "dark blue" := Bag([], [Start])]
  {
    var rules := Example();
    var c0, c1 := Content(Start, 2), Content("dark blue", 3);
    var b1 := map["light red" := Bag([c0], []), Start := Bag([], ["light red"])];
    ExampleOne();
    assert [c1][..0] == [];
    assert Ensure(b1, Start) == b1;
    assert AddContents(b1, Start, [c1]) == AddContent(b1, Start, c1);
    ExampleSecond(b1, c0, c1);
    BuildStep(rules[..1], rules[1]);
    assert rules[..1] + [rules[1]] == rules[..2];
  }

  /** Reading the example rules in order builds that graph. */
  lemma ExampleBuilt()
    ensures Build(Example()) == ExampleGraph()
  {
    var rules := Example();
    var b2 := ExampleGraph();
    ExampleTwo();
    assert AddRule(b2, rules[2]) == b2;
    BuildStep(rules[..2], rules[2]);
    assert rules[..2] + [rules[2]] == rules;
  }

  /** In the example graph, one bag can hold the shiny gold bag. */
  lemma ExampleAbove()
    ensures Visit(ExampleGraph(), Start, 3) == Returned({"light red"})
  {
    var bags := ExampleGraph();
    assert ["light red"][..0] == [];
    assert Visit(bags, "light red", 1) == Returned({});
    assert VisitAll(bags, [], 1) == Returned({});
    assert {} + {"light red"} + {} == {"light red"};
    assert VisitAll(bags, ["light red"], 1) == Returned({"light red"});
    assert Visit(bags, Start, 2) == Returned({"light red"});
  }

  /** In the example graph, the shiny gold bag holds three bags. */
  lemma ExampleBelow()
    ensures Inner(ExampleGraph(), Start, 3) == Returned(3)
  {
    var bags := ExampleGraph();
    assert [Content("dark blue", 3)][..0] == [];
    assert Inner(bags, "dark blue", 2) == Returned(0);
  }

  /** One bag can hold the shiny gold bag, which holds three bags. */
  lemma ExampleAnswers()
    ensures PartA(Build(Example()), Start, 3) == Returned("1")
    ensures PartB(Build(Example()), Start, 3) == Returned("3")
  {
    ExampleBuilt();
    ExampleAbove();
    ExampleBelow();
  }

  // ---------------------------------------------------------------------
  // The day (Day7.cs:15-23)

  /** What `Run` produces (Day7.cs:15-23) when the stack has room for
      `depth` nested calls: the graph is read, then part A and part B are
      answered for the shiny gold bag, and the first exception ends it. */
  function RunDay(input: seq<string>, depth: nat): (o: Outcome<Day>)
    ensures o.Returned? ==> o.value.title == Title
    ensures o.Returned? ==> Parsed(input).Returned? && Start in Parsed(input).value
    ensures Parsed(input).Returned? && Start !in Parsed(input).value ==>
      o == Threw(InvalidOperation("Bag does not exist"))
    ensures o.Returned? ==>
      && Visit(Parsed(input).value, Start, depth).Returned?
      && Inner(Parsed(input).value, Start, depth).Returned?
      && o.value.partA == NatToString(|Visit(Parsed(input).value, Start, depth).value|)
      && o.value.partB == IntToString(Inner(Parsed(input).value, Start, depth).value)
    ensures Parsed(input).Returned? && Start in Parsed(input).value ==>
      (o.Returned? <==>
        Visit(Parsed(input).value, Start, depth).Returned? && Inner(Parsed(input).value, Start, depth).Returned?)
  {
    match Parsed(input)
    case Threw(x) => Threw(x)
    case Returned(bags) =>
      match PartA(bags, Start, depth)
      case Threw(x) => Threw(x)
      case Returned(a) =>
        match PartB(bags, Start, depth)
        case Threw(x) => Threw(x)
        case Returned(b) => Returned(Day(Title, a, b))
  }

  /** `Run` (Day7.cs:15-23). */
  method Run(input: seq<string>, depth: nat) returns (o: Outcome<Day>)
    ensures o == RunDay(input, depth)
  {
    var parsed := ParseInput(input);
    if parsed.Threw? {
      return Threw(parsed.exception);
    }
    var a := RunPartA(parsed.value, Start, depth);
    if a.Threw? {
      return Threw(a.exception);
    }
    var b := PartB(parsed.value, Start, depth);
    if b.Threw? {
      return Threw(b.exception);
    }
    o := Returned(Day(Title, a.value, b.value));
  }
}
