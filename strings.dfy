/** Models of the few .NET string operations the core relies on:
    `PadLeft`, `string.Join`, `Split`, `Trim`, `ToUpper`, `int.Parse` and
    the decimal `ToString` of integers. Only the behaviour the core can
    observe is modelled (ASCII letters, decimal digits, a fixed set of
    whitespace characters). */
module Strings {
  import opened Optional

  /** `"".PadLeft(n)`: n spaces. */
  function Pad(n: nat): (s: string)
    ensures |s| == n
    ensures forall i | 0 <= i < n :: s[i] == ' '
  {
    if n == 0 then "" else Pad(n - 1) + " "
  }

  lemma PadAdd(a: nat, b: nat)
    ensures Pad(a) + Pad(b) == Pad(a + b)
  {
    assert forall i | 0 <= i < a + b :: (Pad(a) + Pad(b))[i] == ' ';
  }

  /** `string.Join(sep, parts)`. */
  function Join(sep: string, parts: seq<string>): string
  {
    if |parts| == 0 then ""
    else if |parts| == 1 then parts[0]
    else parts[0] + sep + Join(sep, parts[1..])
  }

  /** The concatenation of a sequence of sequences, in order. */
  function Concat<T>(xss: seq<seq<T>>): (r: seq<T>)
  {
    if xss == [] then [] else xss[0] + Concat(xss[1..])
  }

  lemma {:induction false} JoinAppend(sep: string, a: seq<string>, b: seq<string>)
    requires |a| > 0 && |b| > 0
    ensures Join(sep, a + b) == Join(sep, a) + sep + Join(sep, b)
    decreases |a|
  {
    if |a| > 1 {
      assert (a + b)[1..] == a[1..] + b;
      JoinAppend(sep, a[1..], b);
    }
  }

  /** Joining the concatenation of non-empty groups is joining the joined groups. */
  lemma {:induction false} JoinConcat(sep: string, xss: seq<seq<string>>)
    requires forall i | 0 <= i < |xss| :: |xss[i]| > 0
    ensures Join(sep, Concat(xss)) == Join(sep, seq(|xss|, i requires 0 <= i < |xss| => Join(sep, xss[i])))
    decreases |xss|
  {
    var joined := seq(|xss|, i requires 0 <= i < |xss| => Join(sep, xss[i]));
    if |xss| > 1 {
      var rest := xss[1..];
      JoinConcat(sep, rest);
      var joinedRest := seq(|rest|, i requires 0 <= i < |rest| => Join(sep, rest[i]));
      assert joined[1..] == joinedRest;
      JoinAppend(sep, xss[0], Concat(rest));
    } else if |xss| == 1 {
      assert xss[1..] == [];
      assert Concat(xss) == xss[0];
      assert joined == [Join(sep, xss[0])];
    }
  }

  /** Occurrences of `sep` at index k of s. */
  predicate OccursAt(s: string, sep: string, k: nat)
  {
    k + |sep| <= |s| && s[k..k + |sep|] == sep
  }

  /** `s.IndexOf(sep, from)` with ordinal comparison. */
  function IndexOf(s: string, sep: string, from: nat): (r: Option<nat>)
    requires |sep| > 0
    ensures r.Some? ==> from <= r.value && OccursAt(s, sep, r.value)
    ensures r.Some? ==> forall k | from <= k < r.value :: !OccursAt(s, sep, k)
    ensures r.None? ==> forall k | from <= k :: !OccursAt(s, sep, k)
    decreases |s| - from
  {
    if from + |sep| > |s| then None
    else if OccursAt(s, sep, from) then Some(from)
    else IndexOf(s, sep, from + 1)
  }

  /** `s.Split(new[] { sep }, StringSplitOptions.None)`. */
  function Split(s: string, sep: string): (parts: seq<string>)
    requires |sep| > 0
    ensures |parts| >= 1
    decreases |s|
  {
    match IndexOf(s, sep, 0)
    case None => [s]
    case Some(i) => [s[..i]] + Split(s[i + |sep|..], sep)
  }

  /** Joining the pieces of a split with the separator gives back the input. */
  lemma {:induction false} JoinSplit(s: string, sep: string)
    requires |sep| > 0
    ensures Join(sep, Split(s, sep)) == s
    decreases |s|
  {
    match IndexOf(s, sep, 0)
    case None =>
    case Some(i) =>
      var rest := s[i + |sep|..];
      JoinSplit(rest, sep);
      assert s == s[..i] + sep + rest;
  }

  /** No piece of a split contains the separator. */
  lemma {:induction false} SplitPiecesFree(s: string, sep: string)
    requires |sep| > 0
    ensures forall p, k | p in Split(s, sep) && 0 <= k :: !OccursAt(p, sep, k)
    decreases |s|
  {
    match IndexOf(s, sep, 0)
    case None =>
    case Some(i) =>
      SplitPiecesFree(s[i + |sep|..], sep);
      forall k: nat | OccursAt(s[..i], sep, k) ensures false {
        assert s[k..k + |sep|] == s[..i][k..k + |sep|];
        assert OccursAt(s, sep, k);
      }
  }

  /** A string in which the separator never occurs splits into itself. */
  lemma SplitNone(s: string, sep: string)
    requires |sep| > 0
    requires forall k | 0 <= k :: !OccursAt(s, sep, k)
    ensures Split(s, sep) == [s]
  {
  }

  /** The first split happens at the first occurrence of the separator. */
  lemma SplitAt(a: string, sep: string, b: string)
    requires |sep| > 0
    requires forall k | 0 <= k < |a| :: !OccursAt(a + sep + b, sep, k)
    ensures Split(a + sep + b, sep) == [a] + Split(b, sep)
  {
    var s := a + sep + b;
    assert OccursAt(s, sep, |a|) by { assert s[|a|..|a| + |sep|] == sep; }
    var r := IndexOf(s, sep, 0);
    assert r == Some(|a|);
    assert s[..|a|] == a;
    assert s[|a| + |sep|..] == b;
  }

  /** `s.Split(new[] { c }, 2)`: at most two pieces, cut at the first c. */
  function SplitOnce(s: string, c: char): (parts: seq<string>)
    ensures 1 <= |parts| <= 2
    ensures |parts| == 1 <==> c !in s
    ensures |parts| == 1 ==> parts[0] == s
    ensures |parts| == 2 ==> s == parts[0] + [c] + parts[1] && c !in parts[0]
  {
    match IndexOf(s, [c], 0)
    case None =>
      assert forall k | 0 <= k < |s| :: s[k] != c by {
        forall k | 0 <= k < |s| ensures s[k] != c { assert !OccursAt(s, [c], k); assert s[k..k + 1] == [s[k]]; }
      }
      [s]
    case Some(i) =>
      assert s[i..i + 1] == [c];
      assert forall k | 0 <= k < i :: s[k] != c by {
        forall k | 0 <= k < i ensures s[k] != c { assert !OccursAt(s, [c], k); assert s[k..k + 1] == [s[k]]; }
      }
      assert s == s[..i] + [c] + s[i + 1..];
      [s[..i], s[i + 1..]]
  }

  /** Cutting at the first c of a + [c] + b, where a has no c, gives a and b. */
  lemma SplitOnceAt(a: string, c: char, b: string)
    requires c !in a
    ensures SplitOnce(a + [c] + b, c) == [a, b]
  {
    var s := a + [c] + b;
    assert s[|a|] == c;
    var parts := SplitOnce(s, c);
    assert parts[0] == a;
    assert parts[1] == s[|a| + 1..] == b;
  }

  /** The characters `Trim()` removes. */
  predicate IsWhiteSpace(c: char)
  {
    c == ' ' || c == '\t' || c == '\n' || c == '\r'
  }

  function TrimStart(s: string): (r: string)
    ensures |r| <= |s| && r == s[|s| - |r|..]
    ensures r == [] || !IsWhiteSpace(r[0])
    ensures forall k | 0 <= k < |s| - |r| :: IsWhiteSpace(s[k])
  {
    if s != [] && IsWhiteSpace(s[0]) then TrimStart(s[1..]) else s
  }

  function TrimEnd(s: string): (r: string)
    ensures |r| <= |s| && r == s[..|r|]
    ensures r == [] || !IsWhiteSpace(r[|r| - 1])
    ensures forall k | |r| <= k < |s| :: IsWhiteSpace(s[k])
  {
    if s != [] && IsWhiteSpace(s[|s| - 1]) then TrimEnd(s[..|s| - 1]) else s
  }

  /** `s.Trim()`. */
  function Trim(s: string): (r: string)
  {
    TrimEnd(TrimStart(s))
  }

  /** A string with no white space at either end is its own trim. */
  lemma TrimIdentity(s: string)
    requires s == [] || (!IsWhiteSpace(s[0]) && !IsWhiteSpace(s[|s| - 1]))
    ensures Trim(s) == s
  {
  }

  /** White space around a core that neither starts nor ends with white
      space is exactly what `Trim()` removes. */
  lemma TrimPadded(pre: string, core: string, post: string)
    requires forall i | 0 <= i < |pre| :: IsWhiteSpace(pre[i])
    requires forall i | 0 <= i < |post| :: IsWhiteSpace(post[i])
    requires core != [] && !IsWhiteSpace(core[0]) && !IsWhiteSpace(core[|core| - 1])
    ensures Trim(pre + core + post) == core
  {
    var s := pre + core + post;
    var r := TrimStart(s);
    assert s[|pre|] == core[0];
    assert forall k | 0 <= k < |pre| :: s[k] == pre[k];
    assert |s| - |r| == |pre|;
    assert r == core + post;
    var t := TrimEnd(r);
    assert r[|core| - 1] == core[|core| - 1];
    assert forall k | |core| <= k < |r| :: r[k] == post[k - |core|];
    assert |t| == |core|;
  }

  /** `char.ToUpper`, on the ASCII letters. */
  function ToUpper(c: char): (u: char)
    ensures 'a' <= c <= 'z' ==> 'A' <= u <= 'Z'
    ensures !('a' <= c <= 'z') ==> u == c
  {
    if 'a' <= c <= 'z' then (c as int - 32) as char else c
  }

  /** `s.ToUpper()`, character by character. */
  function UpperCase(s: string): (u: string)
    ensures |u| == |s|
    ensures forall i | 0 <= i < |s| :: u[i] == ToUpper(s[i])
  {
    seq(|s|, i requires 0 <= i < |s| => ToUpper(s[i]))
  }

  /** How many times c occurs in s. */
  function Occurrences(s: string, c: char): (n: nat)
    ensures n <= |s|
    ensures n == 0 <==> c !in s
  {
    if s == [] then 0 else Occurrences(s[1..], c) + (if s[0] == c then 1 else 0)
  }

  /** One more character in front counts once more when it is c. */
  lemma OccurrencesCons(x: char, s: string, c: char)
    ensures Occurrences([x] + s, c) == Occurrences(s, c) + (if x == c then 1 else 0)
  {
    assert ([x] + s)[1..] == s;
  }

  /** A string made only of c holds c once per character. */
  lemma {:induction false} OccurrencesOnly(s: string, c: char)
    requires forall i | 0 <= i < |s| :: s[i] == c
    ensures Occurrences(s, c) == |s|
  {
    if s != [] {
      assert forall i | 0 <= i < |s[1..]| :: s[1..][i] == s[i + 1];
      OccurrencesOnly(s[1..], c);
    }
  }

  predicate IsDigit(c: char)
  {
    '0' <= c <= '9'
  }

  function DigitChar(d: nat): (c: char)
    requires d < 10
    ensures IsDigit(c) && c as int - '0' as int == d
  {
    ('0' as int + d) as char
  }

  /** The decimal `ToString()` of a natural number. */
  function NatToString(n: nat): (s: string)
    ensures |s| >= 1
    ensures forall i | 0 <= i < |s| :: IsDigit(s[i])
  {
    if n < 10 then [DigitChar(n)] else NatToString(n / 10) + [DigitChar(n % 10)]
  }

  /** The decimal `ToString()` of an integer. */
  function IntToString(i: int): (s: string)
    ensures |s| >= 1
  {
    if i < 0 then "-" + NatToString(-i) else NatToString(i)
  }

  /** The value of a string of decimal digits, most significant first. */
  function DigitsValue(s: string): nat
    requires forall i | 0 <= i < |s| :: IsDigit(s[i])
  {
    if s == [] then 0
    else
      assert IsDigit(s[|s| - 1]);
      DigitsValue(s[..|s| - 1]) * 10 + (s[|s| - 1] as int - '0' as int)
  }

  predicate AllDigits(s: string)
  {
    |s| > 0 && forall i | 0 <= i < |s| :: IsDigit(s[i])
  }

  /** `int.Parse` (and `decimal.TryParse` on whole numbers): an optional sign
      followed by at least one decimal digit; anything else is rejected. */
  function ParseInt(s: string): (r: Option<int>)
    ensures r.Some? <==> AllDigits(s) || (|s| > 0 && s[0] in "+-" && AllDigits(s[1..]))
    ensures AllDigits(s) ==> r == Some(DigitsValue(s))
    ensures |s| > 0 && s[0] == '+' && AllDigits(s[1..]) ==> r == Some(DigitsValue(s[1..]))
    ensures |s| > 0 && s[0] == '-' && AllDigits(s[1..]) ==> r == Some(0 - DigitsValue(s[1..]))
    ensures s == [] ==> r.None?
  {
    if |s| > 0 && (s[0] == '-' || s[0] == '+') then
      if AllDigits(s[1..]) then
        var magnitude: int := DigitsValue(s[1..]);
        Some(if s[0] == '-' then -magnitude else magnitude)
      else None
    else if AllDigits(s) then Some(DigitsValue(s))
    else None
  }

  lemma {:induction false} NatToStringValue(n: nat)
    ensures DigitsValue(NatToString(n)) == n
  {
    if n >= 10 {
      NatToStringValue(n / 10);
      var s := NatToString(n);
      assert s[..|s| - 1] == NatToString(n / 10);
    }
  }

  /** Printing an integer and parsing it back gives the integer. */
  lemma ParseIntToString(i: int)
    ensures ParseInt(IntToString(i)) == Some(i)
  {
    if i < 0 {
      NatToStringValue(-i);
      assert IntToString(i)[1..] == NatToString(-i);
    } else {
      NatToStringValue(i);
    }
  }

  /** The printed form of a natural number is a digit string. */
  lemma NatToStringDigits(n: nat)
    ensures AllDigits(NatToString(n))
  {
  }
}
