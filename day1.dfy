/** Day 1, "Report Repair": find the entries of an expense report that sum
    to 2020 and multiply them (AdventOfCode/Day1.cs). */
module Day1 {
  import opened Optional
  import opened Strings
  import opened Errors
  import opened Results
  import opened Days

  const Day1File := "AdventOfCode/Day1.cs"
  const Title := "--- Day 1: Report Repair ---"
  const Target := 2020

  /** The result of the per-line lambda of `ParseInput` (Day1.cs:37-40): the
      number, or a failure whose id is the line's index. */
  function ParseLine(line: string, i: nat): (r: Result<int>)
    ensures r.Success? <==> ParseInt(line).Some?
    ensures r.Success? ==> r.value == ParseInt(line).value
    ensures r.Failure? ==> r.error.id == Some(NatToString(i))
    ensures r.Failure? ==> r.error.messages == ["Unable to parse " + line + " into a number"]
  {
    match ParseInt(line)
    case Some(d) => Success(d)
    case None =>
      Failure(Error(Some(NatToString(i)), ["Unable to parse " + line + " into a number"], None, [],
                    Origin(Day1File, 39, "ParseInput")), None)
  }

  function ParsedLines(input: seq<string>): (rs: seq<Result<int>>)
    ensures |rs| == |input|
    ensures forall i | 0 <= i < |input| :: rs[i] == ParseLine(input[i], i)
  {
    seq(|input|, i requires 0 <= i < |input| => ParseLine(input[i], i))
  }

  /** `ParseInput` (Day1.cs:33-42): the numbers in input order when every line
      parses, otherwise a failure holding the error of every unparsable line,
      in order. */
  function ParseInput(input: seq<string>): (r: Result<seq<int>>)
    ensures r.Success? <==> forall i | 0 <= i < |input| :: ParseInt(input[i]).Some?
    ensures r.Success? ==> |r.value| == |input|
    ensures r.Success? ==> forall i | 0 <= i < |input| :: ParseInt(input[i]) == Some(r.value[i])
    ensures r.Failure? ==> r.error.nested == FailedErrors(ParsedLines(input))
  {
    var rs := ParsedLines(input);
    var o := Settle(AwaitAll(rs));
    assert o.Returned?;
    o.value
  }

  /** With the collection awaiter as written, one unparsable line makes
      `ParseInput` throw instead of returning a failure. */
  lemma ParseInputAsWrittenThrows(input: seq<string>, i: nat)
    requires i < |input| && ParseInt(input[i]).None?
    ensures Settle(AwaitAllAsWritten(ParsedLines(input))).Threw?
  {
    var rs := ParsedLines(input);
    assert rs[i].Failure?;
    CollectAsWrittenFails(rs);
  }

  /** Indices i, j of the input whose entries sum to `target`. */
  predicate IsPair(input: seq<int>, target: int, i: int, j: int)
  {
    0 <= i < |input| && 0 <= j < |input| && input[i] + input[j] == target
  }

  /** The first index from `from` on holding `target`. */
  function FirstIndex(input: seq<int>, target: int, from: nat): (r: Option<nat>)
    ensures r.Some? ==> from <= r.value < |input| && input[r.value] == target
    ensures r.Some? ==> forall k | from <= k < r.value :: input[k] != target
    ensures r.None? ==> forall k | from <= k < |input| :: input[k] != target
    decreases |input| - from
  {
    if from >= |input| then None
    else if input[from] == target then Some(from)
    else FirstIndex(input, target, from + 1)
  }

  /** The first pair (i, j) with i >= from, in the order of two nested loops
      over the whole input, whose entries sum to `target`; i and j may be the
      same index. */
  function FirstPair(input: seq<int>, target: int, from: nat): (r: Option<(nat, nat)>)
    ensures r.Some? ==> from <= r.value.0 && IsPair(input, target, r.value.0, r.value.1)
    ensures r.Some? ==> forall i, j | from <= i < r.value.0 :: !IsPair(input, target, i, j)
    ensures r.Some? ==> forall j | 0 <= j < r.value.1 :: !IsPair(input, target, r.value.0, j)
    ensures r.None? ==> forall i, j | from <= i :: !IsPair(input, target, i, j)
    decreases |input| - from
  {
    if from >= |input| then None
    else
      match FirstIndex(input, target - input[from], 0)
      case Some(j) => Some((from, j))
      case None => FirstPair(input, target, from + 1)
  }

  /** Indices i, j, k whose entries sum to 2020. */
  predicate IsTriple(input: seq<int>, i: int, j: int, k: int)
  {
    0 <= i < |input| && IsPair(input, Target - input[i], j, k)
  }

  /** The first triple (i, j, k) with i >= from, in the order of three nested
      loops over the whole input, whose entries sum to 2020. */
  function FirstTriple(input: seq<int>, from: nat): (r: Option<(nat, nat, nat)>)
    ensures r.Some? ==> from <= r.value.0 && IsTriple(input, r.value.0, r.value.1, r.value.2)
    ensures r.Some? ==> forall i, j, k | from <= i < r.value.0 :: !IsTriple(input, i, j, k)
    ensures r.Some? ==> forall j, k | 0 <= j < r.value.1 :: !IsTriple(input, r.value.0, j, k)
    ensures r.Some? ==> forall k | 0 <= k < r.value.2 :: !IsTriple(input, r.value.0, r.value.1, k)
    ensures r.None? ==> forall i, j, k | from <= i :: !IsTriple(input, i, j, k)
    decreases |input| - from
  {
    if from >= |input| then None
    else
      match FirstPair(input, Target - input[from], 0)
      case Some((j, k)) => Some((from, j, k))
      case None => FirstTriple(input, from + 1)
  }

  /** The failure of an awaited `new Failure<string>(message:, value: input)`
      on the given line of the given member. */
  function Fail(message: string, input: seq<int>, line: int, member: string): Result<string>
  {
    Failure(Error(None, [message], Some(NumbersValue(input)), [], Origin(Day1File, line, member)), None)
  }

  /** Part A as a value: fewer than two numbers fail; otherwise the product of
      the first pair summing to 2020, or a failure when there is none. */
  function PartA(input: seq<int>): Result<string>
  {
    if |input| < 2 then Fail("Expecting at least 2 numbers of input.", input, 54, "RunPartA")
    else match FirstPair(input, Target, 0)
      case Some((i, j)) => Success(IntToString(input[i] * input[j]))
      case None => Fail("No two numbers add to 2020.", input, 66, "RunPartA")
  }

  /** Part B as a value, with triples. */
  function PartB(input: seq<int>): Result<string>
  {
    if |input| < 3 then Fail("Expecting at least 3 numbers of input.", input, 79, "RunPartB")
    else match FirstTriple(input, 0)
      case Some((i, j, k)) => Success(IntToString(input[i] * input[j] * input[k]))
      case None => Fail("No three numbers add to 2020.", input, 94, "RunPartB")
  }

  /** `RunPartA` (Day1.cs:51-67): two nested loops over the input that stop
      at the first pair summing to 2020. */
  method RunPartA(input: seq<int>) returns (r: Result<string>)
    ensures r == PartA(input)
  {
    if |input| < 2 {
      return Fail("Expecting at least 2 numbers of input.", input, 54, "RunPartA");
    }
    var i := 0;
    while i < |input|
      invariant 0 <= i <= |input|
      invariant FirstPair(input, Target, i) == FirstPair(input, Target, 0)
    {
      var j := 0;
      while j < |input|
        invariant 0 <= j <= |input|
        invariant forall k | 0 <= k < j :: input[i] + input[k] != Target
      {
        if input[i] + input[j] == Target {
          assert FirstIndex(input, Target - input[i], 0) == Some(j) by {
            var f := FirstIndex(input, Target - input[i], 0);
            assert f.Some?;
            assert !(f.value < j) && !(f.value > j);
          }
          return Success(IntToString(input[i] * input[j]));
        }
        j := j + 1;
      }
      i := i + 1;
    }
    return Fail("No two numbers add to 2020.", input, 66, "RunPartA");
  }

  /** `RunPartB` (Day1.cs:76-95): three nested loops over the input that stop
      at the first triple summing to 2020. */
  method RunPartB(input: seq<int>) returns (r: Result<string>)
    ensures r == PartB(input)
  {
    if |input| < 3 {
      return Fail("Expecting at least 3 numbers of input.", input, 79, "RunPartB");
    }
    var i := 0;
    while i < |input|
      invariant 0 <= i <= |input|
      invariant FirstTriple(input, i) == FirstTriple(input, 0)
    {
      var j := 0;
      while j < |input|
        invariant 0 <= j <= |input|
        invariant FirstPair(input, Target - input[i], j) == FirstPair(input, Target - input[i], 0)
      {
        var k := 0;
        while k < |input|
          invariant 0 <= k <= |input|
          invariant forall l | 0 <= l < k :: input[i] + input[j] + input[l] != Target
        {
          if input[i] + input[j] + input[k] == Target {
            assert FirstIndex(input, Target - input[i] - input[j], 0) == Some(k) by {
              var f := FirstIndex(input, Target - input[i] - input[j], 0);
              assert f.Some?;
              assert !(f.value < k) && !(f.value > k);
            }
            return Success(IntToString(input[i] * input[j] * input[k]));
          }
          k := k + 1;
        }
        j := j + 1;
      }
      i := i + 1;
    }
    return Fail("No three numbers add to 2020.", input, 94, "RunPartB");
  }

  /** Part A's answer is the product of two entries that sum to 2020, and
      it fails only when no two entries do. */
  lemma PartASpec(input: seq<int>)
    requires |input| >= 2
    ensures PartA(input).Success? <==> exists i, j :: IsPair(input, Target, i, j)
    ensures PartA(input).Success? ==>
              exists i, j :: IsPair(input, Target, i, j) && PartA(input).value == IntToString(input[i] * input[j])
  {
    var f := FirstPair(input, Target, 0);
    if f.Some? {
      assert IsPair(input, Target, f.value.0, f.value.1);
    }
  }

  /** Part B's answer is the product of three entries that sum to 2020, and
      it fails only when no three entries do. */
  lemma PartBSpec(input: seq<int>)
    requires |input| >= 3
    ensures PartB(input).Success? <==> exists i, j, k :: IsTriple(input, i, j, k)
    ensures PartB(input).Success? ==>
              exists i, j, k :: IsTriple(input, i, j, k) && PartB(input).value == IntToString(input[i] * input[j] * input[k])
  {
    var f := FirstTriple(input, 0);
    if f.Some? {
      assert IsTriple(input, f.value.0, f.value.1, f.value.2);
    }
  }

  /** What `Run` produces (Day1.cs:16-25): the parsed input, tagged
      "ParseInput" on failure, then both parts checked together, then the day. */
  function RunOutcome(input: seq<string>): Outcome<Result<Day>>
  {
    Settle(Then(AwaitTagged("ParseInput", ParseInput(input)), (numbers: seq<int>) =>
      Then(Await(From2("PartA", PartA(numbers), "PartB", PartB(numbers))), (parts: (string, string)) =>
        NewDayFromPair(Some(Title), (Some(parts.0), Some(parts.1))))))
  }

  /** `Run` (Day1.cs:16-25). */
  method Run(input: seq<string>) returns (r: Result<Day>)
    ensures RunOutcome(input) == Returned(r)
    ensures r.Success? <==> ParseInput(input).Success? && PartA(ParseInput(input).value).Success?
                            && PartB(ParseInput(input).value).Success?
    ensures r.Success? ==> r.value.title == Title
    ensures ParseInput(input).Failure? ==>
              r == Failure(Tag("ParseInput", ParseInput(input).error, Origin(ResultFile, 308, "GetResult")), None)
  {
    var parsed := ParseInput(input);
    if parsed.Failure? {
      return Failure(Tag("ParseInput", parsed.error, Origin(ResultFile, 308, "GetResult")), None);
    }
    var a := RunPartA(parsed.value);
    var b := RunPartB(parsed.value);
    var both := From2("PartA", a, "PartB", b);
    if both.Failure? {
      return Failure(both.error, None);
    }
    r := Success(Day(Title, both.value.0, both.value.1));
  }

  const Sample: seq<int> := [1721, 979, 366, 299, 675, 1456]

  lemma SamplePair()
    ensures FirstPair(Sample, Target, 0) == Some((0, 3))
  {
    assert FirstIndex(Sample, Target - 1721, 0) == Some(3);
  }

  lemma SampleTriple()
    ensures FirstTriple(Sample, 0) == Some((1, 2, 4))
  {
    assert FirstPair(Sample, Target - 1721, 0) == None;
    assert FirstIndex(Sample, Target - 979 - 366, 0) == Some(4);
    assert FirstPair(Sample, Target - 979, 0) == Some((2, 4));
  }

  lemma PrintedProducts()
    ensures IntToString(514579) == "514579"
    ensures IntToString(241861950) == "241861950"
  {
    assert NatToString(5) == "5";
    assert NatToString(51) == "51";
    assert NatToString(514) == "514";
    assert NatToString(5145) == "5145";
    assert NatToString(51457) == "51457";
    assert NatToString(514579) == "514579";
    assert NatToString(2) == "2";
    assert NatToString(24) == "24";
    assert NatToString(241) == "241";
    assert NatToString(2418) == "2418";
    assert NatToString(24186) == "24186";
    assert NatToString(241861) == "241861";
    assert NatToString(2418619) == "2418619";
    assert NatToString(24186195) == "24186195";
    assert NatToString(241861950) == "241861950";
  }

  /** The published example: 1721 * 299 and 979 * 366 * 675. */
  lemma SampleAnswers()
    ensures PartA(Sample) == Success("514579")
    ensures PartB(Sample) == Success("241861950")
  {
    PrintedProducts();
    SamplePartA();
    SamplePartB();
  }

  lemma SamplePartA()
    ensures PartA(Sample) == Success(IntToString(514579))
  {
    SamplePair();
    assert Sample[0] * Sample[3] == 514579;
  }

  lemma SamplePartB()
    ensures PartB(Sample) == Success(IntToString(241861950))
  {
    SampleTriple();
    assert Sample[1] * Sample[2] * Sample[4] == 241861950;
  }
}
