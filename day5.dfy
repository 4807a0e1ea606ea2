/** Day 5, "Binary Boarding": decode boarding passes by binary space
    partitioning, then find the highest seat id and the free seat between
    two taken ones (AdventOfCode/Day5.cs). */
module Day5 {
  import opened Optional
  import opened Strings
  import opened Errors
  import opened Results
  import opened Days
  import opened Arithmetic

  const Day5File := "AdventOfCode/Day5.cs"
  const Title := "--- Day 5: Binary Boarding ---"

  /** `Ticket` (Day5.cs:72-121): a seat and its id. */
  datatype Ticket = Ticket(row: nat, column: nat, id: nat)

  /** The private constructor (Day5.cs:116-121): eight seats per row. */
  function NewTicket(row: nat, column: nat): Ticket
  {
    Ticket(row, column, row * 8 + column)
  }

  /** With a column below 8 the id gives back the row and the column. */
  lemma IdDecomposes(row: nat, column: nat)
    requires column < 8
    ensures NewTicket(row, column).id / 8 == row && NewTicket(row, column).id % 8 == column
  {
    DivModUnique(row * 8 + column, 8, row, column);
  }

  /** Seats in different places have different ids. */
  lemma IdsDiffer(r1: nat, c1: nat, r2: nat, c2: nat)
    requires c1 < 8 && c2 < 8
    ensures NewTicket(r1, c1).id == NewTicket(r2, c2).id <==> r1 == r2 && c1 == c2
  {
    IdDecomposes(r1, c1);
    IdDecomposes(r2, c2);
  }

  function Pow2(n: nat): (p: nat)
    ensures p >= 1
  {
    if n == 0 then 1 else 2 * Pow2(n - 1)
  }

  /** The seat a list of halvings names, most significant first: `true` keeps
      the front (lower) half, `false` the back half. */
  function SeatNumber(bits: seq<bool>): nat
  {
    if bits == [] then 0
    else 2 * SeatNumber(bits[..|bits| - 1]) + (if bits[|bits| - 1] then 0 else 1)
  }

  /** n halvings name one of 2^n seats. */
  lemma {:induction false} SeatNumberBound(bits: seq<bool>)
    ensures SeatNumber(bits) < Pow2(|bits|)
  {
    if bits != [] {
      SeatNumberBound(bits[..|bits| - 1]);
    }
  }

  /** C#'s `/ 2` on `int`, which truncates toward zero. */
  function Half(d: int): (h: int)
    ensures d >= 0 ==> h == d / 2
  {
    if d >= 0 then d / 2 else -((-d) / 2)
  }

  /** `ComputePosition` (Day5.cs:125-143): halve the range [0, max] once per
      item but the last, keeping the front half on `true`; the last item
      picks the front or the back end. With 2^n - 1 as max over n items the
      answer is the seat the items name. */
  method ComputePosition(items: seq<bool>, max: int) returns (position: int)
    requires |items| > 0
    ensures max == Pow2(|items|) - 1 ==> position == SeatNumber(items)
  {
    var n := |items|;
    var front, back := 0, max;
    var i := 0;
    while i < n - 1
      invariant 0 <= i <= n - 1
      invariant max == Pow2(n) - 1 ==>
                  front == SeatNumber(items[..i]) * Pow2(n - i) && back == front + Pow2(n - i) - 1
    {
      var middle := Half(back - front);
      ghost var k := n - i - 1;
      if max == Pow2(n) - 1 {
        assert Pow2(k + 1) == 2 * Pow2(k);
        assert Pow2(k) == 2 * Pow2(k - 1);
        assert middle == Pow2(k) - 1;
        assert items[..i + 1][..i] == items[..i];
        Regroup(SeatNumber(items[..i]), Pow2(k));
      }
      if items[i] {
        back := back - middle - 1;
      } else {
        front := front + middle + 1;
      }
      i := i + 1;
    }
    assert items[..n - 1] == items[..|items| - 1];
    position := if items[n - 1] then front else back;
  }

  /** The upper-cased row letter at index i (Day5.cs:86-91): F the front
      half, B the back half, anything else a failure with the index as id. */
  function RowBit(c: char, i: nat): (r: Result<bool>)
    ensures r.Success? <==> c == 'F' || c == 'B'
    ensures r.Success? ==> r.value == (c == 'F')
    ensures r.Failure? ==> r.error.id == Some(NatToString(i)) && r.error.value == Some(CharValue(c))
  {
    if c == 'F' then Success(true)
    else if c == 'B' then Success(false)
    else Failure(Error(Some(NatToString(i)), ["Unknown row type '" + [c] + "'."], Some(CharValue(c)), [],
                       Origin(Day5File, 90, "From")), None)
  }

  /** The upper-cased column letter at index i (Day5.cs:95-100): L the left
      half, R the right half, anything else a failure with the index as id. */
  function ColumnBit(c: char, i: nat): (r: Result<bool>)
    ensures r.Success? <==> c == 'L' || c == 'R'
    ensures r.Success? ==> r.value == (c == 'L')
    ensures r.Failure? ==> r.error.id == Some(NatToString(i)) && r.error.value == Some(CharValue(c))
  {
    if c == 'L' then Success(true)
    else if c == 'R' then Success(false)
    else Failure(Error(Some(NatToString(i)), ["Unknown column type '" + [c] + "'."], Some(CharValue(c)), [],
                       Origin(Day5File, 99, "From")), None)
  }

  /** The first seven characters, upper-cased, one result each. */
  function RowResults(ticket: string): (rs: seq<Result<bool>>)
    requires |ticket| >= 7
    ensures |rs| == 7 && forall i | 0 <= i < 7 :: rs[i] == RowBit(ToUpper(ticket[i]), i)
  {
    var upper := UpperCase(ticket[..7]);
    seq(7, i requires 0 <= i < 7 => RowBit(upper[i], i))
  }

  /** The last three characters, upper-cased, one result each. */
  function ColumnResults(ticket: string): (rs: seq<Result<bool>>)
    requires |ticket| >= 10
    ensures |rs| == 3 && forall i | 0 <= i < 3 :: rs[i] == ColumnBit(ToUpper(ticket[7 + i]), i)
  {
    var upper := UpperCase(ticket[7..10]);
    seq(3, i requires 0 <= i < 3 => ColumnBit(upper[i], i))
  }

  /** `Result.From(id, async () => await results)`: the values when every
      letter is known, otherwise the id over one error holding the failure of
      every unknown letter, in order. */
  function Gathered(id: string, rs: seq<Result<bool>>): (r: Result<seq<bool>>)
    ensures r.Success? <==> AllSucceed(rs)
    ensures r.Success? ==> r.value == Values(rs) && |r.value| == |rs|
    ensures r.Failure? ==> r.error.id == Some(id) && |r.error.nested| == 1
                           && r.error.nested[0].nested == FailedErrors(rs)
  {
    var o := Settle(AwaitAll(rs));
    assert o.Returned?;
    From(id, o.value)
  }

  /** The failure of a ticket that is not ten characters long (Day5.cs:82). */
  function LengthError(ticket: string): Error
  {
    Error(Some("Length"), ["Expecting the ticket to be 10 characters long."], Some(StringValue(ticket)), [],
          Origin(Day5File, 82, "From"))
  }

  /** A ticket of seven row letters then three column letters, in either case. */
  predicate WellFormed(ticket: string)
  {
    |ticket| == 10
    && (forall i | 0 <= i < 7 :: ToUpper(ticket[i]) == 'F' || ToUpper(ticket[i]) == 'B')
    && (forall i | 7 <= i < 10 :: ToUpper(ticket[i]) == 'L' || ToUpper(ticket[i]) == 'R')
  }

  /** The halvings a well-formed ticket spells. */
  function RowBits(ticket: string): (bits: seq<bool>)
    requires |ticket| >= 7
    ensures |bits| == 7
  {
    seq(7, i requires 0 <= i < 7 => ToUpper(ticket[i]) == 'F')
  }

  function ColumnBits(ticket: string): (bits: seq<bool>)
    requires |ticket| >= 10
    ensures |bits| == 3
  {
    seq(3, i requires 0 <= i < 3 => ToUpper(ticket[7 + i]) == 'L')
  }

  /** The letter results of a ten-character ticket all succeed exactly when
      it is well-formed, and then their values are the halvings it spells. */
  lemma LettersKnown(ticket: string)
    requires |ticket| == 10
    ensures AllSucceed(RowResults(ticket)) && AllSucceed(ColumnResults(ticket)) <==> WellFormed(ticket)
    ensures AllSucceed(RowResults(ticket)) ==> Values(RowResults(ticket)) == RowBits(ticket)
    ensures AllSucceed(ColumnResults(ticket)) ==> Values(ColumnResults(ticket)) == ColumnBits(ticket)
  {
    var rs, cs := RowResults(ticket), ColumnResults(ticket);
    assert AllSucceed(cs) <==> forall i | 7 <= i < 10 :: ToUpper(ticket[i]) == 'L' || ToUpper(ticket[i]) == 'R' by {
      assert forall i | 7 <= i < 10 :: cs[i - 7] == ColumnBit(ToUpper(ticket[i]), i - 7);
    }
  }

  /** The body of the lambda in `Ticket.From` (Day5.cs:80-105): the length
      check, then the rows, then the columns; an `await` on a failure ends it. */
  function Body(ticket: string): (o: Outcome<Ticket>)
    ensures o.Threw? ==> o.exception.ErrorException?
  {
    if |ticket| != 10 then Threw(ErrorException(LengthError(ticket)))
    else
      match Await(Gathered("Rows", RowResults(ticket)))
      case Threw(x) => Threw(x)
      case Returned(rows) =>
        match Await(Gathered("Columns", ColumnResults(ticket)))
        case Threw(x) => Threw(x)
        case Returned(columns) => Returned(NewTicket(SeatNumber(rows), SeatNumber(columns)))
  }

  /** `Ticket.From(ticket, id)` (Day5.cs:76-106): the decoded seat, or a
      failure labelled "Ticket {id}" over the length failure or over the
      "Rows" or "Columns" failure listing each unknown letter. */
  function Decode(ticket: string, id: string): (r: Result<Ticket>)
    ensures r.Success? <==> WellFormed(ticket)
    ensures r.Success? ==> r.value == NewTicket(SeatNumber(RowBits(ticket)), SeatNumber(ColumnBits(ticket)))
    ensures r.Failure? ==> r.error.id == Some("Ticket " + id) && |r.error.nested| == 1 && r.cause == None
    ensures |ticket| != 10 ==> r.Failure? && r.error.nested == [LengthError(ticket)]
    ensures |ticket| == 10 && !AllSucceed(RowResults(ticket)) ==>
              r.Failure? && r.error.nested[0].id == Some("Rows") && |r.error.nested[0].nested| == 1
              && r.error.nested[0].nested[0].nested == FailedErrors(RowResults(ticket))
    ensures |ticket| == 10 && AllSucceed(RowResults(ticket)) && !AllSucceed(ColumnResults(ticket)) ==>
              r.Failure? && r.error.nested[0].id == Some("Columns") && |r.error.nested[0].nested| == 1
              && r.error.nested[0].nested[0].nested == FailedErrors(ColumnResults(ticket))
  {
    var o := Settle(Body(ticket));
    assert o.Returned?;
    if |ticket| == 10 then
      LettersKnown(ticket);
      From("Ticket " + id, o.value)
    else
    From("Ticket " + id, o.value)
  }

  /** `Ticket.From` computed: the halving loop on the letters. */
  method TicketFrom(ticket: string, id: string) returns (r: Result<Ticket>)
    ensures r == Decode(ticket, id)
  {
    if |ticket| != 10 {
      return Results.From("Ticket " + id, Failure(LengthError(ticket), None));
    }
    var rows := Gathered("Rows", RowResults(ticket));
    if rows.Failure? {
      return Results.From("Ticket " + id, Failure(rows.error, None));
    }
    var columns := Gathered("Columns", ColumnResults(ticket));
    if columns.Failure? {
      return Results.From("Ticket " + id, Failure(columns.error, None));
    }
    assert Pow2(7) == 128 && Pow2(3) == 8;
    var row := ComputePosition(rows.value, 127);
    var column := ComputePosition(columns.value, 7);
    r := Success(NewTicket(row, column));
  }

  /** With the collection awaiter as written, an unknown row letter makes
      the rows' `await` throw instead of failing, so `Ticket.From` throws. */
  lemma RowsAsWrittenThrow(ticket: string, i: nat)
    requires |ticket| == 10 && i < 7 && ToUpper(ticket[i]) != 'F' && ToUpper(ticket[i]) != 'B'
    ensures Settle(AwaitAllAsWritten(RowResults(ticket))).Threw?
  {
    var rs := RowResults(ticket);
    assert rs[i].Failure?;
    CollectAsWrittenFails(rs);
  }

  /** A decoded seat lies on the plane: row below 128, column below 8. */
  lemma DecodeBounds(ticket: string, id: string)
    requires Decode(ticket, id).Success?
    ensures Decode(ticket, id).value.row < 128 && Decode(ticket, id).value.column < 8
    ensures Decode(ticket, id).value.id < 1024
  {
    SeatNumberBound(RowBits(ticket));
    SeatNumberBound(ColumnBits(ticket));
    assert Pow2(7) == 128 && Pow2(3) == 8;
  }

  function Decoded(input: seq<string>): (rs: seq<Result<Ticket>>)
    ensures |rs| == |input|
    ensures forall i | 0 <= i < |input| :: rs[i] == Decode(input[i], NatToString(i))
  {
    seq(|input|, i requires 0 <= i < |input| => Decode(input[i], NatToString(i)))
  }

  /** `ParseInput` (Day5.cs:29-36): every ticket decoded with its index as
      id; the tickets in order when all decode, otherwise one failure
      holding every failing ticket's error, in order. */
  function ParseInput(input: seq<string>): (r: Result<seq<Ticket>>)
    ensures r.Success? <==> forall i | 0 <= i < |input| :: WellFormed(input[i])
    ensures r.Success? ==> |r.value| == |input|
    ensures r.Success? ==> forall i | 0 <= i < |input| :: Decode(input[i], NatToString(i)) == Success(r.value[i])
    ensures r.Failure? ==> r.error.nested == FailedErrors(Decoded(input))
  {
    var rs := Decoded(input);
    DecodedSucceed(input);
    SettleAll(rs);
    Settle(AwaitAll(rs)).value
  }

  /** Every ticket decodes exactly when every ticket is well formed. */
  lemma DecodedSucceed(input: seq<string>)
    ensures AllSucceed(Decoded(input)) <==> forall i | 0 <= i < |input| :: WellFormed(input[i])
  {
    var rs := Decoded(input);
    assert forall i | 0 <= i < |input| :: rs[i].Success? <==> WellFormed(input[i]);
  }

  /** The fold of `RunPartA` (Day5.cs:41-42): the highest id, from 0. */
  function HighestId(tickets: seq<Ticket>): (h: nat)
    ensures forall i | 0 <= i < |tickets| :: tickets[i].id <= h
    ensures h == 0 || exists i | 0 <= i < |tickets| :: tickets[i].id == h
  {
    if tickets == [] then 0
    else
      var p := tickets[..|tickets| - 1];
      var h := HighestId(p);
      assert forall i | 0 <= i < |p| :: p[i] == tickets[i];
      var last := tickets[|tickets| - 1];
      if last.id > h then last.id else h
  }

  /** `RunPartA` (Day5.cs:41-42). */
  function PartA(tickets: seq<Ticket>): string
  {
    NatToString(HighestId(tickets))
  }

  /** The lowest id of a non-empty list of tickets. */
  function LowestId(tickets: seq<Ticket>): (l: nat)
    requires |tickets| > 0
    ensures forall i | 0 <= i < |tickets| :: l <= tickets[i].id
    ensures exists i | 0 <= i < |tickets| :: tickets[i].id == l
  {
    if |tickets| == 1 then tickets[0].id
    else
      var p := tickets[..|tickets| - 1];
      var l := LowestId(p);
      assert forall i | 0 <= i < |p| :: p[i] == tickets[i];
      var last := tickets[|tickets| - 1];
      if last.id < l then last.id else l
  }

  /** No two tickets share an id. */
  predicate Distinct(tickets: seq<Ticket>)
  {
    forall i, j | 0 <= i < j < |tickets| :: tickets[i].id != tickets[j].id
  }

  function Occupied(tickets: seq<Ticket>): set<int>
  {
    set i | 0 <= i < |tickets| :: tickets[i].id
  }

  /** A free seat whose two neighbours are taken. */
  predicate Gap(occupied: set<int>, i: int)
  {
    i !in occupied && i - 1 in occupied && i + 1 in occupied
  }

  /** The first gap in [lo, hi). */
  function FirstGap(occupied: set<int>, lo: int, hi: int): (r: Option<int>)
    ensures r.Some? ==> lo <= r.value < hi && Gap(occupied, r.value)
    ensures r.Some? ==> forall i | lo <= i < r.value :: !Gap(occupied, i)
    ensures r.None? ==> (forall i | lo <= i < hi :: !Gap(occupied, i))
    decreases hi - lo
  {
    if lo >= hi then None
    else if Gap(occupied, lo) then Some(lo)
    else FirstGap(occupied, lo + 1, hi)
  }

  const Duplicate := InvalidOperation("Id has already been set.")
  const NoSeat := InvalidOperation("Unable to find empty seat.")

  /** `RunPartB` (Day5.cs:47-67): a repeated id throws; otherwise the first
      gap between the lowest and the highest id, and no gap throws. */
  function PartB(tickets: seq<Ticket>): (o: Outcome<string>)
    ensures o.Threw? ==> o.exception == Duplicate || o.exception == NoSeat
  {
    if !Distinct(tickets) then Threw(Duplicate)
    else if tickets == [] then Threw(NoSeat)
    else
      match FirstGap(Occupied(tickets), LowestId(tickets), HighestId(tickets))
      case Some(i) => Returned(NatToString(i))
      case None => Threw(NoSeat)
  }

  /** Part B in full: a repeated id is the duplicate error; otherwise an
      answer exists exactly when some seat strictly between the lowest and
      the highest id is free with both neighbours taken, and the answer is
      the lowest such seat. */
  lemma PartBSpec(tickets: seq<Ticket>)
    ensures PartB(tickets) == Threw(Duplicate) <==> !Distinct(tickets)
    ensures PartB(tickets).Returned? <==>
              Distinct(tickets) && |tickets| > 0 &&
              exists i | LowestId(tickets) <= i < HighestId(tickets) :: Gap(Occupied(tickets), i)
    ensures PartB(tickets).Returned? ==>
              exists i | LowestId(tickets) <= i < HighestId(tickets) ::
                Gap(Occupied(tickets), i) && PartB(tickets).value == NatToString(i) &&
                forall j | LowestId(tickets) <= j < i :: !Gap(Occupied(tickets), j)
  {
    assert Duplicate != NoSeat;
    if Distinct(tickets) && |tickets| > 0 {
      var g := FirstGap(Occupied(tickets), LowestId(tickets), HighestId(tickets));
      if g.Some? {
        assert PartB(tickets) == Returned(NatToString(g.value));
      } else {
        assert PartB(tickets) == Threw(NoSeat);
      }
    }
  }

  /** The imperative `RunPartB`: one pass recording ids and the bounds, one
      pass over the seats between them. */
  method RunPartB(tickets: seq<Ticket>) returns (o: Outcome<string>)
    ensures o == PartB(tickets)
  {
    var min: int, max: int := -1, -1;
    var occupied: set<int> := {};
    for j := 0 to |tickets|
      invariant occupied == Occupied(tickets[..j])
      invariant Distinct(tickets[..j])
      invariant j == 0 ==> min == -1 && max == -1
      invariant j > 0 ==> min == LowestId(tickets[..j]) && max == HighestId(tickets[..j])
    {
      var id := tickets[j].id;
      ScanStep(tickets, j);
      if id in occupied {
        DuplicateFound(tickets, j);
        return Threw(Duplicate);
      }
      occupied := occupied + {id};
      if min == -1 {
        min, max := id, id;
      }
      min := if id < min then id else min;
      max := if id > max then id else max;
    }
    assert tickets[..|tickets|] == tickets;
    if tickets == [] {
      return Threw(NoSeat);
    }
    assert PartB(tickets) == match FirstGap(occupied, min, max)
                             case Some(i) => Returned(NatToString(i))
                             case None => Threw(NoSeat);
    for i := min to max
      invariant FirstGap(occupied, i, max) == FirstGap(occupied, min, max)
    {
      if i !in occupied && i - 1 in occupied && i + 1 in occupied {
        return Returned(NatToString(i));
      }
    }
    o := Threw(NoSeat);
  }

  /** One more ticket: its id joins the occupied set and the bounds, and the
      ids stay distinct when it was not occupied yet. */
  lemma ScanStep(tickets: seq<Ticket>, j: nat)
    requires j < |tickets|
    ensures Occupied(tickets[..j + 1]) == Occupied(tickets[..j]) + {tickets[j].id}
    ensures j > 0 ==> LowestId(tickets[..j + 1]) == (if tickets[j].id < LowestId(tickets[..j]) then tickets[j].id else LowestId(tickets[..j]))
    ensures j > 0 ==> HighestId(tickets[..j + 1]) == (if tickets[j].id > HighestId(tickets[..j]) then tickets[j].id else HighestId(tickets[..j]))
    ensures j == 0 ==> LowestId(tickets[..1]) == tickets[0].id && HighestId(tickets[..1]) == tickets[0].id
    ensures Distinct(tickets[..j]) && tickets[j].id !in Occupied(tickets[..j]) ==> Distinct(tickets[..j + 1])
  {
    var p := tickets[..j + 1];
    assert p[..j] == tickets[..j];
    assert p[j] == tickets[j];
    OccupiedStep(p);
    if Distinct(tickets[..j]) && tickets[j].id !in Occupied(tickets[..j]) {
      DistinctStep(p);
    }
    if j == 0 {
      assert p[..0] == [];
    }
  }

  lemma OccupiedStep(tickets: seq<Ticket>)
    requires |tickets| > 0
    ensures Occupied(tickets) == Occupied(tickets[..|tickets| - 1]) + {tickets[|tickets| - 1].id}
  {
    var p := tickets[..|tickets| - 1];
    assert forall i | 0 <= i < |p| :: p[i] == tickets[i];
  }

  lemma DistinctStep(tickets: seq<Ticket>)
    requires |tickets| > 0
    requires Distinct(tickets[..|tickets| - 1])
    requires tickets[|tickets| - 1].id !in Occupied(tickets[..|tickets| - 1])
    ensures Distinct(tickets)
  {
    var p := tickets[..|tickets| - 1];
    forall i, j | 0 <= i < j < |tickets| ensures tickets[i].id != tickets[j].id {
      if j < |p| {
        assert p[i] == tickets[i] && p[j] == tickets[j];
      } else {
        assert p[i] == tickets[i];
      }
    }
  }

  /** An id already occupied by an earlier ticket makes the ids not distinct. */
  lemma DuplicateFound(tickets: seq<Ticket>, j: nat)
    requires j < |tickets| && tickets[j].id in Occupied(tickets[..j])
    ensures !Distinct(tickets)
  {
    var k :| 0 <= k < j && tickets[..j][k].id == tickets[j].id;
    assert tickets[k].id == tickets[j].id;
  }

  /** `Run` (Day5.cs:16-24): the tickets, tagged "Parse Input" when they do
      not decode, then both parts; an exception from part B escapes. */
  function Run(input: seq<string>): (o: Outcome<Result<Day>>)
    ensures ParseInput(input).Failure? ==>
              o == Returned(Failure(Tag("Parse Input", ParseInput(input).error, Origin(ResultFile, 308, "GetResult")), None))
    ensures ParseInput(input).Success? ==>
              (o.Returned? <==> PartB(ParseInput(input).value).Returned?)
    ensures o.Returned? && o.value.Success? ==>
              o.value.value == Day(Title, PartA(ParseInput(input).value), PartB(ParseInput(input).value).value)
  {
    match AwaitTagged("Parse Input", ParseInput(input))
    case Threw(x) => Settle(Threw(x))
    case Returned(tickets) =>
      match PartB(tickets)
      case Threw(x) => Threw(x)
      case Returned(b) => Settle(Returned(Day(Title, PartA(tickets), b)))
  }

  /** The seat named by halvings, one halving at a time. */
  lemma SeatNumberSteps(bits: seq<bool>, values: seq<nat>)
    requires |values| == |bits| + 1 && values[0] == 0
    requires forall k | 0 <= k < |bits| :: values[k + 1] == 2 * values[k] + (if bits[k] then 0 else 1)
    ensures SeatNumber(bits) == values[|bits|]
  {
    for k := 0 to |bits|
      invariant SeatNumber(bits[..k]) == values[k]
    {
      assert bits[..k + 1][..k] == bits[..k];
    }
    assert bits[..|bits|] == bits;
  }

  lemma SampleTicket(ticket: string, id: string, rowBits: seq<bool>, columnBits: seq<bool>, row: nat, column: nat)
    requires WellFormed(ticket)
    requires RowBits(ticket) == rowBits && ColumnBits(ticket) == columnBits
    requires SeatNumber(rowBits) == row && SeatNumber(columnBits) == column
    ensures Decode(ticket, id) == Success(NewTicket(row, column))
  {
  }

  lemma SampleTicket1(id: string)
    ensures Decode("FBFBBFFRLR", id) == Success(Ticket(44, 5, 357))
  {
    SeatNumberSteps([true, false, true, false, false, true, true], [0, 0, 1, 2, 5, 11, 22, 44]);
    SeatNumberSteps([false, true, false], [0, 1, 2, 5]);
    SampleTicket("FBFBBFFRLR", id, [true, false, true, false, false, true, true], [false, true, false], 44, 5);
  }

  lemma SampleTicket2(id: string)
    ensures Decode("BFFFBBFRRR", id) == Success(Ticket(70, 7, 567))
  {
    SeatNumberSteps([false, true, true, true, false, false, true], [0, 1, 2, 4, 8, 17, 35, 70]);
    SeatNumberSteps([false, false, false], [0, 1, 3, 7]);
    SampleTicket("BFFFBBFRRR", id, [false, true, true, true, false, false, true], [false, false, false], 70, 7);
  }

  lemma SampleTicket3(id: string)
    ensures Decode("FFFBBBFRRR", id) == Success(Ticket(14, 7, 119))
  {
    SeatNumberSteps([true, true, true, false, false, false, true], [0, 0, 0, 0, 1, 3, 7, 14]);
    SeatNumberSteps([false, false, false], [0, 1, 3, 7]);
    SampleTicket("FFFBBBFRRR", id, [true, true, true, false, false, false, true], [false, false, false], 14, 7);
  }

  lemma SampleTicket4(id: string)
    ensures Decode("BBFFBBFRLL", id) == Success(Ticket(102, 4, 820))
  {
    SeatNumberSteps([false, false, true, true, false, false, true], [0, 1, 3, 6, 12, 25, 51, 102]);
    SeatNumberSteps([false, true, true], [0, 1, 2, 4]);
    SampleTicket("BBFFBBFRLL", id, [false, false, true, true, false, false, true], [false, true, true], 102, 4);
  }

  const Sample: seq<string> := ["FBFBBFFRLR", "BFFFBBFRRR", "FFFBBBFRRR", "BBFFBBFRLL"]
  const SampleSeats: seq<Ticket> := [Ticket(44, 5, 357), Ticket(70, 7, 567), Ticket(14, 7, 119), Ticket(102, 4, 820)]

  /** Input whose every line decodes parses to those tickets, in order. */
  lemma ParseAll(input: seq<string>, tickets: seq<Ticket>)
    requires |input| == |tickets|
    requires forall i | 0 <= i < |input| :: Decode(input[i], NatToString(i)) == Success(tickets[i])
    ensures ParseInput(input) == Success(tickets)
  {
    var r := ParseInput(input);
    assert r.Success?;
    assert r.value == tickets;
  }

  /** Line `i` of the sample decodes, under its own index as id, to the
      published seat. */
  lemma SampleLine(i: nat)
    requires i < |Sample|
    ensures Decode(Sample[i], NatToString(i)) == Success(SampleSeats[i])
  {
    if i == 0 {
      SampleTicket1(NatToString(i));
    } else if i == 1 {
      SampleTicket2(NatToString(i));
    } else if i == 2 {
      SampleTicket3(NatToString(i));
    } else {
      SampleTicket4(NatToString(i));
    }
  }

  lemma SampleParse()
    ensures ParseInput(Sample) == Success(SampleSeats)
  {
    forall i | 0 <= i < |Sample|
      ensures Decode(Sample[i], NatToString(i)) == Success(SampleSeats[i])
    {
      SampleLine(i);
    }
    ParseAll(Sample, SampleSeats);
  }

  /** The published answer to part A: the highest id, 820. */
  lemma SamplePartA()
    ensures PartA(SampleSeats) == "820"
  {
    var t := SampleSeats;
    assert t[..3][..2][..1][..0] == [];
    assert HighestId(t) == 820;
    assert NatToString(820) == NatToString(82) + "0";
    assert NatToString(82) == "82";
  }

  /** Among these four seats none is free with both neighbours taken, so
      part B throws. */
  lemma SamplePartB()
    ensures PartB(SampleSeats) == Threw(NoSeat)
  {
    var t := SampleSeats;
    assert Distinct(t);
    var occupied := Occupied(t);
    assert occupied == {357, 567, 119, 820} by {
      assert t[0].id == 357 && t[1].id == 567 && t[2].id == 119 && t[3].id == 820;
    }
    assert forall i :: !Gap(occupied, i);
  }

  /** So `Run` on the four published passes throws rather than returning a day. */
  lemma SampleRun()
    ensures Run(Sample) == Threw(NoSeat)
  {
    SampleParse();
    SamplePartB();
  }
}
