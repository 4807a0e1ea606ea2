/** Day 3, "Toboggan Trajectory": count the trees a toboggan hits going down
    a map that repeats to the right, for one or several slopes
    (AdventOfCode/Day3.cs). */
module Day3 {
  import opened Strings
  import opened Errors
  import opened Days
  import opened Arithmetic

  const Title := "--- Day 3: Toboggan Trajectory ---"

  /** `Slope` (Day3.cs:94-104): the move per step, right and down. */
  datatype Slope = Slope(x: int, y: int)

  /** `Toboggan` (Day3.cs:61-87): a position and the slope it moves by. */
  datatype Toboggan = Toboggan(x: int, y: int, slope: Slope)

  /** The map: one string per row, '#' for a tree (Day3.cs:112-148). */
  type Trees = seq<string>

  /** `++` (Day3.cs:78-79): one slope further, same slope. */
  function Step(t: Toboggan): (r: Toboggan)
    ensures r.slope == t.slope
    ensures r.x - t.x == t.slope.x && r.y - t.y == t.slope.y
  {
    Toboggan(t.x + t.slope.x, t.y + t.slope.y, t.slope)
  }

  /** Where the toboggan is after k steps from the top left corner. */
  function Position(slope: Slope, k: nat): Toboggan
  {
    Toboggan(k * slope.x, k * slope.y, slope)
  }

  /** `++` from the k-th position reaches the next one, so k uses of `++`
      from (0, 0) move the toboggan k slopes. */
  lemma StepPosition(slope: Slope, k: nat)
    ensures Step(Position(slope, k)) == Position(slope, k + 1)
  {
    MulSucc(k, slope.x);
    MulSucc(k, slope.y);
  }

  /** A slope that does not go left keeps the column non-negative. */
  lemma PositionRightward(slope: Slope, k: nat)
    requires slope.x >= 0
    ensures Position(slope, k).x >= 0
  {
  }

  /** The remainder of C#'s `%` on `int`, which truncates toward zero and so
      keeps the sign of the dividend. */
  function Remainder(x: int, n: int): (r: int)
    requires n > 0
    ensures x >= 0 ==> 0 <= r < n && r == x % n
    ensures x < 0 ==> -n < r <= 0
  {
    if x >= 0 then x % n else -((-x) % n)
  }

  /** `Height` (Day3.cs:141-142). */
  function Height(trees: Trees): nat
  {
    |trees|
  }

  /** The indexer (Day3.cs:131-134): no tree outside the rows; within them,
      the row is read at X modulo its width. An empty row divides by zero,
      and a negative X gives a negative index. */
  function Hit(trees: Trees, t: Toboggan): Outcome<bool>
  {
    if !(t.y >= 0 && t.y < Height(trees)) then Returned(false)
    else
      var row := trees[t.y];
      if |row| == 0 then Threw(DivideByZero)
      else
        var column := Remainder(t.x, |row|);
        if column < 0 then Threw(IndexOutOfRange) else Returned(row[column] == '#')
  }

  /** A map whose every row has a square. */
  predicate WellFormed(trees: Trees)
  {
    forall i | 0 <= i < |trees| :: |trees[i]| > 0
  }

  /** A tree at a position with a non-negative column, the map repeated to the right. */
  predicate Tree(trees: Trees, t: Toboggan)
    requires WellFormed(trees)
  {
    0 <= t.y < |trees| && t.x >= 0 && trees[t.y][t.x % |trees[t.y]|] == '#'
  }

  /** On a well-formed map the indexer never throws for a non-negative column,
      and reports exactly the trees. */
  lemma HitIsTree(trees: Trees, t: Toboggan)
    requires WellFormed(trees) && t.x >= 0
    ensures Hit(trees, t) == Returned(Tree(trees, t))
  {
  }

  /** The map repeats to the right: a column and the column one width further
      give the same answer. */
  lemma HitRepeats(trees: Trees, t: Toboggan)
    requires 0 <= t.y < |trees| && t.x >= 0
    ensures Hit(trees, t.(x := t.x + |trees[t.y]|)) == Hit(trees, t)
  {
    var w := |trees[t.y]|;
    if w > 0 {
      assert t.x + w == (t.x / w + 1) * w + t.x % w by {
        assert (t.x / w + 1) * w == t.x / w * w + w;
      }
      DivModUnique(t.x + w, w, t.x / w + 1, t.x % w);
    }
  }

  /** A negative column is an index error even where the map has a square
      for it one width to the right. */
  lemma HitNegativeColumn(trees: Trees, t: Toboggan)
    requires 0 <= t.y < |trees| && 0 < -t.x < |trees[t.y]|
    ensures Hit(trees, t) == Threw(IndexOutOfRange)
    ensures Hit(trees, t.(x := t.x + |trees[t.y]|)).Returned?
  {
  }

  /** The trees hit in the first n steps of a slope, counted in step order;
      the first error stops the count. */
  function Hits(trees: Trees, slope: Slope, n: nat): (o: Outcome<nat>)
    ensures o.Returned? ==> o.value <= n
  {
    if n == 0 then Returned(0)
    else
      match Hits(trees, slope, n - 1)
      case Threw(x) => Threw(x)
      case Returned(count) =>
        match Hit(trees, Position(slope, n - 1))
        case Threw(x) => Threw(x)
        case Returned(hit) => Returned(if hit then count + 1 else count)
  }

  /** The steps among the first n that land on a tree. */
  function TreeSteps(trees: Trees, slope: Slope, n: nat): set<nat>
    requires WellFormed(trees)
  {
    set k: nat | k < n && Tree(trees, Position(slope, k))
  }

  /** On a well-formed map, a slope that does not go left never throws and
      counts exactly the steps that land on a tree. */
  lemma {:induction false} HitsAreTrees(trees: Trees, slope: Slope, n: nat)
    requires WellFormed(trees) && slope.x >= 0
    ensures Hits(trees, slope, n) == Returned(|TreeSteps(trees, slope, n)|)
  {
    if n > 0 {
      HitsAreTrees(trees, slope, n - 1);
      PositionRightward(slope, n - 1);
      HitIsTree(trees, Position(slope, n - 1));
      if Tree(trees, Position(slope, n - 1)) {
        assert TreeSteps(trees, slope, n) == TreeSteps(trees, slope, n - 1) + {n - 1};
      } else {
        assert TreeSteps(trees, slope, n) == TreeSteps(trees, slope, n - 1);
      }
    }
  }

  /** Once the count throws, counting further steps throws the same. */
  lemma {:induction false} HitsThrowPersists(trees: Trees, slope: Slope, i: nat, n: nat)
    requires i <= n && Hits(trees, slope, i).Threw?
    ensures Hits(trees, slope, n) == Hits(trees, slope, i)
    decreases n - i
  {
    if i < n {
      HitsThrowPersists(trees, slope, i, n - 1);
    }
  }

  /** The `for` loop of `Run` (Day3.cs:43-50): Height steps from (0, 0),
      counting the trees hit. */
  method CountHits(trees: Trees, slope: Slope) returns (o: Outcome<nat>)
    ensures o == Hits(trees, slope, Height(trees))
  {
    var count := 0;
    var toboggan := Toboggan(0, 0, slope);
    var i := 0;
    while i < Height(trees)
      invariant 0 <= i <= Height(trees)
      invariant toboggan == Position(slope, i)
      invariant Hits(trees, slope, i) == Returned(count)
    {
      var hit := Hit(trees, toboggan);
      if hit.Threw? {
        HitsThrowPersists(trees, slope, i + 1, Height(trees));
        return Threw(hit.exception);
      }
      count := if hit.value then count + 1 else count;
      StepPosition(slope, i);
      toboggan := Step(toboggan);
      i := i + 1;
    }
    o := Returned(count);
  }

  /** `Run(trees, slopes)` (Day3.cs:37-54): the product of the per-slope
      counts, folded from 1 in slope order. */
  function Product(trees: Trees, slopes: seq<Slope>): Outcome<nat>
  {
    if slopes == [] then Returned(1)
    else
      match Product(trees, slopes[..|slopes| - 1])
      case Threw(x) => Threw(x)
      case Returned(total) =>
        match Hits(trees, slopes[|slopes| - 1], Height(trees))
        case Threw(x) => Threw(x)
        case Returned(count) => Returned(total * count)
  }

  /** Once a prefix of the slopes throws, the whole product throws the same. */
  lemma {:induction false} ProductPrefixThrows(trees: Trees, slopes: seq<Slope>, n: nat)
    requires n <= |slopes| && Product(trees, slopes[..n]).Threw?
    ensures Product(trees, slopes) == Product(trees, slopes[..n])
    decreases |slopes| - n
  {
    if n == |slopes| {
      assert slopes[..n] == slopes;
    } else {
      var p := slopes[..|slopes| - 1];
      assert p[..n] == slopes[..n];
      ProductPrefixThrows(trees, p, n);
    }
  }

  /** Multiplying over two lists of slopes is multiplying the two products. */
  lemma {:induction false} ProductAppend(trees: Trees, a: seq<Slope>, b: seq<Slope>)
    requires Product(trees, a).Returned? && Product(trees, b).Returned?
    ensures Product(trees, a + b) == Returned(Product(trees, a).value * Product(trees, b).value)
    decreases |b|
  {
    if b == [] {
      assert a + b == a;
    } else {
      var p, last := b[..|b| - 1], b[|b| - 1];
      assert (a + b)[..|a + b| - 1] == a + p;
      assert (a + b)[|a + b| - 1] == last;
      ProductAppend(trees, a, p);
      var x, y, c := Product(trees, a).value, Product(trees, p).value, Hits(trees, last, Height(trees)).value;
      assert Product(trees, b).value == y * c;
      MulAssociates(x, y, c);
    }
  }

  /** A slope that hits no tree makes the whole product 0. */
  lemma {:induction false} ProductZero(trees: Trees, slopes: seq<Slope>, i: nat)
    requires Product(trees, slopes).Returned?
    requires i < |slopes| && Hits(trees, slopes[i], Height(trees)) == Returned(0)
    ensures Product(trees, slopes).value == 0
  {
    var p := slopes[..|slopes| - 1];
    if i < |slopes| - 1 {
      assert p[i] == slopes[i];
      ProductZero(trees, p, i);
    }
  }

  /** The imperative form of `Run(trees, slopes)`: each slope's loop, the
      running product. */
  method RunSlopes(trees: Trees, slopes: seq<Slope>) returns (o: Outcome<nat>)
    ensures o == Product(trees, slopes)
  {
    var total := 1;
    var j := 0;
    while j < |slopes|
      invariant 0 <= j <= |slopes|
      invariant Product(trees, slopes[..j]) == Returned(total)
    {
      var count := CountHits(trees, slopes[j]);
      assert slopes[..j + 1][..j] == slopes[..j];
      if count.Threw? {
        ProductPrefixThrows(trees, slopes, j + 1);
        return Threw(count.exception);
      }
      total := total * count.value;
      j := j + 1;
    }
    assert slopes[..j] == slopes;
    o := Returned(total);
  }

  const PartBSlopes: seq<Slope> := [Slope(1, 1), Slope(3, 1), Slope(5, 1), Slope(7, 1), Slope(1, 2)]

  /** The trees met on each slope down the whole map, multiplied in slope
      order: what `Run(trees, slopes)` means on a well-formed map. */
  function TreeProduct(trees: Trees, slopes: seq<Slope>): nat
    requires WellFormed(trees)
  {
    if slopes == [] then 1
    else TreeProduct(trees, slopes[..|slopes| - 1]) * |TreeSteps(trees, slopes[|slopes| - 1], Height(trees))|
  }

  /** `Run` (Day3.cs:14-28): the product for slope (3, 1) and for the five
      slopes, printed into the day. */
  function RunDay(input: seq<string>): (o: Outcome<Day>)
    ensures o.Returned? <==> Product(input, [Slope(3, 1)]).Returned? && Product(input, PartBSlopes).Returned?
    ensures o.Returned? ==> o.value.title == Title
    ensures o.Returned? ==> o.value.partA == NatToString(Product(input, [Slope(3, 1)]).value)
    ensures o.Returned? ==> o.value.partB == NatToString(Product(input, PartBSlopes).value)
  {
    match Product(input, [Slope(3, 1)])
    case Threw(x) => Threw(x)
    case Returned(a) =>
      match Product(input, PartBSlopes)
      case Threw(x) => Threw(x)
      case Returned(b) => Returned(Day(Title, NatToString(a), NatToString(b)))
  }

  /** Every slope of `Run` goes right, so a well-formed map never throws, and
      the product is that of the trees met on each slope. */
  lemma {:induction false} ProductWellFormed(trees: Trees, slopes: seq<Slope>)
    requires WellFormed(trees)
    requires forall i | 0 <= i < |slopes| :: slopes[i].x >= 0
    ensures Product(trees, slopes) == Returned(TreeProduct(trees, slopes))
  {
    if slopes != [] {
      ProductWellFormed(trees, slopes[..|slopes| - 1]);
      HitsAreTrees(trees, slopes[|slopes| - 1], Height(trees));
    }
  }

  /** On a well-formed map `Run` never throws: part A is the number of trees
      met on slope (3, 1), part B the product over the five slopes. */
  lemma RunWellFormed(input: seq<string>)
    requires WellFormed(input)
    ensures RunDay(input) == Returned(Day(Title, NatToString(|TreeSteps(input, Slope(3, 1), Height(input))|), NatToString(TreeProduct(input, PartBSlopes))))
  {
    ProductWellFormed(input, [Slope(3, 1)]);
    ProductWellFormed(input, PartBSlopes);
    assert [Slope(3, 1)][..0] == [];
  }

  method Run(input: seq<string>) returns (o: Outcome<Day>)
    ensures o == RunDay(input)
  {
    var a := RunSlopes(input, [Slope(3, 1)]);
    if a.Threw? {
      return Threw(a.exception);
    }
    var b := RunSlopes(input, PartBSlopes);
    if b.Threw? {
      return Threw(b.exception);
    }
    o := Returned(Day(Title, NatToString(a.value), NatToString(b.value)));
  }

  const Sample: Trees := [
    "..##.......",
    "#...#...#..",
    ".#....#..#.",
    "..#.#...#.#",
    ".#...##..#.",
    "..#.##.....",
    ".#.#.#....#",
    ".#........#",
    "#.##...#...",
    "#...##....#",
    ".#..#...#.#"
  ]

  lemma SampleSlope11()
    ensures Hits(Sample, Slope(1, 1), Height(Sample)) == Returned(2)
  {
    var s := Slope(1, 1);
    assert Hits(Sample, s, 1) == Returned(0);
    assert Hits(Sample, s, 2) == Returned(0);
    assert Hits(Sample, s, 3) == Returned(0);
    assert Hits(Sample, s, 4) == Returned(0);
    assert Hits(Sample, s, 5) == Returned(0);
    assert Hits(Sample, s, 6) == Returned(1);
    assert Hits(Sample, s, 7) == Returned(1);
    assert Hits(Sample, s, 8) == Returned(1);
    assert Hits(Sample, s, 9) == Returned(1);
    assert Hits(Sample, s, 10) == Returned(1);
    assert Hits(Sample, s, 11) == Returned(2);
  }

  lemma SampleSlope31()
    ensures Hits(Sample, Slope(3, 1), Height(Sample)) == Returned(7)
  {
    var s := Slope(3, 1);
    assert Hits(Sample, s, 1) == Returned(0);
    assert Hits(Sample, s, 2) == Returned(0);
    assert Hits(Sample, s, 3) == Returned(1);
    assert Hits(Sample, s, 4) == Returned(1);
    assert Hits(Sample, s, 5) == Returned(2);
    assert Hits(Sample, s, 6) == Returned(3);
    assert Hits(Sample, s, 7) == Returned(3);
    assert Hits(Sample, s, 8) == Returned(4);
    assert Hits(Sample, s, 9) == Returned(5);
    assert Hits(Sample, s, 10) == Returned(6);
    assert Hits(Sample, s, 11) == Returned(7);
  }

  lemma SampleSlope51()
    ensures Hits(Sample, Slope(5, 1), Height(Sample)) == Returned(3)
  {
    var s := Slope(5, 1);
    assert Hits(Sample, s, 1) == Returned(0);
    assert Hits(Sample, s, 2) == Returned(0);
    assert Hits(Sample, s, 3) == Returned(0);
    assert Hits(Sample, s, 4) == Returned(1);
    assert Hits(Sample, s, 5) == Returned(2);
    assert Hits(Sample, s, 6) == Returned(2);
    assert Hits(Sample, s, 7) == Returned(2);
    assert Hits(Sample, s, 8) == Returned(2);
    assert Hits(Sample, s, 9) == Returned(3);
    assert Hits(Sample, s, 10) == Returned(3);
    assert Hits(Sample, s, 11) == Returned(3);
  }

  lemma SampleSlope71()
    ensures Hits(Sample, Slope(7, 1), Height(Sample)) == Returned(4)
  {
    var s := Slope(7, 1);
    assert Hits(Sample, s, 1) == Returned(0);
    assert Hits(Sample, s, 2) == Returned(0);
    assert Hits(Sample, s, 3) == Returned(0);
    assert Hits(Sample, s, 4) == Returned(1);
    assert Hits(Sample, s, 5) == Returned(2);
    assert Hits(Sample, s, 6) == Returned(3);
    assert Hits(Sample, s, 7) == Returned(3);
    assert Hits(Sample, s, 8) == Returned(3);
    assert Hits(Sample, s, 9) == Returned(3);
    assert Hits(Sample, s, 10) == Returned(3);
    assert Hits(Sample, s, 11) == Returned(4);
  }

  lemma SampleSlope12()
    ensures Hits(Sample, Slope(1, 2), Height(Sample)) == Returned(2)
  {
    var s := Slope(1, 2);
    assert Hits(Sample, s, 1) == Returned(0);
    assert Hits(Sample, s, 2) == Returned(1);
    assert Hits(Sample, s, 3) == Returned(1);
    assert Hits(Sample, s, 4) == Returned(2);
    assert Hits(Sample, s, 5) == Returned(2);
    assert Hits(Sample, s, 6) == Returned(2);
    assert Hits(Sample, s, 7) == Returned(2);
    assert Hits(Sample, s, 8) == Returned(2);
    assert Hits(Sample, s, 9) == Returned(2);
    assert Hits(Sample, s, 10) == Returned(2);
    assert Hits(Sample, s, 11) == Returned(2);
  }

  lemma SamplePartB()
    ensures Product(Sample, PartBSlopes) == Returned(336)
  {
    var b := PartBSlopes;
    SampleSlope11();
    SampleSlope31();
    SampleSlope51();
    SampleSlope71();
    SampleSlope12();
    assert b[..1][..0] == [];
    assert Product(Sample, b[..1]) == Returned(2);
    assert b[..2][..1] == b[..1];
    assert Product(Sample, b[..2]) == Returned(14);
    assert b[..3][..2] == b[..2];
    assert Product(Sample, b[..3]) == Returned(42);
    assert b[..4][..3] == b[..3];
    assert Product(Sample, b[..4]) == Returned(168);
    assert b[..4] == b[..|b| - 1];
  }

  /** The published example: 7 trees on slope (3, 1), and 2 * 7 * 3 * 4 * 2 = 336
      over the five slopes. */
  lemma SampleAnswers()
    ensures RunDay(Sample) == Returned(Day(Title, "7", "336"))
  {
    SampleSlope31();
    SamplePartB();
    assert Product(Sample, [Slope(3, 1)]) == Returned(7) by {
      assert [Slope(3, 1)][..0] == [];
    }
    Printed();
  }

  lemma Printed()
    ensures NatToString(7) == "7" && NatToString(336) == "336"
  {
    assert NatToString(3) == "3";
    assert NatToString(33) == "33";
  }
}
