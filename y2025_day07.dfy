/**
 * 2025 day 7 (aoc/year2025/day07.py): a tachyon beam enters at 'S' in the top row and
 * moves down; a splitter '^' under a beam stops it and sends one beam to each side.
 * Part 1 counts the splits, with beams as a set of columns; part 2 counts timelines,
 * with a count per column that every splitter moves to its two sides in place. The
 * `defaultdict` of part 2 becomes an array of the columns -1 to W, where W is the width
 * of the widest row: no splitter lies outside [0, W), so no other column ever gets a
 * timeline, and the sum over the array is `sum(beams.values())`.
 */
module Year2025Day07 {
  import opened Common
  import opened Text
  import opened Grid

  // ------------------------------------------------------------ the grid

  /** `grid[0].index('S')`: the start column, `None` when the first row has no 'S'. */
  function Start(grid: seq<string>): (s: Option<int>)
    ensures s.Some? ==> |grid| > 0 && 0 <= s.value < |grid[0]| && grid[0][s.value] == 'S'
    ensures s.None? ==> grid == [] || 'S' !in grid[0]
  {
    if grid == [] || IndexOf(grid[0], 'S') == |grid[0]| then None else Some(IndexOf(grid[0], 'S'))
  }

  /**
   * The grid of part 1: every row as wide as the first, and no splitter in an edge
   * column below the first row. It keeps `next_row[b]` inside the row, where Python
   * raises an index error past the end and wraps around at -1.
   */
  predicate Lab(grid: seq<string>)
  {
    Rectangular(grid) && |grid[0]| > 0 &&
    forall r :: 1 <= r < |grid| ==> grid[r][0] != '^' && grid[r][|grid[0]| - 1] != '^'
  }

  /** Every beam column inside [0, w). */
  predicate Inside(beams: set<int>, w: int)
  {
    forall b :: b in beams ==> 0 <= b < w
  }

  /** A row below the first has no splitter at either edge. */
  predicate EdgeFree(row: string)
  {
    |row| > 0 && row[0] != '^' && row[|row| - 1] != '^'
  }

  // -------------------------------------------------------------- part 1

  /** `split_beams`: the beams standing above a splitter. */
  function SplitBeams(beams: set<int>, row: string): (s: set<int>)
    requires Inside(beams, |row|)
    ensures s <= beams
  {
    set b | b in beams && row[b] == '^'
  }

  /** `straight_beams`: the beams that go on down. */
  function StraightBeams(beams: set<int>, row: string): (s: set<int>)
    requires Inside(beams, |row|)
    ensures s <= beams
  {
    set b | b in beams && row[b] != '^'
  }

  /** The two sets split the beams: together they are all of them, and no beam is in both. */
  lemma SplitStraightPartition(beams: set<int>, row: string)
    requires Inside(beams, |row|)
    ensures SplitBeams(beams, row) + StraightBeams(beams, row) == beams
    ensures SplitBeams(beams, row) * StraightBeams(beams, row) == {}
    ensures |SplitBeams(beams, row)| + |StraightBeams(beams, row)| == |beams|
  {
    var a, b := SplitBeams(beams, row), StraightBeams(beams, row);
    assert a + b == beams;
    assert a * b == {};
  }

  /** The beams below the row: each split beam's two sides, and the straight beams. */
  function NextBeams(beams: set<int>, row: string): (n: set<int>)
    requires Inside(beams, |row|)
  {
    var s := SplitBeams(beams, row);
    (set b | b in s :: b - 1) + (set b | b in s :: b + 1) + StraightBeams(beams, row)
  }

  /** No beam leaves the grid through an edge splitter, since there is none. */
  lemma NextBeamsInside(beams: set<int>, row: string)
    requires Inside(beams, |row|) && EdgeFree(row)
    ensures Inside(NextBeams(beams, row), |row|)
  {
    forall x | x in NextBeams(beams, row) ensures 0 <= x < |row| {
      var s := SplitBeams(beams, row);
      if x in (set b | b in s :: b - 1) {
        var b :| b in s && x == b - 1;
        assert b != 0;
      } else if x in (set b | b in s :: b + 1) {
        var b :| b in s && x == b + 1;
        assert b != |row| - 1;
      }
    }
  }

  /** Rows a beam set inside [0, w) can cross: each `w` wide and edge-free. */
  predicate Crossable(rows: seq<string>, w: int)
  {
    forall r :: 0 <= r < |rows| ==> |rows[r]| == w && EdgeFree(rows[r])
  }

  /** The splits counted while the beams cross `rows`, starting from `beams`. */
  function Splits(rows: seq<string>, beams: set<int>, w: int): nat
    requires Crossable(rows, w) && Inside(beams, w)
  {
    if rows == [] then 0
    else
      NextBeamsInside(beams, rows[0]);
      |SplitBeams(beams, rows[0])| + Splits(rows[1..], NextBeams(beams, rows[0]), w)
  }

  /** The splitter columns of a row. */
  function Splitters(row: string): (s: set<int>)
    ensures forall i :: i in s <==> 0 <= i < |row| && row[i] == '^'
  {
    set i | 0 <= i < |row| && row[i] == '^'
  }

  /** The number of splitters in the rows. */
  function SplitterCount(rows: seq<string>): nat
  {
    if rows == [] then 0 else |Splitters(rows[0])| + SplitterCount(rows[1..])
  }

  /** No row splits more beams than it has splitters: part 1 is at most the splitter count. */
  lemma {:induction false} SplitsAtMostSplitters(rows: seq<string>, beams: set<int>, w: int)
    requires Crossable(rows, w) && Inside(beams, w)
    ensures Splits(rows, beams, w) <= SplitterCount(rows)
    decreases |rows|
  {
    if rows != [] {
      NextBeamsInside(beams, rows[0]);
      SplitsAtMostSplitters(rows[1..], NextBeams(beams, rows[0]), w);
      SubsetCard(SplitBeams(beams, rows[0]), Splitters(rows[0]));
    }
  }

  /** The first-row arguments of part 1: the rows below the start and the width. */
  lemma LabCrossable(grid: seq<string>)
    requires Lab(grid)
    ensures Crossable(grid[1..], |grid[0]|)
  {
    forall r | 0 <= r < |grid[1..]| ensures |grid[1..][r]| == |grid[0]| && EdgeFree(grid[1..][r]) {
      assert grid[1..][r] == grid[r + 1];
    }
  }

  /** `solve_part1`: the splits between the start and the bottom; `None` without an 'S'. */
  function Part1(grid: seq<string>): Option<nat>
    requires Lab(grid)
  {
    match Start(grid)
      case None => None
      case Some(s) =>
        LabCrossable(grid);
        Some(Splits(grid[1..], {s}, |grid[0]|))
  }

  /** The row loop of `solve_part1`. */
  method CountSplits(rows: seq<string>, start: int, w: int) returns (splits: nat)
    requires Crossable(rows, w) && 0 <= start < w
    ensures splits == Splits(rows, {start}, w)
  {
    var beams := {start};
    splits := 0;
    for i := 0 to |rows|
      invariant Inside(beams, w)
      invariant splits + Splits(rows[i..], beams, w) == Splits(rows, {start}, w)
    {
      var nextRow := rows[i];
      assert rows[i..][1..] == rows[i + 1..];
      var splitBeams := set b | b in beams && nextRow[b] == '^';
      splits := splits + |splitBeams|;
      var straightBeams := set b | b in beams && nextRow[b] != '^';
      NextBeamsInside(beams, nextRow);
      beams := (set b | b in splitBeams :: b - 1) + (set b | b in splitBeams :: b + 1) + straightBeams;
    }
  }

  method SolvePart1(raw: string) returns (splits: Option<nat>)
    requires Lab(ParseGrid(raw))
    ensures splits == Part1(ParseGrid(raw))
  {
    var grid := ParseGrid(raw);
    var s := Start(grid);
    if s.None? {
      return None;
    }
    LabCrossable(grid);
    var n := CountSplits(grid[1..], s.value, |grid[0]|);
    splits := Some(n);
  }

  // -------------------------------------------------------------- part 2

  /** The width of the widest row, 0 for no rows. */
  function Width(grid: seq<string>): (w: nat)
    ensures forall r :: 0 <= r < |grid| ==> |grid[r]| <= w
    ensures grid == [] ==> w == 0
  {
    if grid == [] then 0
    else
      var w := Width(grid[1..]);
      assert forall r :: 1 <= r < |grid| ==> grid[r] == grid[1..][r - 1];
      if |grid[0]| >= w then |grid[0]| else w
  }

  /** Some row is as wide as `Width(grid)`: it is the widest, not just a bound. */
  lemma {:induction false} WidthAttained(grid: seq<string>)
    requires grid != []
    ensures exists r :: 0 <= r < |grid| && |grid[r]| == Width(grid)
  {
    if |grid[0]| < Width(grid) {
      WidthAttained(grid[1..]);
      var r :| 0 <= r < |grid[1..]| && |grid[1..][r]| == Width(grid[1..]);
      assert grid[1..][r] == grid[r + 1];
    }
  }

  /**
   * Counts that hold every column of the rows and the one on either side: column `c`
   * is at index `c + 1`.
   */
  predicate Fits(rows: seq<string>, n: int)
  {
    forall r :: 0 <= r < |rows| ==> |rows[r]| + 2 <= n
  }

  /**
   * `splits` of `solve_part2`: the splitter columns that have an incoming timeline,
   * left to right, fixed from the counts before any of them moves.
   */
  function ActiveSplitters(row: string, counts: seq<int>): (r: seq<int>)
    requires |row| + 2 <= |counts|
    ensures forall i :: i in r <==> 0 <= i < |row| && row[i] == '^' && counts[i + 1] > 0
    ensures forall i, j :: 0 <= i < j < |r| ==> r[i] < r[j]
  {
    ActiveFrom(row, counts, 0)
  }

  function ActiveFrom(row: string, counts: seq<int>, from: nat): (r: seq<int>)
    requires |row| + 2 <= |counts| && from <= |row|
    ensures forall i :: i in r <==> from <= i < |row| && row[i] == '^' && counts[i + 1] > 0
    ensures forall k :: 0 <= k < |r| ==> from <= r[k]
    ensures forall i, j :: 0 <= i < j < |r| ==> r[i] < r[j]
    decreases |row| - from
  {
    if from == |row| then []
    else
      var rest := ActiveFrom(row, counts, from + 1);
      if row[from] == '^' && counts[from + 1] > 0 then [from] + rest else rest
  }

  /** The splitter at column `s` with `c` timelines: `c` more on each side, none left on it. */
  function SplitAt(counts: seq<int>, s: int): (r: seq<int>)
    requires 0 <= s && s + 2 < |counts|
    ensures |r| == |counts|
  {
    var c := counts[s + 1];
    counts[s := counts[s] + c][s + 2 := counts[s + 2] + c][s + 1 := 0]
  }

  /** The splitters of a row applied one after the other, each to the counts its predecessors left. */
  function SplitAll(counts: seq<int>, ss: seq<int>): (r: seq<int>)
    requires forall k :: 0 <= k < |ss| ==> 0 <= ss[k] && ss[k] + 2 < |counts|
    ensures |r| == |counts|
  {
    if ss == [] then counts
    else
      var init := ss[..|ss| - 1];
      assert forall k :: 0 <= k < |init| ==> init[k] == ss[k];
      SplitAt(SplitAll(counts, init), ss[|ss| - 1])
  }

  /** A split adds exactly the splitter's count to the total. */
  lemma {:induction false} SplitAtSum(counts: seq<int>, s: int)
    requires 0 <= s && s + 2 < |counts|
    ensures Sum(SplitAt(counts, s)) == Sum(counts) + counts[s + 1]
  {
    var c := counts[s + 1];
    var a := counts[s := counts[s] + c];
    var b := a[s + 2 := counts[s + 2] + c];
    SumUpdate(counts, s, counts[s] + c);
    SumUpdate(a, s + 2, counts[s + 2] + c);
    SumUpdate(b, s + 1, 0);
  }

  /** Counts that are all non-negative. */
  predicate NonNegative(counts: seq<int>)
  {
    forall i :: 0 <= i < |counts| ==> counts[i] >= 0
  }

  /** A split of non-negative counts leaves them non-negative. */
  lemma SplitAtNonNegative(counts: seq<int>, s: int)
    requires 0 <= s && s + 2 < |counts| && NonNegative(counts)
    ensures NonNegative(SplitAt(counts, s))
  {
  }

  /** Applying a row's splitters never loses a timeline. */
  lemma {:induction false} SplitAllGrows(counts: seq<int>, ss: seq<int>)
    requires forall k :: 0 <= k < |ss| ==> 0 <= ss[k] && ss[k] + 2 < |counts|
    requires NonNegative(counts)
    ensures NonNegative(SplitAll(counts, ss))
    ensures Sum(SplitAll(counts, ss)) >= Sum(counts)
  {
    if ss != [] {
      var init := ss[..|ss| - 1];
      assert forall k :: 0 <= k < |init| ==> init[k] == ss[k];
      SplitAllGrows(counts, init);
      SplitAtSum(SplitAll(counts, init), ss[|ss| - 1]);
      SplitAtNonNegative(SplitAll(counts, init), ss[|ss| - 1]);
    }
  }

  /** Both neighbours of every active splitter have a cell, the edge columns' included. */
  lemma ActiveInside(row: string, counts: seq<int>)
    requires |row| + 2 <= |counts|
    ensures forall k :: 0 <= k < |ActiveSplitters(row, counts)| ==>
      0 <= ActiveSplitters(row, counts)[k] && ActiveSplitters(row, counts)[k] + 2 < |counts|
  {
    var r := ActiveSplitters(row, counts);
    forall k | 0 <= k < |r| ensures 0 <= r[k] && r[k] + 2 < |counts| {
      assert r[k] in r;
    }
  }

  /** The counts after one row. */
  function RowStep(counts: seq<int>, row: string): (r: seq<int>)
    requires |row| + 2 <= |counts|
    ensures |r| == |counts|
  {
    ActiveInside(row, counts);
    SplitAll(counts, ActiveSplitters(row, counts))
  }

  /** The counts after crossing `rows`. */
  function Timelines(rows: seq<string>, counts: seq<int>): (r: seq<int>)
    requires Fits(rows, |counts|)
    ensures |r| == |counts|
  {
    if rows == [] then counts else Timelines(rows[1..], RowStep(counts, rows[0]))
  }

  /** One timeline in cell `cell`, none elsewhere. */
  function Initial(n: nat, cell: int): (c: seq<int>)
    ensures |c| == n && NonNegative(c)
  {
    seq(n, i => if i == cell then 1 else 0)
  }

  lemma {:induction false} InitialSum(n: nat, cell: int)
    requires 0 <= cell < n
    ensures Sum(Initial(n, cell)) == 1
  {
    var c := Initial(n, cell);
    var z := seq(n, i => 0);
    assert c == z[cell := 1];
    SumUpdate(z, cell, 1);
    ZerosSum(n);
  }

  lemma {:induction false} ZerosSum(n: nat)
    ensures Sum(seq(n, i => 0)) == 0
  {
    if n > 0 {
      assert seq(n, i => 0)[..n - 1] == seq(n - 1, i => 0);
      ZerosSum(n - 1);
    }
  }

  /** Crossing rows keeps counts non-negative and never lowers the total. */
  lemma {:induction false} TimelinesGrow(rows: seq<string>, counts: seq<int>)
    requires Fits(rows, |counts|) && NonNegative(counts)
    ensures NonNegative(Timelines(rows, counts)) && Sum(Timelines(rows, counts)) >= Sum(counts)
  {
    if rows != [] {
      ActiveInside(rows[0], counts);
      SplitAllGrows(counts, ActiveSplitters(rows[0], counts));
      TimelinesGrow(rows[1..], RowStep(counts, rows[0]));
    }
  }

  /** The rows below the first fit in the cells of the columns -1 to `Width(grid)`. */
  lemma WidthFits(grid: seq<string>)
    requires grid != []
    ensures Fits(grid[1..], Width(grid) + 2)
  {
    forall r | 0 <= r < |grid[1..]| ensures |grid[1..][r]| + 2 <= Width(grid) + 2 {
      assert grid[1..][r] == grid[r + 1];
    }
  }

  /** `solve_part2`: the timelines reaching the bottom; `None` without an 'S'. */
  function Part2(grid: seq<string>): Option<int>
  {
    match Start(grid)
      case None => None
      case Some(s) =>
        WidthFits(grid);
        Some(Sum(Timelines(grid[1..], Initial(Width(grid) + 2, s + 1))))
  }

  /** With a start there is at least one timeline. */
  lemma Part2AtLeastOne(grid: seq<string>)
    requires Start(grid).Some?
    ensures Part2(grid).Some? && Part2(grid).value >= 1
  {
    WidthFits(grid);
    var s := Start(grid).value;
    InitialSum(Width(grid) + 2, s + 1);
    TimelinesGrow(grid[1..], Initial(Width(grid) + 2, s + 1));
  }

  /** The inner loop of `solve_part2`: each active splitter moves its count in place. */
  method ApplySplits(counts: array<int>, ss: seq<int>)
    requires forall k :: 0 <= k < |ss| ==> 0 <= ss[k] && ss[k] + 2 < counts.Length
    modifies counts
    ensures counts[..] == SplitAll(old(counts[..]), ss)
  {
    ghost var c0 := counts[..];
    for k := 0 to |ss|
      invariant counts[..] == SplitAll(c0, ss[..k])
    {
      assert ss[..k + 1][..k] == ss[..k];
      var s := ss[k];
      var cnt := counts[s + 1];
      counts[s] := counts[s] + cnt;
      counts[s + 2] := counts[s + 2] + cnt;
      counts[s + 1] := 0;
    }
    assert ss[..|ss|] == ss;
  }

  /** The row loop of `solve_part2` over `n` cells, with the start column in cell `start + 1`. */
  method CountTimelines(rows: seq<string>, start: int, n: nat) returns (total: int)
    requires Fits(rows, n) && 0 <= start + 1 < n
    ensures total == Sum(Timelines(rows, Initial(n, start + 1)))
  {
    var counts := new int[n](i => if i == start + 1 then 1 else 0);
    assert counts[..] == Initial(n, start + 1);
    for i := 0 to |rows|
      invariant Timelines(rows[i..], counts[..]) == Timelines(rows, Initial(n, start + 1))
      invariant counts.Length == n
    {
      assert rows[i..][1..] == rows[i + 1..];
      var row := rows[i];
      var splits := ActiveSplitters(row, counts[..]);
      ActiveInside(row, counts[..]);
      ApplySplits(counts, splits);
    }
    total := Sum(counts[..]);
  }

  method SolvePart2(raw: string) returns (total: Option<int>)
    ensures total == Part2(ParseGrid(raw))
  {
    var grid := ParseGrid(raw);
    var s := Start(grid);
    if s.None? {
      return None;
    }
    WidthFits(grid);
    var n := CountTimelines(grid[1..], s.value, Width(grid) + 2);
    total := Some(n);
  }

  // ------------------------------------------------------------- in place

  /**
   * Adjacent splitters see the counts their left neighbour already moved: with one
   * timeline above each of the splitters at columns 1 and 2 (cells 2 and 3, cell 0
   * being column -1), the right one moves two timelines, not one, and the row ends
   * with [0, 1, 2, 0, 2, 0]. A synchronous update would give one timeline in each of
   * the columns 0 to 3, a total of 4; in place it is 5.
   */
  lemma AdjacentSplittersInPlace(row: string, counts: seq<int>)
    requires row == ".^^." && counts == [0, 0, 1, 1, 0, 0]
    ensures ActiveSplitters(row, counts) == [1, 2]
    ensures RowStep(counts, row) == [0, 1, 2, 0, 2, 0]
  {
    assert ActiveFrom(row, counts, 4) == [];
    assert ActiveFrom(row, counts, 3) == [];
    assert ActiveFrom(row, counts, 2) == [2];
    assert ActiveFrom(row, counts, 1) == [1, 2];
    assert ActiveFrom(row, counts, 0) == [1, 2];
    var ss := [1, 2];
    assert ss[..1] == [1] && ss[..1][..0] == [];
    assert SplitAll(counts, ss[..1]) == [0, 1, 0, 2, 0, 0];
  }

  /**
   * A splitter in column 0 sends a timeline to column -1, which no later row can
   * split but the final sum still counts: the timeline is not lost.
   */
  lemma EdgeSplitterKeepsTimelines(row: string, counts: seq<int>)
    requires row == "^." && counts == [0, 1, 0, 0]
    ensures RowStep(counts, row) == [1, 0, 1, 0]
    ensures Sum(RowStep(counts, row)) == 2
  {
    assert ActiveFrom(row, counts, 2) == [];
    assert ActiveFrom(row, counts, 1) == [];
    assert ActiveFrom(row, counts, 0) == [0];
    var ss := [0];
    assert ss[..0] == [];
    assert SplitAll(counts, ss) == SplitAt(counts, 0);
    assert counts == Initial(4, 1);
    InitialSum(4, 1);
    SplitAtSum(counts, 0);
  }
}
