/**
 * 2025 day 4 (aoc/year2025/day04.py): a grid of paper rolls '@'. A roll is free to
 * remove when fewer than four of its in-bounds eight neighbours are rolls. Part 1 counts
 * the free rolls; part 2 removes all free rolls at once, wave after wave, until none is
 * free, and counts every removal. The grid is a two-dimensional array rewritten in place.
 */
module Year2025Day04 {
  import opened Common
  import opened Grid

  type Cell = (int, int)

  /** `b` has `h` rows of `w` characters. */
  predicate Sized(b: seq<string>, h: int, w: int)
  {
    |b| == h && forall y :: 0 <= y < h ==> |b[y]| == w
  }

  /** The array's contents, row by row. */
  function Board(a: array2<char>): (b: seq<string>)
    reads a
    ensures Sized(b, a.Length0, a.Length1)
    ensures forall y, x :: 0 <= y < a.Length0 && 0 <= x < a.Length1 ==> b[y][x] == a[y, x]
  {
    seq(a.Length0, y requires 0 <= y < a.Length0 reads a =>
      seq(a.Length1, x requires 0 <= x < a.Length1 reads a => a[y, x]))
  }

  /** Two boards of the same size agreeing everywhere are equal. */
  lemma SameBoard(b: seq<string>, c: seq<string>, h: int, w: int)
    requires Sized(b, h, w) && Sized(c, h, w)
    requires forall y, x :: 0 <= y < h && 0 <= x < w ==> b[y][x] == c[y][x]
    ensures b == c
  {
    forall y | 0 <= y < h ensures b[y] == c[y] {
      assert forall x :: 0 <= x < w ==> b[y][x] == c[y][x];
    }
  }

  // ------------------------------------------------------------ free rolls

  /** A roll sits at this in-bounds cell. */
  predicate IsRoll(b: seq<string>, h: int, w: int, c: Cell)
    requires Sized(b, h, w)
  {
    InBounds(c.0, c.1, h, w) && b[c.0][c.1] == '@'
  }

  /** How many of `cells` are in-bounds rolls, counting as the loop of `_is_free_to_remove` does. */
  function RollsAmong(b: seq<string>, h: int, w: int, cells: seq<Cell>): (n: nat)
    requires Sized(b, h, w)
    ensures n <= |cells|
  {
    if cells == [] then 0
    else RollsAmong(b, h, w, cells[..|cells| - 1]) + (if IsRoll(b, h, w, cells[|cells| - 1]) then 1 else 0)
  }

  /** The in-bounds neighbour rolls of (y, x). */
  ghost function NeighbourRolls(b: seq<string>, h: int, w: int, y: int, x: int): set<Cell>
    requires Sized(b, h, w)
  {
    set c | c in Neighbors8(y, x) && IsRoll(b, h, w, c)
  }

  lemma {:induction false} RollsAmongCountsSet(b: seq<string>, h: int, w: int, cells: seq<Cell>)
    requires Sized(b, h, w)
    requires forall i, j :: 0 <= i < j < |cells| ==> cells[i] != cells[j]
    ensures RollsAmong(b, h, w, cells) == |set c | c in cells && IsRoll(b, h, w, c)|
  {
    if cells != [] {
      var init := cells[..|cells| - 1];
      var last := cells[|cells| - 1];
      RollsAmongCountsSet(b, h, w, init);
      var s0 := set c | c in init && IsRoll(b, h, w, c);
      var s1 := set c | c in cells && IsRoll(b, h, w, c);
      assert last !in init;
      if IsRoll(b, h, w, last) {
        assert s1 == s0 + {last};
      } else {
        assert s1 == s0;
      }
    }
  }

  lemma {:induction false} RollsAmongPrefix(b: seq<string>, h: int, w: int, cells: seq<Cell>, k: nat)
    requires Sized(b, h, w) && k <= |cells|
    ensures RollsAmong(b, h, w, cells[..k]) <= RollsAmong(b, h, w, cells)
  {
    if k < |cells| {
      RollsAmongPrefix(b, h, w, cells[..|cells| - 1], k);
      assert cells[..|cells| - 1][..k] == cells[..k];
    } else {
      assert cells[..k] == cells;
    }
  }

  /** Fewer than four in-bounds neighbours of (y, x) are rolls. */
  predicate FreeToRemove(b: seq<string>, h: int, w: int, y: int, x: int)
    requires Sized(b, h, w)
  {
    RollsAmong(b, h, w, Neighbors8(y, x)) < 4
  }

  /** The loop's count is the number of distinct in-bounds neighbour rolls. */
  lemma FreeToRemoveMeans(b: seq<string>, h: int, w: int, y: int, x: int)
    requires Sized(b, h, w)
    ensures FreeToRemove(b, h, w, y, x) <==> |NeighbourRolls(b, h, w, y, x)| < 4
  {
    Neighbors8Cells(y, x);
    RollsAmongCountsSet(b, h, w, Neighbors8(y, x));
  }

  /**
   * `_is_free_to_remove`: count the in-bounds neighbour rolls and answer false as soon as
   * the count reaches four; stopping early gives the same answer as counting them all.
   */
  method IsFreeToRemove(rolls: array2<char>, row: int, col: int, w: int, h: int) returns (free: bool)
    requires rolls.Length0 == h && rolls.Length1 == w
    ensures free == FreeToRemove(Board(rolls), h, w, row, col)
  {
    ghost var b := Board(rolls);
    var ns := Neighbors8(row, col);
    var count := 0;
    for k := 0 to |ns|
      invariant count == RollsAmong(b, h, w, ns[..k]) && count < 4
    {
      assert ns[..k + 1][..k] == ns[..k];
      var (y, x) := ns[k];
      if !InBounds(y, x, h, w) {
        continue;
      }
      if rolls[y, x] == '@' {
        count := count + 1;
        if count >= 4 {
          RollsAmongPrefix(b, h, w, ns, k + 1);
          return false;
        }
      }
    }
    assert ns[..|ns|] == ns;
    free := true;
  }

  /** The rolls of the board. */
  ghost function RollSet(b: seq<string>, h: int, w: int): set<Cell>
    requires Sized(b, h, w)
  {
    set y, x | 0 <= y < h && 0 <= x < w && b[y][x] == '@' :: (y, x)
  }

  lemma CardRemove(a: set<Cell>, f: set<Cell>)
    requires f <= a
    ensures |a - f| == |a| - |f|
  {
    assert a == (a - f) + f;
  }

  /** The rolls free to remove: the cells collected into `to_remove`. */
  ghost function FreeSet(b: seq<string>, h: int, w: int): (f: set<Cell>)
    requires Sized(b, h, w)
    ensures f <= RollSet(b, h, w)
  {
    set y, x | 0 <= y < h && 0 <= x < w && b[y][x] == '@' && FreeToRemove(b, h, w, y, x) :: (y, x)
  }

  lemma InFreeSet(b: seq<string>, h: int, w: int, y: int, x: int)
    requires Sized(b, h, w)
    ensures (y, x) in FreeSet(b, h, w) <==> 0 <= y < h && 0 <= x < w && b[y][x] == '@' && FreeToRemove(b, h, w, y, x)
  {
  }

  /** `solve_part1` on a parsed grid: the number of free rolls. */
  ghost function Part1(b: seq<string>, h: int, w: int): nat
    requires Sized(b, h, w)
  {
    |FreeSet(b, h, w)|
  }

  // ------------------------------------------------------------------ waves

  /** The board with every cell of `f` turned into '.'. */
  function Cleared(b: seq<string>, h: int, w: int, f: set<Cell>): (r: seq<string>)
    requires Sized(b, h, w) && h >= 0 && w >= 0
    ensures Sized(r, h, w)
    ensures forall y, x :: 0 <= y < h && 0 <= x < w ==> r[y][x] == if (y, x) in f then '.' else b[y][x]
  {
    seq(h, y requires 0 <= y < h => seq(w, x requires 0 <= x < w => if (y, x) in f then '.' else b[y][x]))
  }

  /** Clearing rolls removes exactly those rolls. */
  lemma ClearedRolls(b: seq<string>, h: int, w: int, f: set<Cell>)
    requires Sized(b, h, w) && h >= 0 && w >= 0 && f <= RollSet(b, h, w)
    ensures RollSet(Cleared(b, h, w, f), h, w) == RollSet(b, h, w) - f
    ensures f != {} ==> |RollSet(Cleared(b, h, w, f), h, w)| < |RollSet(b, h, w)|
  {
    var r := Cleared(b, h, w, f);
    forall c | c in RollSet(r, h, w) ensures c in RollSet(b, h, w) - f {
      assert r[c.0][c.1] == '@';
    }
    forall c | c in RollSet(b, h, w) - f ensures c in RollSet(r, h, w) {
      assert r[c.0][c.1] == b[c.0][c.1];
    }
    if f != {} {
      var c :| c in f;
      assert c !in RollSet(r, h, w);
      assert RollSet(r, h, w) < RollSet(b, h, w);
    }
  }

  /**
   * The total part 2 removes from board `b`: one synchronous wave clears every free roll
   * of the current board, until a board has none. It ends, since each wave removes at
   * least one roll.
   */
  ghost function WaveTotal(b: seq<string>, h: int, w: int): nat
    requires Sized(b, h, w) && h >= 0 && w >= 0
    decreases |RollSet(b, h, w)|
  {
    var f := FreeSet(b, h, w);
    if f == {} then 0
    else
      ClearedRolls(b, h, w, f);
      |f| + WaveTotal(Cleared(b, h, w, f), h, w)
  }

  /** One wave: its free rolls are counted and cleared, and fewer rolls remain. */
  lemma WaveStep(b: seq<string>, h: int, w: int)
    requires Sized(b, h, w) && h >= 0 && w >= 0 && FreeSet(b, h, w) != {}
    ensures WaveTotal(b, h, w) == |FreeSet(b, h, w)| + WaveTotal(Cleared(b, h, w, FreeSet(b, h, w)), h, w)
    ensures RollSet(Cleared(b, h, w, FreeSet(b, h, w)), h, w) < RollSet(b, h, w)
    ensures |RollSet(Cleared(b, h, w, FreeSet(b, h, w)), h, w)| < |RollSet(b, h, w)|
  {
    var f := FreeSet(b, h, w);
    ClearedRolls(b, h, w, f);
    var c :| c in f;
    assert c !in RollSet(Cleared(b, h, w, f), h, w);
  }

  /** Part 2 removes at most the rolls there were. */
  lemma {:induction false} WaveTotalBound(b: seq<string>, h: int, w: int)
    requires Sized(b, h, w) && h >= 0 && w >= 0
    ensures WaveTotal(b, h, w) <= |RollSet(b, h, w)|
    decreases |RollSet(b, h, w)|
  {
    var f := FreeSet(b, h, w);
    if f != {} {
      ClearedRolls(b, h, w, f);
      WaveTotalBound(Cleared(b, h, w, f), h, w);
      CardRemove(RollSet(b, h, w), f);
    }
  }

  /** The first wave removes exactly part 1's count; none remain only when part 1 is 0. */
  lemma FirstWaveIsPart1(b: seq<string>, h: int, w: int)
    requires Sized(b, h, w) && h >= 0 && w >= 0
    ensures WaveTotal(b, h, w) >= Part1(b, h, w)
    ensures Part1(b, h, w) == 0 <==> WaveTotal(b, h, w) == 0
  {
  }

  // ---------------------------------------------------------------- methods

  /** `y, x` comes before row `r`, column `c` in row-major order. */
  predicate Before(e: Cell, r: int, c: int)
  {
    e.0 < r || (e.0 == r && e.1 < c)
  }

  /** No cell is listed twice. */
  predicate Distinct(cells: seq<Cell>)
  {
    forall i, j :: 0 <= i < j < |cells| ==> cells[i] != cells[j]
  }

  /** One row of the `to_remove` comprehension: the free rolls of row `r`, appended in column order. */
  method CollectRow(rolls: array2<char>, w: int, h: int, r: int, cells0: seq<Cell>) returns (cells: seq<Cell>)
    requires rolls.Length0 == h && rolls.Length1 == w && 0 <= r < h
    requires forall y, x :: (y, x) in cells0 <==> (y, x) in FreeSet(Board(rolls), h, w) && y < r
    requires Distinct(cells0)
    ensures forall y, x :: (y, x) in cells <==> (y, x) in FreeSet(Board(rolls), h, w) && y < r + 1
    ensures Distinct(cells)
  {
    ghost var b := Board(rolls);
    cells := cells0;
    for c := 0 to w
      invariant forall y, x :: (y, x) in cells <==> (y, x) in FreeSet(b, h, w) && Before((y, x), r, c)
      invariant Distinct(cells)
    {
      InFreeSet(b, h, w, r, c);
      if rolls[r, c] == '@' {
        var free := IsFreeToRemove(rolls, r, c, w, h);
        if free {
          cells := cells + [(r, c)];
        }
      }
      assert forall y, x :: Before((y, x), r, c + 1) <==> Before((y, x), r, c) || (y, x) == (r, c);
    }
  }

  /** The `to_remove` comprehension of `solve_part2` (and the cells `solve_part1` counts). */
  method CollectFree(rolls: array2<char>, w: int, h: int) returns (cells: seq<Cell>)
    requires rolls.Length0 == h && rolls.Length1 == w
    ensures forall e :: e in cells <==> e in FreeSet(Board(rolls), h, w)
    ensures Distinct(cells)
  {
    ghost var b := Board(rolls);
    cells := [];
    for r := 0 to h
      invariant forall y, x :: (y, x) in cells <==> (y, x) in FreeSet(b, h, w) && y < r
      invariant Distinct(cells)
    {
      cells := CollectRow(rolls, w, h, r, cells);
    }
    forall e ensures e in cells <==> e in FreeSet(b, h, w) {
      assert e == (e.0, e.1);
      InFreeSet(b, h, w, e.0, e.1);
    }
  }

  lemma {:induction false} DistinctCount(s: seq<Cell>)
    requires Distinct(s)
    ensures |set e | e in s| == |s|
  {
    if s != [] {
      var init := s[..|s| - 1];
      DistinctCount(init);
      assert (set e | e in s) == (set e | e in init) + {s[|s| - 1]};
    }
  }

  /** The removal loop: every collected cell becomes '.', nothing else changes. */
  method ClearCells(rolls: array2<char>, cells: seq<Cell>)
    requires forall k :: 0 <= k < |cells| ==> InBounds(cells[k].0, cells[k].1, rolls.Length0, rolls.Length1)
    modifies rolls
    ensures Board(rolls) == Cleared(old(Board(rolls)), rolls.Length0, rolls.Length1, set e | e in cells)
  {
    ghost var b := Board(rolls);
    for k := 0 to |cells|
      invariant forall y, x :: 0 <= y < rolls.Length0 && 0 <= x < rolls.Length1 ==>
        rolls[y, x] == if (y, x) in cells[..k] then '.' else b[y][x]
    {
      var (r, c) := cells[k];
      rolls[r, c] := '.';
      assert forall e :: e in cells[..k + 1] <==> e in cells[..k] || e == cells[k];
    }
    assert cells[..|cells|] == cells;
    SameBoard(Board(rolls), Cleared(b, rolls.Length0, rolls.Length1, set e | e in cells), rolls.Length0, rolls.Length1);
  }

  /** One pass of the `solve_part2` loop: collect the free rolls, count them, clear them. */
  method Wave(rolls: array2<char>, w: int, h: int) returns (removed: nat)
    requires rolls.Length0 == h && rolls.Length1 == w
    modifies rolls
    ensures removed == |FreeSet(old(Board(rolls)), h, w)|
    ensures Board(rolls) == Cleared(old(Board(rolls)), h, w, FreeSet(old(Board(rolls)), h, w))
  {
    ghost var b := Board(rolls);
    var toRemove := CollectFree(rolls, w, h);
    DistinctCount(toRemove);
    assert (set e | e in toRemove) == FreeSet(b, h, w);
    removed := |toRemove|;
    forall k | 0 <= k < |toRemove| ensures InBounds(toRemove[k].0, toRemove[k].1, h, w) {
      assert toRemove[k] in FreeSet(b, h, w);
    }
    ClearCells(rolls, toRemove);
  }

  /**
   * `solve_part2` on a parsed grid: collect the free rolls of the current grid, count
   * them, stop when there are none, otherwise clear them all and go again.
   */
  method Part2(rolls: array2<char>, w: int, h: int) returns (total: nat)
    requires rolls.Length0 == h && rolls.Length1 == w
    modifies rolls
    ensures total == WaveTotal(old(Board(rolls)), h, w)
    ensures FreeSet(Board(rolls), h, w) == {}
    ensures RollSet(Board(rolls), h, w) <= RollSet(old(Board(rolls)), h, w)
  {
    ghost var b0 := Board(rolls);
    ghost var b := b0;
    total := 0;
    while true
      invariant b == Board(rolls) && Sized(b, h, w)
      invariant total + WaveTotal(b, h, w) == WaveTotal(b0, h, w)
      invariant RollSet(b, h, w) <= RollSet(b0, h, w)
      decreases |RollSet(b, h, w)|
    {
      var removed := Wave(rolls, w, h);
      total := total + removed;
      if removed == 0 {
        assert FreeSet(b, h, w) == {};
        SameBoard(Board(rolls), b, h, w);
        break;
      }
      WaveStep(b, h, w);
      b := Board(rolls);
    }
  }

  // ----------------------------------------------------------------- parsing

  /** `parse`: the grid's lines, each as a row of characters. */
  method Parse(raw: string) returns (rolls: array2<char>, w: int, h: int)
    requires Rectangular(ParseGrid(raw))
    ensures fresh(rolls) && Board(rolls) == ParseGrid(raw)
    ensures h == |ParseGrid(raw)| == rolls.Length0 && w == |ParseGrid(raw)[0]| == rolls.Length1
  {
    var grid := ParseGrid(raw);
    h, w := |grid|, |grid[0]|;
    rolls := new char[h, w];
    for y := 0 to h
      invariant forall i, j :: 0 <= i < y && 0 <= j < w ==> rolls[i, j] == grid[i][j]
    {
      for x := 0 to w
        invariant forall i, j :: 0 <= i < y && 0 <= j < w ==> rolls[i, j] == grid[i][j]
        invariant forall j :: 0 <= j < x ==> rolls[y, j] == grid[y][j]
      {
        rolls[y, x] := grid[y][x];
      }
    }
    SameBoard(Board(rolls), grid, h, w);
  }

  method SolvePart1(raw: string) returns (n: nat)
    requires Rectangular(ParseGrid(raw))
    ensures n == Part1(ParseGrid(raw), |ParseGrid(raw)|, |ParseGrid(raw)[0]|)
  {
    var rolls, w, h := Parse(raw);
    var cells := CollectFree(rolls, w, h);
    DistinctCount(cells);
    assert (set e | e in cells) == FreeSet(Board(rolls), h, w);
    n := |cells|;
  }

  method SolvePart2(raw: string) returns (n: nat)
    requires Rectangular(ParseGrid(raw))
    ensures n == WaveTotal(ParseGrid(raw), |ParseGrid(raw)|, |ParseGrid(raw)[0]|)
  {
    var rolls, w, h := Parse(raw);
    n := Part2(rolls, w, h);
  }
}
