/**
 * 2024 day 4 (aoc/year2024/day04.py): a word search. Part 1 counts every (cell,
 * direction) pair spelling XMAS; part 2 counts the interior cells where two MAS words
 * cross diagonally on an 'A'.
 */
module Year2024Day04 {
  import opened Common
  import opened Grid

  const Word := "XMAS"

  /** The cell k steps from (y, x) along (dy, dx) is inside the h-by-w grid. */
  predicate CellInside(grid: seq<string>, y: int, x: int, dy: int, dx: int, k: int)
    requires Rectangular(grid)
  {
    InBounds(Step(y, x, dy, dx, k).0, Step(y, x, dy, dx, k).1, |grid|, |grid[0]|)
  }

  /** A point between two points of an interval lies in the interval. */
  lemma Between(a: int, d: int, k: int, lo: int, hi: int)
    requires 0 <= k <= 3
    requires lo <= a < hi && lo <= a + d * 3 < hi
    ensures lo <= a + d * k < hi
  {
    if d >= 0 {
      assert d * k <= d * 3;
    } else {
      assert d * k >= d * 3;
    }
  }

  /** Cells 0..3 along a direction are inside when the first and the last are. */
  lemma Convex(grid: seq<string>, y: int, x: int, dy: int, dx: int, k: int)
    requires Rectangular(grid) && 0 <= k <= 3
    requires CellInside(grid, y, x, dy, dx, 0) && CellInside(grid, y, x, dy, dx, 3)
    ensures CellInside(grid, y, x, dy, dx, k)
  {
    Between(y, dy, k, 0, |grid|);
    Between(x, dx, k, 0, |grid[0]|);
  }

  /** The character at the cell k steps along (dy, dx); the cell must be inside. */
  function CellAt(grid: seq<string>, y: int, x: int, dy: int, dx: int, k: int): char
    requires Rectangular(grid) && CellInside(grid, y, x, dy, dx, k)
  {
    var (yy, xx) := Step(y, x, dy, dx, k);
    InBoundsIndexes(grid, yy, xx);
    grid[yy][xx]
  }

  /** The loop `for k, ch in enumerate("XMAS")` from letter k on. */
  function LettersMatch(grid: seq<string>, y: int, x: int, dy: int, dx: int, k: nat): bool
    requires Rectangular(grid) && k <= 4
    requires CellInside(grid, y, x, dy, dx, 0) && CellInside(grid, y, x, dy, dx, 3)
    decreases 4 - k
  {
    if k == 4 then true
    else
      Convex(grid, y, x, dy, dx, k);
      if CellAt(grid, y, x, dy, dx, k) != Word[k] then false
      else LettersMatch(grid, y, x, dy, dx, k + 1)
  }

  /** `matches_xmas`: only the last cell is bounds-checked; the cells between follow. */
  function MatchesXmas(grid: seq<string>, y: int, x: int, dy: int, dx: int): bool
    requires Rectangular(grid) && InBounds(y, x, |grid|, |grid[0]|)
  {
    InBoundsIndexes(grid, y, x);
    if grid[y][x] != 'X' then false
    else
      var (ey, ex) := Step(y, x, dy, dx, 3);
      if !InBounds(ey, ex, |grid|, |grid[0]|) then false
      else
        assert CellInside(grid, y, x, dy, dx, 0) by { StepZeroIsIdentity(y, x, dy, dx); }
        LettersMatch(grid, y, x, dy, dx, 0)
  }

  /** Reference reading: all four cells exist and spell XMAS. */
  ghost predicate SpellsXmas(grid: seq<string>, y: int, x: int, dy: int, dx: int)
    requires Rectangular(grid)
  {
    forall k :: 0 <= k < 4 ==>
      CellInside(grid, y, x, dy, dx, k) && CellAt(grid, y, x, dy, dx, k) == Word[k]
  }

  lemma {:induction false} LettersMatchMeans(grid: seq<string>, y: int, x: int, dy: int, dx: int, k: nat)
    requires Rectangular(grid) && k <= 4
    requires CellInside(grid, y, x, dy, dx, 0) && CellInside(grid, y, x, dy, dx, 3)
    ensures LettersMatch(grid, y, x, dy, dx, k) <==>
      forall j :: k <= j < 4 ==> CellInside(grid, y, x, dy, dx, j) && CellAt(grid, y, x, dy, dx, j) == Word[j]
    decreases 4 - k
  {
    if k < 4 {
      Convex(grid, y, x, dy, dx, k);
      LettersMatchMeans(grid, y, x, dy, dx, k + 1);
    }
  }

  /**
   * `matches_xmas` holds exactly when the four cells along the direction are all inside
   * the grid and spell XMAS; in particular it is false unless the start is 'X', and it
   * never reads outside the grid.
   */
  lemma MatchesXmasMeans(grid: seq<string>, y: int, x: int, dy: int, dx: int)
    requires Rectangular(grid) && InBounds(y, x, |grid|, |grid[0]|)
    ensures MatchesXmas(grid, y, x, dy, dx) <==> SpellsXmas(grid, y, x, dy, dx)
  {
    StepZeroIsIdentity(y, x, dy, dx);
    assert CellInside(grid, y, x, dy, dx, 0);
    if CellInside(grid, y, x, dy, dx, 3) {
      LettersMatchMeans(grid, y, x, dy, dx, 0);
      assert CellAt(grid, y, x, dy, dx, 0) == grid[y][x];
    } else {
      assert !SpellsXmas(grid, y, x, dy, dx) by {
        assert !CellInside(grid, y, x, dy, dx, 3);
      }
    }
  }

  /** The pair reads "MS" or "SM". */
  function IsMasPair(a: char, b: char): (v: bool)
    ensures v <==> (a == 'M' && b == 'S') || (a == 'S' && b == 'M')
  {
    var d := [a] + [b];
    assert d == "MS" <==> a == 'M' && b == 'S' by { assert d[0] == a && d[1] == b; }
    assert d == "SM" <==> a == 'S' && b == 'M' by { assert d[0] == a && d[1] == b; }
    d in ["MS", "SM"]
  }

  /** `matches_x_mas`, on an interior cell so that all four diagonal neighbours exist. */
  function MatchesXMas(grid: seq<string>, y: int, x: int): (v: bool)
    requires Rectangular(grid) && 1 <= y < |grid| - 1 && 1 <= x < |grid[0]| - 1
    ensures v <==> (grid[y][x] == 'A'
      && ((grid[y - 1][x - 1] == 'M' && grid[y + 1][x + 1] == 'S')
          || (grid[y - 1][x - 1] == 'S' && grid[y + 1][x + 1] == 'M'))
      && ((grid[y - 1][x + 1] == 'M' && grid[y + 1][x - 1] == 'S')
          || (grid[y - 1][x + 1] == 'S' && grid[y + 1][x - 1] == 'M')))
  {
    grid[y][x] == 'A'
    && IsMasPair(grid[y - 1][x - 1], grid[y + 1][x + 1])
    && IsMasPair(grid[y - 1][x + 1], grid[y + 1][x - 1])
  }

  // --------------------------------------------------------------- part 1

  /** Matching directions at (y, x) among `ds`. */
  function CountDirections(grid: seq<string>, y: int, x: int, ds: seq<(int, int)>): (n: nat)
    requires Rectangular(grid) && InBounds(y, x, |grid|, |grid[0]|)
    ensures n <= |ds|
  {
    if ds == [] then 0
    else
      (if MatchesXmas(grid, y, x, ds[0].0, ds[0].1) then 1 else 0)
      + CountDirections(grid, y, x, ds[1..])
  }

  /** Matches over the cells (y, 0) .. (y, x - 1). */
  function CountRow(grid: seq<string>, y: int, x: nat): (n: nat)
    requires Rectangular(grid) && 0 <= y < |grid| && x <= |grid[0]|
    ensures n <= 8 * x
  {
    if x == 0 then 0
    else CountRow(grid, y, x - 1) + CountDirections(grid, y, x - 1, Directions8)
  }

  /** Matches over the rows 0 .. y - 1. */
  function CountRows(grid: seq<string>, y: nat): (n: nat)
    requires Rectangular(grid) && y <= |grid|
    ensures n <= 8 * y * |grid[0]|
  {
    if y == 0 then 0
    else
      var w := |grid[0]|;
      assert 8 * (y - 1) * w + 8 * w == 8 * y * w;
      CountRows(grid, y - 1) + CountRow(grid, y - 1, w)
  }

  /** `solve_part1` on a parsed grid: at most 8 matches per cell. */
  function Part1(grid: seq<string>): (n: nat)
    requires Rectangular(grid)
    ensures n <= 8 * |grid| * |grid[0]|
  {
    CountRows(grid, |grid|)
  }

  // --------------------------------------------------------------- part 2

  /** X-MAS centres over the cells (y, 1) .. (y, x - 1). */
  function CountInteriorRow(grid: seq<string>, y: int, x: nat): (n: nat)
    requires Rectangular(grid) && 1 <= y < |grid| - 1 && x <= |grid[0]| - 1
    ensures n <= x
  {
    if x <= 1 then 0
    else CountInteriorRow(grid, y, x - 1) + (if MatchesXMas(grid, y, x - 1) then 1 else 0)
  }

  /** X-MAS centres over the rows 1 .. y - 1. */
  function CountInteriorRows(grid: seq<string>, y: nat): (n: nat)
    requires Rectangular(grid) && y <= |grid| - 1 && |grid[0]| >= 1
    ensures n <= y * |grid[0]|
  {
    if y <= 1 then 0
    else
      var w := |grid[0]|;
      assert (y - 1) * w + w == y * w;
      CountInteriorRows(grid, y - 1) + CountInteriorRow(grid, y - 1, w - 1)
  }

  /** `solve_part2` on a parsed grid: only interior cells are candidate centres. */
  function Part2(grid: seq<string>): (n: nat)
    requires Rectangular(grid)
    ensures n <= |grid| * |grid[0]|
  {
    if |grid[0]| == 0 then 0 else CountInteriorRows(grid, |grid| - 1)
  }

  // ------------------------------------------------------ what the counts count

  /** No direction is listed twice. */
  predicate NoRepeats(ds: seq<(int, int)>)
  {
    forall i, j :: 0 <= i < j < |ds| ==> ds[i] != ds[j]
  }

  /** The directions among `ds` along which XMAS is spelled from (y, x). */
  ghost function SpelledAlong(grid: seq<string>, y: int, x: int, ds: seq<(int, int)>): set<(int, int)>
    requires Rectangular(grid)
  {
    set d | d in ds && SpellsXmas(grid, y, x, d.0, d.1)
  }

  lemma {:induction false} CountDirectionsCounts(grid: seq<string>, y: int, x: int, ds: seq<(int, int)>)
    requires Rectangular(grid) && InBounds(y, x, |grid|, |grid[0]|) && NoRepeats(ds)
    ensures CountDirections(grid, y, x, ds) == |SpelledAlong(grid, y, x, ds)|
  {
    if ds != [] {
      var rest := ds[1..];
      assert NoRepeats(rest) by {
        forall i, j | 0 <= i < j < |rest| ensures rest[i] != rest[j] {
          assert rest[i] == ds[i + 1] && rest[j] == ds[j + 1];
        }
      }
      CountDirectionsCounts(grid, y, x, rest);
      MatchesXmasMeans(grid, y, x, ds[0].0, ds[0].1);
      assert ds[0] !in rest by {
        forall j | 0 <= j < |rest| ensures rest[j] != ds[0] {
          assert rest[j] == ds[j + 1];
        }
      }
      var here := if SpellsXmas(grid, y, x, ds[0].0, ds[0].1) then {ds[0]} else {};
      assert SpelledAlong(grid, y, x, ds) == here + SpelledAlong(grid, y, x, rest);
      assert here * SpelledAlong(grid, y, x, rest) == {};
    }
  }

  /** The (column, direction) pairs of row y, columns below `x`, that spell XMAS. */
  ghost function RowHits(grid: seq<string>, y: int, x: int): set<(int, (int, int))>
    requires Rectangular(grid)
  {
    set c, d | 0 <= c < x && d in Directions8 && SpellsXmas(grid, y, c, d.0, d.1) :: (c, d)
  }

  /** Every element of `s` paired with the tag `c`. */
  ghost function Tagged<T>(c: int, s: set<T>): set<(int, T)>
  {
    set e | e in s :: (c, e)
  }

  /** Tagging every element with the same first component keeps the size. */
  lemma {:induction false} TagCard<T>(c: int, s: set<T>)
    ensures |Tagged(c, s)| == |s|
    decreases |s|
  {
    if s != {} {
      var e :| e in s;
      TagCard(c, s - {e});
      assert Tagged(c, s) == Tagged(c, s - {e}) + {(c, e)};
    }
  }

  /** Column x - 1 adds its own spelling directions to the row's hits. */
  lemma RowHitsStep(grid: seq<string>, y: int, x: int)
    requires Rectangular(grid) && 0 <= y < |grid| && 0 < x <= |grid[0]|
    ensures |RowHits(grid, y, x)| == |RowHits(grid, y, x - 1)| + |SpelledAlong(grid, y, x - 1, Directions8)|
  {
    var cell := SpelledAlong(grid, y, x - 1, Directions8);
    TagCard(x - 1, cell);
    var lifted := Tagged(x - 1, cell);
    forall p | p in RowHits(grid, y, x)
      ensures p in RowHits(grid, y, x - 1) + lifted
    {
      if p.0 == x - 1 {
        assert p.1 in cell;
      }
    }
    assert RowHits(grid, y, x) == RowHits(grid, y, x - 1) + lifted;
    assert RowHits(grid, y, x - 1) * lifted == {};
  }

  /** DIRECTIONS_8 lists each direction once. */
  lemma DirectionsDistinct()
    ensures NoRepeats(Directions8)
  {
  }

  lemma {:induction false} CountRowCounts(grid: seq<string>, y: int, x: nat)
    requires Rectangular(grid) && 0 <= y < |grid| && x <= |grid[0]|
    ensures CountRow(grid, y, x) == |RowHits(grid, y, x)|
  {
    if x > 0 {
      CountRowCounts(grid, y, x - 1);
      DirectionsDistinct();
      CountDirectionsCounts(grid, y, x - 1, Directions8);
      RowHitsStep(grid, y, x);
    } else {
      assert RowHits(grid, y, x) == {};
    }
  }

  /**
   * The (row, column, direction) triples, over rows below `y`, along which XMAS is
   * spelled: the reference reading of what `solve_part1` counts.
   */
  ghost function Hits(grid: seq<string>, y: int): set<(int, int, (int, int))>
    requires Rectangular(grid)
  {
    set r, c, d | 0 <= r < y && 0 <= c < |grid[0]| && d in Directions8
      && SpellsXmas(grid, r, c, d.0, d.1) :: (r, c, d)
  }

  lemma {:induction false} TripleCard(r: int, s: set<(int, (int, int))>)
    ensures |set p | p in s :: (r, p.0, p.1)| == |s|
    decreases |s|
  {
    if s != {} {
      var e :| e in s;
      TripleCard(r, s - {e});
      assert (set p | p in s :: (r, p.0, p.1))
        == (set p | p in s - {e} :: (r, p.0, p.1)) + {(r, e.0, e.1)};
    }
  }

  /** Row y - 1 adds its own hits, tagged with the row. */
  lemma HitsStep(grid: seq<string>, y: int)
    requires Rectangular(grid) && 0 < y <= |grid|
    ensures |Hits(grid, y)| == |Hits(grid, y - 1)| + |RowHits(grid, y - 1, |grid[0]|)|
  {
    var row := RowHits(grid, y - 1, |grid[0]|);
    TripleCard(y - 1, row);
    var lifted := set p | p in row :: (y - 1, p.0, p.1);
    forall t | t in Hits(grid, y)
      ensures t in Hits(grid, y - 1) + lifted
    {
      if t.0 == y - 1 {
        assert (t.1, t.2) in row;
      }
    }
    assert Hits(grid, y) == Hits(grid, y - 1) + lifted;
    assert Hits(grid, y - 1) * lifted == {};
  }

  lemma {:induction false} CountRowsCounts(grid: seq<string>, y: nat)
    requires Rectangular(grid) && y <= |grid|
    ensures CountRows(grid, y) == |Hits(grid, y)|
  {
    if y > 0 {
      CountRowsCounts(grid, y - 1);
      CountRowCounts(grid, y - 1, |grid[0]|);
      HitsStep(grid, y);
    } else {
      assert Hits(grid, y) == {};
    }
  }

  /**
   * `solve_part1` counts exactly the (cell, direction) pairs of the grid, over the
   * eight directions, whose four cells lie inside the grid and spell XMAS.
   */
  lemma Part1Counts(grid: seq<string>)
    requires Rectangular(grid)
    ensures Part1(grid) == |Hits(grid, |grid|)|
  {
    CountRowsCounts(grid, |grid|);
  }

  /** The interior centres of row y, columns 1 .. x - 1, where two MAS cross. */
  ghost function RowCentres(grid: seq<string>, y: int, x: int): set<int>
    requires Rectangular(grid) && 1 <= y < |grid| - 1 && x <= |grid[0]| - 1
  {
    set c | 1 <= c < x && MatchesXMas(grid, y, c)
  }

  lemma {:induction false} CountInteriorRowCounts(grid: seq<string>, y: int, x: nat)
    requires Rectangular(grid) && 1 <= y < |grid| - 1 && x <= |grid[0]| - 1
    ensures CountInteriorRow(grid, y, x) == |RowCentres(grid, y, x)|
  {
    if x > 1 {
      CountInteriorRowCounts(grid, y, x - 1);
      var here := if MatchesXMas(grid, y, x - 1) then {x - 1} else {};
      assert RowCentres(grid, y, x) == RowCentres(grid, y, x - 1) + here;
      assert RowCentres(grid, y, x - 1) * here == {};
    } else {
      assert RowCentres(grid, y, x) == {};
    }
  }

  /**
   * The interior cells, over rows 1 .. y - 1, where two MAS words cross: the reference
   * reading of what `solve_part2` counts.
   */
  ghost function Centres(grid: seq<string>, y: int): set<(int, int)>
    requires Rectangular(grid) && y <= |grid| - 1
  {
    set r, c | 1 <= r < y && 1 <= c < |grid[0]| - 1 && MatchesXMas(grid, r, c) :: (r, c)
  }

  /** Row y - 1 adds its own centres, tagged with the row. */
  lemma CentresStep(grid: seq<string>, y: int)
    requires Rectangular(grid) && 1 < y <= |grid| - 1 && |grid[0]| >= 1
    ensures |Centres(grid, y)| == |Centres(grid, y - 1)| + |RowCentres(grid, y - 1, |grid[0]| - 1)|
  {
    var row := RowCentres(grid, y - 1, |grid[0]| - 1);
    TagCard(y - 1, row);
    var lifted := Tagged(y - 1, row);
    forall t | t in Centres(grid, y)
      ensures t in Centres(grid, y - 1) + lifted
    {
      if t.0 == y - 1 {
        assert t.1 in row;
      }
    }
    assert Centres(grid, y) == Centres(grid, y - 1) + lifted;
    assert Centres(grid, y - 1) * lifted == {};
  }

  lemma {:induction false} CountInteriorRowsCounts(grid: seq<string>, y: nat)
    requires Rectangular(grid) && y <= |grid| - 1 && |grid[0]| >= 1
    ensures CountInteriorRows(grid, y) == |Centres(grid, y)|
  {
    if y > 1 {
      CountInteriorRowsCounts(grid, y - 1);
      CountInteriorRowCounts(grid, y - 1, |grid[0]| - 1);
      CentresStep(grid, y);
    } else {
      assert Centres(grid, y) == {};
    }
  }

  /**
   * `solve_part2` counts exactly the cells off the border holding an 'A' whose two
   * diagonals each read MAS in one direction or the other.
   */
  lemma Part2Counts(grid: seq<string>)
    requires Rectangular(grid) && |grid[0]| >= 1
    ensures Part2(grid) == |Centres(grid, |grid| - 1)|
  {
    CountInteriorRowsCounts(grid, |grid| - 1);
  }
}
