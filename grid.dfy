/**
 * The grid helpers shared by the grid puzzles (aoc/utils/grid.py): direction
 * tables of (dy, dx) vectors, a bounds test, stepping, neighbour lists and the
 * text-to-grid parser.
 */
module Grid {
  import opened Common
  import opened Text

  const Directions4: seq<(int, int)> := [(-1, 0), (0, 1), (1, 0), (0, -1)]

  const Directions8: seq<(int, int)> :=
    [(-1, 0), (1, 0), (0, -1), (0, 1), (-1, -1), (-1, 1), (1, -1), (1, 1)]

  const Diagonals: seq<(int, int)> := [(-1, -1), (-1, 1), (1, -1), (1, 1)]

  predicate InBounds(y: int, x: int, height: int, width: int)
  {
    0 <= y < height && 0 <= x < width
  }

  /** A grid whose rows all have the width of the first row (Python reads `len(grid[0])`). */
  predicate Rectangular(grid: seq<string>)
  {
    |grid| > 0 && forall r :: 0 <= r < |grid| ==> |grid[r]| == |grid[0]|
  }

  /** An in-bounds test against (height, width) of a rectangular grid licenses the index. */
  lemma InBoundsIndexes(grid: seq<string>, y: int, x: int)
    requires Rectangular(grid) && InBounds(y, x, |grid|, |grid[0]|)
    ensures 0 <= y < |grid| && 0 <= x < |grid[y]|
  {
  }

  /** The non-empty lines, in order. */
  function NonEmptyLines(ls: seq<string>): (r: seq<string>)
    ensures |r| <= |ls|
    ensures forall k :: 0 <= k < |r| ==> r[k] != [] && r[k] in ls
  {
    if ls == [] then []
    else if ls[0] == [] then NonEmptyLines(ls[1..])
    else [ls[0]] + NonEmptyLines(ls[1..])
  }

  /**
   * `parse_grid`: the non-empty lines of the text. The `rstrip("\n")` applied to
   * each line is the identity, since no line of `Lines` contains '\n'.
   */
  function ParseGrid(raw: string): (g: seq<string>)
    ensures forall k :: 0 <= k < |g| ==> g[k] != [] && '\n' !in g[k]
  {
    LinesHaveNoNewline(raw);
    NonEmptyLines(Lines(raw))
  }

  lemma {:induction false} NonEmptyLinesKeepsAll(ls: seq<string>)
    requires forall k :: 0 <= k < |ls| ==> ls[k] != []
    ensures NonEmptyLines(ls) == ls
  {
    if ls != [] {
      NonEmptyLinesKeepsAll(ls[1..]);
    }
  }

  lemma {:induction false} NonEmptyLinesAppend(a: seq<string>, b: seq<string>)
    ensures NonEmptyLines(a + b) == NonEmptyLines(a) + NonEmptyLines(b)
  {
    if a == [] {
      assert a + b == b;
    } else {
      assert (a + b)[1..] == a[1..] + b;
      NonEmptyLinesAppend(a[1..], b);
    }
  }

  /** N non-empty lines written one per line parse back to exactly those N rows. */
  lemma ParseGridRoundTrip(ls: seq<string>)
    requires forall k :: 0 <= k < |ls| ==> ls[k] != [] && '\n' !in ls[k]
    ensures ParseGrid(JoinLines(ls)) == ls
  {
    LinesOfJoinLines(ls);
    NonEmptyLinesKeepsAll(ls);
  }

  lemma NoNewlineConcat(a: seq<string>, b: seq<string>)
    requires forall k :: 0 <= k < |a| ==> '\n' !in a[k]
    requires forall k :: 0 <= k < |b| ==> '\n' !in b[k]
    ensures forall k :: 0 <= k < |a + b| ==> '\n' !in (a + b)[k]
  {
    forall k | 0 <= k < |a + b| ensures '\n' !in (a + b)[k] {
      if k >= |a| { assert (a + b)[k] == b[k - |a|]; }
    }
  }

  lemma NonEmptyLinesSkipsGap(a: seq<string>, b: seq<string>)
    requires forall k :: 0 <= k < |a| ==> a[k] != []
    requires forall k :: 0 <= k < |b| ==> b[k] != []
    ensures NonEmptyLines(a + [""] + b) == a + b
  {
    var gap: seq<string> := [""];
    assert NonEmptyLines(gap) == [] by {
      assert gap[0] == [] && gap[1..] == [];
    }
    NonEmptyLinesAppend(a, gap);
    NonEmptyLinesKeepsAll(a);
    assert NonEmptyLines(a + gap) == a;
    NonEmptyLinesAppend(a + gap, b);
    NonEmptyLinesKeepsAll(b);
  }

  /** Empty lines between rows are dropped and the other rows keep their order. */
  lemma ParseGridDropsEmptyLines(a: seq<string>, b: seq<string>)
    requires forall k :: 0 <= k < |a| ==> a[k] != [] && '\n' !in a[k]
    requires forall k :: 0 <= k < |b| ==> b[k] != [] && '\n' !in b[k]
    ensures ParseGrid(JoinLines(a + [""] + b)) == a + b
  {
    var gap: seq<string> := [""];
    var ls := a + gap + b;
    NoNewlineConcat(a, gap);
    NoNewlineConcat(a + gap, b);
    LinesOfJoinLines(ls);
    assert ParseGrid(JoinLines(ls)) == NonEmptyLines(ls);
    NonEmptyLinesSkipsGap(a, b);
  }

  function Get(grid: seq<string>, y: int, x: int): char
    requires 0 <= y < |grid| && 0 <= x < |grid[y]|
  {
    grid[y][x]
  }

  /** `step`: move (y, x) by `steps` times (dy, dx); the source's default is one step. */
  function Step(y: int, x: int, dy: int, dx: int, steps: int := 1): (int, int)
  {
    (y + dy * steps, x + dx * steps)
  }

  lemma StepZeroIsIdentity(y: int, x: int, dy: int, dx: int)
    ensures Step(y, x, dy, dx, 0) == (y, x)
  {
  }

  lemma StepDefaultIsUnit(y: int, x: int, dy: int, dx: int)
    ensures Step(y, x, dy, dx) == (y + dy, x + dx)
  {
  }

  /** Taking a steps and then b steps along one direction is taking a + b steps. */
  lemma StepCompose(y: int, x: int, dy: int, dx: int, a: int, b: int)
    ensures Step(Step(y, x, dy, dx, a).0, Step(y, x, dy, dx, a).1, dy, dx, b)
         == Step(y, x, dy, dx, a + b)
  {
    assert dy * a + dy * b == dy * (a + b);
    assert dx * a + dx * b == dx * (a + b);
  }

  /** `neighbors4`: up, right, down, left. */
  function Neighbors4(y: int, x: int): (r: seq<(int, int)>)
    ensures |r| == 4
    ensures r == [(y - 1, x), (y, x + 1), (y + 1, x), (y, x - 1)]
    ensures forall c :: c in r <==> Abs(c.0 - y) + Abs(c.1 - x) == 1
  {
    seq(4, k requires 0 <= k < 4 => (y + Directions4[k].0, x + Directions4[k].1))
  }

  /** `neighbors8`: the eight surrounding cells, in the order of DIRECTIONS_8. */
  function Neighbors8(y: int, x: int): (r: seq<(int, int)>)
    ensures |r| == 8
  {
    seq(8, k requires 0 <= k < 8 => (y + Directions8[k].0, x + Directions8[k].1))
  }

  /** The eight neighbours are pairwise distinct, none is the centre, and they are exactly the cells at Chebyshev distance 1. */
  lemma Neighbors8Cells(y: int, x: int)
    ensures var r := Neighbors8(y, x);
      (forall i, j :: 0 <= i < j < 8 ==> r[i] != r[j]) && (y, x) !in r &&
      forall c :: c in r <==> Max(Abs(c.0 - y), Abs(c.1 - x)) == 1
  {
    var r := Neighbors8(y, x);
    assert r == [(y - 1, x), (y + 1, x), (y, x - 1), (y, x + 1),
                 (y - 1, x - 1), (y - 1, x + 1), (y + 1, x - 1), (y + 1, x + 1)];
  }

  /** DIAGONALS is the part of DIRECTIONS_8 that moves on both axes; DIRECTIONS_4 the rest. */
  lemma DirectionTables()
    ensures forall d :: d in Diagonals <==> d in Directions8 && d.0 != 0 && d.1 != 0
    ensures forall d :: d in Directions4 <==> d in Directions8 && (d.0 == 0 || d.1 == 0)
  {
  }

  /** Turning right: Directions4[(d + 1) % 4] is Directions4[d] rotated 90 degrees clockwise. */
  lemma TurnRightRotates(d: int)
    requires 0 <= d < 4
    ensures Directions4[(d + 1) % 4] == (Directions4[d].1, -Directions4[d].0)
  {
  }
}
