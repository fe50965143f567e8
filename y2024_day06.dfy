/**
 * 2024 day 6 (aoc/year2024/day06.py): a guard walks a grid from '^', facing up, and
 * turns right in front of every '#'. Part 1 counts the cells it visits before leaving
 * the grid; part 2 counts the cells where one extra obstacle makes it walk forever,
 * using per-row and per-column sorted obstacle lists to jump from obstacle to obstacle.
 */
module Year2024Day06 {
  import opened Common
  import opened Sorting
  import opened Grid
  import opened Text

  const Up := 0
  const Right := 1
  const Down := 2
  const Left := 3

  /** A guard: row, column and direction (an index into `Directions4`). */
  type State = (int, int, int)

  // ------------------------------------------------------------------ parsing

  /**
   * The loop of `parse`: the first row holding '^' and the first '^' in it, or `None`
   * (the source raises `ValueError`) when there is none.
   */
  method FindStart(grid: seq<string>) returns (r: Option<(int, int)>)
    ensures r.Some? ==> IsStart(grid, r.value.0, r.value.1)
    ensures r.None? ==> forall k :: 0 <= k < |grid| ==> '^' !in grid[k]
  {
    for y := 0 to |grid|
      invariant forall k :: 0 <= k < y ==> '^' !in grid[k]
    {
      if '^' in grid[y] {
        var x := IndexOf(grid[y], '^');
        return Some((y, x));
      }
    }
    return None;
  }

  // ------------------------------------------------------------------- part 1

  /** A cell the guard may stand on: inside the grid and not an obstacle. */
  predicate Free(grid: seq<string>, y: int, x: int)
    requires Rectangular(grid)
  {
    InBounds(y, x, |grid|, |grid[0]|) && grid[y][x] != '#'
  }

  /**
   * One pass of the `while True` body of `get_path`: `None` when the cell ahead is off
   * the grid; otherwise a step onto a free cell ahead, or a turn to the right in place.
   */
  function Advance(grid: seq<string>, y: int, x: int, d: int): (r: Option<State>)
    requires Rectangular(grid) && 0 <= d < 4
    ensures var ahead := Step(y, x, Directions4[d].0, Directions4[d].1);
      && (r.None? <==> !InBounds(ahead.0, ahead.1, |grid|, |grid[0]|))
      && (r.Some? && Free(grid, ahead.0, ahead.1) ==> r.value == (ahead.0, ahead.1, d))
      && (r.Some? && !Free(grid, ahead.0, ahead.1) ==> r.value == (y, x, (d + 1) % 4))
  {
    var (dy, dx) := Directions4[d];
    var (ny, nx) := Step(y, x, dy, dx);
    if !InBounds(ny, nx, |grid|, |grid[0]|) then None
    else if grid[ny][nx] != '#' then Some((ny, nx, d))
    else Some((y, x, (d + 1) % 4))
  }

  /**
   * The cells `get_path` returns when it starts in state (y, x, d) having visited
   * `visited`; `None` when the guard has not left within `fuel` passes (the source
   * loops forever when the guard never leaves).
   */
  function Path(grid: seq<string>, y: int, x: int, d: int, visited: set<(int, int)>, fuel: nat)
    : Option<set<(int, int)>>
    requires Rectangular(grid) && 0 <= d < 4
    decreases fuel
  {
    match Advance(grid, y, x, d)
      case None => Some(visited)
      case Some((ny, nx, nd)) =>
        if fuel == 0 then None else Path(grid, ny, nx, nd, visited + {(ny, nx)}, fuel - 1)
  }

  /** `get_path`, run for at most `fuel` passes of its loop. */
  method GetPath(grid: seq<string>, startY: int, startX: int, fuel: nat)
    returns (r: Option<set<(int, int)>>)
    requires Rectangular(grid)
    ensures r == Path(grid, startY, startX, Up, {(startY, startX)}, fuel)
  {
    var h, w := |grid|, |grid[0]|;
    var y, x, d := startY, startX, Up;
    var visited := {(y, x)};
    var left := fuel;
    while true
      invariant 0 <= d < 4 && (y, x) in visited
      invariant Path(grid, y, x, d, visited, left) == Path(grid, startY, startX, Up, {(startY, startX)}, fuel)
      decreases left
    {
      var (dy, dx) := Directions4[d];
      var (ny, nx) := Step(y, x, dy, dx);
      if !InBounds(ny, nx, h, w) {
        return Some(visited);
      }
      if left == 0 {
        return None;
      }
      left := left - 1;
      if grid[ny][nx] != '#' {
        assert Advance(grid, y, x, d) == Some((ny, nx, d));
        y, x := ny, nx;
        visited := visited + {(y, x)};
      } else {
        assert Advance(grid, y, x, d) == Some((y, x, (d + 1) % 4));
        assert visited + {(y, x)} == visited;
        d := (d + 1) % 4;
      }
    }
  }

  /**
   * Every cell of the path is free and the cells visited so far (the start among them)
   * are on it: the guard never stands on an obstacle or outside the grid.
   */
  lemma {:induction false} PathCellsFree(grid: seq<string>, y: int, x: int, d: int, visited: set<(int, int)>, fuel: nat)
    requires Rectangular(grid) && 0 <= d < 4
    requires Free(grid, y, x)
    requires forall c :: c in visited ==> Free(grid, c.0, c.1)
    ensures var p := Path(grid, y, x, d, visited, fuel);
      p.Some? ==> visited <= p.value && forall c :: c in p.value ==> Free(grid, c.0, c.1)
    decreases fuel
  {
    match Advance(grid, y, x, d)
      case None =>
      case Some((ny, nx, nd)) =>
        if fuel > 0 {
          PathCellsFree(grid, ny, nx, nd, visited + {(ny, nx)}, fuel - 1);
        }
  }

  // ---------------------------------------------------------- obstacle index

  /** `rows.get(r, [])`: a key the defaultdict lacks reads as the empty list. */
  function Lookup(m: map<int, seq<int>>, k: int): seq<int>
  {
    if k in m then m[k] else []
  }

  /** The columns 0 .. n - 1 of `row` holding '#', in the order the scan appends them. */
  function RowObstacles(row: string, n: nat): seq<int>
    requires n <= |row|
  {
    if n == 0 then [] else RowObstacles(row, n - 1) + (if row[n - 1] == '#' then [n - 1] else [])
  }

  /** The rows 0 .. n - 1 of column `c` holding '#', in the order the scan appends them. */
  function ColObstacles(grid: seq<string>, c: int, n: nat): seq<int>
    requires Rectangular(grid) && 0 <= c < |grid[0]| && n <= |grid|
  {
    if n == 0 then [] else ColObstacles(grid, c, n - 1) + (if grid[n - 1][c] == '#' then [n - 1] else [])
  }

  predicate StrictlyAscending(s: seq<int>)
  {
    forall i, j :: 0 <= i < j < |s| ==> s[i] < s[j]
  }

  /** `rows[r]` holds exactly the '#' columns of the row, in strictly increasing order. */
  lemma {:induction false} RowObstaclesMeans(row: string, n: nat)
    requires n <= |row|
    ensures StrictlyAscending(RowObstacles(row, n)) && SortedInts(RowObstacles(row, n))
    ensures forall e :: e in RowObstacles(row, n) <==> 0 <= e < n && row[e] == '#'
  {
    if n > 0 {
      RowObstaclesMeans(row, n - 1);
      var p := RowObstacles(row, n - 1);
      var r := RowObstacles(row, n);
      forall i, j | 0 <= i < j < |r| ensures r[i] < r[j] {
        if j >= |p| {
          assert r[i] == p[i] && p[i] in p;
        }
      }
    }
  }

  /** `cols[c]` holds exactly the '#' rows of the column, in strictly increasing order. */
  lemma {:induction false} ColObstaclesMeans(grid: seq<string>, c: int, n: nat)
    requires Rectangular(grid) && 0 <= c < |grid[0]| && n <= |grid|
    ensures StrictlyAscending(ColObstacles(grid, c, n)) && SortedInts(ColObstacles(grid, c, n))
    ensures forall e :: e in ColObstacles(grid, c, n) <==> 0 <= e < n && grid[e][c] == '#'
  {
    if n > 0 {
      ColObstaclesMeans(grid, c, n - 1);
      var p := ColObstacles(grid, c, n - 1);
      var r := ColObstacles(grid, c, n);
      forall i, j | 0 <= i < j < |r| ensures r[i] < r[j] {
        if j >= |p| {
          assert r[i] == p[i] && p[i] in p;
        }
      }
    }
  }

  /** A list already in order is its own sort, so the `lst.sort()` passes change nothing. */
  lemma SortedIsOwnSort(s: seq<int>)
    requires StrictlyAscending(s)
    ensures SortInts(s) == s
  {
    SortedUnique(SortInts(s), s);
  }

  /** The obstacle lists a rectangular grid gives rise to. */
  ghost predicate IndexesGrid(grid: seq<string>, rows: map<int, seq<int>>, cols: map<int, seq<int>>)
    requires Rectangular(grid)
  {
    && (forall r :: Lookup(rows, r) == (if 0 <= r < |grid| then RowObstacles(grid[r], |grid[0]|) else []))
    && (forall c :: Lookup(cols, c) == (if 0 <= c < |grid[0]| then ColObstacles(grid, c, |grid|) else []))
  }

  /** The lists after scanning rows 0 .. y - 1 (`y <= |grid|`). */
  function RowsBefore(grid: seq<string>, y: int, r: int): seq<int>
    requires Rectangular(grid) && y <= |grid|
  {
    if 0 <= r < y then RowObstacles(grid[r], |grid[0]|) else []
  }

  function ColsBefore(grid: seq<string>, y: nat, c: int): seq<int>
    requires Rectangular(grid) && y <= |grid|
  {
    if 0 <= c < |grid[0]| then ColObstacles(grid, c, y) else []
  }

  /** `build_obstacle_index`: a row-major scan appending to defaultdict lists, then a sort of each. */
  method BuildObstacleIndex(grid: seq<string>) returns (rows: map<int, seq<int>>, cols: map<int, seq<int>>)
    requires Rectangular(grid)
    ensures IndexesGrid(grid, rows, cols)
  {
    rows, cols := ScanGrid(grid);
    SortChangesNothing(grid, rows, cols);
    rows, cols := SortEach(rows), SortEach(cols);
  }

  /** The row-major scan of `build_obstacle_index`, before the sorts. */
  method ScanGrid(grid: seq<string>) returns (rows: map<int, seq<int>>, cols: map<int, seq<int>>)
    requires Rectangular(grid)
    ensures forall r :: Lookup(rows, r) == RowsBefore(grid, |grid|, r)
    ensures forall c :: Lookup(cols, c) == ColsBefore(grid, |grid|, c)
  {
    rows, cols := map[], map[];
    for y := 0 to |grid|
      invariant forall r :: Lookup(rows, r) == RowsBefore(grid, y, r)
      invariant forall c :: Lookup(cols, c) == ColsBefore(grid, y, c)
    {
      rows, cols := ScanRow(grid, y, rows, cols);
    }
  }

  /** The final `for lst in ...: lst.sort()` over every list of a dict. */
  function SortEach(m: map<int, seq<int>>): map<int, seq<int>>
  {
    map k | k in m :: SortInts(m[k])
  }

  /** Sorting lists that are already strictly ascending leaves the dict as it was. */
  lemma SortEachFixed(m: map<int, seq<int>>)
    requires forall k | k in m :: StrictlyAscending(m[k])
    ensures SortEach(m) == m
  {
    forall k | k in m ensures SortInts(m[k]) == m[k] {
      SortedIsOwnSort(m[k]);
    }
  }

  /** Row lists once the cells (y, 0) .. (y, x - 1) of row y have been scanned. */
  ghost predicate RowsScanned(grid: seq<string>, y: int, x: nat, rows: map<int, seq<int>>)
    requires Rectangular(grid) && 0 <= y < |grid| && x <= |grid[0]|
  {
    forall r :: Lookup(rows, r) == if r == y then RowObstacles(grid[y], x) else RowsBefore(grid, y, r)
  }

  /** Column lists once the cells (y, 0) .. (y, x - 1) of row y have been scanned. */
  ghost predicate ColsScanned(grid: seq<string>, y: int, x: nat, cols: map<int, seq<int>>)
    requires Rectangular(grid) && 0 <= y < |grid| && x <= |grid[0]|
  {
    forall c :: Lookup(cols, c) == if 0 <= c < x then ColObstacles(grid, c, y + 1) else ColsBefore(grid, y, c)
  }

  /** `rows[k].append(v)` on a defaultdict. */
  function Append(m: map<int, seq<int>>, k: int, v: int): map<int, seq<int>>
  {
    m[k := Lookup(m, k) + [v]]
  }

  /** The inner loop of the scan: row `y`, cell by cell. */
  method ScanRow(grid: seq<string>, y: int, rows0: map<int, seq<int>>, cols0: map<int, seq<int>>)
    returns (rows: map<int, seq<int>>, cols: map<int, seq<int>>)
    requires Rectangular(grid) && 0 <= y < |grid|
    requires forall r :: Lookup(rows0, r) == RowsBefore(grid, y, r)
    requires forall c :: Lookup(cols0, c) == ColsBefore(grid, y, c)
    ensures forall r :: Lookup(rows, r) == RowsBefore(grid, y + 1, r)
    ensures forall c :: Lookup(cols, c) == ColsBefore(grid, y + 1, c)
  {
    var w := |grid[0]|;
    rows, cols := rows0, cols0;
    assert RowsScanned(grid, y, 0, rows) && ColsScanned(grid, y, 0, cols);
    for x := 0 to w
      invariant RowsScanned(grid, y, x, rows) && ColsScanned(grid, y, x, cols)
    {
      if grid[y][x] == '#' {
        ScanCellRows(grid, y, x, rows, Append(rows, y, x), true);
        ScanCellCols(grid, y, x, cols, Append(cols, x, y), true);
        rows := Append(rows, y, x);
        cols := Append(cols, x, y);
      } else {
        ScanCellRows(grid, y, x, rows, rows, false);
        ScanCellCols(grid, y, x, cols, cols, false);
      }
    }
    assert RowsScanned(grid, y, w, rows) && ColsScanned(grid, y, w, cols);
  }

  /** One cell of the scan keeps the row invariant of the inner loop. */
  lemma ScanCellRows(grid: seq<string>, y: int, x: int, rows0: map<int, seq<int>>, rows: map<int, seq<int>>, hit: bool)
    requires Rectangular(grid) && 0 <= y < |grid| && 0 <= x < |grid[0]|
    requires RowsScanned(grid, y, x, rows0) && hit == (grid[y][x] == '#')
    requires rows == if hit then Append(rows0, y, x) else rows0
    ensures RowsScanned(grid, y, x + 1, rows)
  {
    assert Lookup(rows0, y) == RowObstacles(grid[y], x);
    assert Lookup(rows, y) == RowObstacles(grid[y], x + 1);
    forall r | r != y ensures Lookup(rows, r) == RowsBefore(grid, y, r) {
      assert Lookup(rows, r) == Lookup(rows0, r);
    }
  }

  /** One cell of the scan keeps the column invariant of the inner loop. */
  lemma ScanCellCols(grid: seq<string>, y: int, x: int, cols0: map<int, seq<int>>, cols: map<int, seq<int>>, hit: bool)
    requires Rectangular(grid) && 0 <= y < |grid| && 0 <= x < |grid[0]|
    requires ColsScanned(grid, y, x, cols0) && hit == (grid[y][x] == '#')
    requires cols == if hit then Append(cols0, x, y) else cols0
    ensures ColsScanned(grid, y, x + 1, cols)
  {
    assert Lookup(cols0, x) == ColObstacles(grid, x, y);
    assert Lookup(cols, x) == ColObstacles(grid, x, y + 1);
    forall c | c != x ensures Lookup(cols, c) == Lookup(cols0, c) {
    }
  }

  /** The lists come out of the scan in order, so sorting each of them is the identity. */
  lemma SortChangesNothing(grid: seq<string>, rows: map<int, seq<int>>, cols: map<int, seq<int>>)
    requires Rectangular(grid) && IndexesGrid(grid, rows, cols)
    ensures SortEach(rows) == rows && SortEach(cols) == cols
  {
    var h, w := |grid|, |grid[0]|;
    forall r | r in rows ensures StrictlyAscending(rows[r]) {
      assert rows[r] == Lookup(rows, r);
      if 0 <= r < h {
        RowObstaclesMeans(grid[r], w);
      }
    }
    forall c | c in cols ensures StrictlyAscending(cols[c]) {
      assert cols[c] == Lookup(cols, c);
      if 0 <= c < w {
        ColObstaclesMeans(grid, c, h);
      }
    }
    SortEachFixed(rows);
    SortEachFixed(cols);
  }

  // ------------------------------------------------------ sorted-list search

  /** `bisect(sorted_list, value)` (bisect_right): the number of leading elements <= value. */
  function BisectRight(s: seq<int>, v: int): (i: nat)
    ensures i <= |s|
  {
    if s == [] || s[0] > v then 0 else 1 + BisectRight(s[1..], v)
  }

  /** Everything before the insertion point is <= v; on an ascending list the rest is > v. */
  lemma {:induction false} BisectRightSplits(s: seq<int>, v: int)
    ensures forall k :: 0 <= k < BisectRight(s, v) ==> s[k] <= v
    ensures SortedInts(s) ==> forall k :: BisectRight(s, v) <= k < |s| ==> s[k] > v
  {
    if s != [] && s[0] <= v {
      BisectRightSplits(s[1..], v);
      assert forall k :: 1 <= k < |s| ==> s[k] == s[1..][k - 1];
    }
  }

  /**
   * `_prev`: the element just before the insertion point. Since bisect_right counts the
   * elements equal to `value` too, it is the largest element <= value (not < value as
   * the source's docstring has it); the difference never shows, because the guard
   * never stands on an obstacle.
   */
  function Prev(s: seq<int>, v: int): (r: Option<int>)
    ensures SortedInts(s) && r.Some? ==>
      r.value in s && r.value <= v && forall e :: e in s && e <= v ==> e <= r.value
    ensures SortedInts(s) && r.None? ==> forall e :: e in s ==> e > v
  {
    var i := BisectRight(s, v);
    BisectRightSplits(s, v);
    if i > 0 then Some(s[i - 1]) else None
  }

  /** `_next`: the least element > value, or `None`. */
  function Next(s: seq<int>, v: int): (r: Option<int>)
    ensures SortedInts(s) && r.Some? ==>
      r.value in s && r.value > v && forall e :: e in s && e > v ==> r.value <= e
    ensures SortedInts(s) && r.None? ==> forall e :: e in s ==> e <= v
  {
    var i := BisectRight(s, v);
    BisectRightSplits(s, v);
    if i < |s| then Some(s[i]) else None
  }

  /** `insort` (insort_right): `v` goes in after every element <= v. */
  function Insort(s: seq<int>, v: int): seq<int>
  {
    if s == [] || s[0] > v then [v] + s else [s[0]] + Insort(s[1..], v)
  }

  /** Inserting adds exactly one copy of `v`. */
  lemma {:induction false} InsortAdds(s: seq<int>, v: int)
    ensures multiset(Insort(s, v)) == multiset(s) + multiset{v}
  {
    if s != [] && s[0] <= v {
      InsortAdds(s[1..], v);
      assert s == [s[0]] + s[1..];
    }
  }

  /** The insertion point is the bisect_right position, as `insort` documents. */
  lemma {:induction false} InsortAtBisect(s: seq<int>, v: int)
    ensures Insort(s, v) == s[..BisectRight(s, v)] + [v] + s[BisectRight(s, v)..]
  {
    if s != [] && s[0] <= v {
      InsortAtBisect(s[1..], v);
      var t, i := s[1..], BisectRight(s[1..], v);
      assert BisectRight(s, v) == i + 1;
      calc {
        Insort(s, v);
        [s[0]] + Insort(t, v);
        [s[0]] + (t[..i] + [v] + t[i..]);
        ([s[0]] + t[..i]) + [v] + t[i..];
        { assert s[..i + 1] == [s[0]] + t[..i]; assert s[i + 1..] == t[i..]; }
        s[..i + 1] + [v] + s[i + 1..];
      }
    }
  }

  /** Inserting keeps a list ascending. */
  lemma InsortSorted(s: seq<int>, v: int)
    requires SortedInts(s)
    ensures SortedInts(Insort(s, v))
  {
    InsortAtBisect(s, v);
    BisectRightSplits(s, v);
    var i := BisectRight(s, v);
    var r := Insort(s, v);
    assert |r| == |s| + 1;
    forall k | 0 <= k < |r| - 1 ensures r[k] <= r[k + 1] {
      if k + 1 < i {
        assert r[k] == s[k] && r[k + 1] == s[k + 1];
      } else if k + 1 == i {
        assert r[k] == s[k] && r[k + 1] == v;
      } else if k == i {
        assert r[k] == v && r[k + 1] == s[k];
      } else {
        assert r[k] == s[k - 1] && r[k + 1] == s[k];
      }
    }
    AdjacentSorted(r);
  }

  /** `list.remove(value)`: drop the first occurrence; the source raises when there is none. */
  function Remove(s: seq<int>, v: int): (r: seq<int>)
    requires v in s
    ensures multiset(r) == multiset(s) - multiset{v}
  {
    if s[0] == v then
      assert s == [s[0]] + s[1..];
      s[1..]
    else
      assert s == [s[0]] + s[1..];
      [s[0]] + Remove(s[1..], v)
  }

  lemma {:induction false} InsortBeforeAll(t: seq<int>, v: int)
    requires SortedInts(t) && forall e :: e in t ==> e >= v
    ensures Insort(t, v) == [v] + t
  {
    if t != [] && t[0] <= v {
      assert t[0] in t;
      InsortBeforeAll(t[1..], v);
      assert t == [t[0]] + t[1..];
    }
  }

  /** Removing what was just inserted gives back the same ascending list. */
  lemma {:induction false} RemoveInsort(s: seq<int>, v: int)
    requires SortedInts(s)
    ensures v in Insort(s, v) && Remove(Insort(s, v), v) == s
  {
    InsortAdds(s, v);
    assert v in multiset(Insort(s, v));
    if s != [] && s[0] <= v {
      assert s == [s[0]] + s[1..];
      if s[0] == v {
        InsortBeforeAll(s[1..], v);
      } else {
        RemoveInsort(s[1..], v);
      }
    }
  }

  // --------------------------------------------------------- indexed moves

  /** The `rows, cols, h, w` arguments the source passes around together. */
  datatype Index = Index(rows: map<int, seq<int>>, cols: map<int, seq<int>>, h: int, w: int)

  /** The index the scan of a rectangular grid describes. */
  ghost function GridIndex(grid: seq<string>): Index
    requires Rectangular(grid)
  {
    Index(map r | 0 <= r < |grid| :: RowObstacles(grid[r], |grid[0]|),
          map c | 0 <= c < |grid[0]| :: ColObstacles(grid, c, |grid|),
          |grid|, |grid[0]|)
  }

  /** Two indexes that read the same through `rows.get(r, [])` and `cols.get(c, [])`. */
  ghost predicate SameLists(a: Index, b: Index)
  {
    a.h == b.h && a.w == b.w
    && (forall k :: Lookup(a.rows, k) == Lookup(b.rows, k))
    && (forall k :: Lookup(a.cols, k) == Lookup(b.cols, k))
  }

  /**
   * Ascending lists whose entries lie in the grid or on its bottom or right edge (the
   * entries part 2 inserts can be one past the last row or column).
   */
  ghost predicate WellFormed(idx: Index)
  {
    idx.h >= 0 && idx.w >= 0
    && (forall k :: SortedInts(Lookup(idx.rows, k)))
    && (forall k :: SortedInts(Lookup(idx.cols, k)))
    && (forall k, e :: e in Lookup(idx.rows, k) ==> 0 <= e <= idx.w)
    && (forall k, e :: e in Lookup(idx.cols, k) ==> 0 <= e <= idx.h)
  }

  predicate Inside(idx: Index, s: State)
  {
    0 <= s.0 < idx.h && 0 <= s.1 < idx.w
  }

  /**
   * `move_with_index`: slide from (y, x) in direction d to the cell before the next
   * obstacle, or to -1, h or w when there is none, and turn right. On ascending lists the
   * guard keeps its column (row), no obstacle lies between where it was and where it
   * stops, and it stops against an obstacle unless it left the grid.
   */
  function MoveWithIndex(s: State, idx: Index): (r: State)
    ensures 0 <= s.2 < 4 ==> r.2 == (s.2 + 1) % 4
    ensures var (y, x, d) := s; var col, row := Lookup(idx.cols, x), Lookup(idx.rows, y);
      SortedInts(col) && SortedInts(row) ==>
        && (d == Up ==> (r.1 == x && (r.0 == -1 || (r.0 - 1 in col && r.0 - 1 <= y))
                         && forall e :: e in col ==> e < r.0 || e > y))
        && (d == Right ==> (r.0 == y && (r.1 == idx.w || (r.1 + 1 in row && r.1 + 1 > x))
                            && forall e :: e in row ==> e <= x || e > r.1))
        && (d == Down ==> (r.1 == x && (r.0 == idx.h || (r.0 + 1 in col && r.0 + 1 > y))
                           && forall e :: e in col ==> e <= y || e > r.0))
        && (d == Left ==> (r.0 == y && (r.1 == -1 || (r.1 - 1 in row && r.1 - 1 <= x))
                           && forall e :: e in row ==> e < r.1 || e > x))
  {
    var (y, x, d) := s;
    if d == Up then
      var prevRow := Prev(Lookup(idx.cols, x), y);
      (if prevRow.Some? then prevRow.value + 1 else -1, x, Right)
    else if d == Right then
      var nextCol := Next(Lookup(idx.rows, y), x);
      (y, if nextCol.Some? then nextCol.value - 1 else idx.w, Down)
    else if d == Down then
      var nextRow := Next(Lookup(idx.cols, x), y);
      (if nextRow.Some? then nextRow.value - 1 else idx.h, x, Left)
    else
      var prevCol := Prev(Lookup(idx.rows, y), x);
      (y, if prevCol.Some? then prevCol.value + 1 else -1, Up)
  }

  /** The states a guard can reach from inside the grid of a well-formed index. */
  predicate InRange(idx: Index, s: State)
  {
    -1 <= s.0 <= idx.h + 1 && -1 <= s.1 <= idx.w + 1 && 0 <= s.2 < 4
  }

  ghost function States(idx: Index): set<State>
  {
    set y: int, x: int, d: int | -1 <= y <= idx.h + 1 && -1 <= x <= idx.w + 1 && 0 <= d < 4 :: (y, x, d)
  }

  /** A move from inside the grid stays in range; moving right or down it stops by w or h. */
  lemma MoveStaysInRange(s: State, idx: Index)
    requires WellFormed(idx) && Inside(idx, s) && 0 <= s.2 < 4
    ensures var r := MoveWithIndex(s, idx);
      InRange(idx, r) && r in States(idx)
      && (s.2 == Right ==> r.1 <= idx.w) && (s.2 == Down ==> r.0 <= idx.h)
      && (s.2 == Up ==> r.0 >= -1) && (s.2 == Left ==> r.1 >= -1)
  {
    var (y, x, d) := s;
    var r := MoveWithIndex(s, idx);
    var col, row := Lookup(idx.cols, x), Lookup(idx.rows, y);
    assert SortedInts(col) && SortedInts(row);
    if d == Up && r.0 != -1 {
      assert 0 <= r.0 - 1 <= idx.h;
    } else if d == Right && r.1 != idx.w {
      assert 0 <= r.1 + 1 <= idx.w;
    } else if d == Down && r.0 != idx.h {
      assert 0 <= r.0 + 1 <= idx.h;
    } else if d == Left && r.1 != -1 {
      assert 0 <= r.1 - 1 <= idx.w;
    }
  }

  /** Adding an unseen state of the range leaves fewer unseen states. */
  lemma FewerUnseen(idx: Index, seen: set<State>, n: State)
    requires seen <= States(idx) && n in States(idx) && n !in seen
    ensures seen + {n} <= States(idx)
    ensures |States(idx) - (seen + {n})| < |States(idx) - seen|
  {
    assert States(idx) - seen == (States(idx) - (seen + {n})) + {n};
  }

  /** The loop of `is_looping` from state s with the states `seen` behind it. */
  ghost function Looping(idx: Index, s: State, seen: set<State>): bool
    requires WellFormed(idx) && InRange(idx, s) && seen <= States(idx)
    decreases |States(idx) - seen|
  {
    if !Inside(idx, s) then false
    else
      var n := MoveWithIndex(s, idx);
      MoveStaysInRange(s, idx);
      if n in seen then true
      else
        FewerUnseen(idx, seen, n);
        Looping(idx, n, seen + {n})
  }

  /** The state after k moves. */
  function Iter(idx: Index, s: State, k: nat): State
  {
    if k == 0 then s else MoveWithIndex(Iter(idx, s, k - 1), idx)
  }

  lemma {:induction false} IterAdd(idx: Index, s: State, a: nat, b: nat)
    ensures Iter(idx, s, a + b) == Iter(idx, Iter(idx, s, a), b)
    decreases b
  {
    if b > 0 {
      IterAdd(idx, s, a, b - 1);
    }
  }

  /** IterAdd with the total number of moves named. */
  lemma IterAt(idx: Index, s: State, a: nat, b: nat, c: nat)
    requires c == a + b
    ensures Iter(idx, s, c) == Iter(idx, Iter(idx, s, a), b)
  {
    IterAdd(idx, s, a, b);
  }

  /** Once the state after j moves repeats the one after i < j, no later state is new. */
  lemma {:induction false} Recurs(idx: Index, s: State, i: nat, j: nat, k: nat)
    requires i < j && Iter(idx, s, j) == Iter(idx, s, i)
    ensures exists m :: 0 <= m < j && Iter(idx, s, k) == Iter(idx, s, m)
    decreases k
  {
    if k >= j {
      var d := k - j;
      var earlier := i + d;
      IterAt(idx, s, j, d, k);
      IterAt(idx, s, i, d, earlier);
      assert Iter(idx, s, k) == Iter(idx, s, earlier);
      Recurs(idx, s, i, j, earlier);
      var m :| 0 <= m < j && Iter(idx, s, earlier) == Iter(idx, s, m);
      assert Iter(idx, s, k) == Iter(idx, s, m);
    } else {
      assert Iter(idx, s, k) == Iter(idx, s, k);
    }
  }

  /** The states after 0 .. n moves. */
  ghost function Trace(idx: Index, s: State, n: nat): set<State>
  {
    set j | 0 <= j <= n :: Iter(idx, s, j)
  }

  lemma TraceZero(idx: Index, s: State)
    ensures Trace(idx, s, 0) == {s}
  {
    assert Iter(idx, s, 0) == s;
    assert s in Trace(idx, s, 0);
  }

  lemma TraceGrows(idx: Index, s: State, n: nat)
    ensures Trace(idx, s, n + 1) == Trace(idx, s, n) + {Iter(idx, s, n + 1)}
  {
    var longer, shorter := Trace(idx, s, n + 1), Trace(idx, s, n);
    forall z | z in longer ensures z in shorter + {Iter(idx, s, n + 1)} {
      var j :| 0 <= j <= n + 1 && z == Iter(idx, s, j);
      if j <= n {
        assert z in shorter;
      }
    }
    forall z | z in shorter ensures z in longer {
      var j :| 0 <= j <= n && z == Iter(idx, s, j);
      assert 0 <= j <= n + 1;
    }
    assert Iter(idx, s, n + 1) in longer;
  }

  lemma InRangeInStates(idx: Index, s: State)
    requires InRange(idx, s)
    ensures s in States(idx)
  {
    var (y, x, d) := s;
    assert (y, x, d) in States(idx);
  }

  /** The guard from s never leaves the grid. */
  ghost predicate StaysInside(idx: Index, s: State)
  {
    forall k: nat :: Inside(idx, Iter(idx, s, k))
  }

  /** When the state after n + 1 moves repeats an earlier one, the guard stays inside for good. */
  lemma RepeatStaysInside(idx: Index, s0: State, i: nat, n: nat)
    requires i <= n && Iter(idx, s0, n + 1) == Iter(idx, s0, i)
    requires forall j :: 0 <= j <= n ==> Inside(idx, Iter(idx, s0, j))
    ensures StaysInside(idx, s0)
  {
    forall k: nat ensures Inside(idx, Iter(idx, s0, k)) {
      Recurs(idx, s0, i, n + 1, k);
    }
  }

  lemma RepeatInTrace(idx: Index, s0: State, n: nat)
    requires Iter(idx, s0, n + 1) in Trace(idx, s0, n)
    requires forall j :: 0 <= j <= n ==> Inside(idx, Iter(idx, s0, j))
    ensures StaysInside(idx, s0)
  {
    var i :| 0 <= i <= n && Iter(idx, s0, i) == Iter(idx, s0, n + 1);
    RepeatStaysInside(idx, s0, i, n);
  }

  /**
   * `is_looping` answers true exactly when the guard never leaves the grid: a repeated
   * state means the walk cycles inside it, and a walk that never repeats must leave,
   * since it moves among finitely many states.
   */
  lemma {:induction false} LoopingMeans(idx: Index, s0: State, n: nat, seen: set<State>)
    requires WellFormed(idx) && InRange(idx, Iter(idx, s0, n)) && seen <= States(idx)
    requires seen == Trace(idx, s0, n)
    requires forall j :: 0 <= j < n ==> Inside(idx, Iter(idx, s0, j))
    ensures Looping(idx, Iter(idx, s0, n), seen) <==> StaysInside(idx, s0)
    decreases |States(idx) - seen|, 1
  {
    var s := Iter(idx, s0, n);
    if Inside(idx, s) {
      var next := MoveWithIndex(s, idx);
      LoopingUnfold(idx, s, seen);
      assert next == Iter(idx, s0, n + 1);
      if next in seen {
        RepeatInTrace(idx, s0, n);
      } else {
        InsideThrough(idx, s0, n);
        LoopingMeansAfter(idx, s0, n, seen);
      }
    } else {
      assert !Inside(idx, Iter(idx, s0, n));
    }
  }

  /** `LoopingMeans` one move further on, when that move reaches an unseen state. */
  lemma {:induction false} LoopingMeansAfter(idx: Index, s0: State, n: nat, seen: set<State>)
    requires WellFormed(idx) && InRange(idx, Iter(idx, s0, n))
    requires seen <= States(idx) && seen == Trace(idx, s0, n)
    requires forall j :: 0 <= j < n + 1 ==> Inside(idx, Iter(idx, s0, j))
    requires Iter(idx, s0, n + 1) !in seen
    ensures InRange(idx, Iter(idx, s0, n + 1)) && seen + {Iter(idx, s0, n + 1)} <= States(idx)
    ensures Looping(idx, Iter(idx, s0, n + 1), seen + {Iter(idx, s0, n + 1)}) <==> StaysInside(idx, s0)
    decreases |States(idx) - seen|, 0
  {
    var next := Iter(idx, s0, n + 1);
    assert Inside(idx, Iter(idx, s0, n));
    MoveStaysInRange(Iter(idx, s0, n), idx);
    FewerUnseen(idx, seen, next);
    TraceGrows(idx, s0, n);
    LoopingMeans(idx, s0, n + 1, seen + {next});
  }

  /** One move of the `is_looping` loop from a state inside the grid. */
  lemma LoopingUnfold(idx: Index, s: State, seen: set<State>)
    requires WellFormed(idx) && InRange(idx, s) && seen <= States(idx) && Inside(idx, s)
    ensures InRange(idx, MoveWithIndex(s, idx))
    ensures MoveWithIndex(s, idx) in seen ==> Looping(idx, s, seen)
    ensures MoveWithIndex(s, idx) !in seen ==>
      seen + {MoveWithIndex(s, idx)} <= States(idx) &&
      |States(idx) - (seen + {MoveWithIndex(s, idx)})| < |States(idx) - seen| &&
      Looping(idx, s, seen) == Looping(idx, MoveWithIndex(s, idx), seen + {MoveWithIndex(s, idx)})
  {
    var next := MoveWithIndex(s, idx);
    MoveStaysInRange(s, idx);
    if next !in seen {
      FewerUnseen(idx, seen, next);
    }
  }

  /** The guard inside for the first n moves and at move n is inside for the first n + 1. */
  lemma InsideThrough(idx: Index, s0: State, n: nat)
    requires Inside(idx, Iter(idx, s0, n))
    requires forall j :: 0 <= j < n ==> Inside(idx, Iter(idx, s0, j))
    ensures forall j :: 0 <= j < n + 1 ==> Inside(idx, Iter(idx, s0, j))
  {
  }

  /** `is_looping`: a walk that records every state and stops at the first repeat. */
  method IsLooping(startY: int, startX: int, idx: Index) returns (r: bool)
    requires WellFormed(idx) && 0 <= startY < idx.h && 0 <= startX < idx.w
    ensures r <==> StaysInside(idx, (startY, startX, Up))
  {
    ghost var s0: State := (startY, startX, Up);
    var y, x, d := startY, startX, Up;
    var seen := {(y, x, d)};
    TraceZero(idx, s0);
    InRangeInStates(idx, s0);
    LoopingMeans(idx, s0, 0, seen);
    while 0 <= y < idx.h && 0 <= x < idx.w
      invariant InRange(idx, (y, x, d)) && seen <= States(idx)
      invariant Looping(idx, (y, x, d), seen) == Looping(idx, s0, {s0})
      decreases |States(idx) - seen|
    {
      MoveStaysInRange((y, x, d), idx);
      var (ny, nx, nd) := MoveWithIndex((y, x, d), idx);
      if (ny, nx, nd) in seen {
        return true;
      }
      FewerUnseen(idx, seen, (ny, nx, nd));
      seen := seen + {(ny, nx, nd)};
      y, x, d := ny, nx, nd;
    }
    return false;
  }

  // ------------------------------------------------------------------ part 2

  /** Moves read the index only through `rows.get` and `cols.get`. */
  lemma {:induction false} IterSame(a: Index, b: Index, s: State, k: nat)
    requires SameLists(a, b)
    ensures Iter(a, s, k) == Iter(b, s, k)
  {
    if k > 0 {
      IterSame(a, b, s, k - 1);
      MoveSame(a, b, Iter(a, s, k - 1));
    }
  }

  lemma MoveSame(a: Index, b: Index, t: State)
    requires SameLists(a, b)
    ensures MoveWithIndex(t, a) == MoveWithIndex(t, b)
  {
    assert Lookup(a.rows, t.0) == Lookup(b.rows, t.0) && Lookup(a.cols, t.1) == Lookup(b.cols, t.1);
  }

  lemma WellFormedSame(a: Index, b: Index)
    requires SameLists(a, b) && WellFormed(a)
    ensures WellFormed(b)
  {
    forall k ensures Lookup(b.rows, k) == Lookup(a.rows, k) && Lookup(b.cols, k) == Lookup(a.cols, k) {
    }
  }

  /** The lists the scan builds are those of `GridIndex`. */
  lemma GridIndexLookup(grid: seq<string>, k: int)
    requires Rectangular(grid)
    ensures Lookup(GridIndex(grid).rows, k) == if 0 <= k < |grid| then RowObstacles(grid[k], |grid[0]|) else []
    ensures Lookup(GridIndex(grid).cols, k) == if 0 <= k < |grid[0]| then ColObstacles(grid, k, |grid|) else []
  {
  }

  lemma IndexIsGridIndex(grid: seq<string>, rows: map<int, seq<int>>, cols: map<int, seq<int>>)
    requires Rectangular(grid) && IndexesGrid(grid, rows, cols)
    ensures SameLists(Index(rows, cols, |grid|, |grid[0]|), GridIndex(grid))
  {
    var idx := GridIndex(grid);
    forall k ensures Lookup(rows, k) == Lookup(idx.rows, k) && Lookup(cols, k) == Lookup(idx.cols, k) {
      GridIndexLookup(grid, k);
    }
  }

  /** A scanned grid gives ascending lists of in-grid entries. */
  lemma GridIndexWellFormed(grid: seq<string>)
    requires Rectangular(grid)
    ensures WellFormed(GridIndex(grid))
  {
    var idx := GridIndex(grid);
    forall k ensures SortedInts(Lookup(idx.rows, k)) && forall e :: e in Lookup(idx.rows, k) ==> 0 <= e <= idx.w {
      if 0 <= k < |grid| {
        RowObstaclesMeans(grid[k], |grid[0]|);
      }
    }
    forall k ensures SortedInts(Lookup(idx.cols, k)) && forall e :: e in Lookup(idx.cols, k) ==> 0 <= e <= idx.h {
      if 0 <= k < |grid[0]| {
        ColObstaclesMeans(grid, k, |grid|);
      }
    }
  }

  /** `insort(rows[oy], ox)` and `insort(cols[ox], oy)`: an extra obstacle at c. */
  function AddObstacle(idx: Index, c: (int, int)): Index
  {
    Index(idx.rows[c.0 := Insort(Lookup(idx.rows, c.0), c.1)],
          idx.cols[c.1 := Insort(Lookup(idx.cols, c.1), c.0)], idx.h, idx.w)
  }

  lemma AddObstacleWellFormed(idx: Index, c: (int, int))
    requires WellFormed(idx) && 0 <= c.0 <= idx.h && 0 <= c.1 <= idx.w
    ensures WellFormed(AddObstacle(idx, c))
  {
    assert ListsWithin(idx.rows, idx.w) && ListsWithin(idx.cols, idx.h);
    InsertWithin(idx.rows, c.0, c.1, idx.w);
    InsertWithin(idx.cols, c.1, c.0, idx.h);
  }

  /** Every list of the dict is sorted and holds only 0 .. bound. */
  ghost predicate ListsWithin(m: map<int, seq<int>>, bound: int)
  {
    && (forall k :: SortedInts(Lookup(m, k)))
    && (forall k, e :: e in Lookup(m, k) ==> 0 <= e <= bound)
  }

  /** `insort` of a value in 0 .. bound into one list keeps every list sorted and in bounds. */
  lemma InsertWithin(m: map<int, seq<int>>, key: int, v: int, bound: int)
    requires ListsWithin(m, bound) && 0 <= v <= bound
    ensures ListsWithin(m[key := Insort(Lookup(m, key), v)], bound)
  {
    var old_list := Lookup(m, key);
    var m' := m[key := Insort(old_list, v)];
    InsortSorted(old_list, v);
    InsortAdds(old_list, v);
    forall k ensures SortedInts(Lookup(m', k)) && forall e :: e in Lookup(m', k) ==> 0 <= e <= bound {
      if k == key {
        forall e | e in Insort(old_list, v) ensures 0 <= e <= bound {
          assert e in multiset(Insort(old_list, v));
          if e != v {
            assert e in multiset(old_list);
            assert e in old_list;
          }
        }
      } else {
        assert Lookup(m', k) == Lookup(m, k);
      }
    }
  }

  /** With an extra obstacle at c, the guard starting at (y, x) facing up never leaves. */
  ghost predicate LoopsWith(idx: Index, c: (int, int), y: int, x: int)
  {
    StaysInside(AddObstacle(idx, c), (y, x, Up))
  }

  /** The cells the four `for` loops of `solve_part2` add for the move from s to n. */
  function Segment(s: State, n: State): set<(int, int)>
  {
    var (y, x, d) := s;
    if d == Up then (set yy | n.0 + 1 <= yy <= y :: (yy, x))
    else if d == Right then (set xx | x <= xx <= n.1 :: (y, xx))
    else if d == Down then (set yy | y <= yy <= n.0 :: (yy, x))
    else (set xx | n.1 + 1 <= xx <= x :: (y, xx))
  }

  /**
   * The `candidates` of `solve_part2` once the walk from s, having collected `acc`, leaves
   * the grid; `None` when it has not left within `fuel` moves (the source walks forever
   * when the guard never leaves).
   */
  function Candidates(idx: Index, s: State, acc: set<(int, int)>, fuel: nat): Option<set<(int, int)>>
    decreases fuel
  {
    if !Inside(idx, s) then Some(acc)
    else if fuel == 0 then None
    else
      var n := MoveWithIndex(s, idx);
      Candidates(idx, n, acc + Segment(s, n), fuel - 1)
  }

  /**
   * The cells `solve_part2` tries as it is written: every candidate but the start,
   * including the cell one past the edge where the guard's last move leaves right or down.
   */
  function CandidateCells(idx: Index, y: int, x: int, fuel: nat): (r: Option<set<(int, int)>>)
    ensures r.Some? ==> (y, x) !in r.value
    ensures r.None? <==> Candidates(idx, (y, x, Up), {}, fuel).None?
  {
    match Candidates(idx, (y, x, Up), {}, fuel)
      case None => None
      case Some(cs) => Some(cs - {(y, x)})
  }

  /**
   * The cells where part 2 may place the extra obstacle: the candidates, less the start,
   * and (correcting the source) only cells of the grid.
   */
  function Obstructions(idx: Index, y: int, x: int, fuel: nat): (r: Option<set<(int, int)>>)
    ensures r.Some? ==> forall c :: c in r.value ==> 0 <= c.0 < idx.h && 0 <= c.1 < idx.w && c != (y, x)
    ensures r.None? <==> Candidates(idx, (y, x, Up), {}, fuel).None?
  {
    match Candidates(idx, (y, x, Up), {}, fuel)
      case None => None
      case Some(cs) => Some(set c | c in cs && c != (y, x) && InBounds(c.0, c.1, idx.h, idx.w))
  }

  /** The cells of `cells` where an extra obstacle makes the guard from (y, x) loop. */
  ghost function Loopers(idx: Index, cells: set<(int, int)>, y: int, x: int): set<(int, int)>
  {
    set c | c in cells && LoopsWith(idx, c, y, x)
  }

  lemma LoopersAdd(idx: Index, done: set<(int, int)>, c: (int, int), y: int, x: int)
    requires c !in done
    ensures |Loopers(idx, done + {c}, y, x)| ==
      |Loopers(idx, done, y, x)| + (if LoopsWith(idx, c, y, x) then 1 else 0)
  {
    if LoopsWith(idx, c, y, x) {
      assert Loopers(idx, done + {c}, y, x) == Loopers(idx, done, y, x) + {c};
    } else {
      assert Loopers(idx, done + {c}, y, x) == Loopers(idx, done, y, x);
    }
  }

  /** `insort` on the lists of a copy of the index gives the index with the extra obstacle. */
  lemma InsortIsAddObstacle(rows: map<int, seq<int>>, cols: map<int, seq<int>>, h: int, w: int, idx: Index, c: (int, int))
    requires SameLists(Index(rows, cols, h, w), idx)
    ensures SameLists(Index(rows[c.0 := Insort(Lookup(rows, c.0), c.1)], cols[c.1 := Insort(Lookup(cols, c.1), c.0)], h, w),
                      AddObstacle(idx, c))
  {
    var rows', cols' := rows[c.0 := Insort(Lookup(rows, c.0), c.1)], cols[c.1 := Insort(Lookup(cols, c.1), c.0)];
    var added := AddObstacle(idx, c);
    forall k ensures Lookup(rows', k) == Lookup(added.rows, k) {
      assert Lookup(rows, k) == Lookup(idx.rows, k);
    }
    forall k ensures Lookup(cols', k) == Lookup(added.cols, k) {
      assert Lookup(cols, k) == Lookup(idx.cols, k);
    }
  }

  /** `list.remove` of the value just inserted restores every list. */
  lemma RemoveRestores(m: map<int, seq<int>>, key: int, v: int)
    requires SortedInts(Lookup(m, key))
    ensures var m1 := m[key := Insort(Lookup(m, key), v)];
      v in m1[key] && forall k :: Lookup(m1[key := Remove(m1[key], v)], k) == Lookup(m, k)
  {
    RemoveInsort(Lookup(m, key), v);
  }

  /** A walk on a copy of the index loops exactly when it loops on the index. */
  lemma LoopsAgree(a: Index, b: Index, s: State)
    requires SameLists(a, b)
    ensures StaysInside(a, s) <==> StaysInside(b, s)
  {
    forall k: nat ensures Iter(a, s, k) == Iter(b, s, k) && Inside(a, Iter(a, s, k)) == Inside(b, Iter(b, s, k)) {
      IterSame(a, b, s, k);
    }
  }

  /** `is_looping` on the index with an extra obstacle at c, given as a copy of the lists. */
  method LoopsWithCopy(rows: map<int, seq<int>>, cols: map<int, seq<int>>, h: int, w: int,
                       startY: int, startX: int, c: (int, int), ghost idx: Index)
    returns (loops: bool)
    requires SameLists(Index(rows, cols, h, w), idx) && WellFormed(idx)
    requires 0 <= startY < h && 0 <= startX < w && 0 <= c.0 < h && 0 <= c.1 < w
    ensures loops == LoopsWith(idx, c, startY, startX)
  {
    var withC := Index(rows[c.0 := Insort(Lookup(rows, c.0), c.1)], cols[c.1 := Insort(Lookup(cols, c.1), c.0)], h, w);
    InsortIsAddObstacle(rows, cols, h, w, idx, c);
    AddObstacleWellFormed(idx, c);
    WellFormedSame(AddObstacle(idx, c), withC);
    loops := IsLooping(startY, startX, withC);
    LoopsAgree(withC, AddObstacle(idx, c), (startY, startX, Up));
  }

  /** Lists that read as those of `idx` with their sorted entries. */
  lemma SameListsSorted(rows: map<int, seq<int>>, cols: map<int, seq<int>>, h: int, w: int, idx: Index, r: int, c: int)
    requires SameLists(Index(rows, cols, h, w), idx) && WellFormed(idx)
    ensures SortedInts(Lookup(rows, r)) && SortedInts(Lookup(cols, c))
  {
    assert Lookup(rows, r) == Lookup(idx.rows, r) && Lookup(cols, c) == Lookup(idx.cols, c);
  }

  /** Lists that read the same stay a copy of the index. */
  lemma SameListsTransfer(rows: map<int, seq<int>>, cols: map<int, seq<int>>, rows': map<int, seq<int>>, cols': map<int, seq<int>>,
                          h: int, w: int, idx: Index)
    requires SameLists(Index(rows, cols, h, w), idx)
    requires forall k :: Lookup(rows', k) == Lookup(rows, k)
    requires forall k :: Lookup(cols', k) == Lookup(cols, k)
    ensures SameLists(Index(rows', cols', h, w), idx)
  {
  }

  /**
   * One pass of the obstruction loop: insert c into both lists, ask `is_looping`, then
   * remove it again, leaving lists that read as before.
   */
  method TryObstacle(rows: map<int, seq<int>>, cols: map<int, seq<int>>, h: int, w: int,
                     startY: int, startX: int, c: (int, int), ghost idx: Index)
    returns (loops: bool, rows': map<int, seq<int>>, cols': map<int, seq<int>>)
    requires SameLists(Index(rows, cols, h, w), idx) && WellFormed(idx)
    requires 0 <= startY < h && 0 <= startX < w && 0 <= c.0 < h && 0 <= c.1 < w
    ensures loops == LoopsWith(idx, c, startY, startX)
    ensures SameLists(Index(rows', cols', h, w), idx)
  {
    var (oy, ox) := c;
    loops := LoopsWithCopy(rows, cols, h, w, startY, startX, c, idx);
    SameListsSorted(rows, cols, h, w, idx, oy, ox);
    RemoveRestores(rows, oy, ox);
    RemoveRestores(cols, ox, oy);
    var withRows := rows[oy := Insort(Lookup(rows, oy), ox)];
    var withCols := cols[ox := Insort(Lookup(cols, ox), oy)];
    rows' := withRows[oy := Remove(withRows[oy], ox)];
    cols' := withCols[ox := Remove(withCols[ox], oy)];
    SameListsTransfer(rows, cols, rows', cols', h, w, idx);
  }

  /** The first loop of `solve_part2`: the cells swept by the guard's walk until it leaves. */
  method WalkCandidates(rows: map<int, seq<int>>, cols: map<int, seq<int>>, h: int, w: int,
                        startY: int, startX: int, fuel: nat, ghost idx: Index)
    returns (r: Option<set<(int, int)>>)
    requires SameLists(Index(rows, cols, h, w), idx)
    ensures r == Candidates(idx, (startY, startX, Up), {}, fuel)
  {
    var candidates: set<(int, int)> := {};
    var y, x, d := startY, startX, Up;
    var left := fuel;
    while 0 <= y < h && 0 <= x < w
      invariant Candidates(idx, (y, x, d), candidates, left) == Candidates(idx, (startY, startX, Up), {}, fuel)
      decreases left
    {
      if left == 0 {
        return None;
      }
      left := left - 1;
      var (ny, nx, nd) := MoveWithIndex((y, x, d), Index(rows, cols, h, w));
      IterSame(Index(rows, cols, h, w), idx, (y, x, d), 1);
      candidates := candidates + Segment((y, x, d), (ny, nx, nd));
      y, x, d := ny, nx, nd;
    }
    return Some(candidates);
  }

  /** The second loop of `solve_part2`: how many of `cells` make the guard loop. */
  method CountLoops(rows: map<int, seq<int>>, cols: map<int, seq<int>>, h: int, w: int,
                    startY: int, startX: int, cells: set<(int, int)>, ghost idx: Index)
    returns (n: nat)
    requires SameLists(Index(rows, cols, h, w), idx) && WellFormed(idx)
    requires 0 <= startY < h && 0 <= startX < w
    requires forall c :: c in cells ==> 0 <= c.0 < h && 0 <= c.1 < w
    ensures n == |Loopers(idx, cells, startY, startX)|
  {
    n := 0;
    var rows, cols := rows, cols;
    var remaining := cells;
    ghost var done: set<(int, int)> := {};
    while remaining != {}
      invariant remaining <= cells && done == cells - remaining
      invariant n == |Loopers(idx, done, startY, startX)|
      invariant SameLists(Index(rows, cols, h, w), idx)
      decreases |remaining|
    {
      var c :| c in remaining;
      var loops;
      loops, rows, cols := TryObstacle(rows, cols, h, w, startY, startX, c, idx);
      LoopersAdd(idx, done, c, startY, startX);
      if loops {
        n := n + 1;
      }
      remaining := remaining - {c};
      done := done + {c};
    }
    assert done == cells;
  }

  /**
   * `solve_part2` on a parsed grid: the number of cells of `Obstructions` where an extra
   * obstacle keeps the guard in the grid for ever; `None` when the first walk does not
   * leave within `fuel` moves.
   */
  method LoopObstructions(grid: seq<string>, startY: int, startX: int, fuel: nat) returns (r: Option<nat>)
    requires Rectangular(grid) && InBounds(startY, startX, |grid|, |grid[0]|)
    ensures var obs := Obstructions(GridIndex(grid), startY, startX, fuel);
      && (r.None? <==> obs.None?)
      && (r.Some? ==> r.value == |Loopers(GridIndex(grid), obs.value, startY, startX)|)
  {
    var h, w := |grid|, |grid[0]|;
    var rows, cols := BuildObstacleIndex(grid);
    ghost var idx := GridIndex(grid);
    IndexIsGridIndex(grid, rows, cols);
    GridIndexWellFormed(grid);
    var candidates := WalkCandidates(rows, cols, h, w, startY, startX, fuel, idx);
    if candidates.None? {
      return None;
    }
    var cells := set c | c in candidates.value && c != (startY, startX) && InBounds(c.0, c.1, h, w);
    assert idx.h == h && idx.w == w;
    assert Obstructions(idx, startY, startX, fuel) == Some(cells);
    var n := CountLoops(rows, cols, h, w, startY, startX, cells, idx);
    return Some(n);
  }

  // ------------------------------------------------- an obstacle past the edge

  /** The index lists a walk on `.#.` / `...` / `#^.` / `..#` reads. */
  ghost predicate EdgeExampleLists(idx: Index)
  {
    idx.h == 4 && idx.w == 3
    && Lookup(idx.rows, 1) == [] && Lookup(idx.rows, 2) == [0]
    && Lookup(idx.cols, 1) == [0] && Lookup(idx.cols, 2) == [3] && Lookup(idx.cols, 3) == []
  }

  /** An ascending list holding exactly one value is that value alone. */
  lemma SingletonList(s: seq<int>, v: int)
    ensures StrictlyAscending(s) && (forall e :: e in s <==> e == v) ==> s == [v]
  {
    if |s| >= 2 {
      assert s[0] in s && s[1] in s;
      assert !(StrictlyAscending(s) && forall e :: e in s <==> e == v);
    } else if |s| == 1 {
      assert s[0] in s;
      assert (forall e :: e in s <==> e == v) ==> s[0] == v;
    } else {
      assert v !in s;
    }
  }

  lemma EmptyList(s: seq<int>)
    ensures (forall e :: e !in s) ==> s == []
  {
    if s != [] {
      var e := s[0];
      assert e in s;
      assert !(forall e :: e !in s);
    }
  }

  lemma EdgeExampleRows(grid: seq<string>)
    requires grid == [".#.", "...", "#^.", "..#"]
    ensures Rectangular(grid)
    ensures Lookup(GridIndex(grid).rows, 1) == [] && Lookup(GridIndex(grid).rows, 2) == [0]
  {
    assert Rectangular(grid);
    assert grid[1] == "..." && grid[2] == "#^.";
    NoObstacleInRow(grid, 1);
    OneObstacleInRow(grid, 2, 0);
  }

  /** Row r of a grid without '#' has an empty list. */
  lemma NoObstacleInRow(grid: seq<string>, r: int)
    requires Rectangular(grid) && 0 <= r < |grid|
    requires forall c :: 0 <= c < |grid[0]| ==> grid[r][c] != '#'
    ensures Lookup(GridIndex(grid).rows, r) == []
  {
    GridIndexLookup(grid, r);
    RowObstaclesMeans(grid[r], |grid[0]|);
    EmptyList(RowObstacles(grid[r], |grid[0]|));
  }

  /** Row r holding '#' in column v only has the list [v]. */
  lemma OneObstacleInRow(grid: seq<string>, r: int, v: int)
    requires Rectangular(grid) && 0 <= r < |grid| && 0 <= v < |grid[0]|
    requires grid[r][v] == '#'
    requires forall c :: 0 <= c < |grid[0]| && c != v ==> grid[r][c] != '#'
    ensures Lookup(GridIndex(grid).rows, r) == [v]
  {
    GridIndexLookup(grid, r);
    RowObstaclesMeans(grid[r], |grid[0]|);
    SingletonList(RowObstacles(grid[r], |grid[0]|), v);
  }

  /** Column c of a four-row grid holds '#' on row v only. */
  lemma OneObstacleInColumn(grid: seq<string>, c: int, v: int)
    requires Rectangular(grid) && |grid| == 4 && 0 <= c < |grid[0]| && 0 <= v < 4
    requires grid[v][c] == '#'
    requires forall r :: 0 <= r < 4 && r != v ==> grid[r][c] != '#'
    ensures Lookup(GridIndex(grid).cols, c) == [v]
  {
    GridIndexLookup(grid, c);
    ColObstaclesMeans(grid, c, 4);
    SingletonList(ColObstacles(grid, c, 4), v);
  }

  lemma EdgeExampleCols(grid: seq<string>)
    requires grid == [".#.", "...", "#^.", "..#"]
    ensures Rectangular(grid)
    ensures Lookup(GridIndex(grid).cols, 1) == [0] && Lookup(GridIndex(grid).cols, 2) == [3]
    ensures Lookup(GridIndex(grid).cols, 3) == []
  {
    assert Rectangular(grid);
    GridIndexLookup(grid, 3);
    assert grid[0] == ".#." && grid[1] == "..." && grid[2] == "#^." && grid[3] == "..#";
    OneObstacleInColumn(grid, 1, 0);
    OneObstacleInColumn(grid, 2, 3);
  }

  lemma EdgeExampleIndex(grid: seq<string>)
    requires grid == [".#.", "...", "#^.", "..#"]
    ensures Rectangular(grid) && EdgeExampleLists(GridIndex(grid))
  {
    EdgeExampleRows(grid);
    EdgeExampleCols(grid);
  }

  /** The first walk turns right at (1, 1) and leaves through the right edge of row 1. */
  lemma EdgeExampleCandidates(idx: Index)
    requires EdgeExampleLists(idx)
    ensures Candidates(idx, (2, 1, Up), {}, 2) == Some({(2, 1), (1, 1), (1, 2), (1, 3)})
  {
    var s0, s1, s2 := (2, 1, Up), (1, 1, Right), (1, 3, Down);
    assert MoveWithIndex(s0, idx) == s1;
    assert MoveWithIndex(s1, idx) == s2;
    var none: set<(int, int)> := {};
    assert Segment(s0, s1) == {(2, 1)} by {
      forall c | c in Segment(s0, s1) ensures c == (2, 1) {
      }
      assert (2, 1) in Segment(s0, s1);
    }
    assert Segment(s1, s2) == {(1, 1), (1, 2), (1, 3)} by {
      forall c | c in Segment(s1, s2) ensures c in {(1, 1), (1, 2), (1, 3)} {
      }
      assert (1, 1) in Segment(s1, s2) && (1, 2) in Segment(s1, s2) && (1, 3) in Segment(s1, s2);
    }
    assert Candidates(idx, s0, none, 2) == Candidates(idx, s1, none + Segment(s0, s1), 1);
    assert Candidates(idx, s1, none + Segment(s0, s1), 1) == Candidates(idx, s2, none + Segment(s0, s1) + Segment(s1, s2), 0);
    assert none + Segment(s0, s1) + Segment(s1, s2) == {(2, 1), (1, 1), (1, 2), (1, 3)};
  }

  /** An obstacle at (1, 3), outside the grid, closes a four-move cycle through the start. */
  lemma EdgeExampleLoopsPastEdge(idx: Index)
    requires EdgeExampleLists(idx)
    ensures LoopsWith(idx, (1, 3), 2, 1)
  {
    var a := AddObstacle(idx, (1, 3));
    assert Lookup(a.rows, 1) == [3] && Lookup(a.cols, 3) == [1];
    assert Lookup(a.rows, 2) == [0] && Lookup(a.cols, 1) == [0] && Lookup(a.cols, 2) == [3];
    var s0 := (2, 1, Up);
    assert Iter(a, s0, 1) == (1, 1, Right);
    assert Iter(a, s0, 2) == (1, 2, Down);
    assert Iter(a, s0, 3) == (2, 2, Left);
    assert Iter(a, s0, 4) == s0;
    assert Iter(a, s0, 0) == s0;
    RepeatStaysInside(a, s0, 0, 3);
  }

  /** An obstacle at (1, 1) sends the guard out through the right edge of row 2. */
  lemma EdgeExampleNoLoopAbove(idx: Index)
    requires EdgeExampleLists(idx)
    ensures !LoopsWith(idx, (1, 1), 2, 1)
  {
    var a := AddObstacle(idx, (1, 1));
    assert Lookup(a.cols, 1) == [0, 1] by {
      assert Insort([0], 1) == [0] + Insort([], 1);
    }
    assert Lookup(a.rows, 2) == [0];
    var s0 := (2, 1, Up);
    assert Prev([0, 1], 2) == Some(1) by {
      assert SortedInts([0, 1]) && 1 in [0, 1];
    }
    assert Iter(a, s0, 1) == (2, 1, Right);
    assert Iter(a, s0, 2) == (2, 3, Down);
    assert !Inside(a, Iter(a, s0, 2));
  }

  /** An obstacle at (1, 2) turns the guard down column 1 and out through the bottom. */
  lemma EdgeExampleNoLoopRight(idx: Index)
    requires EdgeExampleLists(idx)
    ensures !LoopsWith(idx, (1, 2), 2, 1)
  {
    var a := AddObstacle(idx, (1, 2));
    assert Lookup(a.rows, 1) == [2] && Lookup(a.cols, 1) == [0];
    var s0 := (2, 1, Up);
    assert Iter(a, s0, 1) == (1, 1, Right);
    assert Iter(a, s0, 2) == (1, 1, Down);
    assert Iter(a, s0, 3) == (4, 1, Left);
    assert !Inside(a, Iter(a, s0, 3));
  }

  lemma EdgeExampleStart(grid: seq<string>)
    requires grid == [".#.", "...", "#^.", "..#"]
    ensures IsStart(grid, 2, 1)
  {
    assert grid[0] == ".#." && grid[1] == "..." && grid[2] == "#^.";
    assert '^' !in grid[0] && '^' !in grid[1] && grid[2][0] != '^';
  }

  lemma EdgeExampleLoopers(idx: Index)
    requires EdgeExampleLists(idx)
    ensures Loopers(idx, {(1, 1), (1, 2), (1, 3)}, 2, 1) == {(1, 3)}
    ensures Loopers(idx, {(1, 1), (1, 2)}, 2, 1) == {}
  {
    EdgeExampleLoopsPastEdge(idx);
    EdgeExampleNoLoopAbove(idx);
    EdgeExampleNoLoopRight(idx);
  }

  lemma EdgeExampleCells(idx: Index)
    requires EdgeExampleLists(idx)
    ensures CandidateCells(idx, 2, 1, 2) == Some({(1, 1), (1, 2), (1, 3)})
    ensures Obstructions(idx, 2, 1, 2) == Some({(1, 1), (1, 2)})
  {
    EdgeExampleCandidates(idx);
    var all: set<(int, int)> := {(2, 1), (1, 1), (1, 2), (1, 3)};
    assert all - {(2, 1)} == {(1, 1), (1, 2), (1, 3)};
    assert (set c | c in all && c != (2, 1) && InBounds(c.0, c.1, idx.h, idx.w)) == {(1, 1), (1, 2)};
  }

  /**
   * On `.#.` / `...` / `#^.` / `..#` the cells tried as written include (1, 3), one past
   * the right edge, and counting it gives 1; among the cells of the grid no obstacle makes
   * the guard loop, so the count is 0.
   */
  lemma EdgeExampleCounts(grid: seq<string>)
    requires grid == [".#.", "...", "#^.", "..#"]
    ensures Rectangular(grid) && IsStart(grid, 2, 1)
    ensures var idx := GridIndex(grid);
      && CandidateCells(idx, 2, 1, 2) == Some({(1, 1), (1, 2), (1, 3)})
      && !InBounds(1, 3, |grid|, |grid[0]|)
      && |Loopers(idx, {(1, 1), (1, 2), (1, 3)}, 2, 1)| == 1
      && Obstructions(idx, 2, 1, 2) == Some({(1, 1), (1, 2)})
      && |Loopers(idx, {(1, 1), (1, 2)}, 2, 1)| == 0
  {
    EdgeExampleIndex(grid);
    EdgeExampleStart(grid);
    var idx := GridIndex(grid);
    EdgeExampleCells(idx);
    EdgeExampleLoopers(idx);
  }

  // -------------------------------------------------------------- solutions

  /** The row-major first '^' of the grid. */
  predicate IsStart(grid: seq<string>, y: int, x: int)
  {
    0 <= y < |grid| && 0 <= x < |grid[y]| && grid[y][x] == '^'
    && (forall k :: 0 <= k < y ==> '^' !in grid[k])
    && (forall k :: 0 <= k < x ==> grid[y][k] != '^')
  }

  /** There is at most one first '^'. */
  lemma StartIsUnique(grid: seq<string>, y: int, x: int, y': int, x': int)
    requires IsStart(grid, y, x) && IsStart(grid, y', x')
    ensures y == y' && x == x'
  {
    assert grid[y][x] in grid[y];
    assert grid[y'][x'] in grid[y'];
  }

  /** `parse`; `None` when there is no '^' or (outside what the source checks) the rows differ in width. */
  method Parse(raw: string) returns (r: Option<(seq<string>, int, int)>)
    ensures r.Some? ==> var (grid, y, x) := r.value;
      grid == ParseGrid(raw) && Rectangular(grid) && IsStart(grid, y, x)
    ensures r.None? ==> var grid := ParseGrid(raw);
      !Rectangular(grid) || forall k :: 0 <= k < |grid| ==> '^' !in grid[k]
  {
    var grid := ParseGrid(raw);
    var start := FindStart(grid);
    if start.None? || !Rectangular(grid) {
      return None;
    }
    return Some((grid, start.value.0, start.value.1));
  }

  /** `solve_part1`: the number of cells visited, for a walk of at most `fuel` passes. */
  method SolvePart1(raw: string, fuel: nat) returns (r: Option<nat>)
    ensures r.Some? ==> var grid := ParseGrid(raw);
      Rectangular(grid) && exists y, x :: (IsStart(grid, y, x)
        && Path(grid, y, x, Up, {(y, x)}, fuel).Some? && r.value == |Path(grid, y, x, Up, {(y, x)}, fuel).value|)
  {
    var parsed := Parse(raw);
    if parsed.None? {
      return None;
    }
    var (grid, y, x) := parsed.value;
    var path := GetPath(grid, y, x, fuel);
    if path.None? {
      return None;
    }
    return Some(|path.value|);
  }

  /** `solve_part2`: the number of loop-making obstructions, for walks of at most `fuel` moves. */
  method SolvePart2(raw: string, fuel: nat) returns (r: Option<nat>)
    ensures r.Some? ==> var grid := ParseGrid(raw);
      Rectangular(grid) && exists y, x :: (IsStart(grid, y, x)
        && Obstructions(GridIndex(grid), y, x, fuel).Some?
        && r.value == |Loopers(GridIndex(grid), Obstructions(GridIndex(grid), y, x, fuel).value, y, x)|)
  {
    var parsed := Parse(raw);
    if parsed.None? {
      return None;
    }
    var (grid, y, x) := parsed.value;
    r := LoopObstructions(grid, y, x, fuel);
  }
}
