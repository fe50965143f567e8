/**
 * 2025 day 6 (aoc/year2025/day06.py): a worksheet of problems laid out side by side.
 * Columns that are blank in every line separate the problems; the last line holds each
 * problem's operator. Part 1 reads every row of a problem as a number, part 2 reads
 * every column (right to left, digits top to bottom) as a number; the results of
 * all problems are added.
 */
module Year2025Day06 {
  import opened Common
  import opened Text

  type Block = (int, int)

  // ------------------------------------------------------------ padding

  /** `max(len(l) for l in lines)`. */
  function MaxLen(lines: seq<string>): (n: nat)
    requires lines != []
    ensures forall k :: 0 <= k < |lines| ==> |lines[k]| <= n
    ensures exists k :: 0 <= k < |lines| && |lines[k]| == n
  {
    if |lines| == 1 then |lines[0]|
    else
      var init := lines[..|lines| - 1];
      var m := MaxLen(init);
      assert forall k :: 0 <= k < |init| ==> init[k] == lines[k];
      Max(m, |lines[|lines| - 1]|)
  }

  /** Every line `ljust`-ed to `n`: each keeps its text and is `n` long. */
  function Padded(lines: seq<string>, n: nat): (r: seq<string>)
    requires forall k :: 0 <= k < |lines| ==> |lines[k]| <= n
    ensures |r| == |lines|
    ensures forall k :: 0 <= k < |r| ==> |r[k]| == n && r[k][..|lines[k]|] == lines[k]
    ensures forall k, c :: 0 <= k < |r| && |lines[k]| <= c < n ==> r[k][c] == ' '
  {
    seq(|lines|, k requires 0 <= k < |lines| => PadRight(lines[k], n))
  }

  /** Lines of equal length `n`. */
  predicate Even(lines: seq<string>, n: int)
  {
    forall k :: 0 <= k < |lines| ==> |lines[k]| == n
  }

  /** `is_blank_col`: column `col` is a space in every line. */
  function BlankColumns(lines: seq<string>, n: nat): (blank: seq<bool>)
    requires Even(lines, n)
    ensures |blank| == n
    ensures forall c :: 0 <= c < n ==> (blank[c] <==> forall k :: 0 <= k < |lines| ==> lines[k][c] == ' ')
  {
    seq(n, c requires 0 <= c < n => forall k :: 0 <= k < |lines| ==> lines[k][c] == ' ')
  }

  // ------------------------------------------------------------- blocks

  /** The end of the run of non-blank columns starting at `i`. */
  function RunEnd(blank: seq<bool>, i: nat): (e: nat)
    requires i <= |blank|
    ensures i <= e <= |blank|
    ensures forall c :: i <= c < e ==> !blank[c]
    ensures e == |blank| || blank[e]
    decreases |blank| - i
  {
    if i == |blank| || blank[i] then i else RunEnd(blank, i + 1)
  }

  /** The blocks from column `i` on: the maximal runs of non-blank columns, left to right. */
  function Runs(blank: seq<bool>, i: nat): seq<Block>
    requires i <= |blank|
    decreases |blank| - i
  {
    if i == |blank| then []
    else if blank[i] then Runs(blank, i + 1)
    else
      var e := RunEnd(blank, i);
      [(i, e)] + Runs(blank, e)
  }

  /** Column `c` lies in block `b`. */
  predicate InBlock(b: Block, c: int)
  {
    b.0 <= c < b.1
  }

  /**
   * The blocks from `i` on lie within [i, n); each is a non-empty run of non-blank
   * columns bounded by blank columns (or by `i` and the edge).
   */
  lemma {:induction false} RunsAreRuns(blank: seq<bool>, i: nat)
    requires i <= |blank|
    ensures forall k :: 0 <= k < |Runs(blank, i)| ==>
      i <= Runs(blank, i)[k].0 < Runs(blank, i)[k].1 <= |blank|
    ensures forall k, c :: 0 <= k < |Runs(blank, i)| && InBlock(Runs(blank, i)[k], c) ==> !blank[c]
    ensures forall k :: 0 <= k < |Runs(blank, i)| ==>
      (Runs(blank, i)[k].0 == i || blank[Runs(blank, i)[k].0 - 1]) &&
      (Runs(blank, i)[k].1 == |blank| || blank[Runs(blank, i)[k].1])
    decreases |blank| - i
  {
    if i < |blank| {
      if blank[i] {
        RunsAreRuns(blank, i + 1);
        assert Runs(blank, i) == Runs(blank, i + 1);
      } else {
        var e := RunEnd(blank, i);
        RunsAreRuns(blank, e);
        var r := Runs(blank, i);
        assert r == [(i, e)] + Runs(blank, e);
        assert forall k :: 0 < k < |r| ==> r[k] == Runs(blank, e)[k - 1];
      }
    }
  }

  /** The blocks come in increasing order with at least one blank column between neighbours. */
  lemma {:induction false} RunsOrdered(blank: seq<bool>, i: nat)
    requires i <= |blank|
    ensures forall k, j :: 0 <= k < j < |Runs(blank, i)| ==> Runs(blank, i)[k].1 < Runs(blank, i)[j].0
    decreases |blank| - i
  {
    if i < |blank| {
      if blank[i] {
        RunsOrdered(blank, i + 1);
        assert Runs(blank, i) == Runs(blank, i + 1);
      } else {
        var e := RunEnd(blank, i);
        RunsOrdered(blank, e);
        RunsAreRuns(blank, e);
        var rest := Runs(blank, e);
        var r := Runs(blank, i);
        assert r == [(i, e)] + rest;
        forall k, j | 0 <= k < j < |r| ensures r[k].1 < r[j].0 {
          assert r[j] == rest[j - 1];
          if k > 0 {
            assert r[k] == rest[k - 1];
          } else {
            assert InBlock(rest[j - 1], rest[j - 1].0);
          }
        }
      }
    }
  }

  /** Every non-blank column from `i` on lies in one of the blocks. */
  lemma {:induction false} RunsCover(blank: seq<bool>, i: nat)
    requires i <= |blank|
    ensures forall c :: i <= c < |blank| && !blank[c] ==> exists k :: 0 <= k < |Runs(blank, i)| && InBlock(Runs(blank, i)[k], c)
    decreases |blank| - i
  {
    if i < |blank| {
      if blank[i] {
        RunsCover(blank, i + 1);
        assert Runs(blank, i) == Runs(blank, i + 1);
      } else {
        var e := RunEnd(blank, i);
        RunsCover(blank, e);
        var rest := Runs(blank, e);
        var r := Runs(blank, i);
        assert r == [(i, e)] + rest;
        forall c | i <= c < |blank| && !blank[c]
          ensures exists k :: 0 <= k < |r| && InBlock(r[k], c)
        {
          if c < e {
            assert InBlock(r[0], c);
          } else {
            assert c != e;
            var k :| 0 <= k < |rest| && InBlock(rest[k], c);
            assert r[k + 1] == rest[k];
          }
        }
      }
    }
  }

  /** The `while i < max_len` loop of `parse`. */
  method FindBlocks(blank: seq<bool>) returns (blocks: seq<Block>)
    ensures blocks == Runs(blank, 0)
  {
    blocks := [];
    var i := 0;
    while i < |blank|
      invariant 0 <= i <= |blank|
      invariant blocks + Runs(blank, i) == Runs(blank, 0)
      decreases |blank| - i
    {
      if !blank[i] {
        var start := i;
        while i < |blank| && !blank[i]
          invariant start <= i <= |blank|
          invariant forall c :: start <= c < i ==> !blank[c]
          invariant RunEnd(blank, start) == RunEnd(blank, i)
          decreases |blank| - i
        {
          i := i + 1;
        }
        assert Runs(blank, start) == [(start, i)] + Runs(blank, i);
        AppendAssoc(blocks, [(start, i)], Runs(blank, i));
        blocks := blocks + [(start, i)];
      } else {
        i := i + 1;
      }
    }
  }

  // ----------------------------------------------------------- problems

  /** `next((c for c in op_row if c != " "), "")`: the first character that is not a space. */
  function FirstNonSpace(s: string): (r: Option<char>)
    ensures r.None? <==> forall k :: 0 <= k < |s| ==> s[k] == ' '
    ensures r.Some? ==> r.value != ' ' && exists k :: 0 <= k < |s| && s[k] == r.value && forall j :: 0 <= j < k ==> s[j] == ' '
  {
    if s == [] then None
    else if s[0] != ' ' then Some(s[0])
    else
      var r := FirstNonSpace(s[1..]);
      assert r.Some? ==> exists k :: 0 <= k < |s| && s[k] == r.value && forall j :: 0 <= j < k ==> s[j] == ' ' by {
        if r.Some? {
          var k :| 0 <= k < |s[1..]| && s[1..][k] == r.value && forall j :: 0 <= j < k ==> s[1..][j] == ' ';
          assert s[k + 1] == r.value;
          assert forall j :: 0 < j < k + 1 ==> s[j] == s[1..][j - 1];
        }
      }
      r
  }

  /** `[line[start:end] for line in lines]`. */
  function Slices(lines: seq<string>, b: Block): (rows: seq<string>)
    requires 0 <= b.0 <= b.1 && forall k :: 0 <= k < |lines| ==> b.1 <= |lines[k]|
    ensures |rows| == |lines|
    ensures forall k :: 0 <= k < |rows| ==> rows[k] == lines[k][b.0..b.1]
  {
    seq(|lines|, k requires 0 <= k < |lines| => lines[k][b.0..b.1])
  }

  /** The last line, which holds the operators. */
  function OpLine(lines: seq<string>): string
    requires lines != []
  {
    lines[|lines| - 1]
  }

  /**
   * One block's problem: its number rows (every line but the last, cut to the block)
   * and the first non-space operator character of the last line; `None` when the
   * block has no operator, which drops it.
   */
  function Problem(lines: seq<string>, b: Block): (p: Option<(seq<string>, char)>)
    requires lines != [] && 0 <= b.0 <= b.1 && forall k :: 0 <= k < |lines| ==> b.1 <= |lines[k]|
    ensures p.None? <==> forall c :: b.0 <= c < b.1 ==> OpLine(lines)[c] == ' '
    ensures p.Some? ==> |p.value.0| == |lines| - 1 && forall k :: 0 <= k < |lines| - 1 ==> p.value.0[k] == lines[k][b.0..b.1]
    ensures p.Some? ==> p.value.1 != ' '
  {
    var rows := Slices(lines, b);
    var last := rows[|rows| - 1];
    assert forall c :: b.0 <= c < b.1 ==> last[c - b.0] == OpLine(lines)[c];
    assert forall k :: 0 <= k < |last| ==> last[k] == OpLine(lines)[k + b.0];
    assert forall k :: 0 <= k < |lines| - 1 ==> rows[..|rows| - 1][k] == rows[k];
    match FirstNonSpace(last)
      case None => None
      case Some(op) => Some((rows[..|rows| - 1], op))
  }

  /** Blocks that fit every line. */
  predicate Fits(lines: seq<string>, blocks: seq<Block>)
  {
    forall j :: 0 <= j < |blocks| ==> 0 <= blocks[j].0 <= blocks[j].1 && forall k :: 0 <= k < |lines| ==> blocks[j].1 <= |lines[k]|
  }

  /** The `chunks` and `ops` lists: one entry per block that has an operator, in block order. */
  function Problems(lines: seq<string>, blocks: seq<Block>): (r: (seq<seq<string>>, seq<char>))
    requires lines != [] && Fits(lines, blocks)
    ensures |r.0| == |r.1| <= |blocks|
    ensures forall k :: 0 <= k < |r.0| ==> exists j :: 0 <= j < |blocks| && Problem(lines, blocks[j]) == Some((r.0[k], r.1[k]))
  {
    if blocks == [] then ([], [])
    else
      var init := blocks[..|blocks| - 1];
      var b := blocks[|blocks| - 1];
      var r := Problems(lines, init);
      assert forall j :: 0 <= j < |init| ==> init[j] == blocks[j];
      match Problem(lines, b)
        case None => r
        case Some((rows, op)) => (r.0 + [rows], r.1 + [op])
  }

  /** Every chunk leaves out the operator row, and its rows all have its block's width. */
  lemma ProblemsShape(lines: seq<string>, blocks: seq<Block>)
    requires lines != [] && Fits(lines, blocks)
    ensures forall k :: 0 <= k < |Problems(lines, blocks).0| ==> |Problems(lines, blocks).0[k]| == |lines| - 1
    ensures forall k :: 0 <= k < |Problems(lines, blocks).0| && Problems(lines, blocks).0[k] != [] ==>
      Even(Problems(lines, blocks).0[k], |Problems(lines, blocks).0[k][0]|)
  {
    var r := Problems(lines, blocks);
    forall k | 0 <= k < |r.0|
      ensures |r.0[k]| == |lines| - 1 && (r.0[k] != [] ==> Even(r.0[k], |r.0[k][0]|))
    {
      var j :| 0 <= j < |blocks| && Problem(lines, blocks[j]) == Some((r.0[k], r.1[k]));
      ChunkShape(lines, blocks[j]);
    }
  }

  /** The rows of one block's problem: one per number line, all of the block's width. */
  lemma ChunkShape(lines: seq<string>, b: Block)
    requires lines != [] && 0 <= b.0 <= b.1 && forall k :: 0 <= k < |lines| ==> b.1 <= |lines[k]|
    ensures Problem(lines, b).Some? ==> |Problem(lines, b).value.0| == |lines| - 1
    ensures Problem(lines, b).Some? ==> Even(Problem(lines, b).value.0, b.1 - b.0)
  {
    if Problem(lines, b).Some? {
      var rows := Problem(lines, b).value.0;
      assert forall t :: 0 <= t < |rows| ==> rows[t] == lines[t][b.0..b.1];
    }
  }

  /** The padded lines of the input. */
  function Sheet(raw: string): (lines: seq<string>)
    requires Lines(raw) != []
    ensures lines != [] && Even(lines, MaxLen(Lines(raw)))
  {
    Padded(Lines(raw), MaxLen(Lines(raw)))
  }

  /** The blocks of the padded lines. */
  function SheetBlocks(raw: string): (blocks: seq<Block>)
    requires Lines(raw) != []
    ensures Fits(Sheet(raw), blocks)
  {
    var blank := BlankColumns(Sheet(raw), MaxLen(Lines(raw)));
    RunsAreRuns(blank, 0);
    Runs(blank, 0)
  }

  /** What `parse` returns. */
  function Worksheet(raw: string): (r: (seq<seq<string>>, seq<char>))
    requires Lines(raw) != []
  {
    Problems(Sheet(raw), SheetBlocks(raw))
  }

  /** The `for start, end in blocks` loop of `parse`. */
  method CollectProblems(lines: seq<string>, blocks: seq<Block>) returns (chunks: seq<seq<string>>, ops: seq<char>)
    requires lines != [] && Fits(lines, blocks)
    ensures (chunks, ops) == Problems(lines, blocks)
  {
    chunks, ops := [], [];
    for j := 0 to |blocks|
      invariant (chunks, ops) == Problems(lines, blocks[..j])
    {
      ProblemsNext(lines, blocks, j);
      var p := Problem(lines, blocks[j]);
      if p.Some? {
        chunks := chunks + [p.value.0];
        ops := ops + [p.value.1];
      }
    }
    assert blocks[..|blocks|] == blocks;
  }

  /** One more block adds its problem, if it has an operator. */
  lemma ProblemsNext(lines: seq<string>, blocks: seq<Block>, j: int)
    requires lines != [] && Fits(lines, blocks) && 0 <= j < |blocks|
    ensures Fits(lines, blocks[..j]) && Fits(lines, blocks[..j + 1])
    ensures var r := Problems(lines, blocks[..j]);
      Problems(lines, blocks[..j + 1]) ==
        match Problem(lines, blocks[j])
          case None => r
          case Some((rows, op)) => (r.0 + [rows], r.1 + [op])
  {
    assert blocks[..j + 1][..j] == blocks[..j];
    assert blocks[..j + 1][j] == blocks[j];
  }

  /** `parse`: padded lines, their blocks, and each block's rows and operator. */
  method Parse(raw: string) returns (chunks: seq<seq<string>>, ops: seq<char>)
    requires Lines(raw) != []
    ensures (chunks, ops) == Worksheet(raw)
  {
    var lines := Lines(raw);
    var maxLen := MaxLen(lines);
    var padded := Padded(lines, maxLen);
    var blank := BlankColumns(padded, maxLen);
    var blocks := FindBlocks(blank);
    RunsAreRuns(blank, 0);
    chunks, ops := CollectProblems(padded, blocks);
  }

  // ------------------------------------------------------------ solving

  /** `compute`: '+' adds the numbers, any other operator multiplies them. */
  function Compute(op: char, nums: seq<int>): int
  {
    if op == '+' then Sum(nums) else Product(nums)
  }

  /** `compute` folds: splitting a list splits its result by the same operation. */
  lemma ComputeSplit(op: char, a: seq<int>, b: seq<int>)
    ensures Compute(op, a + b) == if op == '+' then Compute(op, a) + Compute(op, b) else Compute(op, a) * Compute(op, b)
  {
    if op == '+' {
      SumAppend(a, b);
    } else {
      ProductAppend(a, b);
    }
  }

  /** An empty problem gives the identity of its operation. */
  lemma ComputeEmpty(op: char)
    ensures Compute(op, []) == if op == '+' then 0 else 1
  {
  }

  /** `r.strip()` of every row. */
  function Stripped(rows: seq<string>): (ts: seq<string>)
    ensures |ts| == |rows| && forall k :: 0 <= k < |rows| ==> ts[k] == Trim(rows[k])
  {
    seq(|rows|, k requires 0 <= k < |rows| => Trim(rows[k]))
  }

  /** The non-empty strings, in order: the `if r.strip()` filter. */
  function NonEmpty(ts: seq<string>): (r: seq<string>)
    ensures |r| <= |ts|
  {
    if ts == [] then []
    else NonEmpty(ts[..|ts| - 1]) + (if ts[|ts| - 1] == [] then [] else [ts[|ts| - 1]])
  }

  /** The filter keeps exactly the non-empty strings. */
  lemma {:induction false} NonEmptyMembers(ts: seq<string>, t: string)
    ensures t in NonEmpty(ts) <==> t != [] && t in ts
  {
    if ts != [] {
      var init := ts[..|ts| - 1];
      NonEmptyMembers(init, t);
      assert ts == init + [ts[|ts| - 1]];
    }
  }

  /** Part 1's numbers of a problem: `int(r.strip())` of every non-blank row, or `None` if one fails. */
  function RowNumbers(rows: seq<string>): Option<seq<int>>
  {
    AllSome(ParsedInts(NonEmpty(Stripped(rows))))
  }

  /** Column `col` of the rows, top to bottom. */
  function Column(rows: seq<string>, col: int): (s: string)
    requires 0 <= col && forall k :: 0 <= k < |rows| ==> col < |rows[k]|
    ensures |s| == |rows| && forall k :: 0 <= k < |rows| ==> s[k] == rows[k][col]
  {
    seq(|rows|, k requires 0 <= k < |rows| => rows[k][col])
  }

  /** The columns of the rows, rightmost first. */
  function ColumnsRightToLeft(rows: seq<string>, width: nat): (cols: seq<string>)
    requires Even(rows, width)
    ensures |cols| == width && forall k :: 0 <= k < width ==> cols[k] == Column(rows, width - 1 - k)
  {
    seq(width, k requires 0 <= k < width => Column(rows, width - 1 - k))
  }

  /** Part 2's numbers of a problem `width` columns wide: `int(...)` of each column, rightmost first. */
  function ColumnNumbers(rows: seq<string>, width: nat): Option<seq<int>>
    requires Even(rows, width)
  {
    AllSome(ParsedInts(ColumnsRightToLeft(rows, width)))
  }

  /**
   * Part 2's numbers of a problem as `solve_part2` reads them: the width is that of the
   * first row, so a problem without number rows fails, as `chunk_rows[0]` does.
   */
  function ProblemColumns(rows: seq<string>): Option<seq<int>>
  {
    if rows == [] || !Even(rows, |rows[0]|) then None else ColumnNumbers(rows, |rows[0]|)
  }

  /** One reading per chunk, in chunk order. */
  function Readings(chunks: seq<seq<string>>, read: seq<string> -> Option<seq<int>>): (ns: seq<Option<seq<int>>>)
    ensures |ns| == |chunks|
  {
    if chunks == [] then [] else Readings(chunks[..|chunks| - 1], read) + [read(chunks[|chunks| - 1])]
  }

  /** Entry `j` of the readings is chunk `j` read. */
  lemma {:induction false} ReadingAt(chunks: seq<seq<string>>, read: seq<string> -> Option<seq<int>>, j: int)
    requires 0 <= j < |chunks|
    ensures Readings(chunks, read)[j] == read(chunks[j])
  {
    var n := |chunks| - 1;
    if j < n {
      ReadingAt(chunks[..n], read, j);
      assert chunks[..n][j] == chunks[j];
    }
  }

  /** Part 1's reading of every problem. */
  function RowReadings(chunks: seq<seq<string>>): (ns: seq<Option<seq<int>>>)
  {
    Readings(chunks, RowNumbers)
  }

  /** Part 2's reading of every problem. */
  function ColumnReadings(chunks: seq<seq<string>>): (ns: seq<Option<seq<int>>>)
  {
    Readings(chunks, ProblemColumns)
  }

  /** The grand total: every problem's result added up, or `None` once one failed to read. */
  function GrandTotal(ns: seq<Option<seq<int>>>, ops: seq<char>): Option<int>
    requires |ns| == |ops|
  {
    if ns == [] then Some(0)
    else
      var n := |ns| - 1;
      match (GrandTotal(ns[..n], ops[..n]), ns[n])
        case (Some(t), Some(nums)) => Some(t + Compute(ops[n], nums))
        case _ => None
  }

  /** A total is read exactly when every problem is. */
  lemma {:induction false} GrandTotalReads(ns: seq<Option<seq<int>>>, ops: seq<char>)
    requires |ns| == |ops|
    ensures GrandTotal(ns, ops).Some? <==> forall j :: 0 <= j < |ns| ==> ns[j].Some?
  {
    if ns != [] {
      var n := |ns| - 1;
      GrandTotalReads(ns[..n], ops[..n]);
      assert forall j :: 0 <= j < n ==> ns[..n][j] == ns[j];
    }
  }

  /** With every problem read, the total is the sum of the problem results. */
  lemma {:induction false} GrandTotalSums(ns: seq<Option<seq<int>>>, ops: seq<char>, results: seq<int>)
    requires |ns| == |ops| == |results|
    requires forall j :: 0 <= j < |ns| ==> ns[j].Some? && results[j] == Compute(ops[j], ns[j].value)
    ensures GrandTotal(ns, ops) == Some(Sum(results))
  {
    if ns != [] {
      var n := |ns| - 1;
      assert forall j :: 0 <= j < n ==> ns[..n][j] == ns[j] && ops[..n][j] == ops[j] && results[..n][j] == results[j];
      GrandTotalSums(ns[..n], ops[..n], results[..n]);
    }
  }

  /** The total over one more problem. */
  lemma GrandTotalNext(ns: seq<Option<seq<int>>>, ops: seq<char>, j: int, t: int, nums: seq<int>)
    requires |ns| == |ops| && 0 <= j < |ns| && ns[j] == Some(nums)
    requires GrandTotal(ns[..j], ops[..j]) == Some(t)
    ensures GrandTotal(ns[..j + 1], ops[..j + 1]) == Some(t + Compute(ops[j], nums))
  {
    assert ns[..j + 1][..j] == ns[..j];
    assert ops[..j + 1][..j] == ops[..j];
  }

  /** One unread problem leaves the whole total unread. */
  lemma GrandTotalMissing(ns: seq<Option<seq<int>>>, ops: seq<char>, j: int)
    requires |ns| == |ops| && 0 <= j < |ns| && ns[j].None?
    ensures GrandTotal(ns, ops).None?
  {
    GrandTotalReads(ns, ops);
    assert !ns[j].Some?;
  }

  /** The `total +=` loop shared by both parts; `None` at the first problem that does not read. */
  method SumReadings(ns: seq<Option<seq<int>>>, ops: seq<char>) returns (total: Option<int>)
    requires |ns| == |ops|
    ensures total == GrandTotal(ns, ops)
  {
    var t := 0;
    for j := 0 to |ns|
      invariant GrandTotal(ns[..j], ops[..j]) == Some(t)
    {
      if ns[j].None? {
        GrandTotalMissing(ns, ops, j);
        return None;
      }
      GrandTotalNext(ns, ops, j, t, ns[j].value);
      t := t + Compute(ops[j], ns[j].value);
    }
    assert ns[..|ns|] == ns && ops[..|ops|] == ops;
    total := Some(t);
  }

  /** The `nums = [int(r.strip()) ...]` reading of every chunk in `solve_part1`. */
  method ReadAllRows(chunks: seq<seq<string>>) returns (ns: seq<Option<seq<int>>>)
    ensures ns == RowReadings(chunks)
  {
    ns := [];
    for j := 0 to |chunks|
      invariant ns == RowReadings(chunks[..j])
    {
      assert chunks[..j + 1][..j] == chunks[..j];
      ns := ns + [RowNumbers(chunks[j])];
    }
    assert chunks[..|chunks|] == chunks;
  }

  /** `solve_part1`'s loop over the problems. */
  method SumRows(chunks: seq<seq<string>>, ops: seq<char>) returns (total: Option<int>)
    requires |chunks| == |ops|
    ensures total == GrandTotal(RowReadings(chunks), ops)
  {
    var ns := ReadAllRows(chunks);
    total := SumReadings(ns, ops);
  }

  /** Entry `i` of the right-to-left readings is the number read from column `width - 1 - i`. */
  lemma ColumnRead(rows: seq<string>, width: nat, i: nat)
    requires Even(rows, width) && i < width
    ensures ParsedInts(ColumnsRightToLeft(rows, width))[i] == ParseInt(Column(rows, width - 1 - i))
  {
  }

  /** The inner `for col` loop of `solve_part2`: one number per column, right to left. */
  method ReadColumns(rows: seq<string>, width: nat) returns (nums: Option<seq<int>>)
    requires Even(rows, width)
    ensures nums == ColumnNumbers(rows, width)
  {
    ghost var ps := ParsedInts(ColumnsRightToLeft(rows, width));
    var acc: seq<int> := [];
    for i := 0 to width
      invariant AllSome(ps[..i]) == Some(acc)
    {
      var col := width - 1 - i;
      AllSomeStep(ps, i);
      ColumnRead(rows, width, i);
      var n := ParseInt(Column(rows, col));
      if n.None? {
        AllSomeMissing(ps, i);
        return None;
      }
      acc := acc + [n.value];
    }
    assert ps[..width] == ps;
    nums := Some(acc);
  }

  /** The column reading of every chunk in `solve_part2`; a chunk without rows fails. */
  method ReadAllColumns(chunks: seq<seq<string>>) returns (ns: seq<Option<seq<int>>>)
    requires forall j :: 0 <= j < |chunks| && chunks[j] != [] ==> Even(chunks[j], |chunks[j][0]|)
    ensures ns == ColumnReadings(chunks)
  {
    ns := [];
    for j := 0 to |chunks|
      invariant ns == ColumnReadings(chunks[..j])
    {
      assert chunks[..j + 1][..j] == chunks[..j];
      var nums := None;
      if chunks[j] != [] {
        nums := ReadColumns(chunks[j], |chunks[j][0]|);
      }
      ns := ns + [nums];
    }
    assert chunks[..|chunks|] == chunks;
  }

  /** `solve_part2`'s loop over the problems. */
  method SumColumns(chunks: seq<seq<string>>, ops: seq<char>) returns (total: Option<int>)
    requires |chunks| == |ops|
    requires forall j :: 0 <= j < |chunks| && chunks[j] != [] ==> Even(chunks[j], |chunks[j][0]|)
    ensures total == GrandTotal(ColumnReadings(chunks), ops)
  {
    var ns := ReadAllColumns(chunks);
    total := SumReadings(ns, ops);
  }

  /** Every chunk of a worksheet has `|lines| - 1` rows of its block's width. */
  lemma WorksheetChunks(raw: string)
    requires Lines(raw) != []
    ensures forall j :: 0 <= j < |Worksheet(raw).0| ==>
      |Worksheet(raw).0[j]| == |Lines(raw)| - 1 && (Worksheet(raw).0[j] != [] ==> Even(Worksheet(raw).0[j], |Worksheet(raw).0[j][0]|))
  {
    var lines := Sheet(raw);
    assert |lines| == |Lines(raw)|;
    ProblemsShape(lines, SheetBlocks(raw));
  }

  /** `solve_part1`; `None` where a row does not read as an integer. */
  method SolvePart1(raw: string) returns (total: Option<int>)
    requires Lines(raw) != []
    ensures total == GrandTotal(RowReadings(Worksheet(raw).0), Worksheet(raw).1)
  {
    var chunks, ops := Parse(raw);
    total := SumRows(chunks, ops);
  }

  /** `solve_part2`; `None` where a column does not read as an integer or there is no number line. */
  method SolvePart2(raw: string) returns (total: Option<int>)
    requires Lines(raw) != []
    ensures total == GrandTotal(ColumnReadings(Worksheet(raw).0), Worksheet(raw).1)
  {
    var chunks, ops := Parse(raw);
    WorksheetChunks(raw);
    total := SumColumns(chunks, ops);
  }
}
