/**
 * 2025 day 5 (aoc/year2025/day05.py): fresh-ingredient id ranges `a-b`, a blank line,
 * then the available ids. `parse` sorts the ranges and merges overlapping or adjacent
 * ones; part 1 counts the available ids inside some range and part 2 counts every id
 * any range covers.
 */
module Year2025Day05 {
  import opened Common
  import opened Text
  import opened Sorting
  import Year2025Day02

  type Range = (int, int)

  // ------------------------------------------------------------------ parsing

  /**
   * The two comprehensions of `parse`: the ranges of the first block and the ids of the
   * second, before any merging; `None` when a block is missing or a line is malformed.
   */
  function Input(raw: string): Option<(seq<Range>, seq<int>)>
  {
    var parts := Split(Trim(raw), "\n\n");
    if |parts| < 2 then None
    else
      match (AllSome(Year2025Day02.ParsedParts(Lines(parts[0]))), AllSome(ParsedInts(Lines(Trim(parts[1])))))
        case (Some(rules), Some(available)) => Some((rules, available))
        case _ => None
  }

  /** Every range reads as `start <= end`. */
  predicate Proper(rs: seq<Range>)
  {
    forall k :: 0 <= k < |rs| ==> rs[k].0 <= rs[k].1
  }

  // ------------------------------------------------------------------ sorting

  /** Python's tuple order on ranges. */
  function PairLe(a: Range, b: Range): bool
  {
    a.0 < b.0 || (a.0 == b.0 && a.1 <= b.1)
  }

  lemma PairLeIsOrder()
    ensures Total(PairLe) && Transitive(PairLe)
  {
  }

  /** `sorted(rules)`: a permutation of the rules, by start and then by end. */
  function SortRules(rs: seq<Range>): (r: seq<Range>)
    ensures |r| == |rs| && multiset(r) == multiset(rs)
    ensures SortedWith(r, PairLe)
  {
    PairLeIsOrder();
    SortIsSorted(rs, PairLe);
    SortWith(rs, PairLe)
  }

  /** Starts never decrease along `rs`. */
  predicate StartsSorted(rs: seq<Range>)
  {
    forall i, j :: 0 <= i < j < |rs| ==> rs[i].0 <= rs[j].0
  }

  lemma SortedRulesStartsSorted(rs: seq<Range>)
    ensures StartsSorted(SortRules(rs))
  {
    var r := SortRules(rs);
    forall i, j | 0 <= i < j < |r| ensures r[i].0 <= r[j].0 {
      assert PairLe(r[i], r[j]);
    }
  }

  // ------------------------------------------------------------------ merging

  /** One turn of the merge loop: start a new interval, or widen the last one. */
  function Absorb(merged: seq<Range>, r: Range): seq<Range>
  {
    if merged == [] || merged[|merged| - 1].1 < r.0 - 1 then merged + [r]
    else
      var last := merged[|merged| - 1];
      merged[..|merged| - 1] + [(last.0, Max(last.1, r.1))]
  }

  /** The merged list the loop of `parse` builds from a list of rules. */
  function MergeAll(rs: seq<Range>): seq<Range>
  {
    if rs == [] then [] else Absorb(MergeAll(rs[..|rs| - 1]), rs[|rs| - 1])
  }

  /** `parse`'s merge loop over the sorted rules. */
  method Merge(sorted: seq<Range>) returns (merged: seq<Range>)
    ensures merged == MergeAll(sorted)
  {
    merged := [];
    for i := 0 to |sorted|
      invariant merged == MergeAll(sorted[..i])
    {
      assert sorted[..i + 1][..i] == sorted[..i];
      var (start, end) := sorted[i];
      if merged == [] || merged[|merged| - 1].1 < start - 1 {
        merged := merged + [(start, end)];
      } else {
        merged := merged[..|merged| - 1] + [(merged[|merged| - 1].0, Max(merged[|merged| - 1].1, end))];
      }
    }
    assert sorted[..|sorted|] == sorted;
  }

  /** Consecutive merged intervals leave at least one id between them, so they are disjoint. */
  predicate Separated(m: seq<Range>)
  {
    forall i, j :: 0 <= i < j < |m| ==> m[i].1 < m[j].0 - 1
  }

  /** Some range of `rs` holds `v`: the `any(...)` of `solve_part1`. */
  predicate Covers(rs: seq<Range>, v: int)
  {
    exists k :: 0 <= k < |rs| && rs[k].0 <= v <= rs[k].1
  }

  /** `x` is the start of some range of `rs`. */
  predicate IsStart(rs: seq<Range>, x: int)
  {
    exists j :: 0 <= j < |rs| && rs[j].0 == x
  }

  /** `x` is the end of some range of `rs`. */
  predicate IsEnd(rs: seq<Range>, x: int)
  {
    exists j :: 0 <= j < |rs| && rs[j].1 == x
  }

  lemma EndsOfPrefix(rs: seq<Range>, x: int)
    requires rs != []
    ensures IsStart(rs[..|rs| - 1], x) ==> IsStart(rs, x)
    ensures IsEnd(rs[..|rs| - 1], x) ==> IsEnd(rs, x)
  {
    var init := rs[..|rs| - 1];
    if IsStart(init, x) {
      var j :| 0 <= j < |init| && init[j].0 == x;
      assert rs[j] == init[j];
    }
    if IsEnd(init, x) {
      var j :| 0 <= j < |init| && init[j].1 == x;
      assert rs[j] == init[j];
    }
  }

  /** A merged start is an original start and a merged end an original end. */
  lemma {:induction false} MergedEndsAreOriginal(rs: seq<Range>)
    ensures forall k :: 0 <= k < |MergeAll(rs)| ==> IsStart(rs, MergeAll(rs)[k].0) && IsEnd(rs, MergeAll(rs)[k].1)
  {
    if rs != [] {
      var init := rs[..|rs| - 1];
      var last := rs[|rs| - 1];
      MergedEndsAreOriginal(init);
      var m := MergeAll(init);
      var r := MergeAll(rs);
      assert IsStart(rs, last.0) && IsEnd(rs, last.1) by {
        assert rs[|rs| - 1] == last;
      }
      forall k | 0 <= k < |m| ensures IsStart(rs, m[k].0) && IsEnd(rs, m[k].1) {
        EndsOfPrefix(rs, m[k].0);
        EndsOfPrefix(rs, m[k].1);
      }
      if m == [] || m[|m| - 1].1 < last.0 - 1 {
        assert r == m + [last];
      } else {
        assert r == m[..|m| - 1] + [(m[|m| - 1].0, Max(m[|m| - 1].1, last.1))];
        assert forall k :: 0 <= k < |m| - 1 ==> r[k] == m[k];
      }
    }
  }

  /**
   * On sorted, proper rules the merged list is proper, its starts rise, and consecutive
   * intervals are neither overlapping nor adjacent; its last start is the largest start.
   */
  lemma {:induction false} MergedShape(rs: seq<Range>)
    requires StartsSorted(rs) && Proper(rs)
    ensures Proper(MergeAll(rs)) && Separated(MergeAll(rs))
    ensures (rs == []) == (MergeAll(rs) == [])
    ensures rs != [] ==> MergeAll(rs)[|MergeAll(rs)| - 1].0 <= rs[|rs| - 1].0
  {
    if rs != [] {
      var n := |rs| - 1;
      var init, last := rs[..n], rs[n];
      assert StartsSorted(init) && Proper(init);
      MergedShape(init);
      assert init != [] ==> init[n - 1].0 <= last.0;
      AbsorbShape(MergeAll(init), last);
    }
  }

  /** One merge step keeps the merged list proper and separated, and ends at a start no later than the rule's. */
  lemma AbsorbShape(m: seq<Range>, r: Range)
    requires Proper(m) && Separated(m) && r.0 <= r.1
    requires m != [] ==> m[|m| - 1].0 <= r.0
    ensures Proper(Absorb(m, r)) && Separated(Absorb(m, r))
    ensures Absorb(m, r) != [] && Absorb(m, r)[|Absorb(m, r)| - 1].0 <= r.0
  {
    var a := Absorb(m, r);
    if m == [] || m[|m| - 1].1 < r.0 - 1 {
      assert a == m + [r];
      forall i | 0 <= i < |m| ensures m[i].1 < r.0 - 1 {
        if i < |m| - 1 {
          assert m[i].1 < m[|m| - 1].0 - 1;
        }
      }
    } else {
      var n := |m| - 1;
      assert a == m[..n] + [(m[n].0, Max(m[n].1, r.1))];
      assert forall i :: 0 <= i < n ==> a[i] == m[i];
    }
  }

  /** One more range covers what the others do, and itself. */
  lemma CoversSnoc(rs: seq<Range>, r: Range, v: int)
    ensures Covers(rs + [r], v) <==> Covers(rs, v) || r.0 <= v <= r.1
  {
    var t := rs + [r];
    if Covers(t, v) {
      var k :| 0 <= k < |t| && t[k].0 <= v <= t[k].1;
      if k < |rs| {
        assert t[k] == rs[k];
      }
    }
    if Covers(rs, v) {
      var k :| 0 <= k < |rs| && rs[k].0 <= v <= rs[k].1;
      assert t[k] == rs[k];
    }
    assert t[|rs|] == r;
  }

  /** A merge step covers the old intervals and the new rule, when the rule starts no earlier. */
  lemma CoversAbsorb(m: seq<Range>, r: Range, v: int)
    requires r.0 <= r.1
    requires m != [] ==> m[|m| - 1].0 <= r.0
    ensures Covers(Absorb(m, r), v) <==> Covers(m, v) || r.0 <= v <= r.1
  {
    if m == [] || m[|m| - 1].1 < r.0 - 1 {
      CoversSnoc(m, r, v);
    } else {
      var n := |m| - 1;
      var widened := (m[n].0, Max(m[n].1, r.1));
      assert m == m[..n] + [m[n]];
      CoversSnoc(m[..n], m[n], v);
      CoversSnoc(m[..n], widened, v);
    }
  }

  /** An id is in a merged interval iff it is in some sorted, proper rule. */
  lemma {:induction false} MergedCovers(rs: seq<Range>, v: int)
    requires StartsSorted(rs) && Proper(rs)
    ensures Covers(MergeAll(rs), v) <==> Covers(rs, v)
  {
    if rs != [] {
      var init := rs[..|rs| - 1];
      var last := rs[|rs| - 1];
      MergedCovers(init, v);
      MergedShape(init);
      if init != [] {
        assert init[|init| - 1].0 <= last.0;
      }
      CoversAbsorb(MergeAll(init), last, v);
      assert rs == init + [last];
      CoversSnoc(init, last, v);
    }
  }

  /** `parse`: the sorted rules merged, and the available ids. */
  method Parse(raw: string) returns (r: Option<(seq<Range>, seq<int>)>)
    ensures r.None? <==> Input(raw).None?
    ensures r.Some? ==> r.value.0 == MergeAll(SortRules(Input(raw).value.0)) && r.value.1 == Input(raw).value.1
  {
    var input := Input(raw);
    if input.None? {
      return None;
    }
    var (rules, available) := input.value;
    var merged := Merge(SortRules(rules));
    r := Some((merged, available));
  }

  // ------------------------------------------------------------------ solving

  /** `solve_part1`'s sum: how many available ids some interval covers. */
  function FreshCount(rs: seq<Range>, available: seq<int>): (n: nat)
    ensures n <= |available|
  {
    if available == [] then 0
    else FreshCount(rs, available[..|available| - 1]) + (if Covers(rs, available[|available| - 1]) then 1 else 0)
  }

  /** Two interval lists covering the same ids count the same available ids. */
  lemma {:induction false} FreshCountSameCover(rs: seq<Range>, qs: seq<Range>, available: seq<int>)
    requires forall k :: 0 <= k < |available| ==> (Covers(rs, available[k]) <==> Covers(qs, available[k]))
    ensures FreshCount(rs, available) == FreshCount(qs, available)
  {
    if available != [] {
      FreshCountSameCover(rs, qs, available[..|available| - 1]);
    }
  }

  /** `solve_part2`'s sum: the widths `end - start + 1` of the intervals. */
  function Widths(m: seq<Range>): int
  {
    if m == [] then 0 else Widths(m[..|m| - 1]) + (m[|m| - 1].1 - m[|m| - 1].0 + 1)
  }

  /** The ids from `s` to `e` inclusive. */
  ghost function Interval(s: int, e: int): (u: set<int>)
    ensures forall v :: v in u <==> s <= v <= e
    ensures s <= e + 1 ==> |u| == e - s + 1
    decreases e - s
  {
    if s > e then {} else Interval(s, e - 1) + {e}
  }

  /** Every id some range covers. */
  ghost function Union(rs: seq<Range>): (u: set<int>)
    ensures forall v :: v in u <==> Covers(rs, v)
  {
    if rs == [] then {}
    else
      var init := rs[..|rs| - 1];
      var last := rs[|rs| - 1];
      assert rs == init + [last];
      assert forall v :: Covers(rs, v) <==> Covers(init, v) || last.0 <= v <= last.1 by {
        forall v ensures Covers(rs, v) <==> Covers(init, v) || last.0 <= v <= last.1 {
          CoversSnoc(init, last, v);
        }
      }
      Union(init) + Interval(last.0, last.1)
  }

  /** For separated, proper intervals the widths add up to the size of their union. */
  /** Every id the earlier separated intervals cover lies before the last one. */
  lemma UnionBeforeLast(m: seq<Range>, init: seq<Range>)
    requires Separated(m) && m != [] && init == m[..|m| - 1]
    ensures forall v :: v in Union(init) ==> v < m[|m| - 1].0
  {
    forall v | v in Union(init) ensures v < m[|m| - 1].0 {
      var k :| 0 <= k < |init| && init[k].0 <= v <= init[k].1;
      assert init[k] == m[k];
    }
  }

  lemma DisjointCard(a: set<int>, b: set<int>)
    requires a * b == {}
    ensures |a + b| == |a| + |b|
  {
  }

  lemma {:induction false} WidthsCountUnion(m: seq<Range>)
    requires Proper(m) && Separated(m)
    ensures Widths(m) == |Union(m)|
  {
    if m != [] {
      var init := m[..|m| - 1];
      var last := m[|m| - 1];
      assert forall k :: 0 <= k < |init| ==> init[k] == m[k];
      WidthsCountUnion(init);
      UnionBeforeLast(m, init);
      DisjointCard(Union(init), Interval(last.0, last.1));
    }
  }

  /** `solve_part1`: the available ids that some original rule covers. */
  method SolvePart1(raw: string) returns (n: Option<nat>)
    ensures n.None? <==> Input(raw).None?
    ensures n.Some? ==> n.value == FreshCount(MergeAll(SortRules(Input(raw).value.0)), Input(raw).value.1)
    ensures n.Some? && Proper(Input(raw).value.0) ==> n.value == FreshCount(Input(raw).value.0, Input(raw).value.1)
  {
    var parsed := Parse(raw);
    if parsed.None? {
      return None;
    }
    var (rules, available) := parsed.value;
    n := Some(FreshCount(rules, available));
    var original := Input(raw).value.0;
    if Proper(original) {
      var sorted := SortRules(original);
      SortedRulesStartsSorted(original);
      SortedRulesProper(original);
      forall k | 0 <= k < |available| ensures Covers(rules, available[k]) <==> Covers(original, available[k]) {
        MergedCovers(sorted, available[k]);
        SortedCoverSame(original, available[k]);
      }
      FreshCountSameCover(rules, original, available);
    }
  }

  /** Reordering the rules does not change what they cover. */
  lemma SortedCoverSame(rs: seq<Range>, v: int)
    ensures Covers(SortRules(rs), v) <==> Covers(rs, v)
  {
    var r := SortRules(rs);
    if Covers(r, v) {
      var k :| 0 <= k < |r| && r[k].0 <= v <= r[k].1;
      assert r[k] in multiset(rs);
      var j :| 0 <= j < |rs| && rs[j] == r[k];
    }
    if Covers(rs, v) {
      var k :| 0 <= k < |rs| && rs[k].0 <= v <= rs[k].1;
      assert rs[k] in multiset(r);
      var j :| 0 <= j < |r| && r[j] == rs[k];
    }
  }

  lemma SortedRulesProper(rs: seq<Range>)
    requires Proper(rs)
    ensures Proper(SortRules(rs))
  {
    var sorted := SortRules(rs);
    forall k | 0 <= k < |sorted| ensures sorted[k].0 <= sorted[k].1 {
      assert sorted[k] in multiset(rs);
    }
  }

  /** Sorting and merging keep the set of covered ids. */
  lemma MergedUnionSame(rs: seq<Range>)
    requires Proper(rs)
    ensures Union(MergeAll(SortRules(rs))) == Union(rs)
  {
    var sorted := SortRules(rs);
    SortedRulesStartsSorted(rs);
    SortedRulesProper(rs);
    forall v ensures v in Union(MergeAll(sorted)) <==> v in Union(rs) {
      MergedCovers(sorted, v);
      SortedCoverSame(rs, v);
    }
  }

  /** Part 2 on proper rules: the number of distinct ids the original rules cover. */
  lemma MergedWidthsCountUnion(rs: seq<Range>)
    requires Proper(rs)
    ensures Widths(MergeAll(SortRules(rs))) == |Union(rs)|
  {
    var sorted := SortRules(rs);
    var merged := MergeAll(sorted);
    SortedRulesStartsSorted(rs);
    SortedRulesProper(rs);
    MergedShape(sorted);
    WidthsCountUnion(merged);
    MergedUnionSame(rs);
  }

  /** `solve_part2`: the widths of the merged intervals, which count the ids the rules cover. */
  method SolvePart2(raw: string) returns (n: Option<int>)
    ensures n.None? <==> Input(raw).None?
    ensures n.Some? ==> n.value == Widths(MergeAll(SortRules(Input(raw).value.0)))
    ensures n.Some? && Proper(Input(raw).value.0) ==> n.value == |Union(Input(raw).value.0)|
  {
    var parsed := Parse(raw);
    if parsed.None? {
      return None;
    }
    n := Some(Widths(parsed.value.0));
    if Proper(Input(raw).value.0) {
      MergedWidthsCountUnion(Input(raw).value.0);
    }
  }

  // ----------------------------------------------------------------- example

  lemma MergeAllSnoc(rs: seq<Range>, r: Range)
    ensures MergeAll(rs + [r]) == Absorb(MergeAll(rs), r)
  {
    assert (rs + [r])[..|rs|] == rs;
  }

  lemma FreshCountSnoc(m: seq<Range>, a: seq<int>, v: int)
    ensures FreshCount(m, a + [v]) == FreshCount(m, a) + if Covers(m, v) then 1 else 0
  {
    assert (a + [v])[..|a|] == a;
  }

  lemma WidthsSnoc(m: seq<Range>, r: Range)
    ensures Widths(m + [r]) == Widths(m) + r.1 - r.0 + 1
  {
    assert (m + [r])[..|m|] == m;
  }

  lemma ExampleMerged(rs: seq<Range>)
    requires rs == [(3, 5), (10, 14), (12, 18), (16, 20)]
    ensures MergeAll(rs) == [(3, 5), (10, 20)]
  {
    var r1: seq<Range> := [(3, 5)];
    var r2 := r1 + [(10, 14)];
    var r3 := r2 + [(12, 18)];
    var r4 := r3 + [(16, 20)];
    assert MergeAll(r1) == [(3, 5)] by { MergeAllSnoc([], (3, 5)); assert [] + r1 == r1; }
    assert MergeAll(r2) == [(3, 5), (10, 14)] by { MergeAllSnoc(r1, (10, 14)); }
    assert MergeAll(r3) == [(3, 5), (10, 18)] by { MergeAllSnoc(r2, (12, 18)); }
    assert MergeAll(r4) == [(3, 5), (10, 20)] by { MergeAllSnoc(r3, (16, 20)); }
    assert r4 == rs;
  }

  lemma SortWithCons(x: Range, s: seq<Range>)
    ensures SortWith([x] + s, PairLe) == InsertWith(x, SortWith(s, PairLe), PairLe)
  {
    assert ([x] + s)[1..] == s;
  }

  lemma InsertWithCons(x: Range, y: Range, s: seq<Range>)
    ensures InsertWith(x, [y] + s, PairLe) == if PairLe(x, y) then [x, y] + s else [y] + InsertWith(x, s, PairLe)
  {
    assert ([y] + s)[1..] == s;
  }

  lemma ExampleSort2(s1: seq<Range>, s2: seq<Range>)
    requires s1 == [(12, 18)] && s2 == [(16, 20)] + s1
    ensures SortWith(s2, PairLe) == [(12, 18), (16, 20)]
  {
    var e: seq<Range> := [];
    assert SortWith(s1, PairLe) == s1 by { SortWithCons((12, 18), e); assert [(12, 18)] + e == s1; }
    SortWithCons((16, 20), s1);
    InsertWithCons((16, 20), (12, 18), e);
    assert InsertWith((16, 20), e, PairLe) == [(16, 20)];
  }

  lemma ExampleSort3(s2: seq<Range>, s3: seq<Range>)
    requires SortWith(s2, PairLe) == [(12, 18), (16, 20)] && s3 == [(10, 14)] + s2
    ensures SortWith(s3, PairLe) == [(10, 14), (12, 18), (16, 20)]
  {
    SortWithCons((10, 14), s2);
    InsertWithCons((10, 14), (12, 18), [(16, 20)]);
  }

  lemma ExampleSort4(s3: seq<Range>, s4: seq<Range>)
    requires SortWith(s3, PairLe) == [(10, 14), (12, 18), (16, 20)] && s4 == [(3, 5)] + s3
    ensures SortWith(s4, PairLe) == [(3, 5), (10, 14), (12, 18), (16, 20)]
  {
    SortWithCons((3, 5), s3);
    InsertWithCons((3, 5), (10, 14), [(12, 18), (16, 20)]);
  }

  lemma ExampleSorted(rs: seq<Range>)
    requires rs == [(3, 5), (10, 14), (16, 20), (12, 18)]
    ensures SortRules(rs) == [(3, 5), (10, 14), (12, 18), (16, 20)]
  {
    assert rs[2..] == [(16, 20)] + rs[3..];
    ExampleSort2(rs[3..], rs[2..]);
    assert rs[1..] == [(10, 14)] + rs[2..];
    ExampleSort3(rs[2..], rs[1..]);
    assert rs == [(3, 5)] + rs[1..];
    ExampleSort4(rs[1..], rs);
  }

  lemma ExampleCounts(m: seq<Range>, available: seq<int>)
    requires m == [(3, 5), (10, 20)] && available == [1, 5, 8, 11, 17, 32]
    ensures FreshCount(m, available) == 3
    ensures Widths(m) == 14
  {
    assert !Covers(m, 1) && Covers(m, 5) && !Covers(m, 8) && Covers(m, 11) && Covers(m, 17) && !Covers(m, 32) by {
      assert m[0].0 <= 5 <= m[0].1;
      assert m[1].0 <= 11 <= m[1].1;
      assert m[1].0 <= 17 <= m[1].1;
    }
    var a0: seq<int> := [];
    var a1 := a0 + [1];
    var a2 := a1 + [5];
    var a3 := a2 + [8];
    var a4 := a3 + [11];
    var a5 := a4 + [17];
    var a6 := a5 + [32];
    FreshCountSnoc(m, a0, 1);
    FreshCountSnoc(m, a1, 5);
    FreshCountSnoc(m, a2, 8);
    FreshCountSnoc(m, a3, 11);
    FreshCountSnoc(m, a4, 17);
    FreshCountSnoc(m, a5, 32);
    assert a6 == available;
    var n0: seq<Range> := [];
    var n1 := n0 + [(3, 5)];
    WidthsSnoc(n0, (3, 5));
    WidthsSnoc(n1, (10, 20));
    assert n1 + [(10, 20)] == m;
  }

  /** The example of tests/year2025/test_day05.py, from its parsed ranges and ids: 3 and 14. */
  lemma Example(rules: seq<Range>, available: seq<int>)
    requires rules == [(3, 5), (10, 14), (16, 20), (12, 18)] && available == [1, 5, 8, 11, 17, 32]
    ensures FreshCount(MergeAll(SortRules(rules)), available) == 3
    ensures Widths(MergeAll(SortRules(rules))) == 14
    ensures |Union(rules)| == 14
  {
    ExampleSorted(rules);
    ExampleMerged(SortRules(rules));
    ExampleCounts(MergeAll(SortRules(rules)), available);
    MergedWidthsCountUnion(rules);
  }
}
