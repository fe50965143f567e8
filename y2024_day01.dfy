/**
 * 2024 day 1 (aoc/year2024/day01.py): two columns of location ids. Part 1 pairs the
 * columns after sorting each and adds the distances; part 2 weighs every left id by how
 * often it occurs in the right column.
 */
module Year2024Day01 {
  import opened Common
  import opened Text
  import opened Sorting

  // ------------------------------------------------------------------ parsing

  /** One input line: exactly two whitespace-separated integers. */
  function ParseLine(line: string): Option<(int, int)>
  {
    var ws := Words(line);
    if |ws| != 2 then None
    else match (ParseInt(ws[0]), ParseInt(ws[1]))
      case (Some(a), Some(b)) => Some((a, b))
      case _ => None
  }

  /** Every line parsed on its own. */
  function ParsedLines(lines: seq<string>): (ps: seq<Option<(int, int)>>)
    ensures |ps| == |lines| && forall i :: 0 <= i < |lines| ==> ps[i] == ParseLine(lines[i])
  {
    seq(|lines|, i requires 0 <= i < |lines| => ParseLine(lines[i]))
  }

  /**
   * The two columns of the parsed lines, in line order; `None` when some line is not a
   * pair of integers (Python raises there).
   */
  function Unzip(ps: seq<Option<(int, int)>>): (r: Option<(seq<int>, seq<int>)>)
    ensures r.Some? <==> forall i :: 0 <= i < |ps| ==> ps[i].Some?
    ensures r.Some? ==> |r.value.0| == |ps| && |r.value.1| == |ps|
    ensures r.Some? ==> forall i :: 0 <= i < |ps| ==> ps[i] == Some((r.value.0[i], r.value.1[i]))
  {
    if ps == [] then Some(([], []))
    else
      var init := ps[..|ps| - 1];
      assert forall i :: 0 <= i < |init| ==> init[i] == ps[i];
      var prefix := Unzip(init);
      var last := ps[|ps| - 1];
      if prefix.None? || last.None? then None
      else Some((prefix.value.0 + [last.value.0], prefix.value.1 + [last.value.1]))
  }

  lemma UnzipStep(ps: seq<Option<(int, int)>>, i: int)
    requires 0 <= i < |ps|
    ensures var prefix := Unzip(ps[..i]);
            Unzip(ps[..i + 1]) == if prefix.None? || ps[i].None? then None
                                  else Some((prefix.value.0 + [ps[i].value.0], prefix.value.1 + [ps[i].value.1]))
  {
    assert ps[..i + 1][..i] == ps[..i];
  }

  function Columns(raw: string): Option<(seq<int>, seq<int>)>
  {
    Unzip(ParsedLines(Lines(raw)))
  }

  /** `parse`: the loop appends one left and one right value per line. */
  method Parse(raw: string) returns (r: Option<(seq<int>, seq<int>)>)
    ensures r == Columns(raw)
  {
    var lines := Lines(raw);
    ghost var ps := ParsedLines(lines);
    var lefts: seq<int> := [];
    var rights: seq<int> := [];
    var i := 0;
    while i < |lines|
      invariant 0 <= i <= |lines|
      invariant Unzip(ps[..i]) == Some((lefts, rights))
    {
      var p := ParseLine(lines[i]);
      UnzipStep(ps, i);
      if p.None? {
        return None;
      }
      lefts := lefts + [p.value.0];
      rights := rights + [p.value.1];
      i := i + 1;
    }
    assert ps[..i] == ps;
    r := Some((lefts, rights));
  }

  // ------------------------------------------------------------------- part 1

  /** Sum of |r - l| over `zip(ls, rs)`. */
  function Distance(ls: seq<int>, rs: seq<int>): (d: nat)
  {
    if ls == [] || rs == [] then 0 else Abs(rs[0] - ls[0]) + Distance(ls[1..], rs[1..])
  }

  /** `solve_part1` on parsed columns: pair the sorted columns position by position. */
  function TotalDistance(lefts: seq<int>, rights: seq<int>): nat
  {
    Distance(SortInts(lefts), SortInts(rights))
  }

  /** The distance sum is the same for any reordering of either column. */
  lemma TotalDistancePermutation(l1: seq<int>, l2: seq<int>, r1: seq<int>, r2: seq<int>)
    requires multiset(l1) == multiset(l2) && multiset(r1) == multiset(r2)
    ensures TotalDistance(l1, r1) == TotalDistance(l2, r2)
  {
    SortIntsPermutation(l1, l2);
    SortIntsPermutation(r1, r2);
  }

  lemma {:induction false} DistanceToItself(s: seq<int>)
    ensures Distance(s, s) == 0
  {
    if s != [] {
      DistanceToItself(s[1..]);
    }
  }

  /** Columns holding the same ids (with multiplicity) are at distance 0. */
  lemma TotalDistanceOfPermutation(lefts: seq<int>, rights: seq<int>)
    requires multiset(lefts) == multiset(rights)
    ensures TotalDistance(lefts, rights) == 0
  {
    SortIntsPermutation(lefts, rights);
    DistanceToItself(SortInts(lefts));
  }

  // ------------------------------------------------------------------- part 2

  /** The distinct values of `s` in order of first occurrence (the key order of `Counter(s)`). */
  function Distinct(s: seq<int>): (d: seq<int>)
    ensures forall x :: x in d <==> x in s
    ensures forall i, j :: 0 <= i < j < |d| ==> d[i] != d[j]
  {
    if s == [] then []
    else
      var init := s[..|s| - 1];
      assert s == init + [s[|s| - 1]];
      var d := Distinct(init);
      if s[|s| - 1] in init then d else d + [s[|s| - 1]]
  }

  /** Sum of n * lc[n] * rc[n] over the keys `d`. */
  function Weighted(d: seq<int>, lefts: seq<int>, rights: seq<int>): int
  {
    if d == [] then 0
    else
      var n := d[|d| - 1];
      Weighted(d[..|d| - 1], lefts, rights) + n * Count(lefts, n) * Count(rights, n)
  }

  /** `solve_part2` on parsed columns. */
  function Similarity(lefts: seq<int>, rights: seq<int>): int
  {
    Weighted(Distinct(lefts), lefts, rights)
  }

  /** Reference form: every left entry (repeats included) times its count on the right. */
  function PerEntry(lefts: seq<int>, rights: seq<int>): int
  {
    if lefts == [] then 0
    else
      var n := lefts[|lefts| - 1];
      PerEntry(lefts[..|lefts| - 1], rights) + n * Count(rights, n)
  }

  lemma {:induction false} WeightedOther(d: seq<int>, lefts: seq<int>, x: int, rights: seq<int>)
    requires x !in d
    ensures Weighted(d, lefts + [x], rights) == Weighted(d, lefts, rights)
  {
    if d != [] {
      var n := d[|d| - 1];
      CountSnoc(lefts, x, n);
      WeightedOther(d[..|d| - 1], lefts, x, rights);
    }
  }

  lemma {:induction false} WeightedOne(d: seq<int>, lefts: seq<int>, x: int, rights: seq<int>)
    requires x in d
    requires forall i, j :: 0 <= i < j < |d| ==> d[i] != d[j]
    ensures Weighted(d, lefts + [x], rights) == Weighted(d, lefts, rights) + x * Count(rights, x)
  {
    var init := d[..|d| - 1];
    var n := d[|d| - 1];
    assert d == init + [n];
    WeightedLast(d, init, n, lefts, rights);
    WeightedLast(d, init, n, lefts + [x], rights);
    CountSnoc(lefts, x, n);
    var a, c := Count(lefts, n), Count(rights, n);
    if n == x {
      assert x !in init;
      WeightedOther(init, lefts, x, rights);
      SplitProduct(n, Count(lefts + [x], n), a, c);
    } else {
      assert x in init;
      assert forall i, j :: 0 <= i < j < |init| ==> init[i] != init[j] by {
        forall i, j | 0 <= i < j < |init| ensures init[i] != init[j] {
          assert init[i] == d[i] && init[j] == d[j];
        }
      }
      WeightedOne(init, lefts, x, rights);
    }
  }

  /** The last key's term of the weighted sum. */
  lemma WeightedLast(d: seq<int>, init: seq<int>, n: int, lefts: seq<int>, rights: seq<int>)
    requires d == init + [n]
    ensures Weighted(d, lefts, rights) == Weighted(init, lefts, rights) + n * Count(lefts, n) * Count(rights, n)
  {
    assert d[..|d| - 1] == init;
  }

  lemma SplitProduct(x: int, k: int, a: int, c: int)
    requires k == a + 1
    ensures x * k * c == x * a * c + x * c
  {
    calc {
      x * k * c;
      == x * (a + 1) * c;
      == (x * a + x) * c;
      == x * a * c + x * c;
    }
  }

  /**
   * Summing over the distinct left values weighted by their left counts is summing over
   * every left entry; so values that occur only on the right contribute nothing.
   */
  lemma {:induction false} SimilarityPerEntry(lefts: seq<int>, rights: seq<int>)
    ensures Similarity(lefts, rights) == PerEntry(lefts, rights)
  {
    if lefts != [] {
      var init := lefts[..|lefts| - 1];
      var x := lefts[|lefts| - 1];
      assert lefts == init + [x];
      SimilarityPerEntry(init, rights);
      SimilaritySnoc(init, x, rights);
    }
  }

  /** Appending one left entry x adds x times its right count. */
  lemma SimilaritySnoc(init: seq<int>, x: int, rights: seq<int>)
    ensures Similarity(init + [x], rights) == Similarity(init, rights) + x * Count(rights, x)
  {
    var lefts := init + [x];
    assert lefts[..|lefts| - 1] == init;
    var d := Distinct(init);
    if x in init {
      assert Distinct(lefts) == d;
      WeightedOne(d, init, x, rights);
    } else {
      assert Distinct(lefts) == d + [x];
      WeightedOther(d, init, x, rights);
      WeightedAppendKey(d, x, lefts, rights);
      assert Count(lefts, x) == 1 by {
        CountMultiset(init, x);
        CountSnoc(init, x, x);
      }
      assert x * 1 * Count(rights, x) == x * Count(rights, x);
    }
  }

  lemma WeightedAppendKey(d: seq<int>, x: int, lefts: seq<int>, rights: seq<int>)
    ensures Weighted(d + [x], lefts, rights) == Weighted(d, lefts, rights) + x * Count(lefts, x) * Count(rights, x)
  {
    assert (d + [x])[..|d|] == d;
  }

  /** A right value absent from the left column never changes the similarity score. */
  lemma {:induction false} SimilarityIgnoresRightOnly(lefts: seq<int>, rights: seq<int>, v: int)
    requires v !in lefts
    ensures Similarity(lefts, rights + [v]) == Similarity(lefts, rights)
  {
    SimilarityPerEntry(lefts, rights + [v]);
    SimilarityPerEntry(lefts, rights);
    PerEntryIgnores(lefts, rights, v);
  }

  lemma {:induction false} PerEntryIgnores(lefts: seq<int>, rights: seq<int>, v: int)
    requires v !in lefts
    ensures PerEntry(lefts, rights + [v]) == PerEntry(lefts, rights)
  {
    if lefts != [] {
      var n := lefts[|lefts| - 1];
      CountSnoc(rights, v, n);
      PerEntryIgnores(lefts[..|lefts| - 1], rights, v);
    }
  }

  // --------------------------------------------------------------- solutions

  function SolvePart1(raw: string): Option<int>
  {
    match Columns(raw)
      case None => None
      case Some((ls, rs)) => Some(TotalDistance(ls, rs))
  }

  function SolvePart2(raw: string): Option<int>
  {
    match Columns(raw)
      case None => None
      case Some((ls, rs)) => Some(Similarity(ls, rs))
  }

  const ExampleLefts: seq<int> := [3, 4, 2, 1, 3, 3]
  const ExampleRights: seq<int> := [4, 3, 5, 3, 9, 3]

  lemma SortsTo(l: seq<int>, sl: seq<int>)
    requires multiset(l) == multiset(sl)
    requires forall i :: 0 <= i < |sl| - 1 ==> sl[i] <= sl[i + 1]
    ensures SortInts(l) == sl
  {
    AdjacentSorted(sl);
    SortedUnique(SortInts(l), sl);
  }

  lemma SameLefts(l: seq<int>, sl: seq<int>)
    requires l == ExampleLefts && sl == [1, 2, 3, 3, 3, 4]
    ensures multiset(l) == multiset(sl)
  {
  }

  lemma SameElements(r: seq<int>, sr: seq<int>)
    requires r == ExampleRights && sr == [3, 3, 3, 4, 5, 9]
    ensures multiset(r) == multiset(sr)
  {
  }

  lemma ExampleSortedLefts(l: seq<int>)
    requires l == ExampleLefts
    ensures SortInts(l) == [1, 2, 3, 3, 3, 4]
  {
    var sl: seq<int> := [1, 2, 3, 3, 3, 4];
    SameLefts(l, sl);
    SortsTo(l, sl);
  }

  lemma ExampleSortedRights(r: seq<int>)
    requires r == ExampleRights
    ensures SortInts(r) == [3, 3, 3, 4, 5, 9]
  {
    var sr: seq<int> := [3, 3, 3, 4, 5, 9];
    SameElements(r, sr);
    SortsTo(r, sr);
  }

  lemma ExampleDistance()
    ensures Distance([1, 2, 3, 3, 3, 4], [3, 3, 3, 4, 5, 9]) == 11
  {
    var sl: seq<int> := [1, 2, 3, 3, 3, 4];
    var sr: seq<int> := [3, 3, 3, 4, 5, 9];
    assert Distance(sl[5..], sr[5..]) == 5;
    assert Distance(sl[4..], sr[4..]) == 7;
    assert Distance(sl[3..], sr[3..]) == 8;
    assert Distance(sl[2..], sr[2..]) == 8;
    assert Distance(sl[1..], sr[1..]) == 9;
  }

  /** The puzzle's example columns: total distance 11. */
  lemma ExamplePart1()
    ensures TotalDistance(ExampleLefts, ExampleRights) == 11
  {
    ExampleSortedLefts(ExampleLefts);
    ExampleSortedRights(ExampleRights);
    ExampleDistance();
  }

  lemma PerEntryStep(l: seq<int>, r: seq<int>, k: int)
    requires 0 <= k < |l|
    ensures PerEntry(l[..k + 1], r) == PerEntry(l[..k], r) + l[k] * Count(r, l[k])
  {
    assert l[..k + 1][..k] == l[..k];
  }

  /** PerEntryStep with the entry, its right count and the running totals named. */
  lemma PerEntryAt(l: seq<int>, r: seq<int>, k: int, v: int, c: int, before: int, after: int)
    requires 0 <= k < |l| && l[k] == v && Count(r, v) == c
    requires PerEntry(l[..k], r) == before && after == before + v * c
    ensures PerEntry(l[..k + 1], r) == after
  {
    PerEntryStep(l, r, k);
  }

  lemma ExampleCounts()
    ensures Count(ExampleRights, 1) == 0 && Count(ExampleRights, 2) == 0
    ensures Count(ExampleRights, 3) == 3 && Count(ExampleRights, 4) == 1
  {
    CountMultiset(ExampleRights, 1);
    CountMultiset(ExampleRights, 2);
    CountMultiset(ExampleRights, 3);
    CountMultiset(ExampleRights, 4);
  }

  /** The puzzle's example columns: similarity score 31. */
  lemma ExamplePart2()
    ensures Similarity(ExampleLefts, ExampleRights) == 31
  {
    ExamplePerEntry(ExampleLefts, ExampleRights);
    SimilarityPerEntry(ExampleLefts, ExampleRights);
  }

  lemma ExamplePerEntry(l: seq<int>, r: seq<int>)
    requires l == ExampleLefts && r == ExampleRights
    ensures PerEntry(l, r) == 31
  {
    ExampleCounts();
    assert l[..0] == [];
    PerEntryAt(l, r, 0, 3, 3, 0, 9);
    PerEntryAt(l, r, 1, 4, 1, 9, 13);
    PerEntryAt(l, r, 2, 2, 0, 13, 13);
    PerEntryAt(l, r, 3, 1, 0, 13, 13);
    PerEntryAt(l, r, 4, 3, 3, 13, 22);
    PerEntryAt(l, r, 5, 3, 3, 22, 31);
    assert l[..6] == l;
  }
}
