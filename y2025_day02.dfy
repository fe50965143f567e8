/**
 * 2025 day 2 (aoc/year2025/day02.py): comma-separated inclusive id ranges `a-b`. Part 1
 * adds the ids whose decimal text is one half written twice; part 2 adds the ids whose
 * text is some shorter block written two or more times, found with the doubled-string
 * test: `s` occurs inside `(s + s)[1:-1]`.
 */
module Year2025Day02 {
  import opened Common
  import opened Text

  type Range = (int, int)

  // ------------------------------------------------------------------ parsing

  /** `map(int, part.split('-'))` unpacked into `start, end`. */
  function ParseRange(part: string): Option<Range>
  {
    var ends := Split(part, "-");
    if |ends| != 2 then None
    else match (ParseInt(ends[0]), ParseInt(ends[1]))
      case (Some(a), Some(b)) => Some((a, b))
      case _ => None
  }

  /** Every part parsed on its own. */
  function ParsedParts(parts: seq<string>): (ps: seq<Option<Range>>)
    ensures |ps| == |parts| && forall k :: 0 <= k < |parts| ==> ps[k] == ParseRange(parts[k])
  {
    seq(|parts|, k requires 0 <= k < |parts| => ParseRange(parts[k]))
  }

  /** The ranges of the comma-separated parts of the input. */
  function Ranges(raw: string): Option<seq<Range>>
  {
    AllSome(ParsedParts(Split(raw, ",")))
  }

  /** `parse`: one range appended per comma-separated part. */
  method Parse(raw: string) returns (r: Option<seq<Range>>)
    ensures r == Ranges(raw)
  {
    var parts := Split(raw, ",");
    ghost var ps := ParsedParts(parts);
    var ranges: seq<Range> := [];
    var i := 0;
    while i < |parts|
      invariant 0 <= i <= |parts|
      invariant AllSome(ps[..i]) == Some(ranges)
    {
      AllSomeStep(ps, i);
      var p := ParseRange(parts[i]);
      if p.None? {
        assert ps[i].None?;
        return None;
      }
      ranges := ranges + [p.value];
      i := i + 1;
    }
    assert ps[..i] == ps;
    r := Some(ranges);
  }

  /** No piece of a split on a one-character separator contains that character. */
  lemma {:induction false} SplitPiecesAvoid(s: string, c: char)
    ensures forall k, j :: 0 <= k < |Split(s, [c])| && 0 <= j < |Split(s, [c])[k]| ==> Split(s, [c])[k][j] != c
    decreases |s|
  {
    var sep := [c];
    var i := FindFrom(s, sep, 0);
    forall j | 0 <= j < i ensures s[j] != c {
      assert !OccursAt(s, sep, j);
      assert s[j..j + 1] == [s[j]];
    }
    if i < |s| {
      SplitPiecesAvoid(s[i + 1..], c);
      assert Split(s, sep) == [s[..i]] + Split(s[i + 1..], sep);
    }
  }

  /** Text with no '-' in it never reads as a negative number. */
  lemma NoMinusNonNegative(t: string)
    requires forall j :: 0 <= j < |t| ==> t[j] != '-'
    ensures ParseInt(t).Some? ==> ParseInt(t).value >= 0
  {
    var u := Trim(t);
    var v := TrimStart(t);
    TrimStartIsSuffix(t);
    TrimEndIsPrefix(v);
    if u != [] {
      assert u == v[..|u|];
      assert v == t[|t| - |v|..];
      assert u[0] == t[|t| - |v|];
    }
  }

  /** Every parsed range has non-negative ends: the only '-' in a part is the separator. */
  lemma ParseRangeNonNegative(part: string)
    ensures ParseRange(part).Some? ==> ParseRange(part).value.0 >= 0 && ParseRange(part).value.1 >= 0
  {
    var ends := Split(part, "-");
    SplitPiecesAvoid(part, '-');
    assert "-" == ['-'];
    if |ends| == 2 {
      NoMinusNonNegative(ends[0]);
      NoMinusNonNegative(ends[1]);
    }
  }

  predicate NonNegativeRanges(ranges: seq<Range>)
  {
    forall k :: 0 <= k < |ranges| ==> ranges[k].0 >= 0 && ranges[k].1 >= 0
  }

  lemma RangesNonNegative(raw: string)
    ensures Ranges(raw).Some? ==> NonNegativeRanges(Ranges(raw).value)
  {
    var parts := Split(raw, ",");
    var ps := ParsedParts(parts);
    if AllSome(ps).Some? {
      var rs := AllSome(ps).value;
      forall k | 0 <= k < |rs| ensures rs[k].0 >= 0 && rs[k].1 >= 0 {
        ParseRangeNonNegative(parts[k]);
      }
    }
  }

  // ------------------------------------------------------------ repetitions

  /** The part 1 test: even length, and the first half equals the second half. */
  predicate IsDoubled(s: string)
  {
    |s| % 2 == 0 && s[..|s| / 2] == s[|s| / 2..]
  }

  /** Python's `p in t` for strings: `p` occurs somewhere inside `t`. */
  predicate Occurs(p: string, t: string)
  {
    exists k :: 0 <= k <= |t| - |p| && OccursAt(t, p, k)
  }

  /** `_is_repeated`: the doubled-string test. */
  predicate IsRepeated(s: string)
  {
    |s| > 1 && Occurs(s, (s + s)[1..2 * |s| - 1])
  }

  /** `z` written `k` times. */
  function Pow(z: string, k: nat): (r: string)
    ensures |r| == k * |z|
  {
    if k == 0 then [] else z + Pow(z, k - 1)
  }

  /** Reference reading of the docstring: `s` is a non-empty block repeated at least twice. */
  ghost predicate IsBlockRepetition(s: string)
  {
    exists z: string, k: nat :: |z| >= 1 && k >= 2 && s == Pow(z, k)
  }

  lemma {:induction false} PowAdd(z: string, a: nat, b: nat)
    ensures Pow(z, a) + Pow(z, b) == Pow(z, a + b)
  {
    if a > 0 {
      PowAdd(z, a - 1, b);
      assert Pow(z, a) + Pow(z, b) == z + (Pow(z, a - 1) + Pow(z, b));
    } else {
      assert Pow(z, a) + Pow(z, b) == Pow(z, b);
    }
  }

  /**
   * Two non-empty words that commute are powers of one word (the Lyndon–Schützenberger
   * lemma), proved by cancelling the shorter word off the front of the longer one.
   */
  lemma {:induction false} CommutingWords(x: string, y: string) returns (z: string, a: nat, b: nat)
    requires |x| >= 1 && |y| >= 1 && x + y == y + x
    ensures |z| >= 1 && a >= 1 && b >= 1 && x == Pow(z, a) && y == Pow(z, b)
    decreases |x| + |y|
  {
    if |x| == |y| {
      assert x == (x + y)[..|x|];
      assert y == (y + x)[..|y|];
      z, a, b := x, 1, 1;
      assert Pow(x, 1) == x + [];
    } else if |x| < |y| {
      var rest := y[|x|..];
      assert y[..|x|] == (y + x)[..|x|] == (x + y)[..|x|] == x;
      assert y == x + rest;
      assert x + rest == rest + x by {
        assert x + y == x + (x + rest);
        assert y + x == x + (rest + x);
        assert (x + y)[|x|..] == x + rest;
        assert (y + x)[|x|..] == rest + x;
      }
      var c;
      z, a, c := CommutingWords(x, rest);
      PowAdd(z, a, c);
      b := a + c;
    } else {
      var rest := x[|y|..];
      assert x[..|y|] == (x + y)[..|y|] == (y + x)[..|y|] == y;
      assert x == y + rest;
      assert rest + y == y + rest by {
        assert x + y == y + (rest + y);
        assert y + x == y + (y + rest);
        assert (x + y)[|y|..] == rest + y;
        assert (y + x)[|y|..] == y + rest;
      }
      var c;
      z, c, b := CommutingWords(rest, y);
      PowAdd(z, b, c);
      a := b + c;
    }
  }

  /** `s = z + q` with `q` commuting with `s` and at least as long as `z`: `s` occurs in the doubled string at |z| - 1. */
  lemma ShiftedOccurrence(s: string, z: string, q: string)
    requires |z| >= 1 && |q| >= |z| && s == z + q && q + s == s + q
    ensures IsRepeated(s)
  {
    var n := |s|;
    var ss := s + s;
    assert ss == z + (s + q) by {
      calc {
        s + s;
        (z + q) + s;
        z + (q + s);
        z + (s + q);
      }
    }
    var t := ss[1..2 * n - 1];
    var p := |z| - 1;
    forall i | 0 <= i < n ensures t[p + i] == s[i] {
      assert t[p + i] == ss[|z| + i];
      assert ss[|z| + i] == (s + q)[i];
    }
    assert t[p..p + n] == s;
    assert OccursAt(t, s, p);
  }

  /** A block written k >= 2 times passes the doubled-string test, at offset |z| - 1. */
  lemma BlocksAreRepeated(z: string, k: nat)
    requires |z| >= 1 && k >= 2
    ensures IsRepeated(Pow(z, k))
  {
    var s, q := Pow(z, k), Pow(z, k - 1);
    assert s == z + q;
    var r := Pow(z, k - 2);
    assert q == z + r;
    assert |q| == |z| + |r|;
    PowAdd(z, k - 1, k);
    PowAdd(z, k, k - 1);
    assert q + s == s + q;
    ShiftedOccurrence(s, z, q);
  }

  /** A string passing the doubled-string test is a block written at least twice. */
  lemma RepeatedAreBlocks(s: string)
    requires IsRepeated(s)
    ensures IsBlockRepetition(s)
  {
    var n := |s|;
    var t := (s + s)[1..2 * n - 1];
    var k :| 0 <= k <= |t| - n && OccursAt(t, s, k);
    var r := k + 1;
    var x, y := s[..r], s[r..];
    assert s == x + y;
    var u, v := (s + s)[r..r + n], t[k..k + n];
    assert u == v by {
      forall i | 0 <= i < n ensures u[i] == v[i] {
        assert t[k + i] == (s + s)[1 + k + i];
      }
    }
    assert t[k..k + n] == s;
    var w := (s + s)[r..];
    assert w == y + s;
    assert w[..n] == y + x by {
      assert |y| + r == n;
      assert (y + s)[..|y| + r] == y + s[..r];
    }
    assert (s + s)[r..r + n] == w[..n];
    var z, a, b := CommutingWords(x, y);
    PowAdd(z, a, b);
    assert s == Pow(z, a + b);
  }

  /** `_is_repeated(s)` holds exactly when `s` is a shorter block repeated at least twice. */
  lemma RepeatedMeansBlocks(s: string)
    ensures IsRepeated(s) <==> IsBlockRepetition(s)
  {
    if IsRepeated(s) {
      RepeatedAreBlocks(s);
    }
    if IsBlockRepetition(s) {
      var z: string, k: nat :| |z| >= 1 && k >= 2 && s == Pow(z, k);
      BlocksAreRepeated(z, k);
    }
  }

  /** The part 1 test says the text is some word written twice. */
  lemma DoubledMeans(s: string)
    ensures IsDoubled(s) <==> exists h :: s == h + h
  {
    if IsDoubled(s) {
      var h := s[..|s| / 2];
      assert s == h + s[|s| / 2..];
    }
    if exists h :: s == h + h {
      var h :| s == h + h;
      assert s[..|s| / 2] == h;
      assert s[|s| / 2..] == h;
    }
  }

  /** Every non-empty text passing the part 1 test passes the part 2 test. */
  lemma DoubledIsRepeated(s: string)
    requires |s| >= 1 && IsDoubled(s)
    ensures IsRepeated(s)
  {
    var h := s[..|s| / 2];
    assert s == h + h;
    assert Pow(h, 0) == [];
    assert Pow(h, 1) == h + Pow(h, 0) == h;
    assert Pow(h, 2) == h + Pow(h, 1);
    BlocksAreRepeated(h, 2);
  }

  /** A single digit passes neither test. */
  lemma SingleDigitsNeverCount(n: int)
    requires 0 <= n <= 9
    ensures !IsDoubled(IntToString(n)) && !IsRepeated(IntToString(n))
  {
    assert |IntToString(n)| == 1;
  }

  // ------------------------------------------------------------------ totals

  /** Sum of the ids in `lo..hi` (inclusive) passing the part 1 test; 0 when `lo > hi`. */
  function DoubledSum(lo: int, hi: int): int
    decreases hi - lo
  {
    if hi < lo then 0
    else DoubledSum(lo, hi - 1) + (if IsDoubled(IntToString(hi)) then hi else 0)
  }

  /** `sum(n for n in range(start, end + 1) if _is_repeated(str(n)))`. */
  function RepeatedSum(lo: int, hi: int): int
    decreases hi - lo
  {
    if hi < lo then 0
    else RepeatedSum(lo, hi - 1) + (if IsRepeated(IntToString(hi)) then hi else 0)
  }

  function DoubledTotal(ranges: seq<Range>): int
  {
    if ranges == [] then 0
    else DoubledTotal(ranges[..|ranges| - 1]) + DoubledSum(ranges[|ranges| - 1].0, ranges[|ranges| - 1].1)
  }

  /** `solve_part2` on parsed ranges. */
  function Part2(ranges: seq<Range>): int
  {
    if ranges == [] then 0
    else Part2(ranges[..|ranges| - 1]) + RepeatedSum(ranges[|ranges| - 1].0, ranges[|ranges| - 1].1)
  }

  /** The inner loop of `solve_part1`: the ids of one range passing the part 1 test. */
  method RangePart1(start: int, end: int) returns (sum: int)
    ensures sum == DoubledSum(start, end)
  {
    sum := 0;
    var n := start;
    while n <= end
      invariant start <= n && (n <= end + 1 || n == start)
      invariant sum == DoubledSum(start, n - 1)
      decreases end - n
    {
      var s := IntToString(n);
      if |s| % 2 == 0 && s[..|s| / 2] == s[|s| / 2..] {
        sum := sum + n;
      }
      n := n + 1;
    }
  }

  /** `solve_part1` on parsed ranges: the nested loops over ranges and their ids. */
  method Part1(ranges: seq<Range>) returns (total: int)
    ensures total == DoubledTotal(ranges)
  {
    total := 0;
    for i := 0 to |ranges|
      invariant total == DoubledTotal(ranges[..i])
    {
      assert ranges[..i + 1][..i] == ranges[..i];
      var sum := RangePart1(ranges[i].0, ranges[i].1);
      total := total + sum;
    }
    assert ranges[..|ranges|] == ranges;
  }

  /** On non-negative ids, the ids counted by part 1 are among those counted by part 2. */
  lemma {:induction false} DoubledSumAtMostRepeatedSum(lo: int, hi: int)
    requires lo >= 0
    ensures DoubledSum(lo, hi) <= RepeatedSum(lo, hi)
    decreases hi - lo
  {
    if hi >= lo {
      DoubledSumAtMostRepeatedSum(lo, hi - 1);
      if IsDoubled(IntToString(hi)) {
        DoubledIsRepeated(IntToString(hi));
      }
    }
  }

  lemma {:induction false} Part1AtMostPart2(ranges: seq<Range>)
    requires NonNegativeRanges(ranges)
    ensures DoubledTotal(ranges) <= Part2(ranges)
  {
    if ranges != [] {
      var last := ranges[|ranges| - 1];
      Part1AtMostPart2(ranges[..|ranges| - 1]);
      DoubledSumAtMostRepeatedSum(last.0, last.1);
    }
  }

  /** An empty range (`start > end`) adds nothing to either part. */
  lemma EmptyRangeAddsNothing(ranges: seq<Range>, lo: int, hi: int)
    requires lo > hi
    ensures DoubledTotal(ranges + [(lo, hi)]) == DoubledTotal(ranges)
    ensures Part2(ranges + [(lo, hi)]) == Part2(ranges)
  {
    assert (ranges + [(lo, hi)])[..|ranges|] == ranges;
  }

  method SolvePart1(raw: string) returns (r: Option<int>)
    ensures r.None? <==> Ranges(raw).None?
    ensures r.Some? ==> r.value == DoubledTotal(Ranges(raw).value)
  {
    var ranges := Parse(raw);
    if ranges.None? {
      return None;
    }
    var total := Part1(ranges.value);
    r := Some(total);
  }

  method SolvePart2(raw: string) returns (r: Option<int>)
    ensures r.None? <==> Ranges(raw).None?
    ensures r.Some? ==> r.value == Part2(Ranges(raw).value)
  {
    var ranges := Parse(raw);
    if ranges.None? {
      return None;
    }
    r := Some(Part2(ranges.value));
  }

  /** On any input, part 1 is at most part 2. */
  lemma SolvedPart1AtMostPart2(raw: string)
    requires Ranges(raw).Some?
    ensures DoubledTotal(Ranges(raw).value) <= Part2(Ranges(raw).value)
  {
    RangesNonNegative(raw);
    Part1AtMostPart2(Ranges(raw).value);
  }
}
