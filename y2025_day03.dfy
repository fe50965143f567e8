/**
 * 2025 day 3 (aoc/year2025/day03.py): banks of battery digits. Part 1 takes per bank the
 * largest two-digit number formed by two digits kept in order; part 2 keeps twelve
 * digits. Both pick each digit greedily as the leftmost maximum of a window that leaves
 * enough digits for the later picks.
 */
module Year2025Day03 {
  import opened Common
  import opened Text

  /** Part 2 keeps this many digits per bank. */
  const Kept := 12

  // ------------------------------------------------------------------ parsing

  /** `parse`: the lines and the length of the first one; `None` when there is no line. */
  function Parse(raw: string): (r: Option<(seq<string>, nat)>)
    ensures r.Some? ==> r.value.0 == Lines(raw) && r.value.0 != [] && r.value.1 == |r.value.0[0]|
    ensures r.None? <==> Lines(raw) == []
  {
    var banks := Lines(raw);
    if banks == [] then None else Some((banks, |banks[0]|))
  }

  /** Every bank is a line of `l` digits. */
  predicate WellFormed(banks: seq<string>, l: nat)
  {
    forall k :: 0 <= k < |banks| ==> |banks[k]| == l && AllDigits(banks[k])
  }

  // ------------------------------------------------------- leftmost maximum

  /**
   * `max(range(lo, hi), key=line.__getitem__)`: the index of a maximal character in
   * `s[lo..hi]`, the first one on ties.
   */
  function LeftmostMax(s: string, lo: nat, hi: nat): (r: nat)
    requires lo < hi <= |s|
    ensures lo <= r < hi
    decreases hi - lo
  {
    if lo == hi - 1 then lo
    else
      var r := LeftmostMax(s, lo + 1, hi);
      if s[lo] >= s[r] then lo else r
  }

  /** The index is of a maximal character, and every character before it is smaller. */
  lemma {:induction false} LeftmostMaxIsMax(s: string, lo: nat, hi: nat)
    requires lo < hi <= |s|
    ensures var r := LeftmostMax(s, lo, hi);
      (forall k :: lo <= k < hi ==> s[k] <= s[r]) && (forall k :: lo <= k < r ==> s[k] < s[r])
    decreases hi - lo
  {
    if lo < hi - 1 {
      LeftmostMaxIsMax(s, lo + 1, hi);
    }
  }

  /** The three properties above single out one index. */
  lemma LeftmostMaxUnique(s: string, lo: nat, hi: nat, p: nat)
    requires lo <= p < hi <= |s|
    requires forall k :: lo <= k < hi ==> s[k] <= s[p]
    requires forall k :: lo <= k < p ==> s[k] < s[p]
    ensures p == LeftmostMax(s, lo, hi)
  {
    LeftmostMaxIsMax(s, lo, hi);
  }

  // ----------------------------------------------------------------- part 1

  /** A bank's part 1 value: the leftmost maximum of all digits but the last, then the maximum after it. */
  function Joltage2(line: string): (v: nat)
    requires |line| >= 2 && AllDigits(line)
    ensures v <= 99
  {
    var p := LeftmostMax(line, 0, |line| - 1);
    var q := LeftmostMax(line, p + 1, |line|);
    10 * DigitValue(line[p]) + DigitValue(line[q])
  }

  function Part1Total(banks: seq<string>, l: nat): int
    requires l >= 2 && WellFormed(banks, l)
  {
    if banks == [] then 0
    else Part1Total(banks[..|banks| - 1], l) + Joltage2(banks[|banks| - 1])
  }

  /** `solve_part1` on parsed banks. */
  method Part1(banks: seq<string>, l: nat) returns (total: int)
    requires l >= 2 && WellFormed(banks, l)
    ensures total == Part1Total(banks, l)
  {
    total := 0;
    for i := 0 to |banks|
      invariant total == Part1Total(banks[..i], l)
    {
      assert banks[..i + 1][..i] == banks[..i];
      var line := banks[i];
      var largestIdx := LeftmostMax(line, 0, l - 1);
      var largest := line[largestIdx];
      var largest2 := line[LeftmostMax(line, largestIdx + 1, l)];
      total := total + DigitValue(largest) * 10 + DigitValue(largest2);
    }
    assert banks[..|banks|] == banks;
  }

  // ------------------------------------------------------------------ greedy

  /**
   * Keep `m` digits of `s[from..]` in order: each pick is the leftmost maximum of the
   * window that still leaves one digit for every later pick.
   */
  function Greedy(s: string, from: nat, m: nat): (r: string)
    requires from + m <= |s|
    ensures |r| == m
    ensures AllDigits(s) ==> AllDigits(r)
    decreases m
  {
    if m == 0 then []
    else
      var p := LeftmostMax(s, from, |s| - m + 1);
      [s[p]] + Greedy(s, p + 1, m - 1)
  }

  /** Strictly increasing indices into `s`, all at or after `from`. */
  predicate Picks(s: string, from: nat, idxs: seq<nat>)
  {
    (forall k :: 0 <= k < |idxs| ==> from <= idxs[k] < |s|)
    && (forall i, j :: 0 <= i < j < |idxs| ==> idxs[i] < idxs[j])
  }

  /** The digits at the picked indices, in order. */
  function Pick(s: string, idxs: seq<nat>): (t: string)
    requires forall k :: 0 <= k < |idxs| ==> idxs[k] < |s|
    ensures |t| == |idxs|
    ensures AllDigits(s) ==> AllDigits(t)
  {
    seq(|idxs|, k requires 0 <= k < |idxs| => s[idxs[k]])
  }

  function Pow10(n: nat): (p: nat)
    ensures p >= 1
  {
    if n == 0 then 1 else 10 * Pow10(n - 1)
  }

  /** The leading digit of a decimal text weighs `10^(number of digits after it)`. */
  lemma {:induction false} DigitsValueCons(c: char, rest: string)
    requires IsDigit(c) && AllDigits(rest)
    ensures DigitsValue([c] + rest) == DigitValue(c) * Pow10(|rest|) + DigitsValue(rest)
    decreases |rest|
  {
    var t := [c] + rest;
    if rest != [] {
      var init := rest[..|rest| - 1];
      assert t[..|t| - 1] == [c] + init;
      DigitsValueCons(c, init);
      assert DigitValue(c) * Pow10(|rest|) == 10 * (DigitValue(c) * Pow10(|init|));
    } else {
      assert t[..|t| - 1] == [];
    }
  }

  lemma {:induction false} DigitsValueBound(t: string)
    requires AllDigits(t)
    ensures DigitsValue(t) < Pow10(|t|)
  {
    if t != [] {
      DigitsValueBound(t[..|t| - 1]);
    }
  }

  /** Picks of m indices from `from` on end no earlier than m - 1 places after the first. */
  lemma {:induction false} PicksSpread(s: string, from: nat, idxs: seq<nat>, k: nat)
    requires Picks(s, from, idxs) && k < |idxs|
    ensures idxs[k] >= idxs[0] + k
  {
    if k > 0 {
      PicksSpread(s, from, idxs, k - 1);
    }
  }

  /** After the first pick, the others are picks from just past it. */
  lemma PicksTail(s: string, from: nat, idxs: seq<nat>)
    requires Picks(s, from, idxs) && idxs != []
    ensures Picks(s, idxs[0] + 1, idxs[1..])
  {
    var rest := idxs[1..];
    forall k | 0 <= k < |rest| ensures idxs[0] + 1 <= rest[k] < |s| {
      PicksSpread(s, from, idxs, k + 1);
    }
  }

  lemma PickCons(s: string, idxs: seq<nat>)
    requires idxs != [] && forall k :: 0 <= k < |idxs| ==> idxs[k] < |s|
    ensures Pick(s, idxs) == [s[idxs[0]]] + Pick(s, idxs[1..])
  {
  }

  /**
   * Numbers of one length compare by their leading digit, then by the rest: `a * p + x`
   * against `b * p + y`, where `x < p` is the rest of the first.
   */
  lemma LeadingDigitDecides(a: nat, b: nat, x: nat, y: nat, p: nat)
    requires a <= b && x < p && (!(a < b) ==> x <= y)
    ensures a * p + x <= b * p + y
  {
    if a < b {
      assert (a + 1) * p <= b * p;
    }
  }

  /**
   * Greedy choice is optimal: no subsequence of m digits of `s[from..]` reads as a larger
   * number than the greedy one.
   */
  lemma {:induction false} GreedyIsBest(s: string, from: nat, m: nat, idxs: seq<nat>)
    requires AllDigits(s) && from + m <= |s|
    requires Picks(s, from, idxs) && |idxs| == m
    ensures DigitsValue(Pick(s, idxs)) <= DigitsValue(Greedy(s, from, m))
    decreases m
  {
    if m > 0 {
      var p := LeftmostMax(s, from, |s| - m + 1);
      var a, b := DigitValue(s[idxs[0]]), DigitValue(s[p]);
      var x, y := DigitsValue(Pick(s, idxs[1..])), DigitsValue(Greedy(s, p + 1, m - 1));
      PickValue(s, idxs, m);
      GreedyValue(s, from, m);
      GreedyLeads(s, from, m, idxs);
      if !(a < b) {
        GreedyIsBest(s, p + 1, m - 1, idxs[1..]);
      }
      LeadingDigitDecides(a, b, x, y, Pow10(m - 1));
    }
  }

  /** A pick reads as its leading digit times `10^(m - 1)` plus the other picks' number. */
  lemma PickValue(s: string, idxs: seq<nat>, m: nat)
    requires AllDigits(s) && |idxs| == m > 0 && forall k :: 0 <= k < |idxs| ==> idxs[k] < |s|
    ensures DigitsValue(Pick(s, idxs))
      == DigitValue(s[idxs[0]]) * Pow10(m - 1) + DigitsValue(Pick(s, idxs[1..]))
    ensures DigitsValue(Pick(s, idxs[1..])) < Pow10(m - 1)
  {
    var t := Pick(s, idxs[1..]);
    PickCons(s, idxs);
    DigitsValueCons(s[idxs[0]], t);
    DigitsValueBound(t);
  }

  /** The greedy number is its first pick's digit times `10^(m - 1)` plus the greedy rest. */
  lemma GreedyValue(s: string, from: nat, m: nat)
    requires AllDigits(s) && from + m <= |s| && m > 0
    ensures var p := LeftmostMax(s, from, |s| - m + 1);
      DigitsValue(Greedy(s, from, m)) == DigitValue(s[p]) * Pow10(m - 1) + DigitsValue(Greedy(s, p + 1, m - 1))
  {
    var p := LeftmostMax(s, from, |s| - m + 1);
    var g := Greedy(s, p + 1, m - 1);
    assert Greedy(s, from, m) == [s[p]] + g;
    DigitsValueCons(s[p], g);
  }

  /**
   * The greedy leading digit is at least a pick's leading digit, and on a tie the other
   * picks lie past the greedy one.
   */
  lemma GreedyLeads(s: string, from: nat, m: nat, idxs: seq<nat>)
    requires AllDigits(s) && from + m <= |s| && m > 0
    requires Picks(s, from, idxs) && |idxs| == m
    ensures var p := LeftmostMax(s, from, |s| - m + 1);
      var a, b := DigitValue(s[idxs[0]]), DigitValue(s[p]);
      a <= b && (!(a < b) ==> Picks(s, p + 1, idxs[1..]))
  {
    var p := LeftmostMax(s, from, |s| - m + 1);
    var q := idxs[0];
    LeftmostMaxIsMax(s, from, |s| - m + 1);
    PicksSpread(s, from, idxs, m - 1);
    assert q <= |s| - m;
    if !(DigitValue(s[q]) < DigitValue(s[p])) {
      assert q >= p;
      PicksTail(s, from, idxs);
    }
  }

  // ----------------------------------------------------------------- part 1

  /** Part 1's value is the greedy choice of two digits. */
  lemma Joltage2IsGreedy(line: string)
    requires |line| >= 2 && AllDigits(line)
    ensures Joltage2(line) == DigitsValue(Greedy(line, 0, 2))
  {
    var p := LeftmostMax(line, 0, |line| - 1);
    var q := LeftmostMax(line, p + 1, |line|);
    var g := Greedy(line, 0, 2);
    assert g == [line[p]] + ([line[q]] + []);
    assert g[..1] == [line[p]];
    assert [line[p]][..0] == [];
    assert DigitsValue(g[..1]) == DigitValue(line[p]);
  }

  /** Part 1 takes, per bank, the best two-digit number over all pairs of positions i < j. */
  lemma Joltage2IsBestPair(line: string, i: nat, j: nat)
    requires |line| >= 2 && AllDigits(line) && i < j < |line|
    ensures 10 * DigitValue(line[i]) + DigitValue(line[j]) <= Joltage2(line)
  {
    var idxs: seq<nat> := [i, j];
    var t := Pick(line, idxs);
    Joltage2IsGreedy(line);
    GreedyIsBest(line, 0, 2, idxs);
    assert t == [line[i], line[j]];
    assert t[..1] == [line[i]];
    assert [line[i]][..0] == [];
  }

  /** ... and that best is attained by a pair of positions. */
  lemma Joltage2Attained(line: string) returns (i: nat, j: nat)
    requires |line| >= 2 && AllDigits(line)
    ensures i < j < |line| && Joltage2(line) == 10 * DigitValue(line[i]) + DigitValue(line[j])
  {
    i := LeftmostMax(line, 0, |line| - 1);
    j := LeftmostMax(line, i + 1, |line|);
  }

  // ----------------------------------------------------------------- part 2

  /** Where the window of pick `k` starts: at `from`, then just past the previous pick. */
  function WindowStart(r: seq<nat>, from: nat, k: nat): nat
    requires k <= |r|
  {
    if k == 0 then from else r[k - 1] + 1
  }

  /** The indices the greedy choice picks, as the inner loop of `solve_part2` computes them. */
  function GreedyPicks(s: string, from: nat, m: nat): (r: seq<nat>)
    requires from + m <= |s|
    ensures |r| == m && forall k :: 0 <= k < m ==> from <= r[k] < |s|
    decreases m
  {
    if m == 0 then []
    else
      var p := LeftmostMax(s, from, |s| - m + 1);
      [p] + GreedyPicks(s, p + 1, m - 1)
  }

  /**
   * Pick `k` of the greedy choice is the leftmost maximum of the window that starts at
   * `from` or just past the previous pick and ends at the last index that leaves one
   * character for each of the `m - k - 1` later picks; so it is at most `|s| - (m - k)`.
   */
  lemma {:induction false} GreedyPicksWindow(s: string, from: nat, m: nat, k: nat)
    requires from + m <= |s| && k < m
    ensures WindowStart(GreedyPicks(s, from, m), from, k) < |s| - (m - k) + 1
    ensures GreedyPicks(s, from, m)[k]
      == LeftmostMax(s, WindowStart(GreedyPicks(s, from, m), from, k), |s| - (m - k) + 1)
    decreases m
  {
    var r := GreedyPicks(s, from, m);
    var p := LeftmostMax(s, from, |s| - m + 1);
    var rest := GreedyPicks(s, p + 1, m - 1);
    assert r == [p] + rest;
    if k > 0 {
      GreedyPicksWindow(s, p + 1, m - 1, k - 1);
      assert r[k] == rest[k - 1];
      assert WindowStart(r, from, k) == WindowStart(rest, p + 1, k - 1);
    }
  }

  /** The greedy indices increase strictly and stay inside `s[from..]`. */
  lemma {:induction false} GreedyPicksArePicks(s: string, from: nat, m: nat)
    requires from + m <= |s|
    ensures Picks(s, from, GreedyPicks(s, from, m))
    decreases m
  {
    if m > 0 {
      var p := LeftmostMax(s, from, |s| - m + 1);
      var rest := GreedyPicks(s, p + 1, m - 1);
      GreedyPicksArePicks(s, p + 1, m - 1);
      var r := [p] + rest;
      assert GreedyPicks(s, from, m) == r;
      forall i, j | 0 <= i < j < |r| ensures r[i] < r[j] {
        if i > 0 {
          assert r[i] == rest[i - 1] && r[j] == rest[j - 1];
        } else {
          assert r[j] == rest[j - 1];
        }
      }
    }
  }

  /** One greedy step: the first pick, then the greedy choice after it. */
  lemma GreedyCons(s: string, from: nat, m: nat)
    requires from + m <= |s| && m > 0
    ensures Greedy(s, from, m) == [s[LeftmostMax(s, from, |s| - m + 1)]] + Greedy(s, LeftmostMax(s, from, |s| - m + 1) + 1, m - 1)
    ensures GreedyPicks(s, from, m) == [LeftmostMax(s, from, |s| - m + 1)] + GreedyPicks(s, LeftmostMax(s, from, |s| - m + 1) + 1, m - 1)
  {
  }

  /** The greedy digits are the digits at the greedy indices. */
  lemma {:induction false} GreedyIsPick(s: string, from: nat, m: nat)
    requires from + m <= |s|
    ensures Greedy(s, from, m) == Pick(s, GreedyPicks(s, from, m))
    decreases m
  {
    if m > 0 {
      var p := LeftmostMax(s, from, |s| - m + 1);
      GreedyIsPick(s, p + 1, m - 1);
      PickCons(s, GreedyPicks(s, from, m));
    }
  }

  /**
   * The inner loop of `solve_part2`, for `m` picks (12 there): from a cursor `idx`, pick
   * the leftmost maximum of the window `[idx, l - i]` with `i` picks still to make, then
   * move the cursor past it.
   */
  method PickDigits(line: string, m: nat) returns (digits: string)
    requires m <= |line|
    ensures digits == Greedy(line, 0, m)
  {
    var l := |line|;
    var idx := 0;
    digits := [];
    var i := m;
    while i > 0
      invariant 0 <= i <= m && idx + i <= l
      invariant digits + Greedy(line, idx, i) == Greedy(line, 0, m)
    {
      var p := LeftmostMax(line, idx, l - i + 1);
      GreedyCons(line, idx, i);
      AppendAssoc(digits, [line[p]], Greedy(line, p + 1, i - 1));
      digits := digits + [line[p]];
      idx := p + 1;
      i := i - 1;
    }
  }

  /** Sum over the banks of the number their `m` greedily kept digits read as. */
  function KeptTotal(banks: seq<string>, l: nat, m: nat): int
    requires m <= l && WellFormed(banks, l)
  {
    if banks == [] then 0
    else KeptTotal(banks[..|banks| - 1], l, m) + DigitsValue(Greedy(banks[|banks| - 1], 0, m))
  }

  /** `solve_part2` on parsed banks: `int("".join(digits))` per bank, summed. */
  method Part2(banks: seq<string>, l: nat) returns (total: int)
    requires l >= Kept && WellFormed(banks, l)
    ensures total == KeptTotal(banks, l, Kept)
  {
    total := KeepDigits(banks, l, Kept);
  }

  /** The loop over the banks, for `m` kept digits per bank. */
  method KeepDigits(banks: seq<string>, l: nat, m: nat) returns (total: int)
    requires 1 <= m <= l && WellFormed(banks, l)
    ensures total == KeptTotal(banks, l, m)
  {
    total := 0;
    for i := 0 to |banks|
      invariant total == KeptTotal(banks[..i], l, m)
    {
      assert banks[..i + 1][..i] == banks[..i];
      var digits := PickDigits(banks[i], m);
      total := total + DigitsValue(digits);
    }
    assert banks[..|banks|] == banks;
  }

  /** Part 2 takes, per bank, the largest number formed by twelve of its digits kept in order. */
  lemma Part2LineIsBest(line: string, idxs: seq<nat>)
    requires |line| >= Kept && AllDigits(line)
    requires Picks(line, 0, idxs) && |idxs| == Kept
    ensures DigitsValue(Pick(line, idxs)) <= DigitsValue(Greedy(line, 0, Kept))
  {
    GreedyIsBest(line, 0, Kept, idxs);
  }

  /** `solve_part1`: on an input of equal-length digit lines of length at least 2. */
  method SolvePart1(raw: string) returns (total: int)
    requires Parse(raw).Some? && Parse(raw).value.1 >= 2 && WellFormed(Parse(raw).value.0, Parse(raw).value.1)
    ensures total == Part1Total(Parse(raw).value.0, Parse(raw).value.1)
  {
    var (banks, l) := Parse(raw).value;
    total := Part1(banks, l);
  }

  /** `solve_part2`: on an input of equal-length digit lines of length at least 12. */
  method SolvePart2(raw: string) returns (total: int)
    requires Parse(raw).Some? && Parse(raw).value.1 >= Kept && WellFormed(Parse(raw).value.0, Parse(raw).value.1)
    ensures total == KeptTotal(Parse(raw).value.0, Parse(raw).value.1, Kept)
  {
    var (banks, l) := Parse(raw).value;
    total := Part2(banks, l);
  }
}
