/**
 * 2024 day 3 (aoc/year2024/day03.py): scan corrupted memory for `mul(a,b)` instructions
 * with 1-3 digit operands; part 2 also honours `do()` and `don't()`, which switch the
 * following multiplications on and off. The two regular expressions of the source are
 * modelled as the left-to-right scanners that `findall` / `finditer` perform with them.
 */
module Year2024Day03 {
  import opened Common
  import opened Text

  /** `parse`: the lines joined without separators, i.e. the text minus its line breaks. */
  function Memory(raw: string): (m: string)
    ensures m == Without(raw, '\n')
  {
    ConcatLines(raw);
    Concat(Lines(raw))
  }

  // -------------------------------------------------------- one instruction

  /** Length of the run of decimal digits starting at `i`. */
  function DigitRun(s: string, i: nat): (n: nat)
    requires i <= |s|
    ensures i + n <= |s|
    ensures forall k :: i <= k < i + n ==> IsDigit(s[k])
    ensures i + n < |s| ==> !IsDigit(s[i + n])
    decreases |s| - i
  {
    if i < |s| && IsDigit(s[i]) then 1 + DigitRun(s, i + 1) else 0
  }

  /** The characters s[i .. i+n) are all decimal digits. */
  predicate DigitsAt(s: string, i: nat, n: nat)
  {
    i + n <= |s| && forall k :: i <= k < i + n ==> IsDigit(s[k])
  }

  /**
   * `s[i..]` starts with `mul(A,B)`, where A is the n digits after `mul(` and B the m
   * digits after the comma, each run 1 to 3 digits long.
   */
  predicate MulFormAt(s: string, i: nat, n: nat, m: nat)
  {
    1 <= n <= 3 && 1 <= m <= 3 && i + n + m + 6 <= |s|
    && OccursAt(s, "mul(", i)
    && DigitsAt(s, i + 4, n) && s[i + 4 + n] == ','
    && DigitsAt(s, i + 5 + n, m) && s[i + 5 + n + m] == ')'
  }

  /** The value of the n digits at position i. */
  function Operand(s: string, i: nat, n: nat): nat
    requires DigitsAt(s, i, n)
  {
    var t := s[i..i + n];
    assert AllDigits(t) by {
      forall k | 0 <= k < |t| ensures IsDigit(t[k]) { assert t[k] == s[i + k]; }
    }
    DigitsValue(t)
  }

  /**
   * The regular expression `mul\((\d{1,3}),(\d{1,3})\)` tried at position `i`: the two
   * operands and the position just after the match. A digit run longer than 3 cannot
   * match, because the character that must follow the operand would be a digit.
   */
  function MatchMulAt(s: string, i: nat): (r: Option<(int, int, nat)>)
    requires i <= |s|
    ensures r.Some? ==>
      exists n, m :: MulFormAt(s, i, n, m)
        && r.value == (Operand(s, i + 4, n), Operand(s, i + 5 + n, m), i + n + m + 6)
  {
    if !OccursAt(s, "mul(", i) then None
    else
      var j := i + 4;
      var n := DigitRun(s, j);
      if n < 1 || n > 3 || j + n >= |s| || s[j + n] != ',' then None
      else
        var k := j + n + 1;
        var m := DigitRun(s, k);
        if m < 1 || m > 3 || k + m >= |s| || s[k + m] != ')' then None
        else
          assert MulFormAt(s, i, n, m);
          Some((Operand(s, j, n), Operand(s, k, m), k + m + 1))
  }

  lemma {:induction false} DigitRunOf(s: string, j: nat, n: nat)
    requires DigitsAt(s, j, n) && j + n < |s| && !IsDigit(s[j + n])
    ensures DigitRun(s, j) == n
    decreases n
  {
    if n > 0 {
      DigitRunOf(s, j + 1, n - 1);
    }
  }

  /** Every text of the form `mul(A,B)` is matched, with the operands A and B. */
  lemma MatchMulComplete(s: string, i: nat, n: nat, m: nat)
    requires MulFormAt(s, i, n, m)
    ensures MatchMulAt(s, i) == Some((Operand(s, i + 4, n), Operand(s, i + 5 + n, m), i + n + m + 6))
  {
    DigitRunOf(s, i + 4, n);
    DigitRunOf(s, i + 5 + n, m);
  }

  /** Malformed forms from the puzzle text are not instructions. */
  lemma MalformedForms(s1: string, s2: string, s3: string)
    requires s1 == "mul[3,7]" && s2 == "mul(32,64]" && s3 == "mul(1234,5)"
    ensures MatchMulAt(s1, 0).None?
    ensures MatchMulAt(s2, 0).None?
    ensures MatchMulAt(s3, 0).None?
  {
    assert !OccursAt(s1, "mul(", 0) by { assert s1[0..4][3] != "mul("[3]; }
    assert DigitRun(s2, 7) == 2 by { DigitRunOf(s2, 7, 2); }
    assert DigitRun(s3, 4) == 4 by { DigitRunOf(s3, 4, 4); }
  }

  // ------------------------------------------------------------- scanners

  /** `MUL_PATTERN.findall(s[i:])`: the operand pairs of the non-overlapping matches. */
  function FindMuls(s: string, i: nat): seq<(int, int)>
    requires i <= |s|
    decreases |s| - i
  {
    if i == |s| then []
    else
      match MatchMulAt(s, i)
        case Some((a, b, e)) => [(a, b)] + FindMuls(s, e)
        case None => FindMuls(s, i + 1)
  }

  datatype Token = Mul(a: int, b: int) | Do | Dont

  /**
   * `CONTROLLED_PATTERN.finditer(s[i:])`: the alternation tries `mul(..)` first, then
   * `do()`, then `don't()`, and scanning resumes after each match.
   */
  function Tokens(s: string, i: nat): seq<Token>
    requires i <= |s|
    decreases |s| - i
  {
    if i == |s| then []
    else
      match MatchMulAt(s, i)
        case Some((a, b, e)) => [Mul(a, b)] + Tokens(s, e)
        case None =>
          if OccursAt(s, "do()", i) then [Do] + Tokens(s, i + 4)
          else if OccursAt(s, "don't()", i) then [Dont] + Tokens(s, i + 7)
          else Tokens(s, i + 1)
  }

  /** The operand pairs of the `mul` tokens, in order. */
  function MulsOf(ts: seq<Token>): seq<(int, int)>
  {
    if ts == [] then []
    else if ts[0].Mul? then [(ts[0].a, ts[0].b)] + MulsOf(ts[1..])
    else MulsOf(ts[1..])
  }

  /** No match of the `mul` pattern can start on a character other than 'm'. */
  lemma {:induction false} SkipWithoutM(s: string, p: nat, q: nat)
    requires p <= q <= |s|
    requires forall k :: p <= k < q ==> s[k] != 'm'
    ensures FindMuls(s, p) == FindMuls(s, q)
    decreases q - p
  {
    if p < q {
      if p + 4 <= |s| {
        assert !OccursAt(s, "mul(", p) by { assert s[p..p + 4][0] == s[p]; }
      }
      SkipWithoutM(s, p + 1, q);
    }
  }

  /**
   * Adding `do()` and `don't()` to the pattern does not change which `mul` instructions
   * are found: neither contains an 'm', so skipping over one skips no `mul` match.
   */
  lemma {:induction false} TokensKeepMuls(s: string, i: nat)
    requires i <= |s|
    ensures MulsOf(Tokens(s, i)) == FindMuls(s, i)
    decreases |s| - i
  {
    if i < |s| {
      match MatchMulAt(s, i)
        case Some((a, b, e)) =>
          TokensKeepMuls(s, e);
        case None =>
          if OccursAt(s, "do()", i) {
            assert forall k :: i <= k < i + 4 ==> s[k] == "do()"[k - i];
            SkipWithoutM(s, i, i + 4);
            TokensKeepMuls(s, i + 4);
          } else if OccursAt(s, "don't()", i) {
            assert forall k :: i <= k < i + 7 ==> s[k] == "don't()"[k - i];
            SkipWithoutM(s, i, i + 7);
            TokensKeepMuls(s, i + 7);
          } else {
            TokensKeepMuls(s, i + 1);
          }
    }
  }

  // ------------------------------------------------------------- solutions

  /** Sum of a * b over the pairs. */
  function SumProducts(ps: seq<(int, int)>): int
  {
    if ps == [] then 0 else ps[0].0 * ps[0].1 + SumProducts(ps[1..])
  }

  /** `extract_and_compute_mul`. */
  function ExtractAndComputeMul(s: string): int
  {
    SumProducts(FindMuls(s, 0))
  }

  function SolvePart1(raw: string): int
  {
    ExtractAndComputeMul(Memory(raw))
  }

  /** The total of the loop of `solve_part2` over the tokens, starting in state `enabled`. */
  function EnabledSum(ts: seq<Token>, enabled: bool): int
  {
    if ts == [] then 0
    else match ts[0]
      case Do => EnabledSum(ts[1..], true)
      case Dont => EnabledSum(ts[1..], false)
      case Mul(a, b) => (if enabled then a * b else 0) + EnabledSum(ts[1..], enabled)
  }

  /** `solve_part2`: walk the tokens, toggling `enabled` and adding enabled products. */
  method SolvePart2(raw: string) returns (total: int)
    ensures total == EnabledSum(Tokens(Memory(raw), 0), true)
  {
    var memory := Memory(raw);
    var ts := Tokens(memory, 0);
    var enabled := true;
    total := 0;
    for i := 0 to |ts|
      invariant total + EnabledSum(ts[i..], enabled) == EnabledSum(ts, true)
    {
      assert ts[i..][1..] == ts[i + 1..];
      match ts[i]
        case Do => enabled := true;
        case Dont => enabled := false;
        case Mul(a, b) =>
          if enabled {
            total := total + a * b;
          }
    }
  }

  /** Operands read from digits are never negative. */
  predicate NonNegativePairs(ps: seq<(int, int)>)
  {
    forall k :: 0 <= k < |ps| ==> ps[k].0 >= 0 && ps[k].1 >= 0
  }

  predicate NonNegativeTokens(ts: seq<Token>)
  {
    forall k :: 0 <= k < |ts| ==> ts[k].Mul? ==> ts[k].a >= 0 && ts[k].b >= 0
  }

  lemma {:induction false} FindMulsNonNegative(s: string, i: nat)
    requires i <= |s|
    ensures NonNegativePairs(FindMuls(s, i))
    decreases |s| - i
  {
    if i < |s| {
      match MatchMulAt(s, i)
        case Some((a, b, e)) => FindMulsNonNegative(s, e);
        case None => FindMulsNonNegative(s, i + 1);
    }
  }

  lemma {:induction false} TokensNonNegative(s: string, i: nat)
    requires i <= |s|
    ensures NonNegativeTokens(Tokens(s, i))
    decreases |s| - i
  {
    if i < |s| {
      match MatchMulAt(s, i)
        case Some((a, b, e)) => TokensNonNegative(s, e);
        case None =>
          if OccursAt(s, "do()", i) { TokensNonNegative(s, i + 4); }
          else if OccursAt(s, "don't()", i) { TokensNonNegative(s, i + 7); }
          else { TokensNonNegative(s, i + 1); }
    }
  }

  /** With non-negative operands, switching products off only lowers the total. */
  lemma {:induction false} EnabledSumAtMost(ts: seq<Token>, enabled: bool)
    requires NonNegativeTokens(ts)
    ensures EnabledSum(ts, enabled) <= SumProducts(MulsOf(ts))
  {
    if ts != [] {
      assert NonNegativeTokens(ts[1..]) by {
        forall k | 0 <= k < |ts[1..]| ensures ts[1..][k].Mul? ==> ts[1..][k].a >= 0 && ts[1..][k].b >= 0 {
          assert ts[1..][k] == ts[k + 1];
        }
      }
      match ts[0]
        case Do => EnabledSumAtMost(ts[1..], true);
        case Dont => EnabledSumAtMost(ts[1..], false);
        case Mul(a, b) =>
          EnabledSumAtMost(ts[1..], enabled);
          assert a * b >= 0;
    }
  }

  /** Part 2 counts a subset of part 1's products: it is never larger. */
  lemma Part2AtMostPart1(raw: string)
    ensures EnabledSum(Tokens(Memory(raw), 0), true) <= SolvePart1(raw)
  {
    var m := Memory(raw);
    TokensNonNegative(m, 0);
    EnabledSumAtMost(Tokens(m, 0), true);
    TokensKeepMuls(m, 0);
  }

  /** Without `don't()` tokens every product stays enabled. */
  lemma {:induction false} EnabledSumNoDont(ts: seq<Token>)
    requires Dont !in ts
    ensures EnabledSum(ts, true) == SumProducts(MulsOf(ts))
  {
    if ts != [] {
      assert Dont !in ts[1..] by { assert forall t :: t in ts[1..] ==> t in ts; }
      EnabledSumNoDont(ts[1..]);
    }
  }

  /** A `don't()` token only comes from a `don't()` in the text. */
  lemma {:induction false} DontNeedsText(s: string, i: nat)
    requires i <= |s|
    requires forall p :: i <= p ==> !OccursAt(s, "don't()", p)
    ensures Dont !in Tokens(s, i)
    decreases |s| - i
  {
    if i < |s| {
      match MatchMulAt(s, i)
        case Some((a, b, e)) => DontNeedsText(s, e);
        case None =>
          if OccursAt(s, "do()", i) { DontNeedsText(s, i + 4); }
          else { DontNeedsText(s, i + 1); }
    }
  }

  /** When the memory holds no `don't()`, both parts agree. */
  lemma NoDontSameAnswer(raw: string)
    requires forall p :: !OccursAt(Memory(raw), "don't()", p)
    ensures EnabledSum(Tokens(Memory(raw), 0), true) == SolvePart1(raw)
  {
    var m := Memory(raw);
    DontNeedsText(m, 0);
    EnabledSumNoDont(Tokens(m, 0));
    TokensKeepMuls(m, 0);
  }
}
