/**
 * 2025 day 1 (aoc/year2025/day01.py): a dial with positions 0 .. 99 starts at 50 and is
 * turned left or right by the given number of clicks. Part 1 counts the turns that end
 * on 0; part 2 counts every click that passes through 0, using a closed form per turn.
 */
module Year2025Day01 {
  import opened Common
  import opened Text

  /** One line `L68` / `R48`: any first letter other than 'L' turns right. */
  datatype Move = Move(left: bool, steps: int)

  function Sign(m: Move): int
  {
    if m.left then -1 else 1
  }

  /** `m[0]` and `int(m[1:])`; `None` for an empty line or a malformed count. */
  function ParseMove(line: string): (r: Option<Move>)
    ensures r.Some? <==> line != [] && ParseInt(line[1..]).Some?
    ensures r.Some? ==> r.value == Move(line[0] == 'L', ParseInt(line[1..]).value)
  {
    if line == [] then None
    else match ParseInt(line[1..])
      case None => None
      case Some(n) => Some(Move(line[0] == 'L', n))
  }

  /** One move per line, in order; `None` exactly when some line is not a move. */
  function ParseMoves(lines: seq<string>): (r: Option<seq<Move>>)
    ensures r.Some? <==> forall k :: 0 <= k < |lines| ==> ParseMove(lines[k]).Some?
    ensures r.Some? ==> |r.value| == |lines|
    ensures r.Some? ==> forall k :: 0 <= k < |lines| ==> ParseMove(lines[k]) == Some(r.value[k])
  {
    if lines == [] then Some([])
    else match (ParseMove(lines[0]), ParseMoves(lines[1..]))
      case (Some(m), Some(rest)) => Some([m] + rest)
      case _ => None
  }

  /** `parse`: one move per line. */
  function Parse(raw: string): Option<seq<Move>>
  {
    ParseMoves(Lines(raw))
  }

  // ------------------------------------------------------------- positions

  /** The position after a turn, `(pos + sign * steps) % 100` with Python's floor modulo. */
  function Turn(pos: int, m: Move): (r: int)
    ensures 0 <= r < 100
  {
    (pos + Sign(m) * m.steps) % 100
  }

  /**
   * Part 1 first reduces the count modulo 100; the dial ends where the unreduced turn of
   * part 2 ends, for counts of either sign.
   */
  lemma ReducedTurn(pos: int, m: Move)
    ensures (pos + Sign(m) * (m.steps % 100)) % 100 == Turn(pos, m)
  {
    var q, r := m.steps / 100, m.steps % 100;
    assert m.steps == 100 * q + r;
    if m.left {
      assert pos + Sign(m) * m.steps == (pos - r) + 100 * (-q);
    } else {
      assert pos + Sign(m) * m.steps == (pos + r) + 100 * q;
    }
  }

  /** The turns, starting from `pos`, that end on 0. */
  function ZeroStops(pos: int, moves: seq<Move>): (n: nat)
    ensures n <= |moves|
    decreases |moves|
  {
    if moves == [] then 0
    else
      var p := Turn(pos, moves[0]);
      (if p == 0 then 1 else 0) + ZeroStops(p, moves[1..])
  }

  /** `solve_part1` on parsed moves. */
  method Part1(moves: seq<Move>) returns (hits: nat)
    ensures hits == ZeroStops(50, moves)
  {
    var pos := 50;
    hits := 0;
    for i := 0 to |moves|
      invariant 0 <= pos < 100
      invariant hits + ZeroStops(pos, moves[i..]) == ZeroStops(50, moves)
    {
      var m := moves[i];
      var sign := if m.left then -1 else 1;
      var step := m.steps % 100;
      ReducedTurn(pos, m);
      pos := (pos + sign * step) % 100;
      assert moves[i..][1..] == moves[i + 1..];
      if pos == 0 {
        hits := hits + 1;
      }
    }
    assert moves[|moves|..] == [];
  }

  // ----------------------------------------------------------------- clicks

  /** Click t of a turn from `pos` lands on 0. */
  predicate Hit(pos: int, sign: int, t: int)
  {
    (pos + sign * t) % 100 == 0
  }

  /** Reference count: the clicks 1 .. n that land on 0, tried one by one. */
  function HitsUpTo(pos: int, sign: int, n: int): (c: nat)
    decreases n
  {
    if n <= 0 then 0 else HitsUpTo(pos, sign, n - 1) + (if Hit(pos, sign, n) then 1 else 0)
  }

  /** `t0`: `(-sign * pos) % 100`, with 0 read as 100. */
  function FirstHit(pos: int, sign: int): int
  {
    var t := (-sign * pos) % 100;
    if t == 0 then 100 else t
  }

  /** `t0` is the first click, from 1 to 100, that lands on 0. */
  lemma FirstHitIsFirst(pos: int, sign: int)
    requires 0 <= pos < 100 && (sign == 1 || sign == -1)
    ensures 1 <= FirstHit(pos, sign) <= 100 && Hit(pos, sign, FirstHit(pos, sign))
    ensures forall t :: 1 <= t < FirstHit(pos, sign) ==> !Hit(pos, sign, t)
  {
    var t0 := FirstHit(pos, sign);
    if sign == 1 {
      assert t0 == if pos == 0 then 100 else 100 - pos;
      forall t | 1 <= t < t0 ensures !Hit(pos, sign, t) {
        assert 0 < pos + t < 100;
      }
    } else {
      assert t0 == if pos == 0 then 100 else pos;
      forall t | 1 <= t < t0 ensures !Hit(pos, sign, t) {
        if pos == 0 {
          assert (pos - t) % 100 == 100 - t;
        } else {
          assert 0 < pos - t < 100;
        }
      }
    }
  }

  /** Euclidean remainders are unique. */
  lemma ModUnique(x: int, k: int, r: int)
    requires x == 100 * k + r && 0 <= r < 100
    ensures x % 100 == r
  {
  }

  /** `d` and `-d` are multiples of 100 together. */
  lemma NegatedRemainder(d: int)
    ensures (-d) % 100 == 0 <==> d % 100 == 0
  {
    var q, r := d / 100, d % 100;
    ModUnique(d, q, r);
    if r == 0 {
      ModUnique(-d, -q, 0);
    } else {
      ModUnique(-d, -q - 1, 100 - r);
    }
  }

  /** From `t0` on, the clicks that land on 0 recur every 100 clicks. */
  lemma HitPeriodic(pos: int, sign: int, t: int)
    requires 0 <= pos < 100 && (sign == 1 || sign == -1)
    requires t >= FirstHit(pos, sign)
    ensures Hit(pos, sign, t) <==> (t - FirstHit(pos, sign)) % 100 == 0
  {
    var t0 := FirstHit(pos, sign);
    FirstHitIsFirst(pos, sign);
    var a := (pos + sign * t0) / 100;
    assert pos + sign * t0 == 100 * a;
    var d := t - t0;
    assert pos + sign * t == 100 * a + sign * d;
    assert (100 * a + sign * d) % 100 == (sign * d) % 100;
    if sign == -1 {
      NegatedRemainder(d);
    }
  }

  /** Dividing by 100 gains one exactly at the multiples of 100. */
  lemma DivStep(m: int)
    requires m >= 1
    ensures m / 100 == (m - 1) / 100 + (if m % 100 == 0 then 1 else 0)
  {
    var q, r := (m - 1) / 100, (m - 1) % 100;
    assert m - 1 == 100 * q + r;
    if r == 99 {
      assert m == 100 * (q + 1);
    } else {
      assert m == 100 * q + (r + 1);
    }
  }

  /** `hits += 1 + (steps - t0) // 100` when `steps >= t0`. */
  function ClosedHits(t0: int, steps: int): int
  {
    if steps >= t0 then 1 + (steps - t0) / 100 else 0
  }

  /** The closed form counts exactly the clicks that land on 0. */
  lemma {:induction false} ClosedHitsCount(pos: int, sign: int, n: int)
    requires 0 <= pos < 100 && (sign == 1 || sign == -1)
    ensures HitsUpTo(pos, sign, n) == ClosedHits(FirstHit(pos, sign), n)
    decreases n
  {
    var t0 := FirstHit(pos, sign);
    FirstHitIsFirst(pos, sign);
    if n > 0 {
      ClosedHitsCount(pos, sign, n - 1);
      if n > t0 {
        HitPeriodic(pos, sign, n);
        DivStep(n - t0);
      }
    }
  }

  /** All clicks landing on 0, over the turns starting from `pos`. */
  function Crossings(pos: int, moves: seq<Move>): nat
    decreases |moves|
  {
    if moves == [] then 0
    else HitsUpTo(pos, Sign(moves[0]), moves[0].steps) + Crossings(Turn(pos, moves[0]), moves[1..])
  }

  /** The clicks on 0 over the turns, counted by the closed form of each turn. */
  function ClosedCrossings(pos: int, moves: seq<Move>): int
    decreases |moves|
  {
    if moves == [] then 0
    else ClosedHits(FirstHit(pos, Sign(moves[0])), moves[0].steps) + ClosedCrossings(Turn(pos, moves[0]), moves[1..])
  }

  /** Counting each turn by its closed form gives the reference count. */
  lemma {:induction false} ClosedCrossingsAgree(pos: int, moves: seq<Move>)
    requires 0 <= pos < 100
    ensures ClosedCrossings(pos, moves) == Crossings(pos, moves)
    decreases |moves|
  {
    if moves != [] {
      ClosedHitsCount(pos, Sign(moves[0]), moves[0].steps);
      ClosedCrossingsAgree(Turn(pos, moves[0]), moves[1..]);
    }
  }

  /** `solve_part2` on parsed moves: the closed form per turn gives the click count. */
  method Part2(moves: seq<Move>) returns (hits: nat)
    ensures hits == Crossings(50, moves)
  {
    var pos := 50;
    hits := 0;
    for i := 0 to |moves|
      invariant 0 <= pos < 100
      invariant hits + ClosedCrossings(pos, moves[i..]) == ClosedCrossings(50, moves)
    {
      var m := moves[i];
      var sign := if m.left then -1 else 1;
      var steps := m.steps;
      var t0 := (-sign * pos) % 100;
      if t0 == 0 {
        t0 := 100;
      }
      assert t0 == FirstHit(pos, Sign(m));
      if steps >= t0 {
        hits := hits + 1 + (steps - t0) / 100;
      }
      pos := (pos + sign * steps) % 100;
      assert moves[i..][1..] == moves[i + 1..];
    }
    assert moves[|moves|..] == [];
    ClosedCrossingsAgree(50, moves);
  }

  /** A turn of at least one click that ends on 0 has its last click on 0. */
  lemma StopIsHit(pos: int, m: Move)
    requires m.steps >= 1 && Turn(pos, m) == 0
    ensures HitsUpTo(pos, Sign(m), m.steps) >= 1
  {
    assert Hit(pos, Sign(m), m.steps);
  }

  /** With positive counts, every turn that ends on 0 is also counted by part 2. */
  lemma {:induction false} CrossingsCoverStops(pos: int, moves: seq<Move>)
    requires forall k :: 0 <= k < |moves| ==> moves[k].steps >= 1
    ensures ZeroStops(pos, moves) <= Crossings(pos, moves)
    decreases |moves|
  {
    if moves != [] {
      if Turn(pos, moves[0]) == 0 {
        StopIsHit(pos, moves[0]);
      }
      CrossingsCoverStops(Turn(pos, moves[0]), moves[1..]);
    }
  }

  /** One turn of the example, followed by the turns after it: the turns ending on 0. */
  lemma ExampleStop(pos: int, ms: seq<Move>, next: int, restStops: nat)
    requires ms != [] && Turn(pos, ms[0]) == next
    requires ZeroStops(next, ms[1..]) == restStops
    ensures ZeroStops(pos, ms) == restStops + (if next == 0 then 1 else 0)
  {
  }

  /** One turn of the example, followed by the turns after it: the clicks on 0 by the closed form. */
  lemma ExampleClicks(pos: int, ms: seq<Move>, m: Move, next: int, clicks: nat, restClicks: nat)
    requires ms != [] && ms[0] == m
    requires Turn(pos, m) == next && ClosedHits(FirstHit(pos, Sign(m)), m.steps) == clicks
    requires ClosedCrossings(next, ms[1..]) == restClicks
    ensures ClosedCrossings(pos, ms) == restClicks + clicks
  {
  }

  /** The last five example turns, from 55. */
  lemma ExampleLastStops(ms: seq<Move>)
    requires |ms| == 5
    requires ms[0] == Move(true, 55) && ms[1] == Move(true, 1)
    requires ms[2] == Move(true, 99) && ms[3] == Move(false, 14)
    requires ms[4] == Move(true, 82)
    ensures ZeroStops(55, ms) == 2
  {
    assert ms[5..] == [];
    assert ms[4..][1..] == ms[5..];
    ExampleStop(14, ms[4..], 32, 0);
    assert ms[3..][1..] == ms[4..];
    ExampleStop(0, ms[3..], 14, 0);
    assert ms[2..][1..] == ms[3..];
    ExampleStop(99, ms[2..], 0, 0);
    assert ms[1..][1..] == ms[2..];
    ExampleStop(0, ms[1..], 99, 1);
    assert ms[0..][1..] == ms[1..];
    ExampleStop(55, ms[0..], 0, 1);
  }

  /** The example turns: 3 of them end on 0. */
  lemma ExamplePart1(moves: seq<Move>)
    requires |moves| == 10
    requires moves[0] == Move(true, 68) && moves[1] == Move(true, 30)
    requires moves[2] == Move(false, 48) && moves[3] == Move(true, 5)
    requires moves[4] == Move(false, 60) && moves[5] == Move(true, 55)
    requires moves[6] == Move(true, 1) && moves[7] == Move(true, 99)
    requires moves[8] == Move(false, 14) && moves[9] == Move(true, 82)
    ensures ZeroStops(50, moves) == 3
  {
    ExampleLastStops(moves[5..]);
    assert moves[4..][1..] == moves[5..];
    ExampleStop(95, moves[4..], 55, 2);
    assert moves[3..][1..] == moves[4..];
    ExampleStop(0, moves[3..], 95, 2);
    assert moves[2..][1..] == moves[3..];
    ExampleStop(52, moves[2..], 0, 2);
    assert moves[1..][1..] == moves[2..];
    ExampleStop(82, moves[1..], 52, 3);
    assert moves[0..][1..] == moves[1..];
    ExampleStop(50, moves[0..], 82, 3);
  }

  /** The example turns from the one at index 8 on. */
  lemma ExampleClicksFrom8(ms: seq<Move>)
    requires |ms| == 2
    requires ms[0] == Move(false, 14) && ms[1] == Move(true, 82)
    ensures ClosedCrossings(0, ms) == 1
  {
    assert ms[2..] == [];
    assert ms[1..][1..] == ms[2..];
    ExampleClicks(14, ms[1..], Move(true, 82), 32, 1, 0);
    assert ms[0..][1..] == ms[1..];
    ExampleClicks(0, ms[0..], Move(false, 14), 14, 0, 1);
  }

  /** The example turns from the one at index 6 on. */
  lemma ExampleClicksFrom6(ms: seq<Move>)
    requires |ms| == 4
    requires ms[0] == Move(true, 1) && ms[1] == Move(true, 99)
    requires ms[2] == Move(false, 14) && ms[3] == Move(true, 82)
    ensures ClosedCrossings(0, ms) == 2
  {
    ExampleClicksFrom8(ms[2..]);
    assert ms[1..][1..] == ms[2..];
    ExampleClicks(99, ms[1..], Move(true, 99), 0, 1, 1);
    assert ms[0..][1..] == ms[1..];
    ExampleClicks(0, ms[0..], Move(true, 1), 99, 0, 2);
  }

  /** The example turns from the one at index 5 on. */
  lemma ExampleClicksFrom5(ms: seq<Move>)
    requires |ms| == 5
    requires ms[0] == Move(true, 55)
    requires ms[1] == Move(true, 1) && ms[2] == Move(true, 99)
    requires ms[3] == Move(false, 14) && ms[4] == Move(true, 82)
    ensures ClosedCrossings(55, ms) == 3
  {
    ExampleClicksFrom6(ms[1..]);
    assert ms[0..][1..] == ms[1..];
    ExampleClicks(55, ms[0..], Move(true, 55), 0, 1, 2);
  }

  /** The example turns from the one at index 4 on. */
  lemma ExampleClicksFrom4(ms: seq<Move>)
    requires |ms| == 6
    requires ms[0] == Move(false, 60) && ms[1] == Move(true, 55)
    requires ms[2] == Move(true, 1) && ms[3] == Move(true, 99)
    requires ms[4] == Move(false, 14) && ms[5] == Move(true, 82)
    ensures ClosedCrossings(95, ms) == 4
  {
    ExampleClicksFrom5(ms[1..]);
    assert ms[0..][1..] == ms[1..];
    ExampleClicks(95, ms[0..], Move(false, 60), 55, 1, 3);
  }

  /** The example turns from the one at index 2 on. */
  lemma ExampleClicksFrom2(ms: seq<Move>)
    requires |ms| == 8
    requires ms[0] == Move(false, 48) && ms[1] == Move(true, 5)
    requires ms[2] == Move(false, 60) && ms[3] == Move(true, 55)
    requires ms[4] == Move(true, 1) && ms[5] == Move(true, 99)
    requires ms[6] == Move(false, 14) && ms[7] == Move(true, 82)
    ensures ClosedCrossings(52, ms) == 5
  {
    ExampleClicksFrom4(ms[2..]);
    assert ms[1..][1..] == ms[2..];
    ExampleClicks(0, ms[1..], Move(true, 5), 95, 0, 4);
    assert ms[0..][1..] == ms[1..];
    ExampleClicks(52, ms[0..], Move(false, 48), 0, 1, 4);
  }

  /** The example turns: 6 clicks land on 0. */
  lemma ExamplePart2(moves: seq<Move>)
    requires |moves| == 10
    requires moves[0] == Move(true, 68) && moves[1] == Move(true, 30)
    requires moves[2] == Move(false, 48) && moves[3] == Move(true, 5)
    requires moves[4] == Move(false, 60) && moves[5] == Move(true, 55)
    requires moves[6] == Move(true, 1) && moves[7] == Move(true, 99)
    requires moves[8] == Move(false, 14) && moves[9] == Move(true, 82)
    ensures Crossings(50, moves) == 6
  {
    ExampleClicksFrom2(moves[2..]);
    assert moves[1..][1..] == moves[2..];
    ExampleClicks(82, moves[1..], Move(true, 30), 52, 0, 5);
    assert moves[0..][1..] == moves[1..];
    ExampleClicks(50, moves[0..], Move(true, 68), 82, 1, 5);
    ClosedCrossingsAgree(50, moves);
  }

  method SolvePart1(raw: string) returns (r: Option<nat>)
    ensures r.None? <==> Parse(raw).None?
    ensures r.Some? ==> r.value == ZeroStops(50, Parse(raw).value)
  {
    var moves := Parse(raw);
    if moves.None? {
      return None;
    }
    var hits := Part1(moves.value);
    return Some(hits);
  }

  method SolvePart2(raw: string) returns (r: Option<nat>)
    ensures r.None? <==> Parse(raw).None?
    ensures r.Some? ==> r.value == Crossings(50, Parse(raw).value)
  {
    var moves := Parse(raw);
    if moves.None? {
      return None;
    }
    var hits := Part2(moves.value);
    return Some(hits);
  }
}
