/**
 * 2025 day 10 (aoc/year2025/day10.py): machines whose buttons each add one to a set of
 * counters. Every combination of buttons pressed once is tabulated with its effect and
 * grouped by the parity of that effect. Part 1 lights the indicator pattern with the
 * fewest presses; part 2 reaches the joltage targets by repeatedly matching their
 * parity with one combination and halving what is left.
 */
module Year2025Day10 {
  import opened Common
  import opened Text

  /** A choice of buttons pressed once: one 0 or 1 per button (a tuple of `product((0, 1), ...)`). */
  type Mask = seq<int>

  datatype Machine = Machine(lights: seq<int>, buttons: seq<seq<int>>, joltage: seq<int>)

  // --------------------------------------------------------------- parse

  /** Python's `x[1:-1]`: the text between the brackets. */
  function Inner(x: string): (r: string)
    ensures |x| >= 2 ==> r == x[1..|x| - 1]
    ensures |x| < 2 ==> r == []
  {
    if |x| >= 2 then x[1..|x| - 1] else []
  }

  /** `tuple(1 if c == "#" else 0 for c in lights[1:-1])`. */
  function LightsOf(word: string): (ls: seq<int>)
    ensures |ls| == |Inner(word)|
    ensures forall k :: 0 <= k < |ls| ==> (ls[k] == 1 <==> Inner(word)[k] == '#') && (ls[k] == 0 || ls[k] == 1)
  {
    var inner := Inner(word);
    seq(|inner|, k requires 0 <= k < |inner| => if inner[k] == '#' then 1 else 0)
  }

  /** The parse of every button word, the words between the first and the last. */
  function ParseButtons(ws: seq<string>): (ps: seq<Option<seq<int>>>)
    requires |ws| >= 2
    ensures |ps| == |ws| - 2 && forall k :: 0 <= k < |ps| ==> ps[k] == IntFields(Inner(ws[k + 1]))
  {
    seq(|ws| - 2, k requires 0 <= k < |ws| - 2 => IntFields(Inner(ws[k + 1])))
  }

  /** The buttons all parse exactly when every word between the first and the last does. */
  lemma ButtonsParse(ws: seq<string>)
    requires |ws| >= 2
    ensures AllSome(ParseButtons(ws)).Some? <==> forall k :: 1 <= k < |ws| - 1 ==> IntFields(Inner(ws[k])).Some?
  {
    var ps := ParseButtons(ws);
    if forall k :: 1 <= k < |ws| - 1 ==> IntFields(Inner(ws[k])).Some? {
      forall j | 0 <= j < |ps| ensures ps[j].Some? {
        assert IntFields(Inner(ws[j + 1])).Some?;
      }
    } else {
      var k :| 1 <= k < |ws| - 1 && IntFields(Inner(ws[k])).None?;
      AllSomeMissing(ps, k - 1);
    }
  }

  /**
   * One row: `lights, *buttons, joltage = row.split()`. It parses exactly when it has two
   * words at least and every word after the first holds comma-separated integers between
   * its brackets; then the lights come from the first word, button `k` from word `k + 1`
   * and the joltage from the last word. `None` is where Python raises.
   */
  function ParseMachine(row: string): (m: Option<Machine>)
    ensures m.Some? <==> var ws := Words(row);
      |ws| >= 2 && (forall k :: 1 <= k < |ws| - 1 ==> IntFields(Inner(ws[k])).Some?) &&
      IntFields(Inner(ws[|ws| - 1])).Some?
    ensures m.Some? ==> var ws := Words(row);
      m.value.lights == LightsOf(ws[0]) && |m.value.buttons| == |ws| - 2 &&
      (forall k :: 0 <= k < |ws| - 2 ==> IntFields(Inner(ws[k + 1])) == Some(m.value.buttons[k])) &&
      IntFields(Inner(ws[|ws| - 1])) == Some(m.value.joltage)
  {
    var ws := Words(row);
    if |ws| < 2 then None
    else
      ButtonsParse(ws);
      var buttons := AllSome(ParseButtons(ws));
      var joltage := IntFields(Inner(ws[|ws| - 1]));
      if buttons.None? || joltage.None? then None
      else Some(Machine(LightsOf(ws[0]), buttons.value, joltage.value))
  }

  /** `parse`: one machine per line. */
  function Machines(raw: string): (ms: Option<seq<Machine>>)
    ensures ms.Some? ==> |ms.value| == |Lines(raw)|
    ensures ms.Some? ==> forall k :: 0 <= k < |ms.value| ==> ParseMachine(Lines(raw)[k]) == Some(ms.value[k])
  {
    var ls := Lines(raw);
    AllSome(seq(|ls|, k requires 0 <= k < |ls| => ParseMachine(ls[k])))
  }

  /** Every counter a button lists exists: `delta[j]` is in range. */
  predicate Wired(buttons: seq<seq<int>>, size: nat)
  {
    forall i, k :: 0 <= i < |buttons| && 0 <= k < |buttons[i]| ==> 0 <= buttons[i][k] < size
  }

  // ------------------------------------------------------------- presses

  /**
   * Counter `j` after pressing button `i` `x[i]` times: each press adds one for every
   * time the button lists `j`.
   */
  function Press(buttons: seq<seq<int>>, x: seq<int>, j: int): int
    requires |x| == |buttons|
  {
    if x == [] then 0
    else
      var n := |x| - 1;
      Press(buttons[..n], x[..n], j) + x[n] * Count(buttons[n], j)
  }

  /** All the counters after the presses `x`. */
  function Apply(buttons: seq<seq<int>>, x: seq<int>, size: nat): (v: seq<int>)
    requires |x| == |buttons|
    ensures |v| == size
  {
    seq(size, j => Press(buttons, x, j))
  }

  /** One button more. */
  lemma PressStep(buttons: seq<seq<int>>, x: seq<int>, i: int, j: int)
    requires |x| == |buttons| && 0 <= i < |x|
    ensures Press(buttons[..i + 1], x[..i + 1], j) == Press(buttons[..i], x[..i], j) + x[i] * Count(buttons[i], j)
  {
    assert buttons[..i + 1][..i] == buttons[..i];
    assert x[..i + 1][..i] == x[..i];
  }

  /** Pressing no button a negative number of times never lowers a counter. */
  lemma {:induction false} PressNonNegative(buttons: seq<seq<int>>, x: seq<int>, j: int)
    requires |x| == |buttons| && forall i :: 0 <= i < |x| ==> x[i] >= 0
    ensures Press(buttons, x, j) >= 0
  {
    if x != [] {
      var n := |x| - 1;
      PressNonNegative(buttons[..n], x[..n], j);
    }
  }

  /** `Count` one element further. */
  lemma CountStep(s: seq<int>, t: int, j: int)
    requires 0 <= t < |s|
    ensures Count(s[..t + 1], j) == Count(s[..t], j) + (if s[t] == j then 1 else 0)
  {
    assert s[..t + 1][..t] == s[..t];
  }

  /** The counters `delta` after `p` presses of a button listing `button`. */
  function Added(delta: seq<int>, button: seq<int>, p: int): (r: seq<int>)
    ensures |r| == |delta|
  {
    seq(|delta|, j requires 0 <= j < |delta| => delta[j] + p * Count(button, j))
  }

  /** One listed counter more. */
  lemma AddedStep(delta: seq<int>, button: seq<int>, p: int, t: int)
    requires 0 <= t < |button| && 0 <= button[t] < |delta|
    ensures Added(delta, button[..t + 1], p) == Added(delta, button[..t], p)[button[t] := Added(delta, button[..t], p)[button[t]] + p]
  {
    var a, b := Added(delta, button[..t + 1], p), Added(delta, button[..t], p);
    forall j | 0 <= j < |delta| ensures a[j] == b[button[t] := b[button[t]] + p][j] {
      CountStep(button, t, j);
      var c := Count(button[..t], j);
      if j == button[t] {
        MulSucc(p, c);
      }
    }
  }

  lemma MulSucc(p: int, c: int)
    ensures p * (c + 1) == p * c + p
  {
  }

  /** The inner `delta` loop: `p` presses of one button. */
  method PressButton(delta: seq<int>, button: seq<int>, p: int) returns (delta': seq<int>)
    requires forall t :: 0 <= t < |button| ==> 0 <= button[t] < |delta|
    ensures delta' == Added(delta, button, p)
  {
    delta' := delta;
    assert delta == Added(delta, button[..0], p);
    for t := 0 to |button|
      invariant delta' == Added(delta, button[..t], p)
    {
      AddedStep(delta, button, p, t);
      delta' := delta'[button[t] := delta'[button[t]] + p];
    }
    assert button[..|button|] == button;
  }

  /** The `delta` loops of `build_patterns` for one mask. */
  method DeltaOf(buttons: seq<seq<int>>, mask: Mask, size: nat) returns (delta: seq<int>)
    requires |mask| == |buttons| && Wired(buttons, size)
    ensures delta == Apply(buttons, mask, size)
  {
    delta := seq(size, _ => 0);
    for i := 0 to |mask|
      invariant |delta| == size && forall j :: 0 <= j < size ==> delta[j] == Press(buttons[..i], mask[..i], j)
    {
      delta := PressButton(delta, buttons[i], mask[i]);
      forall j | 0 <= j < size
        ensures delta[j] == Press(buttons[..i + 1], mask[..i + 1], j)
      {
        PressStep(buttons, mask, i, j);
      }
    }
    assert buttons[..|mask|] == buttons && mask[..|mask|] == mask;
  }

  // --------------------------------------------------------------- masks

  function Pow2(m: nat): (p: nat)
    ensures p >= 1
  {
    if m == 0 then 1 else 2 * Pow2(m - 1)
  }

  predicate IsMask(x: seq<int>, m: nat)
  {
    |x| == m && forall i :: 0 <= i < m ==> x[i] == 0 || x[i] == 1
  }

  /** `[b] + x` for every `x`. */
  function Prefixed(b: int, xs: seq<Mask>): (r: seq<Mask>)
    ensures |r| == |xs| && forall k :: 0 <= k < |xs| ==> r[k] == [b] + xs[k]
  {
    seq(|xs|, k requires 0 <= k < |xs| => [b] + xs[k])
  }

  /** `product((0, 1), repeat=m)`: the first button is the most significant. */
  function Masks(m: nat): (ms: seq<Mask>)
    ensures |ms| == Pow2(m)
    ensures forall k :: 0 <= k < |ms| ==> IsMask(ms[k], m)
  {
    if m == 0 then [[]]
    else
      var rest := Masks(m - 1);
      Prefixed(0, rest) + Prefixed(1, rest)
  }

  /** Every choice of buttons appears. */
  lemma {:induction false} MasksComplete(m: nat, x: seq<int>)
    requires IsMask(x, m)
    ensures x in Masks(m)
  {
    if m > 0 {
      var rest := Masks(m - 1);
      assert IsMask(x[1..], m - 1);
      MasksComplete(m - 1, x[1..]);
      PrefixedHas(rest, x);
      assert Masks(m) == Prefixed(0, rest) + Prefixed(1, rest);
    }
  }

  /** A choice whose first bit is 0 or 1 and whose rest is listed is listed among both prefixings. */
  lemma PrefixedHas(rest: seq<Mask>, x: seq<int>)
    requires x != [] && (x[0] == 0 || x[0] == 1) && x[1..] in rest
    ensures x in Prefixed(0, rest) + Prefixed(1, rest)
  {
    var k :| 0 <= k < |rest| && rest[k] == x[1..];
    var zeros, ones := Prefixed(0, rest), Prefixed(1, rest);
    assert x == [x[0]] + rest[k];
    if x[0] == 0 {
      assert (zeros + ones)[k] == x;
    } else {
      assert (zeros + ones)[|zeros| + k] == x;
    }
  }

  /** ... and only once. */
  lemma {:induction false} MasksDistinct(m: nat)
    ensures forall a, b :: 0 <= a < b < |Masks(m)| ==> Masks(m)[a] != Masks(m)[b]
  {
    if m > 0 {
      MasksDistinct(m - 1);
      var rest, ms := Masks(m - 1), Masks(m);
      forall a, b | 0 <= a < b < |ms| ensures ms[a] != ms[b] {
        if b < |rest| {
          assert ms[a][1..] == rest[a] && ms[b][1..] == rest[b];
        } else if a >= |rest| {
          assert ms[a][1..] == rest[a - |rest|] && ms[b][1..] == rest[b - |rest|];
        } else {
          assert ms[a][0] == 0 && ms[b][0] == 1;
        }
      }
    }
  }

  // ------------------------------------------------------------ patterns

  /** `tuple(x % 2 for x in v)`. */
  function Parity(v: seq<int>): (p: seq<int>)
    ensures |p| == |v|
  {
    seq(|v|, k requires 0 <= k < |v| => v[k] % 2)
  }

  /** The masks of `ms` whose effect has parity `key`, in order. */
  function Matching(buttons: seq<seq<int>>, size: nat, ms: seq<Mask>, key: seq<int>): (r: seq<Mask>)
    requires forall k :: 0 <= k < |ms| ==> |ms[k]| == |buttons|
    ensures |r| <= |ms|
  {
    if ms == [] then []
    else
      var init, last := ms[..|ms| - 1], ms[|ms| - 1];
      assert forall k :: 0 <= k < |init| ==> init[k] == ms[k];
      Matching(buttons, size, init, key) + (if Parity(Apply(buttons, last, size)) == key then [last] else [])
  }

  /** A mask is listed exactly when its effect has the parity asked for. */
  lemma {:induction false} MatchingMembers(buttons: seq<seq<int>>, size: nat, ms: seq<Mask>, key: seq<int>)
    requires forall k :: 0 <= k < |ms| ==> |ms[k]| == |buttons|
    ensures forall x :: x in Matching(buttons, size, ms, key) <==> x in ms && Parity(Apply(buttons, x, size)) == key
  {
    if ms != [] {
      var init, last := ms[..|ms| - 1], ms[|ms| - 1];
      assert ms == init + [last];
      MatchingMembers(buttons, size, init, key);
    }
  }

  /** `effects` after the masks `ms`: each mask's effect. */
  function EffectsOf(buttons: seq<seq<int>>, size: nat, ms: seq<Mask>): (e: map<Mask, seq<int>>)
    requires forall k :: 0 <= k < |ms| ==> |ms[k]| == |buttons|
  {
    if ms == [] then map[]
    else
      var init, last := ms[..|ms| - 1], ms[|ms| - 1];
      assert forall k :: 0 <= k < |init| ==> init[k] == ms[k];
      EffectsOf(buttons, size, init)[last := Apply(buttons, last, size)]
  }

  /** `effects` holds exactly the masks seen, each with its own effect. */
  lemma {:induction false} EffectsOfMembers(buttons: seq<seq<int>>, size: nat, ms: seq<Mask>)
    requires forall k :: 0 <= k < |ms| ==> |ms[k]| == |buttons|
    ensures forall x :: x in EffectsOf(buttons, size, ms) <==> x in ms
    ensures forall x :: x in EffectsOf(buttons, size, ms) ==> |x| == |buttons| && EffectsOf(buttons, size, ms)[x] == Apply(buttons, x, size)
  {
    if ms != [] {
      var init, last := ms[..|ms| - 1], ms[|ms| - 1];
      assert ms == init + [last];
      EffectsOfMembers(buttons, size, init);
    }
  }

  /** `patterns[key]` of a `defaultdict(list)`. */
  function Listed(patterns: map<seq<int>, seq<Mask>>, key: seq<int>): seq<Mask>
  {
    if key in patterns then patterns[key] else []
  }

  /** `patterns` after the masks `ms`: each appended to the list of its parity. */
  function PatternsOf(buttons: seq<seq<int>>, size: nat, ms: seq<Mask>): (p: map<seq<int>, seq<Mask>>)
    requires forall k :: 0 <= k < |ms| ==> |ms[k]| == |buttons|
  {
    if ms == [] then map[]
    else
      var init, last := ms[..|ms| - 1], ms[|ms| - 1];
      assert forall k :: 0 <= k < |init| ==> init[k] == ms[k];
      var p := PatternsOf(buttons, size, init);
      var key := Parity(Apply(buttons, last, size));
      p[key := Listed(p, key) + [last]]
  }

  /** Each list of `patterns` is the masks of its parity, in the order they were tried. */
  lemma {:induction false} PatternsOfListed(buttons: seq<seq<int>>, size: nat, ms: seq<Mask>, key: seq<int>)
    requires forall k :: 0 <= k < |ms| ==> |ms[k]| == |buttons|
    ensures Listed(PatternsOf(buttons, size, ms), key) == Matching(buttons, size, ms, key)
  {
    if ms != [] {
      var init, last := ms[..|ms| - 1], ms[|ms| - 1];
      assert forall k :: 0 <= k < |init| ==> init[k] == ms[k];
      PatternsOfListed(buttons, size, init, key);
    }
  }

  /** `build_patterns`. */
  method BuildPatterns(buttons: seq<seq<int>>, size: nat)
    returns (effects: map<Mask, seq<int>>, patterns: map<seq<int>, seq<Mask>>)
    requires Wired(buttons, size)
    ensures effects == EffectsOf(buttons, size, Masks(|buttons|))
    ensures patterns == PatternsOf(buttons, size, Masks(|buttons|))
  {
    var masks := Masks(|buttons|);
    effects, patterns := map[], map[];
    for k := 0 to |masks|
      invariant effects == EffectsOf(buttons, size, masks[..k])
      invariant patterns == PatternsOf(buttons, size, masks[..k])
    {
      var mask := masks[k];
      assert masks[..k + 1][..k] == masks[..k] && masks[..k + 1][k] == mask;
      var delta := DeltaOf(buttons, mask, size);
      var lights := Parity(delta);
      effects := effects[mask := delta];
      patterns := patterns[lights := Listed(patterns, lights) + [mask]];
    }
    assert masks[..|masks|] == masks;
  }

  /**
   * Every mask sits in exactly one list of `patterns`, the one of its parity, and every
   * mask has its effect in `effects`.
   */
  lemma PatternsPartition(buttons: seq<seq<int>>, size: nat, x: Mask, key: seq<int>)
    requires IsMask(x, |buttons|)
    ensures x in Listed(PatternsOf(buttons, size, Masks(|buttons|)), key) <==> key == Parity(Apply(buttons, x, size))
    ensures x in EffectsOf(buttons, size, Masks(|buttons|))
  {
    var ms := Masks(|buttons|);
    MasksComplete(|buttons|, x);
    PatternsOfListed(buttons, size, ms, key);
    MatchingMembers(buttons, size, ms, key);
    EffectsOfMembers(buttons, size, ms);
  }

  // -------------------------------------------------------------- part 1

  /** `min(sum(mask) for mask in ms)`, `None` for no mask, where `min` raises. */
  function MinPresses(ms: seq<Mask>): (r: Option<int>)
    ensures r.Some? <==> ms != []
    ensures r.Some? ==> forall k :: 0 <= k < |ms| ==> r.value <= Sum(ms[k])
    ensures r.Some? ==> exists k :: 0 <= k < |ms| && r.value == Sum(ms[k])
  {
    if ms == [] then None
    else
      var rest := MinPresses(ms[1..]);
      if rest.None? || Sum(ms[0]) <= rest.value then Some(Sum(ms[0]))
      else
        var k :| 0 <= k < |ms[1..]| && rest.value == Sum(ms[1..][k]);
        assert ms[1..][k] == ms[k + 1];
        rest
  }

  /** The fewest presses that light the indicator pattern of one machine. */
  function Fewest(m: Machine): Option<int>
    requires Wired(m.buttons, |m.lights|)
  {
    MinPresses(Listed(PatternsOf(m.buttons, |m.lights|, Masks(|m.buttons|)), m.lights))
  }

  /**
   * Pressing a button twice undoes it, so the fewest presses is the least number of
   * buttons a choice toggling exactly the lit lights presses, and there is none without such a choice.
   */
  lemma FewestIsLeast(m: Machine)
    requires Wired(m.buttons, |m.lights|)
    ensures Fewest(m).None? <==> forall x :: IsMask(x, |m.buttons|) ==> Parity(Apply(m.buttons, x, |m.lights|)) != m.lights
    ensures Fewest(m).Some? ==>
      (forall x :: IsMask(x, |m.buttons|) && Parity(Apply(m.buttons, x, |m.lights|)) == m.lights ==> Fewest(m).value <= Sum(x)) &&
      exists x :: IsMask(x, |m.buttons|) && Parity(Apply(m.buttons, x, |m.lights|)) == m.lights && Fewest(m).value == Sum(x)
  {
    var size := |m.lights|;
    var ms := Listed(PatternsOf(m.buttons, size, Masks(|m.buttons|)), m.lights);
    forall x | IsMask(x, |m.buttons|) && Parity(Apply(m.buttons, x, size)) == m.lights
      ensures x in ms
    {
      PatternsPartition(m.buttons, size, x, m.lights);
    }
    if Fewest(m).Some? {
      var all := Masks(|m.buttons|);
      PatternsOfListed(m.buttons, size, all, m.lights);
      MatchingMembers(m.buttons, size, all, m.lights);
      var k :| 0 <= k < |ms| && Fewest(m).value == Sum(ms[k]);
      assert ms[k] in all;
    }
  }

  predicate WiredForLights(ms: seq<Machine>)
  {
    forall k :: 0 <= k < |ms| ==> Wired(ms[k].buttons, |ms[k].lights|)
  }

  /** `solve_part1`: the total over the machines, `None` when one cannot be lit. */
  function Part1(ms: seq<Machine>): Option<int>
    requires WiredForLights(ms)
  {
    Part1Upto(ms, |ms|)
  }

  /** The total over the first `k` machines. */
  function Part1Upto(ms: seq<Machine>, k: nat): Option<int>
    requires WiredForLights(ms) && k <= |ms|
  {
    if k == 0 then Some(0) else Plus(Part1Upto(ms, k - 1), Fewest(ms[k - 1]))
  }

  /** The sum of two totals, `None` when either is missing. */
  function Plus(a: Option<int>, b: Option<int>): (r: Option<int>)
    ensures r.Some? <==> a.Some? && b.Some?
    ensures r.Some? ==> r.value == a.value + b.value
  {
    if a.Some? && b.Some? then Some(a.value + b.value) else None
  }

  /** One machine of `solve_part1`. */
  method FewestOf(m: Machine) returns (fewest: Option<int>)
    requires Wired(m.buttons, |m.lights|)
    ensures fewest == Fewest(m)
  {
    var _, patterns := BuildPatterns(m.buttons, |m.lights|);
    fewest := MinPresses(Listed(patterns, m.lights));
  }

  /** The loop of `solve_part1`. */
  method TotalFewest(machines: seq<Machine>) returns (total: Option<int>)
    requires WiredForLights(machines)
    ensures total == Part1(machines)
  {
    total := Some(0);
    for k := 0 to |machines|
      invariant total == Part1Upto(machines, k)
    {
      var fewest := FewestOf(machines[k]);
      if fewest.None? {
        FirstFailure(machines, k + 1);
        return None;
      }
      total := Plus(total, fewest);
    }
  }

  method SolvePart1(raw: string) returns (total: Option<int>)
    requires Machines(raw).Some? && WiredForLights(Machines(raw).value)
    ensures total == Part1(Machines(raw).value)
  {
    total := TotalFewest(Machines(raw).value);
  }

  /** A machine that cannot be lit makes the whole total fail. */
  lemma FirstFailure(ms: seq<Machine>, k: int)
    requires WiredForLights(ms) && 0 < k <= |ms| && Fewest(ms[k - 1]).None?
    ensures Part1(ms).None?
  {
    FailureStays(ms, k, |ms|);
  }

  /** Once a machine fails, every longer prefix fails. */
  lemma {:induction false} FailureStays(ms: seq<Machine>, k: int, j: nat)
    requires WiredForLights(ms) && 0 < k <= j <= |ms| && Fewest(ms[k - 1]).None?
    ensures Part1Upto(ms, j).None?
    decreases j
  {
    assert Part1Upto(ms, j) == Plus(Part1Upto(ms, j - 1), Fewest(ms[j - 1]));
    if j > k {
      FailureStays(ms, k, j - 1);
    }
  }

  // -------------------------------------------------------------- part 2

  /** `all(x == 0 for x in target)`. */
  predicate Zero(t: seq<int>)
  {
    forall j :: 0 <= j < |t| ==> t[j] == 0
  }

  /** `any(x < 0 for x in target)`. */
  predicate Negative(t: seq<int>)
  {
    exists j :: 0 <= j < |t| && t[j] < 0
  }

  /** The positive part of a target: what is still to be reached. */
  function Weight(t: seq<int>): nat
  {
    if t == [] then 0 else Weight(t[..|t| - 1]) + (if t[|t| - 1] > 0 then t[|t| - 1] else 0)
  }

  /** `tuple((t - d) // 2 for d, t in zip(delta, target))` (floor division, as Dafny's `/` by 2). */
  function Next(t: seq<int>, d: seq<int>): (r: seq<int>)
    requires |d| == |t|
    ensures |r| == |t|
  {
    seq(|t|, j requires 0 <= j < |t| => (t[j] - d[j]) / 2)
  }

  /** Halving what is left never adds weight, and removes some while any is left. */
  lemma {:induction false} NextWeight(t: seq<int>, d: seq<int>)
    requires |d| == |t| && !Negative(t) && forall j :: 0 <= j < |d| ==> d[j] >= 0
    ensures Weight(Next(t, d)) <= Weight(t)
    ensures !Zero(t) ==> Weight(Next(t, d)) < Weight(t)
  {
    if t != [] {
      var n := |t| - 1;
      var r := Next(t, d);
      assert r[..n] == Next(t[..n], d[..n]);
      assert !Negative(t[..n]) by {
        forall j | 0 <= j < n ensures t[..n][j] >= 0 {
          assert t[..n][j] == t[j];
        }
      }
      NextWeight(t[..n], d[..n]);
      assert r[n] <= t[n] / 2;
      if !Zero(t) && t[n] == 0 {
        var j :| 0 <= j < |t| && t[j] != 0;
        assert t[..n][j] != 0;
      }
    }
  }

  /** The effect of pressing buttons at most once each never lowers a counter. */
  lemma MaskEffectNonNegative(buttons: seq<seq<int>>, m: Mask, size: nat)
    requires IsMask(m, |buttons|)
    ensures forall j :: 0 <= j < size ==> Apply(buttons, m, size)[j] >= 0
  {
    forall j | 0 <= j < size ensures Apply(buttons, m, size)[j] >= 0 {
      PressNonNegative(buttons, m, j);
    }
  }

  /** Every list of `patterns` holds button choices only. */
  lemma ListedMasks(buttons: seq<seq<int>>, size: nat, key: seq<int>)
    ensures forall k :: 0 <= k < |Listed(PatternsOf(buttons, size, Masks(|buttons|)), key)| ==>
      IsMask(Listed(PatternsOf(buttons, size, Masks(|buttons|)), key)[k], |buttons|)
  {
    var all := Masks(|buttons|);
    var ls := Listed(PatternsOf(buttons, size, all), key);
    PatternsOfListed(buttons, size, all, key);
    MatchingMembers(buttons, size, all, key);
    forall k | 0 <= k < |ls| ensures IsMask(ls[k], |buttons|) {
      assert ls[k] in all;
    }
  }

  /** The masks `cost` tries for `target`: `patterns[pattern]`. */
  function Tried(buttons: seq<seq<int>>, target: seq<int>): seq<Mask>
  {
    Listed(PatternsOf(buttons, |target|, Masks(|buttons|)), Parity(target))
  }

  /** The target left once the mask `m` is pressed and the rest halved. */
  function After(buttons: seq<seq<int>>, target: seq<int>, m: Mask): (r: seq<int>)
    requires |m| == |buttons|
    ensures |r| == |target|
  {
    Next(target, Apply(buttons, m, |target|))
  }

  /** `sum(mask) + 2 * cost(next_target)`, infinite (`None`) with the cost. */
  function Candidate(m: Mask, rest: Option<int>): (r: Option<int>)
    ensures r.Some? <==> rest.Some?
    ensures r.Some? ==> r.value == Sum(m) + 2 * rest.value
  {
    if rest.None? then None else Some(Sum(m) + 2 * rest.value)
  }

  /** `min(best, ...)` where `None` stands for `float("inf")`. */
  function Least(a: Option<int>, b: Option<int>): (r: Option<int>)
    ensures r.Some? <==> a.Some? || b.Some?
    ensures a.Some? ==> r.value <= a.value
    ensures b.Some? ==> r.value <= b.value
    ensures r == a || r == b
  {
    if a.None? then b else if b.None? then a else if a.value <= b.value then a else b
  }

  /**
   * `cost(target)`: the fewest presses reaching `target`, `None` for `float("inf")`.
   * Each step presses the masks whose parity matches, then halves what is left.
   */
  function Cost(buttons: seq<seq<int>>, target: seq<int>): Option<int>
    decreases Weight(target), 1
  {
    if Zero(target) then Some(0)
    else if Negative(target) then None
    else
      ListedMasks(buttons, |target|, Parity(target));
      CostOver(buttons, target, Tried(buttons, target))
  }

  /** The `best` of the loop of `cost` after the masks `ms`. */
  function CostOver(buttons: seq<seq<int>>, target: seq<int>, ms: seq<Mask>): Option<int>
    requires !Zero(target) && !Negative(target)
    requires forall k :: 0 <= k < |ms| ==> IsMask(ms[k], |buttons|)
    decreases Weight(target), 0, |ms|
  {
    if ms == [] then None
    else
      var n := |ms| - 1;
      MaskEffectNonNegative(buttons, ms[n], |target|);
      NextWeight(target, Apply(buttons, ms[n], |target|));
      Least(CostOver(buttons, target, ms[..n]), Candidate(ms[n], Cost(buttons, After(buttons, target, ms[n]))))
  }

  /** `CostOver` one mask further. */
  lemma CostOverStep(buttons: seq<seq<int>>, target: seq<int>, ms: seq<Mask>, k: int)
    requires !Zero(target) && !Negative(target) && 0 <= k < |ms|
    requires forall i :: 0 <= i < |ms| ==> IsMask(ms[i], |buttons|)
    ensures CostOver(buttons, target, ms[..k + 1]) ==
      Least(CostOver(buttons, target, ms[..k]), Candidate(ms[k], Cost(buttons, After(buttons, target, ms[k]))))
  {
    var s := ms[..k + 1];
    assert s[..k] == ms[..k] && s[k] == ms[k];
  }

  /** The loop keeps the best candidate: none is better ... */
  lemma {:induction false} CostOverLeast(buttons: seq<seq<int>>, target: seq<int>, ms: seq<Mask>, k: int)
    requires !Zero(target) && !Negative(target) && 0 <= k < |ms|
    requires forall i :: 0 <= i < |ms| ==> IsMask(ms[i], |buttons|)
    requires |ms[k]| == |buttons| && Candidate(ms[k], Cost(buttons, After(buttons, target, ms[k]))).Some?
    ensures CostOver(buttons, target, ms).Some?
    ensures CostOver(buttons, target, ms).value <= Candidate(ms[k], Cost(buttons, After(buttons, target, ms[k]))).value
  {
    var n := |ms| - 1;
    if k < n {
      var init := ms[..n];
      assert init[k] == ms[k];
      CostOverLeast(buttons, target, init, k);
    }
  }

  /** ... and it is one of them. */
  lemma {:induction false} CostOverWitness(buttons: seq<seq<int>>, target: seq<int>, ms: seq<Mask>) returns (k: int)
    requires !Zero(target) && !Negative(target)
    requires forall i :: 0 <= i < |ms| ==> IsMask(ms[i], |buttons|)
    requires CostOver(buttons, target, ms).Some?
    ensures 0 <= k < |ms| && CostOver(buttons, target, ms) == Candidate(ms[k], Cost(buttons, After(buttons, target, ms[k])))
  {
    var n := |ms| - 1;
    var init := ms[..n];
    if CostOver(buttons, target, ms) == Candidate(ms[n], Cost(buttons, After(buttons, target, ms[n]))) {
      k := n;
    } else {
      k := CostOverWitness(buttons, target, init);
      assert init[k] == ms[k];
    }
  }

  /** `x` presses each button a non-negative number of times and ends exactly on `t`. */
  predicate Reaches(buttons: seq<seq<int>>, x: seq<int>, t: seq<int>)
  {
    |x| == |buttons| && (forall i :: 0 <= i < |x| ==> x[i] >= 0) && Apply(buttons, x, |t|) == t
  }

  /** Some presses reach `t`. */
  ghost predicate Reachable(buttons: seq<seq<int>>, t: seq<int>)
  {
    exists x :: Reaches(buttons, x, t)
  }

  /** The presses `m + 2 y`. */
  function Combine(m: seq<int>, y: seq<int>): (x: seq<int>)
    requires |m| == |y|
    ensures |x| == |m|
  {
    seq(|m|, i requires 0 <= i < |m| => m[i] + 2 * y[i])
  }

  /** Pressing is linear in the presses. */
  lemma {:induction false} PressCombine(buttons: seq<seq<int>>, m: seq<int>, y: seq<int>, j: int)
    requires |m| == |y| == |buttons|
    ensures Press(buttons, Combine(m, y), j) == Press(buttons, m, j) + 2 * Press(buttons, y, j)
  {
    if m != [] {
      var n, x := |m| - 1, Combine(m, y);
      assert x[..n] == Combine(m[..n], y[..n]);
      PressCombine(buttons[..n], m[..n], y[..n], j);
      var c := Count(buttons[n], j);
      assert Press(buttons, x, j) == Press(buttons[..n], x[..n], j) + x[n] * c;
      assert Press(buttons, m, j) == Press(buttons[..n], m[..n], j) + m[n] * c;
      assert Press(buttons, y, j) == Press(buttons[..n], y[..n], j) + y[n] * c;
      Spread(m[n], y[n], c);
    }
  }

  lemma Spread(a: int, b: int, c: int)
    ensures (a + 2 * b) * c == a * c + 2 * (b * c)
  {
  }

  lemma {:induction false} SumCombine(m: seq<int>, y: seq<int>)
    requires |m| == |y|
    ensures Sum(Combine(m, y)) == Sum(m) + 2 * Sum(y)
  {
    if m != [] {
      var n := |m| - 1;
      assert Combine(m, y)[..n] == Combine(m[..n], y[..n]);
      SumCombine(m[..n], y[..n]);
    }
  }

  lemma {:induction false} PressZero(buttons: seq<seq<int>>, x: seq<int>, j: int)
    requires |x| == |buttons| && forall i :: 0 <= i < |x| ==> x[i] == 0
    ensures Press(buttons, x, j) == 0
  {
    if x != [] {
      PressZero(buttons[..|x| - 1], x[..|x| - 1], j);
    }
  }

  lemma {:induction false} SumZero(x: seq<int>)
    requires forall i :: 0 <= i < |x| ==> x[i] == 0
    ensures Sum(x) == 0
  {
    if x != [] {
      SumZero(x[..|x| - 1]);
    }
  }

  /** A target and an effect of the same parity are an even number apart. */
  lemma EvenDifference(t: int, d: int)
    requires t % 2 == d % 2
    ensures t == d + 2 * ((t - d) / 2)
  {
  }

  /** Adding twice `p` keeps the parity, and halving the difference gives `p` back. */
  lemma Doubled(d: int, p: int)
    ensures (d + 2 * p) % 2 == d % 2 && (d + 2 * p - d) / 2 == p
  {
  }

  /** Pressing nothing reaches the zero target. */
  lemma ZeroReached(buttons: seq<seq<int>>, t: seq<int>)
    requires Zero(t)
    ensures Reaches(buttons, seq(|buttons|, _ => 0), t) && Sum(seq(|buttons|, _ => 0)) == 0
  {
    var x := seq(|buttons|, _ => 0);
    forall j | 0 <= j < |t| ensures Apply(buttons, x, |t|)[j] == t[j] {
      PressZero(buttons, x, j);
    }
    SumZero(x);
  }

  /**
   * A mask of the target's parity, followed by presses `y` reaching what is left once
   * halved, reaches the target with the mask's presses plus twice those of `y`.
   */
  lemma Lift(buttons: seq<seq<int>>, t: seq<int>, m: Mask, y: seq<int>)
    requires IsMask(m, |buttons|) && Parity(Apply(buttons, m, |t|)) == Parity(t)
    requires Reaches(buttons, y, After(buttons, t, m))
    ensures Reaches(buttons, Combine(m, y), t) && Sum(Combine(m, y)) == Sum(m) + 2 * Sum(y)
  {
    var d, next, x := Apply(buttons, m, |t|), After(buttons, t, m), Combine(m, y);
    forall j | 0 <= j < |t| ensures Apply(buttons, x, |t|)[j] == t[j] {
      PressCombine(buttons, m, y, j);
      var tj, dj := t[j], d[j];
      assert Parity(d)[j] == dj % 2 && Parity(t)[j] == tj % 2;
      assert next[j] == (tj - dj) / 2;
      assert Press(buttons, y, j) == Apply(buttons, y, |next|)[j] == next[j];
      EvenDifference(tj, dj);
    }
    SumCombine(m, y);
  }

  /** Every mask `cost` tries has the target's parity. */
  lemma TriedParity(buttons: seq<seq<int>>, t: seq<int>, k: int)
    requires 0 <= k < |Tried(buttons, t)|
    ensures IsMask(Tried(buttons, t)[k], |buttons|)
    ensures Parity(Apply(buttons, Tried(buttons, t)[k], |t|)) == Parity(t)
  {
    var ms := Tried(buttons, t);
    ListedMasks(buttons, |t|, Parity(t));
    assert ms[k] in ms;
    PatternsPartition(buttons, |t|, ms[k], Parity(t));
  }

  /** Every cost found is the number of presses of a way to reach the target. */
  lemma {:induction false} CostSound(buttons: seq<seq<int>>, t: seq<int>)
    requires Cost(buttons, t).Some?
    ensures exists x :: Reaches(buttons, x, t) && Sum(x) == Cost(buttons, t).value
    decreases Weight(t)
  {
    if Zero(t) {
      ZeroReached(buttons, t);
    } else {
      var ms := Tried(buttons, t);
      ListedMasks(buttons, |t|, Parity(t));
      var k := CostOverWitness(buttons, t, ms);
      var m := ms[k];
      var next := After(buttons, t, m);
      MaskEffectNonNegative(buttons, m, |t|);
      NextWeight(t, Apply(buttons, m, |t|));
      CostSound(buttons, next);
      var y :| Reaches(buttons, y, next) && Sum(y) == Cost(buttons, next).value;
      TriedParity(buttons, t, k);
      Lift(buttons, t, m, y);
    }
  }

  /** No way of reaching the target presses fewer buttons than the cost found. */
  lemma {:induction false} CostOptimal(buttons: seq<seq<int>>, t: seq<int>, x: seq<int>)
    requires Reaches(buttons, x, t)
    ensures Cost(buttons, t).Some? && Cost(buttons, t).value <= Sum(x)
    decreases Weight(t)
  {
    assert !Negative(t) by {
      forall j | 0 <= j < |t| ensures t[j] >= 0 {
        PressNonNegative(buttons, x, j);
      }
    }
    if Zero(t) {
      SumNonNegative(x);
    } else {
      var m := seq(|x|, i requires 0 <= i < |x| => x[i] % 2);
      var y := seq(|x|, i requires 0 <= i < |x| => x[i] / 2);
      assert Combine(m, y) == x;
      var d := Apply(buttons, m, |t|);
      var next := After(buttons, t, m);
      assert IsMask(m, |buttons|);
      forall j | 0 <= j < |t| ensures t[j] == d[j] + 2 * Press(buttons, y, j) {
        PressCombine(buttons, m, y, j);
      }
      forall j | 0 <= j < |t| ensures Parity(d)[j] == Parity(t)[j] && next[j] == Apply(buttons, y, |t|)[j] {
        var dj, pj := d[j], Press(buttons, y, j);
        Doubled(dj, pj);
        assert next[j] == (t[j] - dj) / 2;
      }
      assert Parity(d) == Parity(t);
      assert next == Apply(buttons, y, |t|);
      assert Reaches(buttons, y, next);
      MaskEffectNonNegative(buttons, m, |t|);
      NextWeight(t, d);
      CostOptimal(buttons, next, y);
      PatternsPartition(buttons, |t|, m, Parity(t));
      var ms := Tried(buttons, t);
      ListedMasks(buttons, |t|, Parity(t));
      var k :| 0 <= k < |ms| && ms[k] == m;
      CostOverLeast(buttons, t, ms, k);
      SumCombine(m, y);
    }
  }

  /**
   * The halving recursion is exact: `cost` is the least number of presses over every
   * way of reaching the target, and infinite exactly when there is none.
   */
  lemma CostIsLeast(buttons: seq<seq<int>>, t: seq<int>)
    ensures Cost(buttons, t).None? <==> forall x :: !Reaches(buttons, x, t)
    ensures Cost(buttons, t).Some? ==>
      (exists x :: Reaches(buttons, x, t) && Sum(x) == Cost(buttons, t).value) &&
      forall x :: Reaches(buttons, x, t) ==> Cost(buttons, t).value <= Sum(x)
  {
    forall x | Reaches(buttons, x, t) ensures Cost(buttons, t).Some? && Cost(buttons, t).value <= Sum(x) {
      CostOptimal(buttons, t, x);
    }
    if Cost(buttons, t).Some? {
      CostSound(buttons, t);
    }
  }

  /** A mask `cost` tries has its effect in `effects`, and what it leaves is lighter. */
  lemma TriedEffect(buttons: seq<seq<int>>, target: seq<int>, k: int)
    requires !Zero(target) && !Negative(target) && 0 <= k < |Tried(buttons, target)|
    ensures |Tried(buttons, target)[k]| == |buttons|
    ensures Tried(buttons, target)[k] in EffectsOf(buttons, |target|, Masks(|buttons|))
    ensures EffectsOf(buttons, |target|, Masks(|buttons|))[Tried(buttons, target)[k]] == Apply(buttons, Tried(buttons, target)[k], |target|)
    ensures Weight(After(buttons, target, Tried(buttons, target)[k])) < Weight(target)
  {
    var m := Tried(buttons, target)[k];
    ListedMasks(buttons, |target|, Parity(target));
    MasksComplete(|buttons|, m);
    EffectsOfMembers(buttons, |target|, Masks(|buttons|));
    MaskEffectNonNegative(buttons, m, |target|);
    NextWeight(target, Apply(buttons, m, |target|));
  }

  /** The memoised `cost`, closed over `effects` and `patterns`. */
  method CostOf(buttons: seq<seq<int>>, effects: map<Mask, seq<int>>, patterns: map<seq<int>, seq<Mask>>, target: seq<int>)
    returns (c: Option<int>)
    requires effects == EffectsOf(buttons, |target|, Masks(|buttons|))
    requires patterns == PatternsOf(buttons, |target|, Masks(|buttons|))
    ensures c == Cost(buttons, target)
    decreases Weight(target), 1
  {
    if Zero(target) {
      return Some(0);
    }
    if Negative(target) {
      return None;
    }
    var ms := Listed(patterns, Parity(target));
    ListedMasks(buttons, |target|, Parity(target));
    var best := None;
    for k := 0 to |ms|
      invariant best == CostOver(buttons, target, ms[..k])
    {
      var candidate := TryMask(buttons, effects, patterns, target, k);
      CostOverStep(buttons, target, ms, k);
      best := Least(best, candidate);
    }
    assert ms[..|ms|] == ms;
    c := best;
  }

  /** One pass of the loop of `cost`: `presses + cost(next_target)` for the `k`-th mask tried. */
  method TryMask(buttons: seq<seq<int>>, effects: map<Mask, seq<int>>, patterns: map<seq<int>, seq<Mask>>, target: seq<int>, k: int)
    returns (candidate: Option<int>)
    requires effects == EffectsOf(buttons, |target|, Masks(|buttons|))
    requires patterns == PatternsOf(buttons, |target|, Masks(|buttons|))
    requires !Zero(target) && !Negative(target) && 0 <= k < |Tried(buttons, target)|
    ensures |Tried(buttons, target)[k]| == |buttons|
    ensures candidate == Candidate(Tried(buttons, target)[k], Cost(buttons, After(buttons, target, Tried(buttons, target)[k])))
    decreases Weight(target), 0
  {
    var mask := Listed(patterns, Parity(target))[k];
    TriedEffect(buttons, target, k);
    var delta := effects[mask];
    var rest := CostOf(buttons, effects, patterns, Next(target, delta));
    candidate := Candidate(mask, rest);
  }

  /** Every counter a button lists exists among the joltage counters. */
  predicate WiredForJoltage(ms: seq<Machine>)
  {
    forall k :: 0 <= k < |ms| ==> Wired(ms[k].buttons, |ms[k].joltage|)
  }

  /** `solve_part2`: the total cost, `None` (`float("inf")`) when a machine cannot be set. */
  function Part2(ms: seq<Machine>): Option<int>
  {
    if ms == [] then Some(0)
    else Plus(Part2(ms[..|ms| - 1]), Cost(ms[|ms| - 1].buttons, ms[|ms| - 1].joltage))
  }

  /** Each machine adds the fewest presses reaching its joltage; one it cannot reach makes the total infinite. */
  lemma {:induction false} Part2IsLeast(ms: seq<Machine>)
    ensures Part2(ms).Some? <==> forall k :: 0 <= k < |ms| ==> Reachable(ms[k].buttons, ms[k].joltage)
  {
    if ms != [] {
      var n := |ms| - 1;
      var init := ms[..n];
      Part2IsLeast(init);
      CostIsLeast(ms[n].buttons, ms[n].joltage);
      assert forall k :: 0 <= k < n ==> init[k] == ms[k];
      if forall k :: 0 <= k < |ms| ==> Reachable(ms[k].buttons, ms[k].joltage) {
        assert forall k :: 0 <= k < |init| ==> Reachable(init[k].buttons, init[k].joltage);
      }
    }
  }

  /** One machine of `solve_part2`. */
  method CostOfMachine(m: Machine) returns (c: Option<int>)
    requires Wired(m.buttons, |m.joltage|)
    ensures c == Cost(m.buttons, m.joltage)
  {
    var effects, patterns := BuildPatterns(m.buttons, |m.joltage|);
    c := CostOf(m.buttons, effects, patterns, m.joltage);
  }

  /** The loop of `solve_part2`. */
  method TotalCost(machines: seq<Machine>) returns (total: Option<int>)
    requires WiredForJoltage(machines)
    ensures total == Part2(machines)
  {
    total := Some(0);
    for k := 0 to |machines|
      invariant total == Part2(machines[..k])
    {
      var s := machines[..k + 1];
      assert s[..k] == machines[..k] && s[k] == machines[k];
      var c := CostOfMachine(machines[k]);
      total := Plus(total, c);
    }
    assert machines[..|machines|] == machines;
  }

  method SolvePart2(raw: string) returns (total: Option<int>)
    requires Machines(raw).Some? && WiredForJoltage(Machines(raw).value)
    ensures total == Part2(Machines(raw).value)
  {
    total := TotalCost(Machines(raw).value);
  }
}
