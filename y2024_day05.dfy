/**
 * 2024 day 5 (aoc/year2024/day05.py): page-ordering rules `a|b` ("a before b") and
 * updates (lists of pages). Part 1 adds the middle page of every update that breaks no
 * rule; part 2 repairs every other update by repeated swaps and adds its middle page.
 */
module Year2024Day05 {
  import opened Common
  import opened Text

  type Rule = (int, int)

  // ------------------------------------------------------------------ parsing

  /** `a|b` as a rule; `None` unless it is exactly two integers around one '|'. */
  function ParseRule(line: string): (r: Option<Rule>)
    ensures r.Some? <==> var parts := Split(line, "|");
      |parts| == 2 && ParseInt(parts[0]).Some? && ParseInt(parts[1]).Some?
    ensures r.Some? ==> var parts := Split(line, "|");
      r.value == (ParseInt(parts[0]).value, ParseInt(parts[1]).value)
  {
    var parts := Split(line, "|");
    if |parts| != 2 then None
    else match (ParseInt(parts[0]), ParseInt(parts[1]))
      case (Some(a), Some(b)) => Some((a, b))
      case _ => None
  }

  /** One rule per line, in order; `None` exactly when some line is not a rule. */
  function ParseRules(lines: seq<string>): (r: Option<seq<Rule>>)
    ensures r.Some? <==> forall k :: 0 <= k < |lines| ==> ParseRule(lines[k]).Some?
    ensures r.Some? ==> |r.value| == |lines|
    ensures r.Some? ==> forall k :: 0 <= k < |lines| ==> ParseRule(lines[k]) == Some(r.value[k])
  {
    if lines == [] then Some([])
    else match (ParseRule(lines[0]), ParseRules(lines[1..]))
      case (Some(rule), Some(rest)) => Some([rule] + rest)
      case _ => None
  }

  /** The integers of the comma-separated fields; `None` when one is not an integer. */
  function ParseFields(fields: seq<string>): (r: Option<seq<int>>)
    ensures r.Some? <==> forall k :: 0 <= k < |fields| ==> ParseInt(fields[k]).Some?
    ensures r.Some? ==> |r.value| == |fields|
    ensures r.Some? ==> forall k :: 0 <= k < |fields| ==> ParseInt(fields[k]) == Some(r.value[k])
  {
    if fields == [] then Some([])
    else match (ParseInt(fields[0]), ParseFields(fields[1..]))
      case (Some(v), Some(rest)) => Some([v] + rest)
      case _ => None
  }

  /**
   * One update per line, in order; `None` exactly when some line has a field that is not
   * an integer. Every update has at least one page, since a split has one part.
   */
  function ParseUpdates(lines: seq<string>): (r: Option<seq<seq<int>>>)
    ensures r.Some? <==> forall k :: 0 <= k < |lines| ==> ParseFields(Split(lines[k], ",")).Some?
    ensures r.Some? ==> |r.value| == |lines|
    ensures r.Some? ==> forall k :: 0 <= k < |lines| ==> ParseFields(Split(lines[k], ",")) == Some(r.value[k])
    ensures r.Some? ==> forall k :: 0 <= k < |r.value| ==> |r.value[k]| >= 1
  {
    if lines == [] then Some([])
    else match (ParseFields(Split(lines[0], ",")), ParseUpdates(lines[1..]))
      case (Some(u), Some(rest)) => Some([u] + rest)
      case _ => None
  }

  /**
   * `parse`: the stripped text must be exactly two blocks separated by one blank line,
   * the first all rules and the second all updates; the result is the two parses.
   */
  function Parse(raw: string): (r: Option<(seq<Rule>, seq<seq<int>>)>)
    ensures r.Some? <==> var blocks := Split(Trim(raw), "\n\n");
      |blocks| == 2 && ParseRules(Lines(blocks[0])).Some? && ParseUpdates(Lines(blocks[1])).Some?
    ensures r.Some? ==> var blocks := Split(Trim(raw), "\n\n");
      r.value == (ParseRules(Lines(blocks[0])).value, ParseUpdates(Lines(blocks[1])).value)
    ensures r.Some? ==> forall k :: 0 <= k < |r.value.1| ==> |r.value.1[k]| >= 1
  {
    var blocks := Split(Trim(raw), "\n\n");
    if |blocks| != 2 then None
    else match (ParseRules(Lines(blocks[0])), ParseUpdates(Lines(blocks[1])))
      case (Some(rules), Some(updates)) => Some((rules, updates))
      case _ => None
  }

  // ---------------------------------------------------------------- validity

  /**
   * `pos[value]` for `pos = {value: idx for idx, value in enumerate(update)}`: a later
   * occurrence overwrites an earlier one, so this is the last index holding `v`.
   */
  function Pos(u: seq<int>, v: int): (i: nat)
    requires v in u
    ensures i < |u| && u[i] == v
    ensures forall k :: i < k < |u| ==> u[k] != v
  {
    if u[|u| - 1] == v then |u| - 1
    else
      assert v in u[..|u| - 1] by {
        var k :| 0 <= k < |u| && u[k] == v;
        assert u[..|u| - 1][k] == v;
      }
      Pos(u[..|u| - 1], v)
  }

  /** The rule applies to the update and is broken by it. */
  predicate Violates(u: seq<int>, rule: Rule)
  {
    rule.0 in u && rule.1 in u && Pos(u, rule.0) > Pos(u, rule.1)
  }

  /** `is_valid_update`: the scan over the rules that returns False at the first violation. */
  function IsValidUpdate(u: seq<int>, rules: seq<Rule>): bool
  {
    if rules == [] then true
    else if Violates(u, rules[0]) then false
    else IsValidUpdate(u, rules[1..])
  }

  /** An update is valid exactly when it violates none of the rules. */
  lemma {:induction false} IsValidUpdateMeans(u: seq<int>, rules: seq<Rule>)
    ensures IsValidUpdate(u, rules) <==> forall k :: 0 <= k < |rules| ==> !Violates(u, rules[k])
  {
    if rules != [] {
      IsValidUpdateMeans(u, rules[1..]);
      assert forall k :: 1 <= k < |rules| ==> rules[k] == rules[1..][k - 1];
    }
  }

  /** `score`: the middle page (the upper middle for an even length). */
  function Score(u: seq<int>): int
    requires |u| >= 1
  {
    u[|u| / 2]
  }

  // ------------------------------------------------------------------ repair

  /** The positions to swap for the first violated rule, if any. */
  function FirstViolation(u: seq<int>, rules: seq<Rule>): (r: Option<(nat, nat)>)
    ensures r.None? <==> IsValidUpdate(u, rules)
    ensures r.Some? ==> r.value.0 < |u| && r.value.1 < |u|
  {
    if rules == [] then None
    else if Violates(u, rules[0]) then Some((Pos(u, rules[0].0), Pos(u, rules[0].1)))
    else FirstViolation(u, rules[1..])
  }

  /** `new_update[i], new_update[j] = new_update[j], new_update[i]` on a copy. */
  function Swap(u: seq<int>, i: nat, j: nat): (r: seq<int>)
    requires i < |u| && j < |u|
    ensures |r| == |u| && multiset(r) == multiset(u)
    ensures r[i] == u[j] && r[j] == u[i]
    ensures forall k :: 0 <= k < |u| && k != i && k != j ==> r[k] == u[k]
  {
    var r := u[i := u[j]][j := u[i]];
    assert r == u[i := u[j]][j := u[i]];
    r
  }

  /**
   * `fix_update`: swap the pages of the first violated rule and start again. The source
   * recursion need not end (cyclic rules swap forever); `fuel` bounds the number of swaps
   * and `None` stands for running out of it.
   */
  function FixUpdate(u: seq<int>, rules: seq<Rule>, fuel: nat): (r: Option<seq<int>>)
    ensures r.Some? ==> multiset(r.value) == multiset(u) && |r.value| == |u|
    ensures r.Some? ==> IsValidUpdate(r.value, rules)
    ensures IsValidUpdate(u, rules) ==> r == Some(u)
    decreases fuel
  {
    match FirstViolation(u, rules)
      case None => Some(u)
      case Some((i, j)) =>
        if fuel == 0 then None else FixUpdate(Swap(u, i, j), rules, fuel - 1)
  }

  // --------------------------------------------------------------- solutions

  /** `solve_part1` on parsed data: the middle pages of the valid updates. */
  function Part1(rules: seq<Rule>, updates: seq<seq<int>>): int
    requires forall k :: 0 <= k < |updates| ==> |updates[k]| >= 1
  {
    if updates == [] then 0
    else
      (if IsValidUpdate(updates[0], rules) then Score(updates[0]) else 0)
      + Part1(rules, updates[1..])
  }

  /** `solve_part2` on parsed data: the middle pages of the repaired invalid updates. */
  function Part2(rules: seq<Rule>, updates: seq<seq<int>>, fuel: nat): int
    requires forall k :: 0 <= k < |updates| ==> |updates[k]| >= 1
  {
    if updates == [] then 0
    else
      var u := updates[0];
      var fixed := FixUpdate(u, rules, fuel);
      (if !IsValidUpdate(u, rules) && fixed.Some? then Score(fixed.value) else 0)
      + Part2(rules, updates[1..], fuel)
  }

  /** The middle page of an update once repaired (valid updates need no repair). */
  function RepairedScore(u: seq<int>, rules: seq<Rule>, fuel: nat): int
    requires |u| >= 1
  {
    match FixUpdate(u, rules, fuel)
      case Some(f) => Score(f)
      case None => 0
  }

  function SumRepaired(rules: seq<Rule>, updates: seq<seq<int>>, fuel: nat): int
    requires forall k :: 0 <= k < |updates| ==> |updates[k]| >= 1
  {
    if updates == [] then 0
    else RepairedScore(updates[0], rules, fuel) + SumRepaired(rules, updates[1..], fuel)
  }

  /**
   * Each update is scored by exactly one of the two parts: part 1 takes the valid ones,
   * part 2 the others, and together they score every update in its repaired order.
   */
  lemma {:induction false} PartsSplitUpdates(rules: seq<Rule>, updates: seq<seq<int>>, fuel: nat)
    requires forall k :: 0 <= k < |updates| ==> |updates[k]| >= 1
    ensures Part1(rules, updates) + Part2(rules, updates, fuel) == SumRepaired(rules, updates, fuel)
  {
    if updates != [] {
      PartsSplitUpdates(rules, updates[1..], fuel);
    }
  }

  function SolvePart1(raw: string): Option<int>
  {
    match Parse(raw)
      case None => None
      case Some((rules, updates)) => Some(Part1(rules, updates))
  }

  function SolvePart2(raw: string, fuel: nat): Option<int>
  {
    match Parse(raw)
      case None => None
      case Some((rules, updates)) => Some(Part2(rules, updates, fuel))
  }
}
