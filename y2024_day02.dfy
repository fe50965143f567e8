/**
 * 2024 day 2 (aoc/year2024/day02.py): a report is safe when it moves strictly one way in
 * steps of 1 to 3; the dampener also accepts a report that becomes safe after dropping
 * one level.
 */
module Year2024Day02 {
  import opened Common
  import opened Text

  // ------------------------------------------------------------------ parsing

  /** The integers of one line; `None` when a word is not an integer (Python raises). */
  function ParseWords(ws: seq<string>): (r: Option<seq<int>>)
    ensures r.Some? <==> forall k :: 0 <= k < |ws| ==> ParseInt(ws[k]).Some?
    ensures r.Some? ==> |r.value| == |ws| && forall k :: 0 <= k < |ws| ==> ParseInt(ws[k]) == Some(r.value[k])
  {
    if ws == [] then Some([])
    else
      var rest := ParseWords(ws[1..]);
      var head := ParseInt(ws[0]);
      if head.None? || rest.None? then None
      else
        assert forall k :: 1 <= k < |ws| ==> ws[k] == ws[1..][k - 1];
        Some([head.value] + rest.value)
  }

  /** One report: the integers of the line's white-space separated words. */
  function ParseReport(line: string): Option<seq<int>>
  {
    ParseWords(Words(line))
  }

  /** The parse of every line. */
  function ParsedReports(ls: seq<string>): (ps: seq<Option<seq<int>>>)
    ensures |ps| == |ls| && forall k :: 0 <= k < |ls| ==> ps[k] == ParseReport(ls[k])
  {
    seq(|ls|, k requires 0 <= k < |ls| => ParseReport(ls[k]))
  }

  /**
   * The reports of the non-blank lines, in order: the k-th report is the parse of the
   * k-th non-blank line, and the parse fails exactly when one of those lines does.
   */
  function ParseReports(lines: seq<string>): (r: Option<seq<seq<int>>>)
    ensures r.Some? <==> forall k :: 0 <= k < |NonBlank(lines)| ==> ParseReport(NonBlank(lines)[k]).Some?
    ensures r.Some? ==> |r.value| == |NonBlank(lines)|
    ensures r.Some? ==> forall k :: 0 <= k < |r.value| ==> ParseReport(NonBlank(lines)[k]) == Some(r.value[k])
  {
    AllReportsParse(NonBlank(lines));
    AllSome(ParsedReports(NonBlank(lines)))
  }

  /** The lines' reports all parse exactly when every line does. */
  lemma AllReportsParse(ls: seq<string>)
    ensures AllSome(ParsedReports(ls)).Some? <==> forall k :: 0 <= k < |ls| ==> ParseReport(ls[k]).Some?
  {
    var ps := ParsedReports(ls);
    if forall k :: 0 <= k < |ls| ==> ParseReport(ls[k]).Some? {
      assert forall k :: 0 <= k < |ps| ==> ps[k].Some?;
    } else {
      var k :| 0 <= k < |ls| && ParseReport(ls[k]).None?;
      AllSomeMissing(ps, k);
    }
  }

  function Parse(raw: string): Option<seq<seq<int>>>
  {
    ParseReports(Lines(raw))
  }

  // ------------------------------------------------------------------ reports

  /** Every step r[i+1] - r[i] lies in [lo, hi]. */
  predicate StepsWithin(r: seq<int>, lo: int, hi: int)
  {
    forall i :: 0 <= i < |r| - 1 ==> lo <= r[i + 1] - r[i] <= hi
  }

  /**
   * `is_valid_report`: at least two levels, and every difference between neighbours
   * (the `diffs` list) lies in [1, 3], or every one lies in [-3, -1].
   */
  predicate IsValidReport(r: seq<int>)
  {
    |r| >= 2 && (StepsWithin(r, 1, 3) || StepsWithin(r, -3, -1))
  }

  /** `[b - a for a, b in zip(report, report[1:])]`. */
  function Diffs(r: seq<int>): (d: seq<int>)
    ensures |r| >= 1 ==> |d| == |r| - 1
  {
    if |r| < 2 then [] else seq(|r| - 1, i requires 0 <= i < |r| - 1 => r[i + 1] - r[i])
  }

  /** Every step lies in [lo, hi] exactly when every entry of `diffs` does. */
  lemma StepsAsDiffs(r: seq<int>, lo: int, hi: int)
    requires |r| >= 2
    ensures StepsWithin(r, lo, hi) <==> forall d :: d in Diffs(r) ==> lo <= d <= hi
  {
    var ds := Diffs(r);
    if StepsWithin(r, lo, hi) {
      forall d | d in ds ensures lo <= d <= hi {
        var i :| 0 <= i < |ds| && ds[i] == d;
      }
    }
    if forall d :: d in ds ==> lo <= d <= hi {
      forall i | 0 <= i < |r| - 1 ensures lo <= r[i + 1] - r[i] <= hi {
        assert ds[i] in ds;
      }
    }
  }

  /**
   * A report is safe exactly when it has two levels or more and the `diffs` list is all
   * in [1, 3] or all in [-3, -1]; a report shorter than two is never safe.
   */
  lemma ValidReportByDiffs(r: seq<int>)
    ensures |r| < 2 ==> !IsValidReport(r)
    ensures IsValidReport(r) <==> (|r| >= 2 &&
      ((forall d :: d in Diffs(r) ==> 1 <= d <= 3) || (forall d :: d in Diffs(r) ==> -3 <= d <= -1)))
  {
    if |r| >= 2 {
      StepsAsDiffs(r, 1, 3);
      StepsAsDiffs(r, -3, -1);
    }
  }

  function Reverse(r: seq<int>): (rev: seq<int>)
    ensures |rev| == |r| && forall i :: 0 <= i < |r| ==> rev[i] == r[|r| - 1 - i]
  {
    if r == [] then [] else Reverse(r[1..]) + [r[0]]
  }

  lemma StepsOfReverse(r: seq<int>, lo: int, hi: int)
    requires StepsWithin(r, lo, hi)
    ensures StepsWithin(Reverse(r), -hi, -lo)
  {
    var rev := Reverse(r);
    forall i | 0 <= i < |rev| - 1 ensures -hi <= rev[i + 1] - rev[i] <= -lo {
      var j := |r| - 2 - i;
      assert rev[i] == r[j + 1] && rev[i + 1] == r[j];
    }
  }

  lemma ReverseReverse(r: seq<int>)
    ensures Reverse(Reverse(r)) == r
  {
  }

  /** A report read backwards is exactly as safe: increasing becomes decreasing. */
  lemma ValidReportReversed(r: seq<int>)
    ensures IsValidReport(Reverse(r)) == IsValidReport(r)
  {
    if StepsWithin(r, 1, 3) { StepsOfReverse(r, 1, 3); }
    if StepsWithin(r, -3, -1) { StepsOfReverse(r, -3, -1); }
    var rev := Reverse(r);
    ReverseReverse(r);
    if StepsWithin(rev, 1, 3) { StepsOfReverse(rev, 1, 3); }
    if StepsWithin(rev, -3, -1) { StepsOfReverse(rev, -3, -1); }
  }

  // ---------------------------------------------------------------- dampener

  /** `report[:i] + report[i + 1:]`. */
  function Remove(r: seq<int>, i: nat): seq<int>
    requires i < |r|
  {
    r[..i] + r[i + 1..]
  }

  /** The loop over `range(len(report))`, from index `from` on. */
  function SomeRemovalValid(r: seq<int>, from: nat): bool
    requires from <= |r|
    decreases |r| - from
  {
    if from == |r| then false
    else IsValidReport(Remove(r, from)) || SomeRemovalValid(r, from + 1)
  }

  /** `is_valid_with_dampener`: safe, or safe after removing some single level. */
  function IsValidWithDampener(r: seq<int>): bool
  {
    IsValidReport(r) || SomeRemovalValid(r, 0)
  }

  /** The removal loop succeeds exactly when some removal from index `from` on is safe. */
  lemma {:induction false} SomeRemovalValidMeans(r: seq<int>, from: nat)
    requires from <= |r|
    ensures SomeRemovalValid(r, from) <==> exists i :: from <= i < |r| && IsValidReport(Remove(r, i))
    decreases |r| - from
  {
    if from < |r| {
      SomeRemovalValidMeans(r, from + 1);
      if !IsValidReport(Remove(r, from)) {
        forall i | from <= i < |r| && IsValidReport(Remove(r, i)) ensures from + 1 <= i {
        }
      }
    }
  }

  /** The dampener accepts iff the report is safe or safe after removing one level. */
  lemma DampenerMeans(r: seq<int>)
    ensures IsValidWithDampener(r) <==>
              IsValidReport(r) || exists i :: 0 <= i < |r| && IsValidReport(Remove(r, i))
  {
    SomeRemovalValidMeans(r, 0);
  }


  /** Dropping the first level of a safe report of three or more levels keeps it safe. */
  lemma ValidDropFirst(r: seq<int>)
    requires IsValidReport(r) && |r| >= 3
    ensures IsValidReport(Remove(r, 0))
  {
    var s := Remove(r, 0);
    assert s == r[1..];
    if StepsWithin(r, 1, 3) {
      assert StepsWithin(s, 1, 3) by {
        forall i | 0 <= i < |s| - 1 ensures 1 <= s[i + 1] - s[i] <= 3 {
          assert s[i + 1] - s[i] == r[i + 2] - r[i + 1];
        }
      }
    } else {
      assert StepsWithin(s, -3, -1) by {
        forall i | 0 <= i < |s| - 1 ensures -3 <= s[i + 1] - s[i] <= -1 {
          assert s[i + 1] - s[i] == r[i + 2] - r[i + 1];
        }
      }
    }
  }

  // --------------------------------------------------------------- solutions

  /** The number of reports satisfying `ok`. */
  function CountWhere(reports: seq<seq<int>>, ok: seq<int> -> bool): (n: nat)
    ensures n <= |reports|
  {
    if reports == [] then 0
    else CountWhere(reports[..|reports| - 1], ok) + (if ok(reports[|reports| - 1]) then 1 else 0)
  }

  function Part1(reports: seq<seq<int>>): nat { CountWhere(reports, IsValidReport) }

  function Part2(reports: seq<seq<int>>): nat { CountWhere(reports, IsValidWithDampener) }

  /** The dampener only adds safe reports: part 1 <= part 2 <= number of reports. */
  lemma {:induction false} Part1AtMostPart2(reports: seq<seq<int>>)
    ensures Part1(reports) <= Part2(reports) <= |reports|
  {
    if reports != [] {
      Part1AtMostPart2(reports[..|reports| - 1]);
    }
  }

  function SolvePart1(raw: string): Option<nat>
  {
    match Parse(raw)
      case None => None
      case Some(reports) => Some(Part1(reports))
  }

  function SolvePart2(raw: string): Option<nat>
  {
    match Parse(raw)
      case None => None
      case Some(reports) => Some(Part2(reports))
  }

  // ----------------------------------------------------------------- example

  /** A step outside both [1, 3] and [-3, -1] makes a report unsafe. */
  lemma BadStep(r: seq<int>, i: int)
    requires 0 <= i < |r| - 1
    requires !(1 <= r[i + 1] - r[i] <= 3) && !(-3 <= r[i + 1] - r[i] <= -1)
    ensures !IsValidReport(r)
  {
  }

  /** A report with steps in both directions is unsafe. */
  lemma MixedSteps(r: seq<int>, i: int, j: int)
    requires 0 <= i < |r| - 1 && 0 <= j < |r| - 1
    requires r[i + 1] > r[i] && r[j + 1] < r[j]
    ensures !IsValidReport(r)
  {
  }

  /** A bad step between levels a and b, adjacent once level i is removed, survives the removal. */
  lemma RemovedBadStep(r: seq<int>, i: nat, a: nat, b: nat)
    requires i < |r| && a < b < |r| && a != i && b != i
    requires b == a + 1 || (b == a + 2 && i == a + 1)
    requires !(1 <= r[b] - r[a] <= 3) && !(-3 <= r[b] - r[a] <= -1)
    ensures !IsValidReport(Remove(r, i))
  {
    var s := Remove(r, i);
    var j := if a < i then a else a - 1;
    assert s[j] == r[a] && s[j + 1] == r[b];
    BadStep(s, j);
  }

  lemma FirstLineUnsafe(r: seq<int>)
    requires r == [1, 2, 7, 8, 9]
    ensures !IsValidWithDampener(r)
  {
    assert !IsValidReport(r) by { BadStep(r, 1); }
    assert forall i :: 0 <= i < |r| ==> !IsValidReport(Remove(r, i)) by {
      RemovedBadStep(r, 0, 1, 2);
      RemovedBadStep(r, 1, 0, 2);
      RemovedBadStep(r, 2, 1, 3);
      RemovedBadStep(r, 3, 1, 2);
      RemovedBadStep(r, 4, 1, 2);
    }
    DampenerMeans(r);
  }

  lemma SecondLineUnsafe(r: seq<int>)
    requires r == [9, 7, 6, 2, 1]
    ensures !IsValidWithDampener(r)
  {
    assert !IsValidReport(r) by { BadStep(r, 2); }
    assert forall i :: 0 <= i < |r| ==> !IsValidReport(Remove(r, i)) by {
      RemovedBadStep(r, 0, 2, 3);
      RemovedBadStep(r, 1, 2, 3);
      RemovedBadStep(r, 2, 1, 3);
      RemovedBadStep(r, 3, 2, 4);
      RemovedBadStep(r, 4, 2, 3);
    }
    DampenerMeans(r);
  }

  const ExampleReports: seq<seq<int>> :=
    [[7, 6, 4, 2, 1], [1, 2, 7, 8, 9], [9, 7, 6, 2, 1], [1, 3, 2, 4, 5], [8, 6, 4, 4, 1], [1, 3, 6, 7, 9]]

  lemma ExampleReport(k: int, r: seq<int>)
    requires 0 <= k < 6 && r == ExampleReports[k]
    ensures IsValidReport(r) <==> k == 0 || k == 5
    ensures IsValidWithDampener(r) <==> k != 1 && k != 2
  {
    if k == 0 {
      assert StepsWithin(r, -3, -1);
    } else if k == 1 {
      BadStep(r, 1);
      FirstLineUnsafe(r);
    } else if k == 2 {
      BadStep(r, 2);
      SecondLineUnsafe(r);
    } else if k == 3 {
      MixedSteps(r, 0, 1);
      var s := Remove(r, 1);
      assert s == [1, 2, 4, 5];
      assert StepsWithin(s, 1, 3);
    } else if k == 4 {
      BadStep(r, 2);
      var s := Remove(r, 2);
      assert s == [8, 6, 4, 1];
      assert StepsWithin(s, -3, -1);
    } else {
      assert StepsWithin(r, 1, 3);
    }
  }

  lemma CountWhereStep(reports: seq<seq<int>>, ok: seq<int> -> bool, k: int)
    requires 0 <= k < |reports|
    ensures CountWhere(reports[..k + 1], ok) == CountWhere(reports[..k], ok) + (if ok(reports[k]) then 1 else 0)
  {
    assert reports[..k + 1][..k] == reports[..k];
  }

  /** One more report adds one to the count exactly when it passes. */
  lemma CountAt(reports: seq<seq<int>>, ok: seq<int> -> bool, k: int, before: nat, hit: bool, after: nat)
    requires 0 <= k < |reports| && CountWhere(reports[..k], ok) == before
    requires ok(reports[k]) == hit && after == before + (if hit then 1 else 0)
    ensures CountWhere(reports[..k + 1], ok) == after
  {
    CountWhereStep(reports, ok, k);
  }

  /** The first two example reports: one is safe, with or without the dampener. */
  lemma ExampleFirstTwo(reports: seq<seq<int>>)
    requires reports == ExampleReports
    ensures Part1(reports[..2]) == 1 && Part2(reports[..2]) == 1
  {
    assert reports[..0] == [];
    ExampleReport(0, reports[0]);
    CountAt(reports, IsValidReport, 0, 0, true, 1);
    CountAt(reports, IsValidWithDampener, 0, 0, true, 1);
    ExampleReport(1, reports[1]);
    CountAt(reports, IsValidReport, 1, 1, false, 1);
    CountAt(reports, IsValidWithDampener, 1, 1, false, 1);
  }

  /** The first four example reports: one is safe, two with the dampener. */
  lemma ExampleFirstFour(reports: seq<seq<int>>)
    requires reports == ExampleReports
    ensures Part1(reports[..4]) == 1 && Part2(reports[..4]) == 2
  {
    ExampleFirstTwo(reports);
    ExampleReport(2, reports[2]);
    CountAt(reports, IsValidReport, 2, 1, false, 1);
    CountAt(reports, IsValidWithDampener, 2, 1, false, 1);
    ExampleReport(3, reports[3]);
    CountAt(reports, IsValidReport, 3, 1, false, 1);
    CountAt(reports, IsValidWithDampener, 3, 1, true, 2);
  }

  /** The puzzle's six example reports: 2 are safe, 4 with the dampener. */
  lemma Example(reports: seq<seq<int>>)
    requires reports == ExampleReports
    ensures Part1(reports) == 2 && Part2(reports) == 4
  {
    ExampleFirstFour(reports);
    ExampleReport(4, reports[4]);
    CountAt(reports, IsValidReport, 4, 1, false, 1);
    CountAt(reports, IsValidWithDampener, 4, 2, true, 3);
    ExampleReport(5, reports[5]);
    CountAt(reports, IsValidReport, 5, 1, true, 2);
    CountAt(reports, IsValidWithDampener, 5, 3, true, 4);
    assert reports[..6] == reports;
  }
}
