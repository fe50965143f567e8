/**
 * Text handling the puzzle parsers rely on: line splitting, separator splitting,
 * whitespace splitting and trimming, decimal conversion in both directions.
 * Each function follows the Python string operation named in its comment,
 * restricted to ASCII text.
 */
module Text {
  import opened Common

  /** Python's `str.isspace` on ASCII characters. */
  predicate IsSpace(c: char)
  {
    c == ' ' || (9 <= c as int <= 13) || (28 <= c as int <= 31)
  }

  predicate IsDigit(c: char) { '0' <= c <= '9' }

  function DigitValue(c: char): (d: nat)
    requires IsDigit(c)
    ensures d < 10
  {
    (c as int) - ('0' as int)
  }

  function DigitChar(d: nat): (c: char)
    requires d < 10
    ensures IsDigit(c) && DigitValue(c) == d
  {
    (('0' as int) + d) as char
  }

  predicate AllDigits(s: string) { forall i :: 0 <= i < |s| ==> IsDigit(s[i]) }

  /** Index of the first `c` in `s`, or `|s|` when there is none. */
  function IndexOf(s: string, c: char): (i: nat)
    ensures i <= |s|
    ensures i < |s| ==> s[i] == c
    ensures forall k :: 0 <= k < i ==> s[k] != c
  {
    if s == [] then 0 else if s[0] == c then 0 else 1 + IndexOf(s[1..], c)
  }

  // ---------------------------------------------------------------- lines

  /**
   * Python's `str.splitlines()` with '\n' as the only line boundary: the text is
   * cut at every '\n', and a final '\n' does not start an extra empty line.
   */
  function Lines(s: string): seq<string>
    decreases |s|
  {
    if s == [] then []
    else
      var i := IndexOf(s, '\n');
      if i == |s| then [s] else [s[..i]] + Lines(s[i + 1..])
  }

  /** Every line followed by '\n': the text `Lines` reads back as `ls`. */
  function JoinLines(ls: seq<string>): string
  {
    if ls == [] then [] else ls[0] + "\n" + JoinLines(ls[1..])
  }

  /** Python's `"".join(parts)`. */
  function Concat(parts: seq<string>): string
  {
    if parts == [] then [] else parts[0] + Concat(parts[1..])
  }

  /** `s` with every occurrence of `c` removed. */
  function Without(s: string, c: char): (r: string)
    ensures c !in r
    ensures |r| <= |s|
  {
    if s == [] then []
    else if s[0] == c then Without(s[1..], c)
    else [s[0]] + Without(s[1..], c)
  }

  lemma {:induction false} LinesHaveNoNewline(s: string)
    ensures forall k :: 0 <= k < |Lines(s)| ==> '\n' !in Lines(s)[k]
    decreases |s|
  {
    if s != [] {
      var i := IndexOf(s, '\n');
      if i < |s| {
        LinesHaveNoNewline(s[i + 1..]);
        assert forall k :: 0 <= k < i ==> s[..i][k] != '\n';
      }
    }
  }

  lemma {:induction false} IndexOfAppend(a: string, b: string, c: char)
    requires c !in a
    ensures IndexOf(a + b, c) == |a| + IndexOf(b, c)
    decreases |a|
  {
    if a != [] {
      assert (a + b)[1..] == a[1..] + b;
      IndexOfAppend(a[1..], b, c);
    } else {
      assert a + b == b;
    }
  }

  /** Reading back lines written one per '\n' gives the same lines. */
  lemma {:induction false} LinesOfJoinLines(ls: seq<string>)
    requires forall k :: 0 <= k < |ls| ==> '\n' !in ls[k]
    ensures Lines(JoinLines(ls)) == ls
  {
    if ls != [] {
      var s := JoinLines(ls);
      var rest := JoinLines(ls[1..]);
      assert s == ls[0] + ("\n" + rest);
      IndexOfAppend(ls[0], "\n" + rest, '\n');
      assert s[..|ls[0]|] == ls[0];
      assert s[|ls[0]| + 1..] == rest;
      assert Lines(s) == [ls[0]] + Lines(rest);
      LinesOfJoinLines(ls[1..]);
      assert ls == [ls[0]] + ls[1..];
    }
  }

  /** Joining the lines of `s` without separators removes exactly the line breaks. */
  lemma {:induction false} ConcatLines(s: string)
    ensures Concat(Lines(s)) == Without(s, '\n')
    decreases |s|
  {
    if s != [] {
      var i := IndexOf(s, '\n');
      WithoutFree(s[..i], '\n');
      if i == |s| {
        assert s[..i] == s;
        assert Concat([s]) == s + Concat([]);
      } else {
        assert s == s[..i] + ("\n" + s[i + 1..]);
        WithoutAppend(s[..i], "\n" + s[i + 1..], '\n');
        assert ("\n" + s[i + 1..])[1..] == s[i + 1..];
        ConcatLines(s[i + 1..]);
      }
    }
  }

  lemma {:induction false} WithoutFree(s: string, c: char)
    requires forall k :: 0 <= k < |s| ==> s[k] != c
    ensures Without(s, c) == s
  {
    if s != [] {
      WithoutFree(s[1..], c);
    }
  }

  lemma {:induction false} WithoutAppend(a: string, b: string, c: char)
    ensures Without(a + b, c) == Without(a, c) + Without(b, c)
  {
    if a == [] {
      assert a + b == b;
    } else {
      assert (a + b)[1..] == a[1..] + b;
      WithoutAppend(a[1..], b, c);
    }
  }

  // ------------------------------------------------------------ separators

  /** `sep` occurs in `s` starting at position k. */
  predicate OccursAt(s: string, sep: string, k: int)
  {
    0 <= k && k + |sep| <= |s| && s[k..k + |sep|] == sep
  }

  /** Index of the first occurrence of `sep` in `s` at or after `from`, or `|s|`. */
  function FindFrom(s: string, sep: string, from: nat): (i: nat)
    requires |sep| > 0 && from <= |s|
    ensures from <= i <= |s|
    ensures i < |s| ==> OccursAt(s, sep, i)
    ensures forall k :: from <= k < i ==> !OccursAt(s, sep, k)
    decreases |s| - from
  {
    if from + |sep| > |s| then |s|
    else if s[from..from + |sep|] == sep then from
    else FindFrom(s, sep, from + 1)
  }

  /** Python's `s.split(sep)` for a non-empty separator: always at least one piece. */
  function Split(s: string, sep: string): (parts: seq<string>)
    requires |sep| > 0
    ensures |parts| >= 1
    decreases |s|
  {
    var i := FindFrom(s, sep, 0);
    if i == |s| then [s] else [s[..i]] + Split(s[i + |sep|..], sep)
  }

  /** Python's `sep.join(parts)`. */
  function JoinWith(parts: seq<string>, sep: string): string
  {
    if parts == [] then []
    else if |parts| == 1 then parts[0]
    else parts[0] + sep + JoinWith(parts[1..], sep)
  }

  /** Splitting and joining with the same separator gives the text back. */
  lemma {:induction false} JoinSplit(s: string, sep: string)
    requires |sep| > 0
    ensures JoinWith(Split(s, sep), sep) == s
    decreases |s|
  {
    var i := FindFrom(s, sep, 0);
    if i < |s| {
      var rest := s[i + |sep|..];
      var tail := Split(rest, sep);
      var parts := [s[..i]] + tail;
      assert Split(s, sep) == parts;
      assert parts[1..] == tail;
      assert JoinWith(parts, sep) == s[..i] + sep + JoinWith(tail, sep);
      JoinSplit(rest, sep);
      assert s[i..i + |sep|] == sep;
      assert s == s[..i] + s[i..i + |sep|] + rest;
    }
  }

  // ------------------------------------------------------------ whitespace

  function TrimStart(s: string): (r: string)
    ensures |r| <= |s|
    ensures r != [] ==> !IsSpace(r[0])
  {
    if s != [] && IsSpace(s[0]) then TrimStart(s[1..]) else s
  }

  function TrimEnd(s: string): (r: string)
    ensures |r| <= |s|
    ensures r != [] ==> !IsSpace(r[|r| - 1])
  {
    if s != [] && IsSpace(s[|s| - 1]) then TrimEnd(s[..|s| - 1]) else s
  }

  /** `TrimStart` drops a prefix. */
  lemma {:induction false} TrimStartIsSuffix(s: string)
    ensures TrimStart(s) == s[|s| - |TrimStart(s)|..]
  {
    if s != [] && IsSpace(s[0]) {
      TrimStartIsSuffix(s[1..]);
    }
  }

  /** `TrimEnd` drops a suffix. */
  lemma {:induction false} TrimEndIsPrefix(s: string)
    ensures TrimEnd(s) == s[..|TrimEnd(s)|]
  {
    if s != [] && IsSpace(s[|s| - 1]) {
      TrimEndIsPrefix(s[..|s| - 1]);
    }
  }

  /** Python's `str.strip()`. */
  function Trim(s: string): (r: string)
    ensures r != [] ==> !IsSpace(r[0]) && !IsSpace(r[|r| - 1])
  {
    TrimEndIsPrefix(TrimStart(s));
    TrimEnd(TrimStart(s))
  }

  /** The lines `line.strip()` keeps: those that are not all whitespace, in order. */
  function NonBlank(ls: seq<string>): (r: seq<string>)
    ensures |r| <= |ls|
  {
    if ls == [] then []
    else
      var last := ls[|ls| - 1];
      NonBlank(ls[..|ls| - 1]) + (if Trim(last) != [] then [last] else [])
  }

  /** `NonBlank` keeps exactly the lines that are not all whitespace. */
  lemma {:induction false} NonBlankMembers(ls: seq<string>)
    ensures forall k :: 0 <= k < |NonBlank(ls)| ==> NonBlank(ls)[k] in ls && Trim(NonBlank(ls)[k]) != []
    ensures forall l :: l in ls && Trim(l) != [] ==> l in NonBlank(ls)
  {
    if ls != [] {
      var init, last := ls[..|ls| - 1], ls[|ls| - 1];
      NonBlankMembers(init);
      assert ls == init + [last];
      assert forall l :: l in ls ==> l in init || l == last;
    }
  }

  /** Python's `str.ljust(n)`: pad on the right with spaces up to length n. */
  function PadRight(s: string, n: nat): (r: string)
    ensures |r| == Max(|s|, n)
    ensures r[..|s|] == s
    ensures forall k :: |s| <= k < |r| ==> r[k] == ' '
  {
    if |s| >= n then s else s + seq(n - |s|, _ => ' ')
  }

  /** First whitespace position of `s`, or `|s|`. */
  function SpaceIndex(s: string): (i: nat)
    ensures i <= |s|
    ensures i < |s| ==> IsSpace(s[i])
    ensures forall k :: 0 <= k < i ==> !IsSpace(s[k])
  {
    if s == [] then 0 else if IsSpace(s[0]) then 0 else 1 + SpaceIndex(s[1..])
  }

  /** Python's `str.split()` with no argument: the maximal runs of non-whitespace. */
  function Words(s: string): (ws: seq<string>)
    ensures forall k :: 0 <= k < |ws| ==> ws[k] != []
    ensures forall k, j :: 0 <= k < |ws| && 0 <= j < |ws[k]| ==> !IsSpace(ws[k][j])
    decreases |s|
  {
    var t := TrimStart(s);
    if t == [] then []
    else
      var i := SpaceIndex(t);
      [t[..i]] + Words(t[i..])
  }

  /** A run of non-space characters ended by a space or by the end: `SpaceIndex` stops right after it. */
  lemma {:induction false} SpaceIndexOfRun(w: string, b: string)
    requires forall j :: 0 <= j < |w| ==> !IsSpace(w[j])
    requires b == [] || IsSpace(b[0])
    ensures SpaceIndex(w + b) == |w|
  {
    if w == [] {
      assert w + b == b;
    } else {
      assert (w + b)[1..] == w[1..] + b;
      SpaceIndexOfRun(w[1..], b);
    }
  }

  /** Leading white space is all that `TrimStart` removes. */
  lemma {:induction false} TrimStartSpaces(a: string, b: string)
    requires forall j :: 0 <= j < |a| ==> IsSpace(a[j])
    ensures TrimStart(a + b) == TrimStart(b)
  {
    if a == [] {
      assert a + b == b;
    } else {
      assert (a + b)[1..] == a[1..] + b;
      TrimStartSpaces(a[1..], b);
    }
  }

  /** White space before the text starts no word. */
  lemma WordsSkipSpaces(a: string, b: string)
    requires forall j :: 0 <= j < |a| ==> IsSpace(a[j])
    ensures Words(a + b) == Words(b)
  {
    TrimStartSpaces(a, b);
  }

  /** A non-space run followed by white space or the end is one whole word: words are maximal runs. */
  lemma WordsTakeRun(w: string, b: string)
    requires w != [] && forall j :: 0 <= j < |w| ==> !IsSpace(w[j])
    requires b == [] || IsSpace(b[0])
    ensures Words(w + b) == [w] + Words(b)
  {
    assert (w + b)[0] == w[0];
    SpaceIndexOfRun(w, b);
    assert (w + b)[..|w|] == w && (w + b)[|w|..] == b;
  }

  /** The text has no words exactly when it is all white space. */
  lemma {:induction false} WordsNone(s: string)
    ensures Words(s) == [] <==> forall j :: 0 <= j < |s| ==> IsSpace(s[j])
    decreases |s|
  {
    if s != [] && IsSpace(s[0]) {
      assert TrimStart(s) == TrimStart(s[1..]);
      WordsNone(s[1..]);
      assert forall j :: 1 <= j < |s| ==> s[j] == s[1..][j - 1];
    }
  }

  /** `s` with its white space removed. */
  function NoSpace(s: string): (r: string)
    ensures forall j :: 0 <= j < |r| ==> !IsSpace(r[j])
  {
    if s == [] then [] else (if IsSpace(s[0]) then [] else [s[0]]) + NoSpace(s[1..])
  }

  lemma {:induction false} NoSpaceAppend(a: string, b: string)
    ensures NoSpace(a + b) == NoSpace(a) + NoSpace(b)
  {
    if a != [] {
      assert (a + b)[1..] == a[1..] + b;
      NoSpaceAppend(a[1..], b);
    } else {
      assert a + b == b;
    }
  }

  lemma {:induction false} NoSpaceOfWord(w: string)
    requires forall j :: 0 <= j < |w| ==> !IsSpace(w[j])
    ensures NoSpace(w) == w
  {
    if w != [] {
      NoSpaceOfWord(w[1..]);
    }
  }

  lemma {:induction false} NoSpaceTrimStart(s: string)
    ensures NoSpace(TrimStart(s)) == NoSpace(s)
  {
    if s != [] && IsSpace(s[0]) {
      NoSpaceTrimStart(s[1..]);
    }
  }

  /** The words, put back together, are the text with its white space removed: `split()` drops nothing else. */
  lemma {:induction false} ConcatWords(s: string)
    ensures Concat(Words(s)) == NoSpace(s)
    decreases |s|
  {
    var t := TrimStart(s);
    NoSpaceTrimStart(s);
    if t != [] {
      var i := SpaceIndex(t);
      assert Words(s) == [t[..i]] + Words(t[i..]);
      assert ([t[..i]] + Words(t[i..]))[1..] == Words(t[i..]);
      ConcatWords(t[i..]);
      NoSpaceOfWord(t[..i]);
      assert t == t[..i] + t[i..];
      NoSpaceAppend(t[..i], t[i..]);
    }
  }

  // --------------------------------------------------------- decimal values

  /** The value of a string of decimal digits, most significant first. */
  function DigitsValue(s: string): (v: nat)
    requires AllDigits(s)
  {
    if s == [] then 0 else 10 * DigitsValue(s[..|s| - 1]) + DigitValue(s[|s| - 1])
  }

  /** Python's `int(s)` on ASCII text: surrounding whitespace, an optional sign, digits. */
  function ParseInt(s: string): Option<int>
  {
    var t := Trim(s);
    if !ValidIntText(t) then None
    else if t[0] == '-' then var v: int := DigitsValue(t[1..]); Some(-v)
    else if t[0] == '+' then Some(DigitsValue(t[1..]))
    else Some(DigitsValue(t))
  }

  /** `int(...)` of every string. */
  function ParsedInts(ts: seq<string>): (ps: seq<Option<int>>)
    ensures |ps| == |ts| && forall k :: 0 <= k < |ts| ==> ps[k] == ParseInt(ts[k])
  {
    seq(|ts|, k requires 0 <= k < |ts| => ParseInt(ts[k]))
  }

  /** `tuple(map(int, line.split(',')))`: the comma-separated integers, `None` when one is not. */
  function IntFields(line: string): (p: Option<seq<int>>)
    ensures p.Some? ==> |p.value| == |Split(line, ",")|
    ensures p.Some? ==> forall k :: 0 <= k < |p.value| ==> ParseInt(Split(line, ",")[k]) == Some(p.value[k])
  {
    AllSome(ParsedInts(Split(line, ",")))
  }

  predicate ValidIntText(t: string)
  {
    if t != [] && (t[0] == '-' || t[0] == '+') then |t| > 1 && AllDigits(t[1..])
    else |t| > 0 && AllDigits(t)
  }

  /** Python's `str(n)` for a natural number: no leading zero except for 0 itself. */
  function NatToString(n: nat): (s: string)
    ensures |s| >= 1 && AllDigits(s)
    ensures s[0] == '0' ==> n == 0
    ensures DigitsValue(s) == n
  {
    if n < 10 then [DigitChar(n)]
    else
      var s := NatToString(n / 10) + [DigitChar(n % 10)];
      assert s[..|s| - 1] == NatToString(n / 10);
      s
  }

  /** Python's `str(n)`. */
  function IntToString(n: int): (s: string)
    ensures |s| >= 1
  {
    if n < 0 then "-" + NatToString(-n) else NatToString(n)
  }

  lemma {:induction false} TrimOfDigits(s: string)
    requires |s| >= 1 && AllDigits(s)
    ensures Trim(s) == s
  {
    assert TrimStart(s) == s;
    assert !IsSpace(s[|s| - 1]);
  }

  /** Decimal text read back with `ParseInt` gives the number. */
  lemma ParseIntOfString(n: int)
    ensures ParseInt(IntToString(n)) == Some(n)
  {
    var s := IntToString(n);
    if n < 0 {
      var d := NatToString(-n);
      assert s == "-" + d;
      assert TrimStart(s) == s;
      assert !IsSpace(s[|s| - 1]) by { assert s[|s| - 1] == d[|d| - 1]; }
      assert Trim(s) == s;
      assert s[1..] == d;
    } else {
      TrimOfDigits(s);
      assert s[0] != '-' && s[0] != '+';
    }
  }
}
