/** Small shared vocabulary: an Option type and sums/products over sequences. */
module Common {

  datatype Option<+T> = None | Some(value: T)

  /** The values of all the options, in order, or `None` if one is missing. */
  function AllSome<T>(ps: seq<Option<T>>): (r: Option<seq<T>>)
    ensures r.Some? <==> forall k :: 0 <= k < |ps| ==> ps[k].Some?
    ensures r.Some? ==> |r.value| == |ps| && forall k :: 0 <= k < |ps| ==> ps[k] == Some(r.value[k])
  {
    if ps == [] then Some([])
    else
      var init := ps[..|ps| - 1];
      assert forall k :: 0 <= k < |init| ==> init[k] == ps[k];
      match (AllSome(init), ps[|ps| - 1])
        case (Some(rs), Some(last)) => Some(rs + [last])
        case _ => None
  }

  /** `AllSome` one element further: what a parsing loop that appends relies on. */
  lemma AllSomeStep<T>(ps: seq<Option<T>>, i: int)
    requires 0 <= i < |ps|
    ensures AllSome(ps[..i + 1]) ==
      match (AllSome(ps[..i]), ps[i])
        case (Some(init), Some(last)) => Some(init + [last])
        case _ => None
  {
    assert ps[..i + 1][..i] == ps[..i];
  }

  /** One missing entry makes the whole collection missing. */
  lemma AllSomeMissing<T>(ps: seq<Option<T>>, i: int)
    requires 0 <= i < |ps| && ps[i].None?
    ensures AllSome(ps).None?
  {
    assert !ps[i].Some?;
  }

  /** Concatenation regrouped. */
  lemma AppendAssoc<T>(a: seq<T>, b: seq<T>, c: seq<T>)
    ensures a + (b + c) == (a + b) + c
  {
  }

  /** A subset is no larger than its superset. */
  lemma SubsetCard<T>(a: set<T>, b: set<T>)
    requires a <= b
    ensures |a| <= |b|
  {
    assert b == a + (b - a);
  }

  /** Sum of a sequence of integers (Python's `sum`). */
  function Sum(s: seq<int>): int
  {
    if s == [] then 0 else Sum(s[..|s| - 1]) + s[|s| - 1]
  }

  /** Product of a sequence of integers (Python's `math.prod`). */
  function Product(s: seq<int>): int
  {
    if s == [] then 1 else Product(s[..|s| - 1]) * s[|s| - 1]
  }

  lemma {:induction false} SumAppend(a: seq<int>, b: seq<int>)
    ensures Sum(a + b) == Sum(a) + Sum(b)
  {
    if b == [] {
      assert a + b == a;
    } else {
      assert (a + b)[..|a + b| - 1] == a + b[..|b| - 1];
      SumAppend(a, b[..|b| - 1]);
    }
  }

  lemma {:induction false} ProductAppend(a: seq<int>, b: seq<int>)
    ensures Product(a + b) == Product(a) * Product(b)
  {
    if b == [] {
      assert a + b == a;
    } else {
      assert (a + b)[..|a + b| - 1] == a + b[..|b| - 1];
      ProductAppend(a, b[..|b| - 1]);
    }
  }

  lemma {:induction false} SumNonNegative(s: seq<int>)
    requires forall i :: 0 <= i < |s| ==> s[i] >= 0
    ensures Sum(s) >= 0
  {
    if s != [] {
      SumNonNegative(s[..|s| - 1]);
    }
  }

  /** Overwriting one entry changes the sum by the difference. */
  lemma {:induction false} SumUpdate(s: seq<int>, i: int, v: int)
    requires 0 <= i < |s|
    ensures Sum(s[i := v]) == Sum(s) - s[i] + v
    decreases |s|
  {
    var n := |s| - 1;
    if i < n {
      assert s[i := v][..n] == s[..n][i := v];
      SumUpdate(s[..n], i, v);
    } else {
      assert s[i := v][..n] == s[..n];
    }
  }

  /** Taking one entry out of a sequence takes its value out of the sum. */
  lemma {:induction false} SumRemove(b: seq<int>, i: int)
    requires 0 <= i < |b|
    ensures Sum(b) == Sum(b[..i] + b[i + 1..]) + b[i]
    ensures multiset(b[..i] + b[i + 1..]) == multiset(b) - multiset{b[i]}
  {
    assert b == b[..i] + ([b[i]] + b[i + 1..]);
    SumAppend(b[..i], [b[i]] + b[i + 1..]);
    SumAppend([b[i]], b[i + 1..]);
    SumAppend(b[..i], b[i + 1..]);
    assert Sum([b[i]]) == b[i] by { assert [b[i]][..0] == []; }
  }

  /** Sequences with the same elements have the same sum. */
  lemma {:induction false} SumPermutation(a: seq<int>, b: seq<int>)
    requires multiset(a) == multiset(b)
    ensures Sum(a) == Sum(b)
    decreases |a|
  {
    if a == [] {
      assert |b| == |multiset(b)| == 0;
    } else {
      var init, x := a[..|a| - 1], a[|a| - 1];
      assert a == init + [x];
      assert multiset(init) == multiset(a) - multiset{x};
      assert x in multiset(b);
      var i :| 0 <= i < |b| && b[i] == x;
      SumRemove(b, i);
      SumPermutation(init, b[..i] + b[i + 1..]);
    }
  }

  /** Number of positions of `s` holding `x` (Python's `Counter(s)[x]`). */
  function Count<T(==)>(s: seq<T>, x: T): nat
  {
    if s == [] then 0
    else Count(s[..|s| - 1], x) + (if s[|s| - 1] == x then 1 else 0)
  }

  /** The count is the multiplicity in the multiset of the entries. */
  lemma {:induction false} CountMultiset<T>(s: seq<T>, x: T)
    ensures Count(s, x) == multiset(s)[x]
  {
    if s != [] {
      assert s == s[..|s| - 1] + [s[|s| - 1]];
      CountMultiset(s[..|s| - 1], x);
    }
  }

  /** One more entry adds one to its own count and leaves the others. */
  lemma CountSnoc<T>(s: seq<T>, y: T, x: T)
    ensures Count(s + [y], x) == Count(s, x) + (if y == x then 1 else 0)
  {
    assert (s + [y])[..|s|] == s;
  }

  function Abs(n: int): nat { if n < 0 then -n else n }
  function Max(a: int, b: int): int { if a >= b then a else b }
  function Min(a: int, b: int): int { if a <= b then a else b }
}
