/**
 * 2025 day 8 (aoc/year2025/day08.py): junction boxes in 3-D space. Part 1 joins the
 * closest pairs with a disjoint-set forest (union by size, path halving) and multiplies
 * the three largest circuit sizes; part 2 grows a minimum spanning tree with Prim's
 * algorithm and multiplies the X coordinates of the ends of its heaviest edge.
 */
module Year2025Day08 {
  import opened Common
  import opened Text
  import opened Sorting

  /** A parsed line: the comma-separated integers, in order. */
  type Point = seq<int>

  // --------------------------------------------------------------- parse

  /** `parse`: one point per line, `None` when some field is not an integer. */
  function Points(raw: string): (ps: Option<seq<Point>>)
    ensures ps.Some? ==> |ps.value| == |Lines(raw)|
    ensures ps.Some? ==> forall k :: 0 <= k < |ps.value| ==> Some(ps.value[k]) == IntFields(Lines(raw)[k])
  {
    var ls := Lines(raw);
    AllSome(seq(|ls|, k requires 0 <= k < |ls| => IntFields(ls[k])))
  }

  /** Points `dist2` can read: three coordinates or more. */
  predicate Spatial(ps: seq<Point>)
  {
    forall k :: 0 <= k < |ps| ==> |ps[k]| >= 3
  }

  /** `dist2`: the squared Euclidean distance on the first three coordinates. */
  function Dist2(p: Point, q: Point): (d: int)
    requires |p| >= 3 && |q| >= 3
    ensures d >= 0
  {
    Square(p[0] - q[0]) + Square(p[1] - q[1]) + Square(p[2] - q[2])
  }

  function Square(x: int): (s: int)
    ensures s >= 0 && (s == 0 <==> x == 0)
  {
    if x == 0 then 0
    else if x > 0 then
      assert x * x >= x by { MulGrows(x, x); }
      x * x
    else
      assert (-x) * (-x) >= -x by { MulGrows(-x, -x); }
      x * x
  }

  lemma MulGrows(a: int, b: int)
    requires a >= 1 && b >= 1
    ensures a * b >= a
  {
    assert a * b == a + a * (b - 1);
  }

  lemma Dist2Symmetric(p: Point, q: Point)
    requires |p| >= 3 && |q| >= 3
    ensures Dist2(p, q) == Dist2(q, p)
  {
    assert (p[0] - q[0]) * (p[0] - q[0]) == (q[0] - p[0]) * (q[0] - p[0]);
    assert (p[1] - q[1]) * (p[1] - q[1]) == (q[1] - p[1]) * (q[1] - p[1]);
    assert (p[2] - q[2]) * (p[2] - q[2]) == (q[2] - p[2]) * (q[2] - p[2]);
  }

  /** The distance is zero exactly for points that agree on their three coordinates. */
  lemma Dist2Zero(p: Point, q: Point)
    requires |p| >= 3 && |q| >= 3
    ensures Dist2(p, q) == 0 <==> p[..3] == q[..3]
  {
    if p[..3] == q[..3] {
      assert p[0] == q[0] && p[1] == q[1] && p[2] == q[2] by {
        assert p[..3][0] == p[0] && p[..3][1] == p[1] && p[..3][2] == p[2];
      }
    }
  }

  // ------------------------------------------------ the disjoint-set forest

  /**
   * Labels that name a representative per element: every label is an element, and
   * a representative is its own label.
   */
  predicate Forest(root: seq<int>)
  {
    forall i :: 0 <= i < |root| ==> 0 <= root[i] < |root| && root[root[i]] == root[i]
  }

  /** Every element of the class labelled `from` moved to the class labelled `to`. */
  function Relabel(root: seq<int>, from: int, to: int): (r: seq<int>)
    ensures |r| == |root|
    ensures forall i :: 0 <= i < |root| ==> r[i] == if root[i] == from then to else root[i]
  {
    seq(|root|, i requires 0 <= i < |root| => if root[i] == from then to else root[i])
  }

  /** Relabelling moves the members of one class into another and leaves the others. */
  lemma {:induction false} CountRelabel(root: seq<int>, from: int, to: int, r: int)
    requires from != to
    ensures Count(Relabel(root, from, to), r) ==
      if r == to then Count(root, to) + Count(root, from)
      else if r == from then 0
      else Count(root, r)
    decreases |root|
  {
    if root != [] {
      var n := |root| - 1;
      assert Relabel(root, from, to)[..n] == Relabel(root[..n], from, to);
      CountRelabel(root[..n], from, to, r);
    }
  }

  /**
   * `union` on the labels: nothing when `a` and `b` already share a representative;
   * otherwise the class with fewer members joins the other one, `b`'s class joining
   * `a`'s when they are equally large.
   */
  function Join(root: seq<int>, a: int, b: int): (r: seq<int>)
    requires Forest(root) && 0 <= a < |root| && 0 <= b < |root|
    ensures Forest(r) && |r| == |root| && r[a] == r[b]
    ensures forall x, y :: 0 <= x < |root| && 0 <= y < |root| ==>
      (r[x] == r[y] <==>
        root[x] == root[y] ||
        ((root[x] == root[a] || root[x] == root[b]) && (root[y] == root[a] || root[y] == root[b])))
  {
    var ra, rb := root[a], root[b];
    if ra == rb then root
    else if Count(root, ra) < Count(root, rb) then Relabel(root, ra, rb)
    else Relabel(root, rb, ra)
  }

  /** The class sizes add up after a join. */
  lemma JoinSizes(root: seq<int>, a: int, b: int)
    requires Forest(root) && 0 <= a < |root| && 0 <= b < |root| && root[a] != root[b]
    ensures Count(Join(root, a, b), Join(root, a, b)[a]) == Count(root, root[a]) + Count(root, root[b])
  {
    var ra, rb := root[a], root[b];
    if Count(root, ra) < Count(root, rb) {
      CountRelabel(root, ra, rb, rb);
    } else {
      CountRelabel(root, rb, ra, ra);
    }
  }

  /** `DSU(n)`: every element is alone in its class. */
  function Singletons(n: nat): (r: seq<int>)
    ensures |r| == n && Forest(r)
    ensures forall x, y :: 0 <= x < n && 0 <= y < n ==> (r[x] == r[y] <==> x == y)
  {
    seq(n, i => i)
  }

  /** The joins of a list of pairs, in order. */
  function JoinAll(root: seq<int>, pairs: seq<(int, int)>): (r: seq<int>)
    requires Forest(root)
    requires forall k :: 0 <= k < |pairs| ==> 0 <= pairs[k].0 < |root| && 0 <= pairs[k].1 < |root|
    ensures Forest(r) && |r| == |root|
  {
    if pairs == [] then root
    else
      var init := pairs[..|pairs| - 1];
      assert forall k :: 0 <= k < |init| ==> init[k] == pairs[k];
      var last := pairs[|pairs| - 1];
      Join(JoinAll(root, init), last.0, last.1)
  }

  /** After the joins, the two ends of every pair are in one class, and classes never split. */
  lemma {:induction false} JoinAllJoins(root: seq<int>, pairs: seq<(int, int)>)
    requires Forest(root)
    requires forall k :: 0 <= k < |pairs| ==> 0 <= pairs[k].0 < |root| && 0 <= pairs[k].1 < |root|
    ensures forall k :: 0 <= k < |pairs| ==> JoinAll(root, pairs)[pairs[k].0] == JoinAll(root, pairs)[pairs[k].1]
    ensures forall x, y :: 0 <= x < |root| && 0 <= y < |root| && root[x] == root[y] ==>
      JoinAll(root, pairs)[x] == JoinAll(root, pairs)[y]
    decreases |pairs|
  {
    if pairs != [] {
      var init := pairs[..|pairs| - 1];
      assert forall k :: 0 <= k < |init| ==> init[k] == pairs[k];
      JoinAllJoins(root, init);
    }
  }

  /** The number of members of each label in [0, n). */
  function Tally(s: seq<int>, n: nat): (c: seq<int>)
    ensures |c| == n && forall r :: 0 <= r < n ==> c[r] == Count(s, r)
  {
    seq(n, r => Count(s, r))
  }

  /** One more element adds one to its label's count. */
  lemma TallySnoc(s: seq<int>, x: int, n: nat)
    requires 0 <= x < n
    ensures Tally(s + [x], n) == Tally(s, n)[x := Tally(s, n)[x] + 1]
  {
    assert (s + [x])[..|s|] == s;
  }

  /** No elements, no members. */
  lemma TallyEmpty(n: nat)
    ensures Tally([], n) == seq(n, i => 0)
  {
  }

  /** The size of each non-empty class, the classes taken in label order. */
  function ClassSizes(root: seq<int>): (s: seq<int>)
    ensures forall k :: 0 <= k < |s| ==> s[k] > 0
  {
    Positives(Tally(root, |root|))
  }

  function Positives(s: seq<int>): (r: seq<int>)
    ensures forall k :: 0 <= k < |r| ==> r[k] > 0
  {
    if s == [] then []
    else if s[|s| - 1] > 0 then Positives(s[..|s| - 1]) + [s[|s| - 1]]
    else Positives(s[..|s| - 1])
  }

  lemma {:induction false} PositivesSum(s: seq<int>)
    requires forall k :: 0 <= k < |s| ==> s[k] >= 0
    ensures Sum(Positives(s)) == Sum(s)
  {
    if s != [] {
      PositivesSum(s[..|s| - 1]);
      if s[|s| - 1] > 0 {
        SumAppend(Positives(s[..|s| - 1]), [s[|s| - 1]]);
        assert Sum([s[|s| - 1]]) == s[|s| - 1] by { assert [s[|s| - 1]][..0] == []; }
      }
    }
  }

  /** The per-label member counts of labels in [0, n) add up to the number of elements. */
  lemma {:induction false} CountsSum(root: seq<int>, n: nat)
    requires forall i :: 0 <= i < |root| ==> 0 <= root[i] < n
    ensures Sum(Tally(root, n)) == |root|
    decreases |root|
  {
    if root == [] {
      ZeroCountsSum(n);
    } else {
      var init, x := root[..|root| - 1], root[|root| - 1];
      CountsSum(init, n);
      assert root == init + [x];
      TallySnoc(init, x, n);
      SumUpdate(Tally(init, n), x, Count(init, x) + 1);
    }
  }

  lemma {:induction false} ZeroCountsSum(n: nat)
    ensures Sum(Tally([], n)) == 0
  {
    if n > 0 {
      assert Tally([], n)[..n - 1] == Tally([], n - 1);
      ZeroCountsSum(n - 1);
    }
  }

  /** `component_sizes` sums to the number of elements. */
  lemma ComponentSizesSum(root: seq<int>)
    requires Forest(root)
    ensures Sum(SortIntsDesc(ClassSizes(root))) == |root|
  {
    CountsSum(root, |root|);
    PositivesSum(Tally(root, |root|));
    SumPermutation(SortIntsDesc(ClassSizes(root)), ClassSizes(root));
  }

  /**
   * The shape of a parent forest under the labels `root`: parents are elements of the
   * same class, exactly the representatives are their own parents, and `rank`
   * strictly grows from child to parent while staying at most `bound`, so following
   * parents always ends at the representative.
   */
  ghost predicate Shape(p: seq<int>, root: seq<int>, rank: seq<nat>, bound: nat)
  {
    |p| == |root| == |rank| && Forest(root) &&
    (forall i {:trigger p[i]} :: 0 <= i < |p| ==> 0 <= p[i] < |p| && root[p[i]] == root[i]) &&
    (forall i {:trigger p[i]} :: 0 <= i < |p| && p[i] != i ==> rank[i] < rank[p[i]]) &&
    (forall i {:trigger p[i]} :: 0 <= i < |p| ==> (p[i] == i <==> root[i] == i)) &&
    (forall i :: 0 <= i < |p| ==> rank[i] <= bound)
  }

  /** Every representative's size is the number of members of its class. */
  ghost predicate Sized(s: seq<int>, root: seq<int>)
  {
    |s| == |root| && forall r :: 0 <= r < |root| && root[r] == r ==> s[r] == Count(root, r)
  }

  /** Path halving: pointing `x` at its grandparent keeps the shape, and the grandparent ranks higher. */
  lemma Halve(p: seq<int>, root: seq<int>, rank: seq<nat>, bound: nat, x: int)
    requires Shape(p, root, rank, bound) && 0 <= x < |p| && p[x] != x
    ensures Shape(p[x := p[p[x]]], root, rank, bound)
    ensures rank[x] < rank[p[p[x]]]
  {
  }

  /** Attaching one representative under another merges their classes and adds the sizes. */
  lemma Attached(p: seq<int>, s: seq<int>, root: seq<int>, rank: seq<nat>, bound: nat, big: int, small: int)
    requires Shape(p, root, rank, bound) && Sized(s, root)
    requires 0 <= big < |p| && 0 <= small < |p| && big != small && root[big] == big && root[small] == small
    ensures Shape(p[small := big], Relabel(root, small, big), rank[big := Max(rank[big], rank[small] + 1)], Max(bound, rank[small] + 1))
    ensures Sized(s[big := s[big] + s[small]], Relabel(root, small, big))
  {
    var root' := Relabel(root, small, big);
    forall r | 0 <= r < |root| && root'[r] == r ensures s[big := s[big] + s[small]][r] == Count(root', r) {
      CountRelabel(root, small, big, r);
    }
  }

  /** `union` compares the stored sizes, which are the class sizes `Join` compares. */
  lemma JoinBySize(root: seq<int>, s: seq<int>, a: int, b: int)
    requires Forest(root) && Sized(s, root) && 0 <= a < |root| && 0 <= b < |root| && root[a] != root[b]
    ensures Join(root, a, b) ==
      if s[root[a]] < s[root[b]] then Relabel(root, root[a], root[b]) else Relabel(root, root[b], root[a])
  {
  }

  lemma {:induction false} SingletonCount(n: nat, r: int)
    ensures Count(Singletons(n), r) == if 0 <= r < n then 1 else 0
  {
    if n > 0 {
      assert Singletons(n)[..n - 1] == Singletons(n - 1);
      SingletonCount(n - 1, r);
    }
  }

  /** The forest of `DSU(n)`: every element its own parent, rank 0 and size 1. */
  lemma SingletonsShape(n: nat)
    ensures Shape(Singletons(n), Singletons(n), seq(n, i => 0), 0)
    ensures Sized(seq(n, i => 1), Singletons(n))
  {
    forall r | 0 <= r < n ensures Count(Singletons(n), r) == 1 {
      SingletonCount(n, r);
    }
  }

  /** `DSU`: the source's `parent` and `size` lists, with the labels and ranks that explain them. */
  class DSU {
    var parent: seq<int>
    var size: seq<int>
    ghost var root: seq<int>
    ghost var rank: seq<nat>
    ghost var bound: nat

    ghost predicate Valid()
      reads this
    {
      Shape(parent, root, rank, bound) && Sized(size, root)
    }

    /** `DSU(n)`: `parent[i] = i` and `size[i] = 1`. */
    constructor(n: nat)
      ensures Valid() && root == Singletons(n)
      ensures parent == seq(n, i => i) && size == seq(n, i => 1)
    {
      parent := seq(n, i => i);
      size := seq(n, i => 1);
      root := Singletons(n);
      rank := seq(n, i => 0);
      bound := 0;
      SingletonsShape(n);
    }

    /** `find` with path halving: the representative of `x`; no element changes class. */
    method Find(x: int) returns (r: int)
      requires Valid() && 0 <= x < |root|
      modifies this
      ensures root == old(root) && size == old(size)
      ensures Valid() && r == root[x] && parent[r] == r
    {
      r := x;
      while parent[r] != r
        invariant root == old(root) && size == old(size)
        invariant Valid() && 0 <= r < |root| && root[r] == root[x]
        decreases bound - rank[r]
      {
        Halve(parent, root, rank, bound, r);
        parent := parent[r := parent[parent[r]]];
        r := parent[r];
      }
    }

    /**
     * `union`: false when `a` and `b` already share a representative; otherwise the
     * representative of the smaller class goes under the other one (`b`'s under `a`'s
     * on a tie) and the sizes add.
     */
    method Union(a: int, b: int) returns (merged: bool)
      requires Valid() && 0 <= a < |root| && 0 <= b < |root|
      modifies this
      ensures Valid()
      ensures merged <==> old(root[a]) != old(root[b])
      ensures root == Join(old(root), a, b)
      ensures merged ==>
        var (big, small) := if old(size[root[a]]) < old(size[root[b]]) then (old(root[b]), old(root[a])) else (old(root[a]), old(root[b]));
        parent[small] == big && size[big] == old(size[big]) + old(size[small])
    {
      var ra := Find(a);
      var rb := Find(b);
      if ra == rb {
        return false;
      }
      JoinBySize(root, size, a, b);
      if size[ra] < size[rb] {
        ra, rb := rb, ra;
      }
      Attach(ra, rb);
      merged := true;
    }

    /** The last three lines of `union`: `small` goes under `big` and the sizes add. */
    method Attach(big: int, small: int)
      requires Valid() && 0 <= big < |root| && 0 <= small < |root|
      requires big != small && root[big] == big && root[small] == small
      modifies this
      ensures Valid() && root == Relabel(old(root), small, big)
      ensures parent == old(parent)[small := big] && size == old(size)[big := old(size)[big] + old(size)[small]]
    {
      var p, s := parent[small := big], size[big := size[big] + size[small]];
      ghost var root', rank', bound' := Relabel(root, small, big), rank[big := Max(rank[big], rank[small] + 1)], Max(bound, rank[small] + 1);
      Attached(parent, size, root, rank, bound, big, small);
      assert Shape(p, root', rank', bound') && Sized(s, root');
      parent, size := p, s;
      root, rank, bound := root', rank', bound';
    }

    /**
     * `component_sizes`: the size of every class, largest first. The counts are
     * gathered per representative in index order rather than in the order the
     * representatives are first met; once sorted the two are the same sequence.
     */
    method ComponentSizes() returns (sizes: seq<int>)
      requires Valid()
      modifies this
      ensures Valid() && root == old(root)
      ensures sizes == SortIntsDesc(ClassSizes(root))
      ensures Sum(sizes) == |root|
    {
      var counts := CountClasses();
      sizes := SortIntsDesc(Positives(counts));
      ComponentSizesSum(root);
    }

    /** `Counter(self.find(i) for i in range(len(self.parent)))`, as a list indexed by representative. */
    method CountClasses() returns (counts: seq<int>)
      requires Valid()
      modifies this
      ensures Valid() && root == old(root)
      ensures counts == Tally(root, |root|)
    {
      var n := |parent|;
      ghost var labels := root;
      counts := seq(n, i => 0);
      TallyEmpty(n);
      assert labels[..0] == [];
      for i := 0 to n
        invariant Valid() && root == labels && |labels| == n
        invariant counts == Tally(labels[..i], n)
      {
        var r := Find(i);
        assert labels[..i + 1] == labels[..i] + [r];
        TallySnoc(labels[..i], r, n);
        counts := counts[r := counts[r] + 1];
      }
      assert labels[..n] == labels;
    }
  }

  // -------------------------------------------------------------- part 1

  /** A candidate connection: (squared distance, first index, second index). */
  type Link3 = (int, int, int)

  /** A pair of indices of `points`, with its squared distance. */
  predicate PairOf(points: seq<Point>, e: Link3)
    requires Spatial(points)
  {
    0 <= e.1 < e.2 < |points| && e.0 == Dist2(points[e.1], points[e.2])
  }

  /**
   * The pairs of `combinations(enumerate(points), 2)` from first index `i` on: for each
   * first index the later indices in increasing order.
   */
  function PairsFrom(points: seq<Point>, i: nat): (es: seq<Link3>)
    requires Spatial(points)
    ensures forall k :: 0 <= k < |es| ==> PairOf(points, es[k]) && i <= es[k].1
    decreases |points| - i
  {
    if i >= |points| then []
    else RowPairs(points, i) + PairsFrom(points, i + 1)
  }

  function RowPairs(points: seq<Point>, i: nat): (es: seq<Link3>)
    requires Spatial(points) && i < |points|
    ensures |es| == |points| - 1 - i
    ensures forall k :: 0 <= k < |es| ==> es[k] == (Dist2(points[i], points[i + 1 + k]), i, i + 1 + k)
  {
    seq(|points| - 1 - i, k requires 0 <= k < |points| - 1 - i => (Dist2(points[i], points[i + 1 + k]), i, i + 1 + k))
  }

  /** `combinations` order: the index pairs strictly increase lexicographically. */
  predicate Before(e: Link3, f: Link3)
  {
    e.1 < f.1 || (e.1 == f.1 && e.2 < f.2)
  }

  /** The pairs come in `combinations` order, so none repeats. */
  lemma {:induction false} PairsFromOrdered(points: seq<Point>, i: nat)
    requires Spatial(points)
    ensures forall a, b :: 0 <= a < b < |PairsFrom(points, i)| ==> Before(PairsFrom(points, i)[a], PairsFrom(points, i)[b])
    decreases |points| - i
  {
    if i < |points| {
      PairsFromOrdered(points, i + 1);
      var row, rest := RowPairs(points, i), PairsFrom(points, i + 1);
      var es := row + rest;
      forall a, b | 0 <= a < b < |es| ensures Before(es[a], es[b]) {
        if a >= |row| {
          assert es[a] == rest[a - |row|] && es[b] == rest[b - |row|];
        } else if b >= |row| {
          assert es[b] == rest[b - |row|];
        }
      }
    }
  }

  /** Every pair of distinct indices from `i` on appears. */
  lemma {:induction false} PairsFromComplete(points: seq<Point>, i: nat, x: int, y: int)
    requires Spatial(points) && i <= x < y < |points|
    ensures (Dist2(points[x], points[y]), x, y) in PairsFrom(points, i)
    decreases |points| - i
  {
    var row, rest := RowPairs(points, i), PairsFrom(points, i + 1);
    if x == i {
      assert row[y - i - 1] == (Dist2(points[x], points[y]), x, y);
      assert (row + rest)[y - i - 1] == row[y - i - 1];
    } else {
      PairsFromComplete(points, i + 1, x, y);
      var k :| 0 <= k < |rest| && rest[k] == (Dist2(points[x], points[y]), x, y);
      assert (row + rest)[|row| + k] == rest[k];
    }
  }

  /** The order `heapq.nsmallest` and `list.sort` use: the squared distance alone. */
  function ByDistance(e: Link3, f: Link3): bool { e.0 <= f.0 }

  /** How many pairs `heapq.nsmallest(n, ...)` keeps out of `m`. */
  function Keep(n: int, m: nat): (k: nat)
    ensures k <= m
  {
    if n <= 0 then 0 else Min(n, m)
  }

  /**
   * `heapq.nsmallest(n, edges, key=...)`: the first pairs of the stable sort by
   * distance, at most `n` of them.
   */
  function Closest(points: seq<Point>, n: int): (es: seq<Link3>)
    requires Spatial(points)
    ensures |es| == Keep(n, |PairsFrom(points, 0)|)
    ensures forall k :: 0 <= k < |es| ==> PairOf(points, es[k])
  {
    var all := PairsFrom(points, 0);
    var sorted := SortWith(all, ByDistance);
    var es := sorted[..Keep(n, |sorted|)];
    assert forall k :: 0 <= k < |es| ==> PairOf(points, es[k]) by {
      forall k | 0 <= k < |es| ensures PairOf(points, es[k]) {
        assert es[k] == sorted[k];
        assert sorted[k] in multiset(all);
      }
    }
    es
  }

  /** The chosen pairs are in ascending distance. */
  lemma ClosestSorted(points: seq<Point>, n: int)
    requires Spatial(points)
    ensures SortedWith(Closest(points, n), ByDistance)
  {
    var sorted := SortWith(PairsFrom(points, 0), ByDistance);
    SortIsSorted(PairsFrom(points, 0), ByDistance);
    var es := Closest(points, n);
    forall i, j | 0 <= i < j < |es| ensures ByDistance(es[i], es[j]) {
      assert es[i] == sorted[i] && es[j] == sorted[j];
    }
  }

  /** In a sorted sequence everything before a cut may precede everything after it. */
  lemma SortedCut<T>(s: seq<T>, m: int, le: (T, T) -> bool)
    requires SortedWith(s, le) && 0 <= m <= |s|
    ensures forall e, f :: e in s[..m] && f in s[m..] ==> le(e, f)
  {
    forall e, f | e in s[..m] && f in s[m..] ensures le(e, f) {
      var i :| 0 <= i < m && s[..m][i] == e;
      var j :| 0 <= j < |s[m..]| && s[m..][j] == f;
      assert s[i] == e && s[m + j] == f;
    }
  }

  /** A prefix and the rest of a sequence split its multiset. */
  lemma Cut<T>(s: seq<T>, m: int)
    requires 0 <= m <= |s|
    ensures multiset(s[..m]) <= multiset(s)
    ensures multiset(s) - multiset(s[..m]) == multiset(s[m..])
  {
    assert s == s[..m] + s[m..];
  }

  /** The chosen pairs are taken from all pairs, and none of the others is closer. */
  lemma ClosestAreClosest(points: seq<Point>, n: int)
    requires Spatial(points)
    ensures multiset(Closest(points, n)) <= multiset(PairsFrom(points, 0))
    ensures forall e, f :: e in Closest(points, n) && f in multiset(PairsFrom(points, 0)) - multiset(Closest(points, n)) ==> e.0 <= f.0
  {
    var all := PairsFrom(points, 0);
    var sorted := SortWith(all, ByDistance);
    SortIsSorted(all, ByDistance);
    var m := Keep(n, |sorted|);
    assert sorted[..m] == Closest(points, n);
    Cut(sorted, m);
    SortedCut(sorted, m, ByDistance);
  }

  /** Sorting the closest pairs once more, as `smallest.sort` does, changes nothing. */
  lemma ResortClosest(points: seq<Point>, n: int)
    requires Spatial(points)
    ensures SortWith(Closest(points, n), ByDistance) == Closest(points, n)
  {
    ClosestSorted(points, n);
    SortWithSorted(Closest(points, n), ByDistance);
  }

  /** The index pairs `union` is called with. */
  function Ends(points: seq<Point>, es: seq<Link3>): (ps: seq<(int, int)>)
    requires Spatial(points) && forall k :: 0 <= k < |es| ==> PairOf(points, es[k])
    ensures |ps| == |es| && forall k :: 0 <= k < |es| ==> ps[k] == (es[k].1, es[k].2)
    ensures forall k :: 0 <= k < |ps| ==> 0 <= ps[k].0 < |points| && 0 <= ps[k].1 < |points|
  {
    var ps := seq(|es|, k requires 0 <= k < |es| => (es[k].1, es[k].2));
    assert forall k :: 0 <= k < |ps| ==> ps[k] == (es[k].1, es[k].2) && PairOf(points, es[k]);
    ps
  }

  /** The circuits after joining the closest pairs in ascending order. */
  function Circuits(points: seq<Point>, n: int): (root: seq<int>)
    requires Spatial(points)
    ensures Forest(root) && |root| == |points|
  {
    JoinAll(Singletons(|points|), Ends(points, Closest(points, n)))
  }

  /** `solve_part1`: the product of the three largest circuit sizes (of all of them when fewer). */
  function Part1(points: seq<Point>, n: int): int
    requires Spatial(points)
  {
    var sizes := SortIntsDesc(ClassSizes(Circuits(points, n)));
    Product(sizes[..Min(3, |sizes|)])
  }

  /** Every chosen pair ends in one circuit, and the circuit sizes add up to the number of points. */
  lemma CircuitsJoinChosen(points: seq<Point>, n: int)
    requires Spatial(points)
    ensures forall k :: 0 <= k < |Closest(points, n)| ==>
      Circuits(points, n)[Closest(points, n)[k].1] == Circuits(points, n)[Closest(points, n)[k].2]
    ensures Sum(SortIntsDesc(ClassSizes(Circuits(points, n)))) == |points|
  {
    var es := Closest(points, n);
    JoinAllJoins(Singletons(|points|), Ends(points, es));
    ComponentSizesSum(Circuits(points, n));
  }

  /** The `for _, i, j in smallest: dsu.union(i, j)` loop. */
  method UnionAll(dsu: DSU, points: seq<Point>, es: seq<Link3>)
    requires Spatial(points) && forall k :: 0 <= k < |es| ==> PairOf(points, es[k])
    requires dsu.Valid() && |dsu.root| == |points|
    modifies dsu
    ensures dsu.Valid() && dsu.root == JoinAll(old(dsu.root), Ends(points, es))
  {
    var pairs := Ends(points, es);
    ghost var start := dsu.root;
    for k := 0 to |es|
      invariant dsu.Valid() && dsu.root == JoinAll(start, pairs[..k])
    {
      assert pairs[..k + 1][..k] == pairs[..k];
      var _ := dsu.Union(es[k].1, es[k].2);
    }
    assert pairs[..|es|] == pairs;
  }

  method SolvePart1(raw: string, n: int) returns (r: int)
    requires Points(raw).Some? && Spatial(Points(raw).value)
    ensures r == Part1(Points(raw).value, n)
  {
    var points := Points(raw).value;
    var smallest := Closest(points, n);
    ResortClosest(points, n);
    smallest := SortWith(smallest, ByDistance);
    var dsu := new DSU(|points|);
    UnionAll(dsu, points, smallest);
    assert dsu.root == Circuits(points, n);
    var sizes := dsu.ComponentSizes();
    r := Product(sizes[..Min(3, |sizes|)]);
  }

  // --------------------------------------------------------- part 2, Prim

  /** `INF = 10**30`, the key of a vertex no tree vertex has reached yet. */
  const Inf: int := 1_000_000_000_000_000_000_000_000_000_000

  /** Indices of the tree, in range. */
  predicate Vertices(points: seq<Point>, tree: seq<int>)
  {
    forall k :: 0 <= k < |tree| ==> 0 <= tree[k] < |points|
  }

  /**
   * The (key, parent) of vertex `v` once the vertices of `tree` have entered, in that
   * order: key 0 for vertex 0 and `Inf` for the others at first, then each entering
   * vertex that is strictly closer takes over.
   */
  function Link(points: seq<Point>, tree: seq<int>, v: int): (l: (int, int))
    requires Spatial(points) && 0 <= v < |points| && Vertices(points, tree)
    ensures l.1 == -1 || l.1 in tree
    ensures l.1 != -1 ==> l.0 == Dist2(points[l.1], points[v])
  {
    if tree == [] then (if v == 0 then 0 else Inf, -1)
    else
      var init := tree[..|tree| - 1];
      assert forall k :: 0 <= k < |init| ==> init[k] == tree[k];
      var prev := Link(points, init, v);
      var u := tree[|tree| - 1];
      var d := Dist2(points[u], points[v]);
      if d < prev.0 then (d, u) else prev
  }

  /** One more vertex entering the tree. */
  lemma LinkStep(points: seq<Point>, tree: seq<int>, u: int, v: int)
    requires Spatial(points) && 0 <= v < |points| && 0 <= u < |points| && Vertices(points, tree)
    ensures Link(points, tree + [u], v) ==
      var d := Dist2(points[u], points[v]);
      if d < Link(points, tree, v).0 then (d, u) else Link(points, tree, v)
  {
    assert (tree + [u])[..|tree|] == tree;
  }

  /**
   * The key of a vertex other than 0 is the least distance to a tree vertex, or `Inf`
   * when none is closer than that; it has a parent exactly when it is below `Inf`, and
   * the parent is the first tree vertex at that distance.
   */
  lemma {:induction false} LinkIsLeast(points: seq<Point>, tree: seq<int>, v: int)
    requires Spatial(points) && 0 < v < |points| && Vertices(points, tree)
    ensures Link(points, tree, v).0 <= Inf
    ensures forall k :: 0 <= k < |tree| ==> Link(points, tree, v).0 <= Dist2(points[tree[k]], points[v])
    ensures Link(points, tree, v).1 != -1 <==> Link(points, tree, v).0 < Inf
    ensures Link(points, tree, v).1 != -1 ==>
      exists k :: 0 <= k < |tree| && tree[k] == Link(points, tree, v).1 &&
        (forall j :: 0 <= j < k ==> Dist2(points[tree[j]], points[v]) > Link(points, tree, v).0)
  {
    if tree != [] {
      var init := tree[..|tree| - 1];
      assert forall k :: 0 <= k < |init| ==> init[k] == tree[k];
      LinkIsLeast(points, init, v);
      var prev := Link(points, init, v);
      var u := tree[|tree| - 1];
      var d := Dist2(points[u], points[v]);
      if d < prev.0 {
        forall j | 0 <= j < |tree| - 1 ensures Dist2(points[tree[j]], points[v]) > d {
          assert tree[j] == init[j];
        }
      } else if prev.1 != -1 {
        var k :| 0 <= k < |init| && init[k] == prev.1 &&
          forall j :: 0 <= j < k ==> Dist2(points[init[j]], points[v]) > prev.0;
        assert tree[k] == prev.1;
        forall j | 0 <= j < k ensures Dist2(points[tree[j]], points[v]) > prev.0 {
          assert tree[j] == init[j];
        }
      }
    }
  }

  /** `min((key[i], i) for i not in the tree)`: the least key, the lowest index on ties. */
  function LeastKey(key: seq<int>, inTree: seq<bool>, from: nat): (u: int)
    requires |inTree| == |key| && from <= |key|
    ensures u == -1 <==> forall i :: from <= i < |key| ==> inTree[i]
    ensures u != -1 ==> from <= u < |key| && !inTree[u]
    ensures u != -1 ==> forall i :: from <= i < |key| && !inTree[i] ==> key[u] < key[i] || (key[u] == key[i] && u <= i)
    decreases |key| - from
  {
    if from == |key| then -1
    else
      var rest := LeastKey(key, inTree, from + 1);
      if inTree[from] then rest
      else if rest == -1 || key[from] <= key[rest] then from
      else rest
  }

  /** The least key depends only on the keys of the vertices outside the tree. */
  lemma LeastKeyOutside(key: seq<int>, key': seq<int>, inTree: seq<bool>)
    requires |inTree| == |key| == |key'|
    requires forall i :: 0 <= i < |key| && !inTree[i] ==> key[i] == key'[i]
    ensures LeastKey(key, inTree, 0) == LeastKey(key', inTree, 0)
  {
    var u, u' := LeastKey(key, inTree, 0), LeastKey(key', inTree, 0);
    if u != -1 && u' != -1 {
      assert key[u] < key[u'] || (key[u] == key[u'] && u <= u');
      assert key'[u'] < key'[u] || (key'[u'] == key'[u] && u' <= u);
    }
  }

  /** Membership in the tree, index by index: the source's `in_mst`. */
  function InTree(n: nat, tree: seq<int>): (b: seq<bool>)
    ensures |b| == n && forall i :: 0 <= i < n ==> (b[i] <==> i in tree)
  {
    seq(n, i => i in tree)
  }

  /** Marking a vertex as entered is adding it to the tree. */
  lemma InTreeAdd(n: nat, tree: seq<int>, u: int)
    requires 0 <= u < n
    ensures InTree(n, tree)[u := true] == InTree(n, tree + [u])
  {
    var a, b := InTree(n, tree)[u := true], InTree(n, tree + [u]);
    forall i | 0 <= i < n ensures a[i] == b[i] {
      assert i in tree + [u] <==> i in tree || i == u;
    }
  }

  /** Every vertex's key once the tree has entered. */
  function Keys(points: seq<Point>, tree: seq<int>): (ks: seq<int>)
    requires Spatial(points) && Vertices(points, tree)
    ensures |ks| == |points| && forall i :: 0 <= i < |points| ==> ks[i] == Link(points, tree, i).0
  {
    seq(|points|, i requires 0 <= i < |points| => Link(points, tree, i).0)
  }

  /** The vertex Prim's algorithm adds next to `tree`: -1 once every vertex is in. */
  function Pick(points: seq<Point>, tree: seq<int>): (u: int)
    requires Spatial(points) && Vertices(points, tree)
    ensures u == -1 <==> forall i :: 0 <= i < |points| ==> i in tree
    ensures u != -1 ==> 0 <= u < |points| && u !in tree
  {
    LeastKey(Keys(points, tree), InTree(|points|, tree), 0)
  }

  /** The selection order: no vertex outside the tree has a smaller (key, index). */
  lemma PickIsLeast(points: seq<Point>, tree: seq<int>, v: int)
    requires Spatial(points) && Vertices(points, tree) && 0 <= v < |points| && v !in tree
    ensures Pick(points, tree) != -1
    ensures var u := Pick(points, tree);
      Link(points, tree, u).0 < Link(points, tree, v).0 ||
      (Link(points, tree, u).0 == Link(points, tree, v).0 && u <= v)
  {
  }

  /** The tree after `t` additions, in the order the vertices enter. */
  function Grow(points: seq<Point>, t: nat): (tree: seq<int>)
    requires Spatial(points) && t <= |points|
    ensures |tree| == t && Vertices(points, tree)
  {
    if t == 0 then []
    else
      var tree := Grow(points, t - 1);
      assert Pick(points, tree) != -1 by { Unvisited(points, tree); }
      tree + [Pick(points, tree)]
  }

  /** No vertex enters the tree twice. */
  lemma {:induction false} GrowDistinct(points: seq<Point>, t: nat)
    requires Spatial(points) && t <= |points|
    ensures Distinct(Grow(points, t))
  {
    if t > 0 {
      GrowDistinct(points, t - 1);
      var tree, next := Grow(points, t - 1), Grow(points, t);
      Unvisited(points, tree);
      var u := Pick(points, tree);
      assert next == tree + [u];
      DistinctSnoc(tree, u);
    }
  }

  /** Appending an entry that is not there keeps a sequence free of repeats. */
  lemma DistinctSnoc(s: seq<int>, u: int)
    requires Distinct(s) && u !in s
    ensures Distinct(s + [u])
  {
    var t := s + [u];
    forall i, j | 0 <= i < j < |t| ensures t[i] != t[j] {
      assert t[i] == s[i];
      if j < |s| {
        assert t[j] == s[j];
      }
    }
  }

  /** The set of [0, n). */
  function Below(n: nat): (s: set<int>)
    ensures |s| == n && forall i :: i in s <==> 0 <= i < n
  {
    if n == 0 then {} else Below(n - 1) + {n - 1}
  }

  /** No entry of `s` occurs earlier in `s`. */
  predicate Distinct(s: seq<int>)
  {
    forall i, j :: 0 <= i < j < |s| ==> s[i] != s[j]
  }

  /** The set of entries of a sequence has at most as many elements, exactly as many without repeats. */
  lemma {:induction false} Entries(s: seq<int>)
    ensures |set x | x in s| <= |s|
    ensures Distinct(s) ==> |set x | x in s| == |s|
  {
    if s != [] {
      var init, last := s[..|s| - 1], s[|s| - 1];
      assert s == init + [last];
      assert (set x | x in s) == (set x | x in init) + {last};
      Entries(init);
      if Distinct(s) {
        assert Distinct(init) by {
          forall i, j | 0 <= i < j < |init| ensures init[i] != init[j] {
            assert init[i] == s[i] && init[j] == s[j];
          }
        }
      }
    }
  }

  /** Fewer distinct vertices than points leave a point outside. */
  lemma Unvisited(points: seq<Point>, tree: seq<int>)
    requires Vertices(points, tree) && |tree| < |points|
    ensures exists i :: 0 <= i < |points| && i !in tree
  {
    Entries(tree);
    if forall i :: 0 <= i < |points| ==> i in tree {
      assert Below(|points|) <= set x | x in tree;
      SubsetCard(Below(|points|), set x | x in tree);
    }
  }

  /** Prim's algorithm adds each vertex exactly once: after `n` steps every vertex is in. */
  lemma GrowAll(points: seq<Point>)
    requires Spatial(points)
    ensures forall i :: 0 <= i < |points| ==> i in Grow(points, |points|)
  {
    var tree := Grow(points, |points|);
    GrowDistinct(points, |points|);
    Entries(tree);
    var vs := set x | x in tree;
    assert vs <= Below(|points|);
    forall i | 0 <= i < |points| ensures i in tree {
      if i !in tree {
        assert vs <= Below(|points|) - {i};
        SubsetCard(vs, Below(|points|) - {i});
      }
    }
  }

  /** The vertex added at step `t` and the (key, parent) it had when it entered. */
  function Entry(points: seq<Point>, t: nat): (e: (int, int, int))
    requires Spatial(points) && t < |points|
    ensures 0 <= e.2 < |points| && -1 <= e.1 < |points|
  {
    var tree := Grow(points, t);
    Unvisited(points, tree);
    var u := Pick(points, tree);
    var l := Link(points, tree, u);
    (l.0, l.1, u)
  }

  /**
   * `max_edge` after the first `t` additions: (weight, parent, vertex) of the heaviest
   * tree edge, the earliest one on ties, or (-1, -1, -1) before any edge.
   */
  function MaxEdge(points: seq<Point>, t: nat): (m: (int, int, int))
    requires Spatial(points) && t <= |points|
    ensures -1 <= m.1 < |points| && -1 <= m.2 < |points|
  {
    if t == 0 then (-1, -1, -1)
    else
      Record(MaxEdge(points, t - 1), Entry(points, t - 1))
  }

  /** One `max_edge` update: an entry with a parent and a strictly larger key replaces the record. */
  function Record(m: (int, int, int), e: (int, int, int)): (int, int, int)
  {
    if e.1 != -1 && e.0 > m.0 then e else m
  }

  /** The entries of the first `t` additions, in order. */
  function Entered(points: seq<Point>, t: nat): (es: seq<(int, int, int)>)
    requires Spatial(points) && t <= |points|
    ensures |es| == t
  {
    if t == 0 then [] else Entered(points, t - 1) + [Entry(points, t - 1)]
  }

  /** The `max_edge` updates folded over a list of entries, from the first to the last. */
  function Heaviest(es: seq<(int, int, int)>): (int, int, int)
  {
    if es == [] then (-1, -1, -1) else Record(Heaviest(es[..|es| - 1]), es[|es| - 1])
  }

  /** Folding one more entry is one more update. */
  lemma HeaviestSnoc(es: seq<(int, int, int)>, e: (int, int, int))
    ensures Heaviest(es + [e]) == Record(Heaviest(es), e)
  {
    assert (es + [e])[..|es|] == es;
  }

  /** The fold's weight is at least that of every entry with a parent, and it is one of them unless none has one. */
  lemma {:induction false} HeaviestIsMax(es: seq<(int, int, int)>)
    ensures forall s :: 0 <= s < |es| && es[s].1 != -1 ==> Heaviest(es).0 >= es[s].0
    ensures Heaviest(es) == (-1, -1, -1) || exists s :: 0 <= s < |es| && es[s].1 != -1 && Heaviest(es) == es[s]
  {
    if es != [] {
      var init, e := es[..|es| - 1], es[|es| - 1];
      HeaviestIsMax(init);
      var m := Heaviest(init);
      HeavierRecord(m, e, Heaviest(es));
      forall s | 0 <= s < |es| && es[s].1 != -1 ensures Heaviest(es).0 >= es[s].0 {
        if s < |init| {
          assert es[s] == init[s];
        }
      }
      if Heaviest(es) != (-1, -1, -1) && Heaviest(es) == m {
        var s :| 0 <= s < |init| && init[s].1 != -1 && m == init[s];
        assert es[s] == init[s];
      }
    }
  }

  /** `max_edge` after `t` additions is the fold of their entries. */
  lemma {:induction false} MaxEdgeIsHeaviest(points: seq<Point>, t: nat)
    requires Spatial(points) && t <= |points|
    ensures MaxEdge(points, t) == Heaviest(Entered(points, t))
  {
    if t > 0 {
      MaxEdgeIsHeaviest(points, t - 1);
      HeaviestSnoc(Entered(points, t - 1), Entry(points, t - 1));
    }
  }

  /**
   * The recorded weight is at least the key of every vertex that entered with a
   * parent, and it is the entry of one of them unless none had a parent.
   */
  lemma MaxEdgeIsMax(points: seq<Point>, t: nat)
    requires Spatial(points) && t <= |points|
    ensures var es := Entered(points, t);
      forall s :: 0 <= s < t && es[s].1 != -1 ==> MaxEdge(points, t).0 >= es[s].0
    ensures var es := Entered(points, t);
      MaxEdge(points, t) == (-1, -1, -1) || exists s :: 0 <= s < t && es[s].1 != -1 && MaxEdge(points, t) == es[s]
  {
    MaxEdgeIsHeaviest(points, t);
    HeaviestIsMax(Entered(points, t));
  }

  /** One `max_edge` update: the record never drops, covers the new entry, and is the old record or the entry. */
  lemma HeavierRecord(m: (int, int, int), e: (int, int, int), m': (int, int, int))
    requires m' == Record(m, e)
    ensures m'.0 >= m.0 && (e.1 != -1 ==> m'.0 >= e.0)
    ensures m' == m || (m' == e && e.1 != -1)
  {
  }

  /** Python's `points[i]` for i = -1, the one index `max_edge` can hold outside [0, n). */
  function Wrap(i: int, n: int): int
  {
    if i < 0 then i + n else i
  }

  /** `solve_part2`: the product of the X coordinates at the ends of the heaviest tree edge. */
  function Part2(points: seq<Point>): (r: Option<int>)
    requires Spatial(points)
    ensures r.None? <==> points == []
  {
    if points == [] then None
    else
      var m := MaxEdge(points, |points|);
      var n := |points|;
      Some(points[Wrap(m.1, n)][0] * points[Wrap(m.2, n)][0])
  }

  /** The inner loop of `solve_part2`: vertices outside the tree move closer to `u`. */
  method Relax(points: seq<Point>, key: seq<int>, parent: seq<int>, inMst: seq<bool>, u: int, ghost tree: seq<int>)
    returns (key': seq<int>, parent': seq<int>)
    requires Spatial(points) && Vertices(points, tree) && 0 <= u < |points|
    requires |key| == |parent| == |inMst| == |points|
    requires forall i :: 0 <= i < |points| && !inMst[i] ==> (key[i], parent[i]) == Link(points, tree, i)
    ensures |key'| == |parent'| == |points|
    ensures forall i :: 0 <= i < |points| && !inMst[i] ==> (key'[i], parent'[i]) == Link(points, tree + [u], i)
  {
    key', parent' := key, parent;
    var pu := points[u];
    for v := 0 to |points|
      invariant |key'| == |parent'| == |points|
      invariant forall i :: 0 <= i < v && !inMst[i] ==> (key'[i], parent'[i]) == Link(points, tree + [u], i)
      invariant forall i :: v <= i < |points| ==> key'[i] == key[i] && parent'[i] == parent[i]
    {
      if inMst[v] {
        continue;
      }
      LinkStep(points, tree, u, v);
      var d := Dist2(pu, points[v]);
      if d < key'[v] {
        key' := key'[v := d];
        parent' := parent'[v := u];
      }
    }
  }

  /** The state of `solve_part2` after `t` rounds of its outer loop. */
  ghost predicate Frontier(points: seq<Point>, t: nat, key: seq<int>, parent: seq<int>, inMst: seq<bool>, maxEdge: (int, int, int))
    requires Spatial(points)
  {
    t <= |points| && |key| == |parent| == |points| &&
    inMst == InTree(|points|, Grow(points, t)) &&
    (forall i :: 0 <= i < |points| && !inMst[i] ==> (key[i], parent[i]) == Link(points, Grow(points, t), i)) &&
    maxEdge == MaxEdge(points, t)
  }

  /** One round of the outer loop: pick the closest vertex outside, record its edge, relax. */
  method Visit(points: seq<Point>, t: nat, key: seq<int>, parent: seq<int>, inMst: seq<bool>, maxEdge: (int, int, int))
    returns (key': seq<int>, parent': seq<int>, inMst': seq<bool>, maxEdge': (int, int, int))
    requires Spatial(points) && t < |points| && Frontier(points, t, key, parent, inMst, maxEdge)
    ensures Frontier(points, t + 1, key', parent', inMst', maxEdge')
  {
    var n := |points|;
    ghost var tree := Grow(points, t);
    LeastKeyOutside(key, Keys(points, tree), inMst);
    var u := LeastKey(key, inMst, 0);
    assert u == Pick(points, tree);
    Unvisited(points, tree);
    assert Grow(points, t + 1) == tree + [u];
    assert Entry(points, t) == (key[u], parent[u], u);
    inMst' := inMst[u := true];
    assert forall i :: 0 <= i < n && !inMst'[i] ==> !inMst[i];
    maxEdge' := maxEdge;
    if parent[u] != -1 {
      var w := key[u];
      if w > maxEdge.0 {
        maxEdge' := (w, parent[u], u);
      }
    }
    assert maxEdge' == MaxEdge(points, t + 1);
    key', parent' := Relax(points, key, parent, inMst', u, tree);
    InTreeAdd(n, tree, u);
    ghost var tree' := Grow(points, t + 1);
    assert inMst' == InTree(n, tree');
    assert forall i :: 0 <= i < n && !inMst'[i] ==> (key'[i], parent'[i]) == Link(points, tree', i);
  }

  method SolvePart2(raw: string) returns (r: Option<int>)
    requires Points(raw).Some? && Spatial(Points(raw).value)
    ensures r == Part2(Points(raw).value)
  {
    var points := Points(raw).value;
    var n := |points|;
    if n == 0 {
      return None;
    }
    var maxEdge := Prim(points);
    var (_, a, b) := maxEdge;
    r := Some(points[Wrap(a, n)][0] * points[Wrap(b, n)][0]);
  }

  /** The loops of `solve_part2`: Prim's algorithm from vertex 0, recording the heaviest tree edge. */
  method Prim(points: seq<Point>) returns (maxEdge: (int, int, int))
    requires Spatial(points) && |points| > 0
    ensures maxEdge == MaxEdge(points, |points|)
  {
    var n := |points|;
    var key := seq(n, i => Inf)[0 := 0];
    var parent := seq(n, i => -1);
    var inMst := seq(n, i => false);
    maxEdge := (-1, -1, -1);
    FrontierStart(points, key, parent, inMst);
    for t := 0 to n
      invariant Frontier(points, t, key, parent, inMst, maxEdge)
    {
      key, parent, inMst, maxEdge := Visit(points, t, key, parent, inMst, maxEdge);
    }
  }

  /** Before the first round: key 0 for vertex 0 and `INF` elsewhere, no parents, an empty tree. */
  lemma FrontierStart(points: seq<Point>, key: seq<int>, parent: seq<int>, inMst: seq<bool>)
    requires Spatial(points) && |points| > 0
    requires key == seq(|points|, i => Inf)[0 := 0] && parent == seq(|points|, i => -1)
    requires inMst == seq(|points|, i => false)
    ensures Frontier(points, 0, key, parent, inMst, (-1, -1, -1))
  {
    assert inMst == InTree(|points|, Grow(points, 0));
  }
}
