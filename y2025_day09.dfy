/**
 * 2025 day 9 (aoc/year2025/day09.py): red tiles at the corners of a rectilinear loop.
 * Part 1 is the largest rectangle two red tiles span; part 2 keeps only the rectangles
 * whose interior no edge of the loop crosses, found through segments indexed by their
 * fixed coordinate and searched with bisection.
 */
module Year2025Day09 {
  import opened Common
  import opened Text
  import opened Sorting

  /** A parsed line: the comma-separated integers, in order. */
  type Tile = seq<int>

  // --------------------------------------------------------------- parse

  /** `parse`: one tile per non-blank line, `None` when some field is not an integer. */
  function Reds(raw: string): (ps: Option<seq<Tile>>)
    ensures ps.Some? ==> |ps.value| == |NonBlank(Lines(raw))|
    ensures ps.Some? ==> forall k :: 0 <= k < |ps.value| ==> Some(ps.value[k]) == IntFields(NonBlank(Lines(raw))[k])
  {
    var ls := NonBlank(Lines(raw));
    AllSome(seq(|ls|, k requires 0 <= k < |ls| => IntFields(ls[k])))
  }

  /** Tiles part 1 can read: an X and a Y coordinate at least. */
  predicate HasXY(ps: seq<Tile>)
  {
    forall k :: 0 <= k < |ps| ==> |ps[k]| >= 2
  }

  /** Tiles `(x, y) = tile` can unpack: exactly two coordinates. */
  predicate Planar(ps: seq<Tile>)
  {
    forall k :: 0 <= k < |ps| ==> |ps[k]| == 2
  }

  // ---------------------------------------------------------- rectangles

  /** (xmin, xmax, ymin, ymax), bounds included. */
  datatype Rect = Rect(xmin: int, xmax: int, ymin: int, ymax: int)

  /** `rect`: the smallest box holding both tiles. */
  function RectOf(a: Tile, b: Tile): (r: Rect)
    requires |a| == 2 && |b| == 2
    ensures r.xmin <= r.xmax && r.ymin <= r.ymax
    ensures r.xmin <= a[0] <= r.xmax && r.xmin <= b[0] <= r.xmax
    ensures r.ymin <= a[1] <= r.ymax && r.ymin <= b[1] <= r.ymax
    ensures (r.xmin == a[0] || r.xmin == b[0]) && (r.xmax == a[0] || r.xmax == b[0])
    ensures (r.ymin == a[1] || r.ymin == b[1]) && (r.ymax == a[1] || r.ymax == b[1])
  {
    Rect(Min(a[0], b[0]), Max(a[0], b[0]), Min(a[1], b[1]), Max(a[1], b[1]))
  }

  /** `rects_overlap`: the open extents overlap on both axes. */
  predicate Overlap(r: Rect, s: Rect)
  {
    r.xmin < s.xmax && r.xmax > s.xmin && r.ymin < s.ymax && r.ymax > s.ymin
  }

  /** The point (X/2, Y/2) lies strictly inside `r`: coordinates are doubled to reach half-tiles. */
  predicate InInterior(X: int, Y: int, r: Rect)
  {
    2 * r.xmin < X < 2 * r.xmax && 2 * r.ymin < Y < 2 * r.ymax
  }

  /** The point (X/2, Y/2) lies in `r`, its border included. */
  predicate InClosed(X: int, Y: int, r: Rect)
  {
    2 * r.xmin <= X <= 2 * r.xmax && 2 * r.ymin <= Y <= 2 * r.ymax
  }

  lemma OverlapSymmetric(r: Rect, s: Rect)
    ensures Overlap(r, s) <==> Overlap(s, r)
  {
  }

  /** An open interval (a, b) meets a closed one [c, d] exactly when each starts before the other ends. */
  lemma OpenMeetsClosed(a: int, b: int, c: int, d: int) returns (X: int)
    requires a < b && c <= d && a < d && c < b
    ensures 2 * a < X < 2 * b && 2 * c <= X <= 2 * d
  {
    X := Max(2 * a + 1, 2 * c);
  }

  /**
   * For a box of positive width and height, `rects_overlap` holds exactly when its
   * interior meets the other box, border included: a segment box that only touches
   * the border does not overlap.
   */
  lemma OverlapMeetsInterior(r: Rect, s: Rect)
    requires r.xmin < r.xmax && r.ymin < r.ymax && s.xmin <= s.xmax && s.ymin <= s.ymax
    ensures Overlap(r, s) <==> exists X, Y :: InInterior(X, Y, r) && InClosed(X, Y, s)
  {
    if Overlap(r, s) {
      var X := OpenMeetsClosed(r.xmin, r.xmax, s.xmin, s.xmax);
      var Y := OpenMeetsClosed(r.ymin, r.ymax, s.ymin, s.ymax);
      assert InInterior(X, Y, r) && InClosed(X, Y, s);
    }
  }

  // ------------------------------------------------------------ segments

  /** (fixed coordinate, low end, high end). */
  type Seg = (int, int, int)

  /** What `build_segments` makes of the edge from tile `i` to the next one round the loop. */
  datatype Edge = Vertical(x: int, y1: int, y2: int) | Horizontal(y: int, x1: int, x2: int) | Slanted

  function EdgeAt(reds: seq<Tile>, i: int): (e: Edge)
    requires Planar(reds) && 0 <= i < |reds|
    ensures var a, b := reds[i], reds[(i + 1) % |reds|];
      (e.Vertical? <==> a[0] == b[0]) &&
      (e.Horizontal? <==> a[0] != b[0] && a[1] == b[1]) &&
      (e.Vertical? ==> e.x == a[0] && e.y1 <= e.y2 && ((e.y1, e.y2) == (a[1], b[1]) || (e.y1, e.y2) == (b[1], a[1]))) &&
      (e.Horizontal? ==> e.y == a[1] && e.x1 <= e.x2 && ((e.x1, e.x2) == (a[0], b[0]) || (e.x1, e.x2) == (b[0], a[0])))
  {
    var a, b := reds[i], reds[(i + 1) % |reds|];
    if a[0] == b[0] then Vertical(a[0], Min(a[1], b[1]), Max(a[1], b[1]))
    else if a[1] == b[1] then Horizontal(a[1], Min(a[0], b[0]), Max(a[0], b[0]))
    else Slanted
  }

  /** The vertical segments of the first `k` edges, in order. */
  function Verticals(reds: seq<Tile>, k: nat): (vs: seq<Seg>)
    requires Planar(reds) && k <= |reds|
  {
    if k == 0 then []
    else
      var init := Verticals(reds, k - 1);
      match EdgeAt(reds, k - 1)
        case Vertical(x, a, b) => init + [(x, a, b)]
        case _ => init
  }

  /** The horizontal segments of the first `k` edges, in order. */
  function Horizontals(reds: seq<Tile>, k: nat): (hs: seq<Seg>)
    requires Planar(reds) && k <= |reds|
  {
    if k == 0 then []
    else
      var init := Horizontals(reds, k - 1);
      match EdgeAt(reds, k - 1)
        case Horizontal(y, a, b) => init + [(y, a, b)]
        case _ => init
  }

  /** The vertical segments are exactly those of the edges with equal X ends. */
  lemma {:induction false} VerticalsOfEdges(reds: seq<Tile>, k: nat)
    requires Planar(reds) && k <= |reds|
    ensures forall s :: s in Verticals(reds, k) <==> exists i :: 0 <= i < k && EdgeAt(reds, i) == Vertical(s.0, s.1, s.2)
  {
    if k > 0 {
      VerticalsOfEdges(reds, k - 1);
    }
  }

  /** The horizontal segments are exactly those of the other edges with equal Y ends. */
  lemma {:induction false} HorizontalsOfEdges(reds: seq<Tile>, k: nat)
    requires Planar(reds) && k <= |reds|
    ensures forall s :: s in Horizontals(reds, k) <==> exists i :: 0 <= i < k && EdgeAt(reds, i) == Horizontal(s.0, s.1, s.2)
  {
    if k > 0 {
      HorizontalsOfEdges(reds, k - 1);
    }
  }

  /** `build_segments`. */
  method BuildSegments(reds: seq<Tile>) returns (verticals: seq<Seg>, horizontals: seq<Seg>)
    requires Planar(reds)
    ensures verticals == Verticals(reds, |reds|) && horizontals == Horizontals(reds, |reds|)
  {
    var n := |reds|;
    verticals, horizontals := [], [];
    for i := 0 to n
      invariant verticals == Verticals(reds, i) && horizontals == Horizontals(reds, i)
    {
      var x1, y1 := reds[i][0], reds[i][1];
      var x2, y2 := reds[(i + 1) % n][0], reds[(i + 1) % n][1];
      if x1 == x2 {
        var a, b := Min(y1, y2), Max(y1, y2);
        verticals := verticals + [(x1, a, b)];
      } else if y1 == y2 {
        var a, b := Min(x1, x2), Max(x1, x2);
        horizontals := horizontals + [(y1, a, b)];
      }
    }
  }

  /** The box of a vertical segment, and of a horizontal one. */
  function VBox(s: Seg): Rect { Rect(s.0, s.0, s.1, s.2) }
  function HBox(s: Seg): Rect { Rect(s.1, s.2, s.0, s.0) }

  /** Some segment's box overlaps `r`. */
  predicate Blocked(r: Rect, verticals: seq<Seg>, horizontals: seq<Seg>)
  {
    (exists k :: 0 <= k < |verticals| && Overlap(r, VBox(verticals[k]))) ||
    (exists k :: 0 <= k < |horizontals| && Overlap(r, HBox(horizontals[k])))
  }

  // -------------------------------------------------------------- index

  /** `v_by_x` / `h_by_y`: the (low, high) ends of the segments, listed under their fixed coordinate. */
  type Buckets = map<int, seq<(int, int)>>

  /** `d.setdefault(c, []).append((lo, hi))` for every segment in turn. */
  function Bucket(segs: seq<Seg>): (m: Buckets)
    ensures forall c :: c in m <==> exists k :: 0 <= k < |segs| && segs[k].0 == c
    ensures forall c, p :: c in m && p in m[c] <==> (c, p.0, p.1) in segs
  {
    if segs == [] then map[]
    else
      var init := segs[..|segs| - 1];
      var m := Bucket(init);
      var (c, lo, hi) := segs[|segs| - 1];
      assert segs == init + [(c, lo, hi)];
      Enter(m, c, (lo, hi))
  }

  /** `v_by_x[x].append(p)` on a `defaultdict(list)`. */
  function Enter(m: Buckets, c: int, p: (int, int)): Buckets
  {
    m[c := (if c in m then m[c] else []) + [p]]
  }

  /** The keys of `Bucket(segs)` in the order the dictionary first saw them. */
  function KeyOrder(segs: seq<Seg>): (ks: seq<int>)
    ensures forall c :: c in ks <==> exists k :: 0 <= k < |segs| && segs[k].0 == c
  {
    if segs == [] then []
    else
      var init := segs[..|segs| - 1];
      var ks := KeyOrder(init);
      var c := segs[|segs| - 1].0;
      assert forall k :: 0 <= k < |init| ==> init[k] == segs[k];
      if c in ks then ks else ks + [c]
  }

  /** One of the two grouping loops of `index_segments`. */
  method Group(segs: seq<Seg>) returns (m: Buckets, order: seq<int>)
    ensures m == Bucket(segs) && order == KeyOrder(segs)
  {
    m, order := map[], [];
    for k := 0 to |segs|
      invariant m == Bucket(segs[..k]) && order == KeyOrder(segs[..k])
    {
      var (c, lo, hi) := segs[k];
      GroupStep(segs, k, m, order);
      var bucket := if c in m then m[c] else [];
      if c !in m {
        order := order + [c];
      }
      m := m[c := bucket + [(lo, hi)]];
    }
    assert segs[..|segs|] == segs;
  }

  /** One more segment: its ends are appended under its key, which is new to the order when it is new to the dict. */
  lemma GroupStep(segs: seq<Seg>, k: int, m: Buckets, order: seq<int>)
    requires 0 <= k < |segs| && m == Bucket(segs[..k]) && order == KeyOrder(segs[..k])
    ensures var (c, lo, hi) := segs[k];
      && Bucket(segs[..k + 1]) == Enter(m, c, (lo, hi))
      && KeyOrder(segs[..k + 1]) == (if c in m then order else order + [c])
  {
    assert segs[..k + 1][..k] == segs[..k];
    var c := segs[k].0;
    assert c in m <==> c in order;
  }

  /** `index_segments`: both groupings and their sorted key lists. */
  method IndexSegments(verticals: seq<Seg>, horizontals: seq<Seg>)
    returns (vByX: Buckets, vKeys: seq<int>, hByY: Buckets, hKeys: seq<int>)
    ensures vByX == Bucket(verticals) && vKeys == SortedKeys(verticals)
    ensures hByY == Bucket(horizontals) && hKeys == SortedKeys(horizontals)
  {
    var xOrder, yOrder;
    vByX, xOrder := Group(verticals);
    hByY, yOrder := Group(horizontals);
    vKeys := SortInts(xOrder);
    hKeys := SortInts(yOrder);
  }

  /** `sorted(d.keys())`: the keys of the grouping, exactly, in ascending order. */
  function SortedKeys(segs: seq<Seg>): (ks: seq<int>)
    ensures SortedInts(ks)
    ensures forall c :: c in ks <==> c in Bucket(segs)
    ensures forall j :: 0 <= j < |ks| ==> ks[j] in Bucket(segs)
  {
    var order := KeyOrder(segs);
    assert forall c :: c in SortInts(order) <==> c in order by {
      forall c ensures c in SortInts(order) <==> c in order {
        assert c in multiset(SortInts(order)) <==> c in multiset(order);
      }
    }
    SortInts(order)
  }

  // -------------------------------------------------------------- query

  /** Python's `bisect_right` on `a[lo..hi]`: the first index whose element exceeds `x`. */
  function BisectRightIn(a: seq<int>, x: int, lo: nat, hi: nat): (i: nat)
    requires SortedInts(a) && lo <= hi <= |a|
    requires forall k :: 0 <= k < lo ==> a[k] <= x
    requires forall k :: hi <= k < |a| ==> a[k] > x
    ensures lo <= i <= hi
    ensures forall k :: 0 <= k < i ==> a[k] <= x
    ensures forall k :: i <= k < |a| ==> a[k] > x
    decreases hi - lo
  {
    if lo == hi then lo
    else
      var mid := (lo + hi) / 2;
      if x < a[mid] then BisectRightIn(a, x, lo, mid) else BisectRightIn(a, x, mid + 1, hi)
  }

  /** Python's `bisect_left` on `a[lo..hi]`: the first index whose element is at least `x`. */
  function BisectLeftIn(a: seq<int>, x: int, lo: nat, hi: nat): (i: nat)
    requires SortedInts(a) && lo <= hi <= |a|
    requires forall k :: 0 <= k < lo ==> a[k] < x
    requires forall k :: hi <= k < |a| ==> a[k] >= x
    ensures lo <= i <= hi
    ensures forall k :: 0 <= k < i ==> a[k] < x
    ensures forall k :: i <= k < |a| ==> a[k] >= x
    decreases hi - lo
  {
    if lo == hi then lo
    else
      var mid := (lo + hi) / 2;
      if a[mid] < x then BisectLeftIn(a, x, mid + 1, hi) else BisectLeftIn(a, x, lo, mid)
  }

  function BisectRight(a: seq<int>, x: int): (i: nat)
    requires SortedInts(a)
    ensures i <= |a| && (forall k :: 0 <= k < i ==> a[k] <= x) && (forall k :: i <= k < |a| ==> a[k] > x)
  {
    BisectRightIn(a, x, 0, |a|)
  }

  function BisectLeft(a: seq<int>, x: int): (i: nat)
    requires SortedInts(a)
    ensures i <= |a| && (forall k :: 0 <= k < i ==> a[k] < x) && (forall k :: i <= k < |a| ==> a[k] >= x)
  {
    BisectLeftIn(a, x, 0, |a|)
  }

  /** A segment from `p.0` to `p.1` reaches into the open extent (lo, hi). */
  predicate Crosses(p: (int, int), lo: int, hi: int)
  {
    lo < p.1 && hi > p.0
  }

  /** The inner scan: some listed segment crosses (lo, hi). */
  function AnyCrossing(ps: seq<(int, int)>, lo: int, hi: int): (b: bool)
    ensures b <==> exists p :: p in ps && Crosses(p, lo, hi)
  {
    if ps == [] then false
    else Crosses(ps[0], lo, hi) || AnyCrossing(ps[1..], lo, hi)
  }

  /** The outer scan over the selected keys. */
  function ScanKeys(keys: seq<int>, m: Buckets, lo: int, hi: int): (b: bool)
    requires forall j :: 0 <= j < |keys| ==> keys[j] in m
    ensures b <==> exists j :: 0 <= j < |keys| && keys[j] in m && AnyCrossing(m[keys[j]], lo, hi)
  {
    if keys == [] then false
    else AnyCrossing(m[keys[0]], lo, hi) || ScanKeys(keys[1..], m, lo, hi)
  }

  /**
   * One half of `any_segment_overlaps_rectangle`: the keys strictly between `a` and `b`,
   * then their segments crossing (lo, hi).
   */
  function Probe(m: Buckets, keys: seq<int>, a: int, b: int, lo: int, hi: int): bool
    requires SortedInts(keys) && forall j :: 0 <= j < |keys| ==> keys[j] in m
  {
    var li := BisectRight(keys, a);
    var ri := BisectLeft(keys, b);
    li < ri && ScanKeys(keys[li..ri], m, lo, hi)
  }

  /** `any_segment_overlaps_rectangle`. */
  function AnyOverlaps(r: Rect, vByX: Buckets, vKeys: seq<int>, hByY: Buckets, hKeys: seq<int>): bool
    requires SortedInts(vKeys) && forall j :: 0 <= j < |vKeys| ==> vKeys[j] in vByX
    requires SortedInts(hKeys) && forall j :: 0 <= j < |hKeys| ==> hKeys[j] in hByY
  {
    Probe(vByX, vKeys, r.xmin, r.xmax, r.ymin, r.ymax) || Probe(hByY, hKeys, r.ymin, r.ymax, r.xmin, r.xmax)
  }

  /** Entry `k - i` of the slice `s[i..j]` is entry `k` of `s`. */
  lemma SliceAt(s: seq<int>, i: int, j: int, k: int)
    requires 0 <= i <= k < j <= |s|
    ensures s[i..j][k - i] == s[k]
  {
  }

  /** The bisection selects exactly the keys strictly between `a` and `b`. */
  lemma ProbeSelects(m: Buckets, keys: seq<int>, a: int, b: int, lo: int, hi: int)
    requires SortedInts(keys) && forall j :: 0 <= j < |keys| ==> keys[j] in m
    ensures Probe(m, keys, a, b, lo, hi) <==>
      exists j :: 0 <= j < |keys| && a < keys[j] < b && AnyCrossing(m[keys[j]], lo, hi)
  {
    var li, ri := BisectRight(keys, a), BisectLeft(keys, b);
    if Probe(m, keys, a, b, lo, hi) {
      var sel := keys[li..ri];
      var j :| 0 <= j < ri - li && sel[j] in m && AnyCrossing(m[sel[j]], lo, hi);
      SliceAt(keys, li, ri, li + j);
    }
    if exists j :: 0 <= j < |keys| && a < keys[j] < b && AnyCrossing(m[keys[j]], lo, hi) {
      var j :| 0 <= j < |keys| && a < keys[j] < b && AnyCrossing(m[keys[j]], lo, hi);
      assert li <= j < ri;
      SliceAt(keys, li, ri, j);
    }
  }

  /**
   * A probe of the index finds a segment exactly when one has its fixed coordinate
   * strictly between `a` and `b` and crosses (lo, hi).
   */
  lemma ProbeFinds(segs: seq<Seg>, a: int, b: int, lo: int, hi: int)
    ensures Probe(Bucket(segs), SortedKeys(segs), a, b, lo, hi) <==>
      exists k :: 0 <= k < |segs| && a < segs[k].0 < b && Crosses((segs[k].1, segs[k].2), lo, hi)
  {
    ProbeSelects(Bucket(segs), SortedKeys(segs), a, b, lo, hi);
    KeyedCrossing(segs, a, b, lo, hi);
  }

  /** Looking segments up by key finds the same crossings as running through them. */
  lemma KeyedCrossing(segs: seq<Seg>, a: int, b: int, lo: int, hi: int)
    ensures var m, keys := Bucket(segs), SortedKeys(segs);
      (exists j :: 0 <= j < |keys| && a < keys[j] < b && AnyCrossing(m[keys[j]], lo, hi)) <==>
      exists k :: 0 <= k < |segs| && a < segs[k].0 < b && Crosses((segs[k].1, segs[k].2), lo, hi)
  {
    KeyedCrossingOver(segs, Bucket(segs), SortedKeys(segs), a, b, lo, hi);
  }

  /** KeyedCrossing for any dict and key list with the bucket and key properties. */
  lemma KeyedCrossingOver(segs: seq<Seg>, m: Buckets, keys: seq<int>, a: int, b: int, lo: int, hi: int)
    requires forall c, p :: c in m && p in m[c] <==> (c, p.0, p.1) in segs
    requires forall c :: c in keys <==> c in m
    requires forall j :: 0 <= j < |keys| ==> keys[j] in m
    ensures (exists j :: 0 <= j < |keys| && a < keys[j] < b && AnyCrossing(m[keys[j]], lo, hi)) <==>
      exists k :: 0 <= k < |segs| && a < segs[k].0 < b && Crosses((segs[k].1, segs[k].2), lo, hi)
  {
    if exists j :: 0 <= j < |keys| && a < keys[j] < b && AnyCrossing(m[keys[j]], lo, hi) {
      var j :| 0 <= j < |keys| && a < keys[j] < b && AnyCrossing(m[keys[j]], lo, hi);
      var c := keys[j];
      var p :| p in m[c] && Crosses(p, lo, hi);
      assert (c, p.0, p.1) in segs;
      var k :| 0 <= k < |segs| && segs[k] == (c, p.0, p.1);
      assert a < segs[k].0 < b && Crosses((segs[k].1, segs[k].2), lo, hi);
    }
    if exists k :: 0 <= k < |segs| && a < segs[k].0 < b && Crosses((segs[k].1, segs[k].2), lo, hi) {
      var k :| 0 <= k < |segs| && a < segs[k].0 < b && Crosses((segs[k].1, segs[k].2), lo, hi);
      var (c, y1, y2) := segs[k];
      var p := (y1, y2);
      assert (c, p.0, p.1) in segs;
      assert c in m && p in m[c];
      assert c in keys;
      var i :| 0 <= i < |keys| && keys[i] == c;
      assert a < keys[i] < b && AnyCrossing(m[keys[i]], lo, hi);
    }
  }

  /** `any_segment_overlaps_rectangle` is true exactly when some segment's box overlaps the rectangle. */
  lemma QueryIff(r: Rect, verticals: seq<Seg>, horizontals: seq<Seg>)
    ensures AnyOverlaps(r, Bucket(verticals), SortedKeys(verticals), Bucket(horizontals), SortedKeys(horizontals))
      <==> Blocked(r, verticals, horizontals)
  {
    VerticalProbe(r, verticals);
    HorizontalProbe(r, horizontals);
  }

  /** The first half of the query finds exactly the vertical segments overlapping `r`. */
  lemma VerticalProbe(r: Rect, verticals: seq<Seg>)
    ensures Probe(Bucket(verticals), SortedKeys(verticals), r.xmin, r.xmax, r.ymin, r.ymax) <==>
      exists k :: 0 <= k < |verticals| && Overlap(r, VBox(verticals[k]))
  {
    ProbeFinds(verticals, r.xmin, r.xmax, r.ymin, r.ymax);
    VerticalOverlaps(r, verticals);
  }

  /** A vertical segment's box overlaps `r` exactly when its x is inside and it crosses r's y range. */
  lemma VerticalOverlaps(r: Rect, segs: seq<Seg>)
    ensures (exists k :: 0 <= k < |segs| && Overlap(r, VBox(segs[k]))) <==>
      exists k :: 0 <= k < |segs| && r.xmin < segs[k].0 < r.xmax && Crosses((segs[k].1, segs[k].2), r.ymin, r.ymax)
  {
    assert forall k :: 0 <= k < |segs| ==>
      (Overlap(r, VBox(segs[k])) <==> r.xmin < segs[k].0 < r.xmax && Crosses((segs[k].1, segs[k].2), r.ymin, r.ymax));
  }

  /** The second half finds exactly the horizontal segments overlapping `r`. */
  lemma HorizontalProbe(r: Rect, horizontals: seq<Seg>)
    ensures Probe(Bucket(horizontals), SortedKeys(horizontals), r.ymin, r.ymax, r.xmin, r.xmax) <==>
      exists k :: 0 <= k < |horizontals| && Overlap(r, HBox(horizontals[k]))
  {
    ProbeFinds(horizontals, r.ymin, r.ymax, r.xmin, r.xmax);
    HorizontalOverlaps(r, horizontals);
  }

  /** A horizontal segment's box overlaps `r` exactly when its y is inside and it crosses r's x range. */
  lemma HorizontalOverlaps(r: Rect, segs: seq<Seg>)
    ensures (exists k :: 0 <= k < |segs| && Overlap(r, HBox(segs[k]))) <==>
      exists k :: 0 <= k < |segs| && r.ymin < segs[k].0 < r.ymax && Crosses((segs[k].1, segs[k].2), r.xmin, r.xmax)
  {
    assert forall k :: 0 <= k < |segs| ==>
      (Overlap(r, HBox(segs[k])) <==> r.ymin < segs[k].0 < r.ymax && Crosses((segs[k].1, segs[k].2), r.xmin, r.xmax));
  }

  // --------------------------------------------------------------- pairs

  /** The index pairs of `combinations(range(n), 2)` from first index `i` on. */
  function PairsFrom(n: nat, i: nat): (ps: seq<(int, int)>)
    ensures forall k :: 0 <= k < |ps| ==> i <= ps[k].0 < ps[k].1 < n
    decreases n - i
  {
    if i >= n then []
    else
      var row := seq(n - 1 - i, k requires 0 <= k < n - 1 - i => (i, i + 1 + k));
      row + PairsFrom(n, i + 1)
  }

  /** The positions of the tiles `combinations(tiles, 2)` yields, in its order. */
  function Pairs(n: nat): (ps: seq<(int, int)>)
    ensures forall k :: 0 <= k < |ps| ==> 0 <= ps[k].0 < ps[k].1 < n
  {
    PairsFrom(n, 0)
  }

  /** Every pair of positions from `i` on appears. */
  lemma {:induction false} PairsFromComplete(n: nat, i: nat, a: int, b: int)
    requires i <= a < b < n
    ensures (a, b) in PairsFrom(n, i)
    decreases n - i
  {
    var row := seq(n - 1 - i, k requires 0 <= k < n - 1 - i => (i, i + 1 + k));
    var rest := PairsFrom(n, i + 1);
    assert PairsFrom(n, i) == row + rest;
    if a == i {
      assert row[b - i - 1] == (a, b);
      assert (row + rest)[b - i - 1] == row[b - i - 1];
    } else {
      PairsFromComplete(n, i + 1, a, b);
      var k :| 0 <= k < |rest| && rest[k] == (a, b);
      assert (row + rest)[|row| + k] == rest[k];
    }
  }

  /** Positions of `reds`, smaller one first. */
  predicate Positions(ps: seq<(int, int)>, n: nat)
  {
    forall k :: 0 <= k < |ps| ==> 0 <= ps[k].0 < ps[k].1 < n
  }

  // -------------------------------------------------------------- part 1

  /** Which area formula: `abs(ax - bx + 1) * abs(ay - by + 1)` as written, or the tile count of the box. */
  datatype Reading = AsWritten | Inclusive

  function PairArea(f: Reading, a: Tile, b: Tile): int
    requires |a| >= 2 && |b| >= 2
  {
    match f
      case AsWritten => Abs(a[0] - b[0] + 1) * Abs(a[1] - b[1] + 1)
      case Inclusive => (Abs(a[0] - b[0]) + 1) * (Abs(a[1] - b[1]) + 1)
  }

  /** The inclusive area of two tiles is the number of tiles in their box. */
  lemma InclusiveIsBoxArea(a: Tile, b: Tile)
    requires |a| == 2 && |b| == 2
    ensures PairArea(Inclusive, a, b) == Area(RectOf(a, b))
  {
  }

  lemma MulMonotone(a: nat, b: nat, c: nat, d: nat)
    requires a <= b && c <= d
    ensures a * c <= b * d
  {
    assert a * c <= b * c;
    assert b * c <= b * d;
  }

  /** The formula as written never exceeds the box area, and matches it when `a` is the upper-right corner. */
  lemma AsWrittenAtMost(a: Tile, b: Tile)
    requires |a| >= 2 && |b| >= 2
    ensures 0 <= PairArea(AsWritten, a, b) <= PairArea(Inclusive, a, b)
    ensures a[0] >= b[0] && a[1] >= b[1] ==> PairArea(AsWritten, a, b) == PairArea(Inclusive, a, b)
  {
    var dx, dy := Abs(a[0] - b[0] + 1), Abs(a[1] - b[1] + 1);
    var ex, ey := Abs(a[0] - b[0]) + 1, Abs(a[1] - b[1]) + 1;
    MulMonotone(dx, ex, dy, ey);
  }

  /** `best` after the loop over the pairs `ps`: starting at 0, raised to every larger area. */
  function Best(f: Reading, reds: seq<Tile>, ps: seq<(int, int)>): (m: int)
    requires HasXY(reds) && Positions(ps, |reds|)
  {
    if ps == [] then 0
    else
      var (i, j) := ps[|ps| - 1];
      Max(Best(f, reds, ps[..|ps| - 1]), PairArea(f, reds[i], reds[j]))
  }

  /** One more pair. */
  lemma BestStep(f: Reading, reds: seq<Tile>, ps: seq<(int, int)>, k: int)
    requires HasXY(reds) && Positions(ps, |reds|) && 0 <= k < |ps|
    ensures Positions(ps[..k], |reds|) && Positions(ps[..k + 1], |reds|)
    ensures Best(f, reds, ps[..k + 1]) == Max(Best(f, reds, ps[..k]), PairArea(f, reds[ps[k].0], reds[ps[k].1]))
  {
    assert ps[..k + 1][..k] == ps[..k];
  }

  /** `best` is the largest area of a pair, or 0 when there is no pair. */
  lemma {:induction false} BestIsMax(f: Reading, reds: seq<Tile>, ps: seq<(int, int)>)
    requires HasXY(reds) && Positions(ps, |reds|)
    ensures Best(f, reds, ps) >= 0
    ensures forall k :: 0 <= k < |ps| ==> Best(f, reds, ps) >= PairArea(f, reds[ps[k].0], reds[ps[k].1])
    ensures Best(f, reds, ps) == 0 ||
      exists k :: 0 <= k < |ps| && Best(f, reds, ps) == PairArea(f, reds[ps[k].0], reds[ps[k].1])
  {
    if ps != [] {
      var init := ps[..|ps| - 1];
      BestIsMax(f, reds, init);
      assert forall k :: 0 <= k < |init| ==> init[k] == ps[k];
    }
  }

  /** Raising every area raises `best`. */
  lemma {:induction false} AsWrittenBestAtMost(reds: seq<Tile>, ps: seq<(int, int)>)
    requires HasXY(reds) && Positions(ps, |reds|)
    ensures Best(AsWritten, reds, ps) <= Best(Inclusive, reds, ps)
  {
    if ps != [] {
      var (i, j) := ps[|ps| - 1];
      AsWrittenBestAtMost(reds, ps[..|ps| - 1]);
      AsWrittenAtMost(reds[i], reds[j]);
    }
  }

  /** `solve_part1` as written. */
  function Part1AsWritten(reds: seq<Tile>): int
    requires HasXY(reds)
  {
    Best(AsWritten, reds, Pairs(|reds|))
  }

  /** The largest number of tiles in a box with red corners. */
  function Part1(reds: seq<Tile>): int
    requires HasXY(reds)
  {
    Best(Inclusive, reds, Pairs(|reds|))
  }

  /** Part 1 is the largest box over all pairs of red tiles, or 0 with fewer than two tiles. */
  lemma Part1IsLargest(reds: seq<Tile>)
    requires HasXY(reds)
    ensures forall a, b :: 0 <= a < b < |reds| ==> Part1(reds) >= PairArea(Inclusive, reds[a], reds[b])
    ensures Part1(reds) == 0 || exists a, b :: 0 <= a < b < |reds| && Part1(reds) == PairArea(Inclusive, reds[a], reds[b])
  {
    forall a, b | 0 <= a < b < |reds| ensures Part1(reds) >= PairArea(Inclusive, reds[a], reds[b]) {
      Part1Covers(reds, a, b);
    }
    Part1Attained(reds);
  }

  /** Part 1 is at least the box of the tiles `a < b`. */
  lemma Part1Covers(reds: seq<Tile>, a: int, b: int)
    requires HasXY(reds) && 0 <= a < b < |reds|
    ensures Part1(reds) >= PairArea(Inclusive, reds[a], reds[b])
  {
    var ps := Pairs(|reds|);
    BestIsMax(Inclusive, reds, ps);
    PairsFromComplete(|reds|, 0, a, b);
    var k :| 0 <= k < |ps| && ps[k] == (a, b);
  }

  /** A non-zero part 1 is the box of some pair of tiles. */
  lemma Part1Attained(reds: seq<Tile>)
    requires HasXY(reds)
    ensures Part1(reds) == 0 || exists a, b :: 0 <= a < b < |reds| && Part1(reds) == PairArea(Inclusive, reds[a], reds[b])
  {
    var ps := Pairs(|reds|);
    BestIsMax(Inclusive, reds, ps);
    if Part1(reds) != 0 {
      var k :| 0 <= k < |ps| && Part1(reds) == PairArea(Inclusive, reds[ps[k].0], reds[ps[k].1]);
      assert 0 <= ps[k].0 < ps[k].1 < |reds|;
    }
  }

  /** The formula as written never gives more than the largest box. */
  lemma Part1AsWrittenAtMost(reds: seq<Tile>)
    requires HasXY(reds)
    ensures 0 <= Part1AsWritten(reds) <= Part1(reds)
  {
    BestIsMax(AsWritten, reds, Pairs(|reds|));
    AsWrittenBestAtMost(reds, Pairs(|reds|));
  }

  /** Two tiles have one pair between them. */
  lemma PairsOfTwo()
    ensures Pairs(2) == [(0, 1)]
  {
    assert PairsFrom(2, 1) == [];
    assert PairsFrom(2, 0) == seq(1, k requires 0 <= k < 1 => (0, 1 + k)) + [];
  }

  /**
   * Two tiles on a diagonal, the first down and to the left: the formula as written
   * gives 1 where the box holds 9 tiles.
   */
  lemma AsWrittenDiagonal(reds: seq<Tile>)
    requires reds == [[0, 0], [2, 2]]
    ensures Part1AsWritten(reds) == 1 && Part1(reds) == 9
  {
    PairsOfTwo();
    var ps := [(0, 1)];
    assert ps[..0] == [];
    assert PairArea(AsWritten, reds[0], reds[1]) == 1;
    assert PairArea(Inclusive, reds[0], reds[1]) == 9;
    assert Best(AsWritten, reds, ps) == Max(0, 1);
    assert Best(Inclusive, reds, ps) == Max(0, 9);
  }

  /** `solve_part1`, with the inclusive area. */
  method SolvePart1(raw: string) returns (best: int)
    requires Reds(raw).Some? && HasXY(Reds(raw).value)
    ensures best == Part1(Reds(raw).value)
  {
    best := LargestBox(Reds(raw).value);
  }

  /** The body of `solve_part1` after parsing. */
  method LargestBox(reds: seq<Tile>) returns (best: int)
    requires HasXY(reds)
    ensures best == Part1(reds)
  {
    var ps := Pairs(|reds|);
    best := 0;
    for k := 0 to |ps|
      invariant Positions(ps[..k], |reds|)
      invariant best == Best(Inclusive, reds, ps[..k])
    {
      var (i, j) := ps[k];
      var a, b := reds[i], reds[j];
      BestStep(Inclusive, reds, ps, k);
      var area := (Abs(a[0] - b[0]) + 1) * (Abs(a[1] - b[1]) + 1);
      if area > best {
        best := area;
      }
    }
    assert ps[..|ps|] == ps;
  }

  // -------------------------------------------------------------- part 2

  /** The number of tiles in a box. */
  function Area(r: Rect): int
  {
    (r.xmax - r.xmin + 1) * (r.ymax - r.ymin + 1)
  }

  /** `rects`: the box of every pair, in `combinations` order. */
  function Rects(reds: seq<Tile>): (rs: seq<Rect>)
    requires Planar(reds)
    ensures |rs| == |Pairs(|reds|)|
    ensures forall k :: 0 <= k < |rs| ==> rs[k] == RectOf(reds[Pairs(|reds|)[k].0], reds[Pairs(|reds|)[k].1])
  {
    var ps := Pairs(|reds|);
    seq(|ps|, k requires 0 <= k < |ps| => RectOf(reds[ps[k].0], reds[ps[k].1]))
  }

  /** `best` after the filtering loop: raised to the area of every box no segment overlaps. */
  function MaxFree(rs: seq<Rect>, verticals: seq<Seg>, horizontals: seq<Seg>): int
  {
    if rs == [] then 0
    else
      var m := MaxFree(rs[..|rs| - 1], verticals, horizontals);
      var r := rs[|rs| - 1];
      if Area(r) > m && !Blocked(r, verticals, horizontals) then Area(r) else m
  }

  /** One more box. */
  lemma MaxFreeStep(rs: seq<Rect>, verticals: seq<Seg>, horizontals: seq<Seg>, k: int)
    requires 0 <= k < |rs|
    ensures MaxFree(rs[..k + 1], verticals, horizontals) ==
      var m := MaxFree(rs[..k], verticals, horizontals);
      if Area(rs[k]) > m && !Blocked(rs[k], verticals, horizontals) then Area(rs[k]) else m
  {
    assert rs[..k + 1][..k] == rs[..k];
  }

  /** `best` is the largest area of a box no segment overlaps, or 0 when there is none. */
  lemma {:induction false} MaxFreeIsMax(rs: seq<Rect>, verticals: seq<Seg>, horizontals: seq<Seg>)
    ensures MaxFree(rs, verticals, horizontals) >= 0
    ensures forall k :: 0 <= k < |rs| && !Blocked(rs[k], verticals, horizontals) ==>
      MaxFree(rs, verticals, horizontals) >= Area(rs[k])
    ensures MaxFree(rs, verticals, horizontals) == 0 ||
      exists k :: 0 <= k < |rs| && !Blocked(rs[k], verticals, horizontals) && MaxFree(rs, verticals, horizontals) == Area(rs[k])
  {
    if rs != [] {
      var init := rs[..|rs| - 1];
      MaxFreeIsMax(init, verticals, horizontals);
      assert forall k :: 0 <= k < |init| ==> init[k] == rs[k];
    }
  }

  /** `solve_part2`: the largest box with red corners that no edge of the loop cuts into. */
  function Part2(reds: seq<Tile>): int
    requires Planar(reds)
  {
    MaxFree(Rects(reds), Verticals(reds, |reds|), Horizontals(reds, |reds|))
  }

  /** Part 2 keeps a subset of the boxes part 1 ranks, so it is never larger. */
  lemma Part2AtMostPart1(reds: seq<Tile>)
    requires Planar(reds)
    ensures 0 <= Part2(reds) <= Part1(reds)
  {
    var rs, ps := Rects(reds), Pairs(|reds|);
    MaxFreeIsMax(rs, Verticals(reds, |reds|), Horizontals(reds, |reds|));
    BestIsMax(Inclusive, reds, ps);
    if Part2(reds) != 0 {
      var k :| 0 <= k < |rs| && Part2(reds) == Area(rs[k]);
      InclusiveIsBoxArea(reds[ps[k].0], reds[ps[k].1]);
    }
  }

  method SolvePart2(raw: string) returns (best: int)
    requires Reds(raw).Some? && Planar(Reds(raw).value)
    ensures best == Part2(Reds(raw).value)
  {
    best := LargestFreeBox(Reds(raw).value);
  }

  /** The body of `solve_part2` after parsing. */
  method LargestFreeBox(reds: seq<Tile>) returns (best: int)
    requires Planar(reds)
    ensures best == Part2(reds)
  {
    var rects := Rects(reds);
    var verticals, horizontals := BuildSegments(reds);
    var vByX, vKeys, hByY, hKeys := IndexSegments(verticals, horizontals);
    forall r ensures AnyOverlaps(r, vByX, vKeys, hByY, hKeys) <==> Blocked(r, verticals, horizontals) {
      QueryIff(r, verticals, horizontals);
    }
    best := FilterBoxes(rects, verticals, horizontals, vByX, vKeys, hByY, hKeys);
  }

  /** The loop over `rects`: skip a box no larger than `best`, else query the index. */
  method FilterBoxes(rects: seq<Rect>, verticals: seq<Seg>, horizontals: seq<Seg>,
                     vByX: Buckets, vKeys: seq<int>, hByY: Buckets, hKeys: seq<int>) returns (best: int)
    requires SortedInts(vKeys) && forall j :: 0 <= j < |vKeys| ==> vKeys[j] in vByX
    requires SortedInts(hKeys) && forall j :: 0 <= j < |hKeys| ==> hKeys[j] in hByY
    requires forall r :: AnyOverlaps(r, vByX, vKeys, hByY, hKeys) <==> Blocked(r, verticals, horizontals)
    ensures best == MaxFree(rects, verticals, horizontals)
  {
    best := 0;
    for k := 0 to |rects|
      invariant best == MaxFree(rects[..k], verticals, horizontals)
    {
      var r := rects[k];
      MaxFreeStep(rects, verticals, horizontals, k);
      var area := (r.xmax - r.xmin + 1) * (r.ymax - r.ymin + 1);
      if area <= best {
        continue;
      }
      if !AnyOverlaps(r, vByX, vKeys, hByY, hKeys) {
        best := area;
      }
    }
    assert rects[..|rects|] == rects;
  }
}
