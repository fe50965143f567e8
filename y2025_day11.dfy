/**
 * 2025 day 11 (aoc/year2025/day11.py): a reactor's devices and the devices each one
 * feeds. The answers count the paths along the connections that end at the device
 * "out": every path from "you" in part 1, and in part 2 those from "svr" that pass
 * through both "fft" and "dac".
 */
module Year2025Day11 {
  import opened Common
  import opened Text

  /** `connections`: each device's outgoing devices (a `defaultdict(set)`). */
  type Graph = map<string, set<string>>

  const Out := "out"

  /** `conns.get(node, ())`. */
  function Succ(g: Graph, n: string): set<string>
  {
    if n in g then g[n] else {}
  }

  // --------------------------------------------------------------- parse

  /** `src, dsts = line.split(": ")` and `dsts.split()`; `None` where the unpacking raises. */
  function ParseLine(line: string): (e: Option<(string, seq<string>)>)
    ensures e.Some? <==> |Split(line, ": ")| == 2
    ensures e.Some? ==> e.value == (Split(line, ": ")[0], Words(Split(line, ": ")[1]))
  {
    var parts := Split(line, ": ");
    if |parts| != 2 then None else Some((parts[0], Words(parts[1])))
  }

  /** Every line's source and destinations, or `None` if a line is malformed. */
  function Entries(raw: string): Option<seq<(string, seq<string>)>>
  {
    var ls := Lines(raw);
    AllSome(seq(|ls|, k requires 0 <= k < |ls| => ParseLine(ls[k])))
  }

  /** `connections[src].update(dsts)`. */
  function Join(g: Graph, src: string, dsts: seq<string>): (r: Graph)
    ensures r.Keys == g.Keys + {src}
    ensures Succ(r, src) == Succ(g, src) + set d | d in dsts
    ensures forall n :: n != src ==> Succ(r, n) == Succ(g, n)
  {
    g[src := Succ(g, src) + set d | d in dsts]
  }

  /** The connections after the entries `es`, line by line. */
  function GraphOf(es: seq<(string, seq<string>)>): Graph
  {
    if es == [] then map[] else Join(GraphOf(es[..|es| - 1]), es[|es| - 1].0, es[|es| - 1].1)
  }

  /** `parse`: the connections of the puzzle input, `None` if a line is malformed. */
  function Connections(raw: string): Option<Graph>
  {
    var es := Entries(raw);
    if es.None? then None else Some(GraphOf(es.value))
  }

  /** A device has an entry exactly when some line names it as the source. */
  lemma {:induction false} GraphOfKeys(es: seq<(string, seq<string>)>)
    ensures forall n :: n in GraphOf(es) <==> exists k :: 0 <= k < |es| && es[k].0 == n
  {
    if es != [] {
      var i := |es| - 1;
      var init := es[..i];
      GraphOfKeys(init);
      forall n ensures n in GraphOf(es) <==> exists k :: 0 <= k < |es| && es[k].0 == n {
        if n in GraphOf(init) {
          var k :| 0 <= k < |init| && init[k].0 == n;
          assert es[k].0 == n;
        }
        if exists k :: 0 <= k < |es| && es[k].0 == n {
          var k :| 0 <= k < |es| && es[k].0 == n;
          if k < i {
            assert init[k].0 == n;
          }
        }
      }
    }
  }

  /** A repeated source gets the union of all its lines: a device feeds `d` exactly when some line for it lists `d`. */
  lemma {:induction false} GraphOfUnion(es: seq<(string, seq<string>)>)
    ensures forall n, d :: d in Succ(GraphOf(es), n) <==> exists k :: 0 <= k < |es| && es[k].0 == n && d in es[k].1
  {
    if es != [] {
      var i := |es| - 1;
      var init := es[..i];
      GraphOfUnion(init);
      forall n, d ensures d in Succ(GraphOf(es), n) <==> exists k :: 0 <= k < |es| && es[k].0 == n && d in es[k].1 {
        if d in Succ(GraphOf(init), n) {
          var k :| 0 <= k < |init| && init[k].0 == n && d in init[k].1;
          assert es[k].0 == n && d in es[k].1;
        }
        if exists k :: 0 <= k < |es| && es[k].0 == n && d in es[k].1 {
          var k :| 0 <= k < |es| && es[k].0 == n && d in es[k].1;
          if k < i {
            assert init[k].0 == n && d in init[k].1;
          }
        }
      }
    }
  }

  /** The loop of `parse`. */
  method Parse(raw: string) returns (conns: Option<Graph>)
    ensures conns == Connections(raw)
  {
    var ls := Lines(raw);
    ghost var ps := seq(|ls|, k requires 0 <= k < |ls| => ParseLine(ls[k]));
    ghost var es: seq<(string, seq<string>)> := [];
    var g: Graph := map[];
    for k := 0 to |ls|
      invariant |es| == k && g == GraphOf(es)
      invariant forall i :: 0 <= i < k ==> ps[i] == Some(es[i])
    {
      var parts := Split(ls[k], ": ");
      if |parts| != 2 {
        AllSomeMissing(ps, k);
        return None;
      }
      var src, dsts := parts[0], Words(parts[1]);
      assert ps[k] == Some((src, dsts));
      ghost var next := es + [(src, dsts)];
      assert next[..k] == es;
      assert forall i :: 0 <= i < k + 1 ==> ps[i] == Some(next[i]) by {
        forall i | 0 <= i < k + 1 ensures ps[i] == Some(next[i]) {
          if i < k {
            assert next[i] == es[i];
          }
        }
      }
      g := Join(g, src, dsts);
      es := next;
    }
    assert AllSome(ps) == Some(es) by {
      var r := AllSome(ps);
      assert r.Some?;
      assert r.value == es;
    }
    conns := Some(g);
  }

  // --------------------------------------------------------------- paths

  /** `rank[n]`, 0 for a device without a rank. */
  function Height(rank: map<string, nat>, n: string): nat
  {
    if n in rank then rank[n] else 0
  }

  /**
   * The connections are acyclic, witnessed by a rank that falls along every connection
   * leaving a device other than "out" (the search never follows those).
   */
  predicate Ranked(g: Graph, rank: map<string, nat>)
  {
    forall src, d :: src in g && src != Out && d in g[src] ==> Height(rank, d) < Height(rank, src)
  }

  /**
   * `dfs(node, state)` without the memo: the paths from `node` to "out" whose state,
   * advanced by `step` at every device after `node`, is accepted.
   */
  ghost function Count<S>(g: Graph, rank: map<string, nat>, step: (string, S) -> S, accept: S -> bool, node: string, s: S): nat
    requires Ranked(g, rank)
    decreases Height(rank, node), 1
  {
    if node == Out then (if accept(s) then 1 else 0)
    else CountOver(g, rank, step, accept, node, s, Succ(g, node))
  }

  /** The part of the `total` of `dfs(node, state)` that comes from the devices `nexts`. */
  ghost function CountOver<S>(g: Graph, rank: map<string, nat>, step: (string, S) -> S, accept: S -> bool, node: string, s: S, nexts: set<string>): nat
    requires Ranked(g, rank) && node != Out && nexts <= Succ(g, node)
    decreases Height(rank, node), 0, |nexts|
  {
    if nexts == {} then 0
    else
      var x :| x in nexts;
      Count(g, rank, step, accept, x, step(x, s)) + CountOver(g, rank, step, accept, node, s, nexts - {x})
  }

  /** The order in which a set is visited does not change the total. */
  lemma {:induction false} CountOverPick<S>(g: Graph, rank: map<string, nat>, step: (string, S) -> S, accept: S -> bool, node: string, s: S, nexts: set<string>, x: string)
    requires Ranked(g, rank) && node != Out && nexts <= Succ(g, node) && x in nexts
    ensures CountOver(g, rank, step, accept, node, s, nexts) ==
      Count(g, rank, step, accept, x, step(x, s)) + CountOver(g, rank, step, accept, node, s, nexts - {x})
    decreases |nexts|
  {
    var y :| y in nexts && CountOver(g, rank, step, accept, node, s, nexts) ==
      Count(g, rank, step, accept, y, step(y, s)) + CountOver(g, rank, step, accept, node, s, nexts - {y});
    if y != x {
      CountOverPick(g, rank, step, accept, node, s, nexts - {y}, x);
      CountOverPick(g, rank, step, accept, node, s, nexts - {x}, y);
      assert nexts - {y} - {x} == nexts - {x} - {y};
    }
  }

  // -------------------------------------------------------------- walks

  /** A path along the connections that ends at "out" and does not pass it before. */
  ghost predicate Walk(g: Graph, p: seq<string>)
  {
    |p| >= 1 && p[|p| - 1] == Out &&
    forall i :: 0 <= i < |p| - 1 ==> p[i] != Out && p[i + 1] in Succ(g, p[i])
  }

  /** The state after `step` at each device of `p`, in order. */
  function Run<S>(step: (string, S) -> S, s: S, p: seq<string>): S
  {
    if p == [] then s else Run(step, step(p[0], s), p[1..])
  }

  /** The walks `dfs(node, state)` counts. */
  ghost predicate Counted<S>(g: Graph, step: (string, S) -> S, accept: S -> bool, node: string, s: S, p: seq<string>)
  {
    Walk(g, p) && p[0] == node && accept(Run(step, s, p[1..]))
  }

  /** The walks of `P` with `n` put before them. */
  ghost function Extend(n: string, P: set<seq<string>>): set<seq<string>>
  {
    set p | p in P :: [n] + p
  }

  /** Putting a device first keeps walks apart. */
  lemma {:induction false} ExtendCard(n: string, P: set<seq<string>>)
    ensures |Extend(n, P)| == |P|
    decreases |P|
  {
    if P != {} {
      var q :| q in P;
      ExtendCard(n, P - {q});
      assert Extend(n, P) == Extend(n, P - {q}) + {[n] + q};
      forall r | r in P - {q} ensures [n] + r != [n] + q {
        assert ([n] + r)[1..] == r && ([n] + q)[1..] == q;
      }
      assert [n] + q !in Extend(n, P - {q});
    }
  }

  /** The walks `dfs(node, state)` counts, collected the way `dfs` sums them. */
  ghost function Walks<S>(g: Graph, rank: map<string, nat>, step: (string, S) -> S, accept: S -> bool, node: string, s: S): set<seq<string>>
    requires Ranked(g, rank)
    decreases Height(rank, node), 1
  {
    if node == Out then (if accept(s) then {[Out]} else {})
    else WalksOver(g, rank, step, accept, node, s, Succ(g, node))
  }

  ghost function WalksOver<S>(g: Graph, rank: map<string, nat>, step: (string, S) -> S, accept: S -> bool, node: string, s: S, nexts: set<string>): set<seq<string>>
    requires Ranked(g, rank) && node != Out && nexts <= Succ(g, node)
    decreases Height(rank, node), 0, |nexts|
  {
    if nexts == {} then {}
    else
      var x :| x in nexts;
      Extend(node, Walks(g, rank, step, accept, x, step(x, s))) + WalksOver(g, rank, step, accept, node, s, nexts - {x})
  }

  /** A walk from `node` is `node` followed by a walk from one of its devices. */
  lemma WalkSplit(g: Graph, node: string, p: seq<string>)
    requires |p| >= 2 && p[0] == node
    ensures Walk(g, p) <==> node != Out && p[1] in Succ(g, node) && Walk(g, p[1..])
  {
    if Walk(g, p) {
      forall i | 0 <= i < |p[1..]| - 1 ensures p[1..][i] != Out && p[1..][i + 1] in Succ(g, p[1..][i]) {
        assert p[1..][i] == p[i + 1] && p[1..][i + 1] == p[i + 2];
      }
    }
    if node != Out && p[1] in Succ(g, node) && Walk(g, p[1..]) {
      forall i | 0 <= i < |p| - 1 ensures p[i] != Out && p[i + 1] in Succ(g, p[i]) {
        if i > 0 {
          assert p[1..][i - 1] == p[i] && p[1..][i] == p[i + 1];
        }
      }
    }
  }

  /** The walks collected from the devices `nexts`. */
  lemma {:induction false} WalksOverMembers<S>(g: Graph, rank: map<string, nat>, step: (string, S) -> S, accept: S -> bool, node: string, s: S, nexts: set<string>, p: seq<string>)
    requires Ranked(g, rank) && node != Out && nexts <= Succ(g, node)
    ensures p in WalksOver(g, rank, step, accept, node, s, nexts) <==>
      |p| >= 2 && p[0] == node && p[1] in nexts && p[1..] in Walks(g, rank, step, accept, p[1], step(p[1], s))
    decreases Height(rank, node), 0, |nexts|
  {
    if nexts != {} {
      var x :| x in nexts && WalksOver(g, rank, step, accept, node, s, nexts) ==
        Extend(node, Walks(g, rank, step, accept, x, step(x, s))) + WalksOver(g, rank, step, accept, node, s, nexts - {x});
      WalksOverMembers(g, rank, step, accept, node, s, nexts - {x}, p);
      if p in Extend(node, Walks(g, rank, step, accept, x, step(x, s))) {
        var q :| q in Walks(g, rank, step, accept, x, step(x, s)) && p == [node] + q;
        WalksNonEmpty(g, rank, step, accept, x, step(x, s), q);
        assert p[1..] == q && p[1] == x;
      }
      if |p| >= 2 && p[0] == node && p[1] == x && p[1..] in Walks(g, rank, step, accept, x, step(x, s)) {
        assert p == [node] + p[1..];
      }
    }
  }

  lemma WalksNonEmpty<S>(g: Graph, rank: map<string, nat>, step: (string, S) -> S, accept: S -> bool, node: string, s: S, p: seq<string>)
    requires Ranked(g, rank) && p in Walks(g, rank, step, accept, node, s)
    ensures |p| >= 1 && p[0] == node
    decreases Height(rank, node), 1
  {
    if node != Out {
      WalksOverMembers(g, rank, step, accept, node, s, Succ(g, node), p);
    }
  }

  /** The walks collected are exactly the walks `dfs` is meant to count. */
  lemma {:induction false} WalksExact<S>(g: Graph, rank: map<string, nat>, step: (string, S) -> S, accept: S -> bool, node: string, s: S, p: seq<string>)
    requires Ranked(g, rank)
    ensures p in Walks(g, rank, step, accept, node, s) <==> Counted(g, step, accept, node, s, p)
    decreases Height(rank, node)
  {
    if node == Out {
      if Counted(g, step, accept, node, s, p) {
        assert p == [Out];
      }
    } else {
      WalksOverMembers(g, rank, step, accept, node, s, Succ(g, node), p);
      if |p| >= 2 && p[0] == node {
        WalkSplit(g, node, p);
        if p[1] in Succ(g, node) {
          WalksExact(g, rank, step, accept, p[1], step(p[1], s), p[1..]);
          assert Run(step, s, p[1..]) == Run(step, step(p[1], s), p[1..][1..]);
        }
      }
    }
  }

  /** The walks collected from several devices are as many as `CountOver` adds up. */
  lemma {:induction false} WalksOverCard<S>(g: Graph, rank: map<string, nat>, step: (string, S) -> S, accept: S -> bool, node: string, s: S, nexts: set<string>)
    requires Ranked(g, rank) && node != Out && nexts <= Succ(g, node)
    ensures |WalksOver(g, rank, step, accept, node, s, nexts)| == CountOver(g, rank, step, accept, node, s, nexts)
    decreases Height(rank, node), 0, |nexts|
  {
    if nexts != {} {
      var x :| x in nexts && WalksOver(g, rank, step, accept, node, s, nexts) ==
        Extend(node, Walks(g, rank, step, accept, x, step(x, s))) + WalksOver(g, rank, step, accept, node, s, nexts - {x});
      var here := Extend(node, Walks(g, rank, step, accept, x, step(x, s)));
      var rest := WalksOver(g, rank, step, accept, node, s, nexts - {x});
      assert here !! rest by {
        forall p | p in here ensures p !in rest {
          var q :| q in Walks(g, rank, step, accept, x, step(x, s)) && p == [node] + q;
          WalksNonEmpty(g, rank, step, accept, x, step(x, s), q);
          assert p[1] == x;
          WalksOverMembers(g, rank, step, accept, node, s, nexts - {x}, p);
        }
      }
      WalksCard(g, rank, step, accept, x, step(x, s));
      ExtendCard(node, Walks(g, rank, step, accept, x, step(x, s)));
      WalksOverCard(g, rank, step, accept, node, s, nexts - {x});
      CountOverPick(g, rank, step, accept, node, s, nexts, x);
    }
  }

  lemma {:induction false} WalksCard<S>(g: Graph, rank: map<string, nat>, step: (string, S) -> S, accept: S -> bool, node: string, s: S)
    requires Ranked(g, rank)
    ensures |Walks(g, rank, step, accept, node, s)| == Count(g, rank, step, accept, node, s)
    decreases Height(rank, node), 1
  {
    if node != Out {
      WalksOverCard(g, rank, step, accept, node, s, Succ(g, node));
    }
  }

  /**
   * `dfs(node, state)` is the number of walks from `node` to "out" whose state is
   * accepted: the walks collected are exactly those, and there are `Count` of them.
   */
  lemma CountIsWalks<S>(g: Graph, rank: map<string, nat>, step: (string, S) -> S, accept: S -> bool, node: string, s: S)
    requires Ranked(g, rank)
    ensures forall p :: p in Walks(g, rank, step, accept, node, s) <==> Counted(g, step, accept, node, s, p)
    ensures |Walks(g, rank, step, accept, node, s)| == Count(g, rank, step, accept, node, s)
  {
    forall p ensures p in Walks(g, rank, step, accept, node, s) <==> Counted(g, step, accept, node, s, p) {
      WalksExact(g, rank, step, accept, node, s, p);
    }
    WalksCard(g, rank, step, accept, node, s);
  }

  // ------------------------------------------------------------ the search

  /** Every entry of the memo is the count it caches. */
  ghost predicate MemoSound<S>(g: Graph, rank: map<string, nat>, step: (string, S) -> S, accept: S -> bool, memo: map<(string, S), nat>)
    requires Ranked(g, rank)
  {
    forall key :: key in memo ==> memo[key] == Count(g, rank, step, accept, key.0, key.1)
  }

  /** `dfs` with its memo, threaded through the calls. */
  method Dfs<S(==)>(g: Graph, ghost rank: map<string, nat>, step: (string, S) -> S, accept: S -> bool,
                    node: string, s: S, memo: map<(string, S), nat>)
    returns (res: nat, memo': map<(string, S), nat>)
    requires Ranked(g, rank) && MemoSound(g, rank, step, accept, memo)
    ensures res == Count(g, rank, step, accept, node, s)
    ensures MemoSound(g, rank, step, accept, memo') && memo.Keys <= memo'.Keys
    decreases Height(rank, node)
  {
    if (node, s) in memo {
      return memo[(node, s)], memo;
    }
    if node == Out {
      res := if accept(s) then 1 else 0;
      return res, memo[(node, s) := res];
    }
    var total := 0;
    var rest := Succ(g, node);
    memo' := memo;
    while rest != {}
      invariant rest <= Succ(g, node) && memo.Keys <= memo'.Keys
      invariant MemoSound(g, rank, step, accept, memo')
      invariant total + CountOver(g, rank, step, accept, node, s, rest) == Count(g, rank, step, accept, node, s)
      decreases |rest|
    {
      var nxt :| nxt in rest;
      CountOverPick(g, rank, step, accept, node, s, rest, nxt);
      var r;
      r, memo' := Dfs(g, rank, step, accept, nxt, step(nxt, s), memo');
      total := total + r;
      rest := rest - {nxt};
    }
    res := total;
    memo' := memo'[(node, s) := total];
  }

  /** `count_paths`: `dfs(start, init)` with an empty memo. */
  method CountPaths<S(==)>(g: Graph, ghost rank: map<string, nat>, start: string, init: S, step: (string, S) -> S, accept: S -> bool)
    returns (n: nat)
    requires Ranked(g, rank)
    ensures n == Count(g, rank, step, accept, start, init)
  {
    var memo;
    n, memo := Dfs(g, rank, step, accept, start, init, map[]);
  }

  // --------------------------------------------------------------- parts

  /** Part 1 keeps no state and accepts every path. */
  function Keep(n: string, u: ()): () { u }
  function Always(u: ()): bool { true }

  /** Part 2 remembers whether "fft" and "dac" have been seen. */
  function Seen(n: string, f: (bool, bool)): (bool, bool)
  {
    (f.0 || n == "fft", f.1 || n == "dac")
  }

  function Both(f: (bool, bool)): bool { f.0 && f.1 }

  /** The flags only switch on, and each is on exactly when its device has been passed. */
  lemma {:induction false} SeenRun(f: (bool, bool), p: seq<string>)
    ensures Run(Seen, f, p) == (f.0 || "fft" in p, f.1 || "dac" in p)
    decreases |p|
  {
    if p != [] {
      SeenRun(Seen(p[0], f), p[1..]);
      assert p == [p[0]] + p[1..];
    }
  }

  /** Part 1 counts every walk from "you" to "out". */
  lemma Part1Counts(g: Graph, rank: map<string, nat>)
    requires Ranked(g, rank)
    ensures forall p :: p in Walks(g, rank, Keep, Always, "you", ()) <==> Walk(g, p) && p[0] == "you"
    ensures |Walks(g, rank, Keep, Always, "you", ())| == Count(g, rank, Keep, Always, "you", ())
  {
    CountIsWalks(g, rank, Keep, Always, "you", ());
  }

  /** Part 2 counts the walks from "svr" to "out" that pass through "fft" and "dac". */
  lemma Part2Counts(g: Graph, rank: map<string, nat>)
    requires Ranked(g, rank)
    ensures forall p :: p in Walks(g, rank, Seen, Both, "svr", (false, false)) <==>
      Walk(g, p) && p[0] == "svr" && "fft" in p && "dac" in p
    ensures |Walks(g, rank, Seen, Both, "svr", (false, false))| == Count(g, rank, Seen, Both, "svr", (false, false))
  {
    CountIsWalks(g, rank, Seen, Both, "svr", (false, false));
    forall p | |p| >= 1 && p[0] == "svr"
      ensures Both(Run(Seen, (false, false), p[1..])) <==> "fft" in p && "dac" in p
    {
      SeenRun((false, false), p[1..]);
      assert p == [p[0]] + p[1..];
    }
  }

  method SolvePart1(raw: string, ghost rank: map<string, nat>) returns (n: nat)
    requires Connections(raw).Some? && Ranked(Connections(raw).value, rank)
    ensures n == Count(Connections(raw).value, rank, Keep, Always, "you", ())
  {
    var g := Parse(raw);
    n := CountPaths(g.value, rank, "you", (), Keep, Always);
  }

  method SolvePart2(raw: string, ghost rank: map<string, nat>) returns (n: nat)
    requires Connections(raw).Some? && Ranked(Connections(raw).value, rank)
    ensures n == Count(Connections(raw).value, rank, Seen, Both, "svr", (false, false))
  {
    var g := Parse(raw);
    n := CountPaths(g.value, rank, "svr", (false, false), Seen, Both);
  }

  // ------------------------------------------------------------ examples

  /** A device feeding one device passes its count on. */
  lemma CountOne<S>(g: Graph, rank: map<string, nat>, step: (string, S) -> S, accept: S -> bool, node: string, s: S, a: string)
    requires Ranked(g, rank) && node != Out && Succ(g, node) == {a}
    ensures Count(g, rank, step, accept, node, s) == Count(g, rank, step, accept, a, step(a, s))
  {
    CountOverPick(g, rank, step, accept, node, s, {a}, a);
    assert {a} - {a} == {};
  }

  /** A device feeding two devices adds their counts. */
  lemma CountTwo<S>(g: Graph, rank: map<string, nat>, step: (string, S) -> S, accept: S -> bool, node: string, s: S, a: string, b: string)
    requires Ranked(g, rank) && node != Out && Succ(g, node) == {a, b} && a != b
    ensures Count(g, rank, step, accept, node, s) ==
      Count(g, rank, step, accept, a, step(a, s)) + Count(g, rank, step, accept, b, step(b, s))
  {
    CountOverPick(g, rank, step, accept, node, s, {a, b}, a);
    assert {a, b} - {a} == {b};
    CountOverPick(g, rank, step, accept, node, s, {b}, b);
    assert {b} - {b} == {};
  }

  /** A device feeding three devices adds their counts. */
  lemma CountThree<S>(g: Graph, rank: map<string, nat>, step: (string, S) -> S, accept: S -> bool, node: string, s: S, a: string, b: string, c: string)
    requires Ranked(g, rank) && node != Out && Succ(g, node) == {a, b, c} && a != b && b != c && a != c
    ensures Count(g, rank, step, accept, node, s) ==
      Count(g, rank, step, accept, a, step(a, s)) + Count(g, rank, step, accept, b, step(b, s)) + Count(g, rank, step, accept, c, step(c, s))
  {
    CountOverPick(g, rank, step, accept, node, s, {a, b, c}, a);
    assert {a, b, c} - {a} == {b, c};
    CountOverPick(g, rank, step, accept, node, s, {b, c}, b);
    assert {b, c} - {b} == {c};
    CountOverPick(g, rank, step, accept, node, s, {c}, c);
    assert {c} - {c} == {};
  }

  /** The connections of the first example of tests/year2025/test_day11.py. */
  const Example1: Graph := map[
    "aaa" := {"you", "hhh"}, "you" := {"bbb", "ccc"}, "bbb" := {"ddd", "eee"},
    "ccc" := {"ddd", "eee", "fff"}, "ddd" := {"ggg"}, "eee" := {"out"}, "fff" := {"out"},
    "ggg" := {"out"}, "hhh" := {"ccc", "fff", "iii"}, "iii" := {"out"}]

  const Rank1: map<string, nat> := map[
    "aaa" := 5, "you" := 4, "hhh" := 4, "bbb" := 3, "ccc" := 3, "ddd" := 2,
    "eee" := 1, "fff" := 1, "ggg" := 1, "iii" := 1, "out" := 0]

  /** The first example is acyclic. */
  lemma Example1Ranked(g: Graph, rank: map<string, nat>)
    requires g == Example1 && rank == Rank1
    ensures Ranked(g, rank)
  {
  }

  /** Its devices as the counting sees them. */
  lemma Example1Succ(g: Graph)
    requires g == Example1
    ensures Succ(g, "eee") == Succ(g, "fff") == Succ(g, "ggg") == {"out"} && Succ(g, "ddd") == {"ggg"}
    ensures Succ(g, "bbb") == {"ddd", "eee"} && Succ(g, "ccc") == {"ddd", "eee", "fff"} && Succ(g, "you") == {"bbb", "ccc"}
  {
  }

  /** Five paths lead from "you" to "out" in the first example. */
  lemma Part1Example(g: Graph, rank: map<string, nat>)
    requires g == Example1 && rank == Rank1
    ensures Ranked(g, rank) && Count(g, rank, Keep, Always, "you", ()) == 5
  {
    Example1Ranked(g, rank);
    Example1Succ(g);
    var u := ();
    CountOne(g, rank, Keep, Always, "eee", u, "out");
    CountOne(g, rank, Keep, Always, "fff", u, "out");
    CountOne(g, rank, Keep, Always, "ggg", u, "out");
    CountOne(g, rank, Keep, Always, "ddd", u, "ggg");
    CountTwo(g, rank, Keep, Always, "bbb", u, "ddd", "eee");
    CountThree(g, rank, Keep, Always, "ccc", u, "ddd", "eee", "fff");
    CountTwo(g, rank, Keep, Always, "you", u, "bbb", "ccc");
  }

  /** The connections of the second example of tests/year2025/test_day11.py. */
  const Example2: Graph := map[
    "svr" := {"aaa", "bbb"}, "aaa" := {"fft"}, "fft" := {"ccc"}, "bbb" := {"tty"},
    "tty" := {"ccc"}, "ccc" := {"ddd", "eee"}, "ddd" := {"hub"}, "hub" := {"fff"},
    "eee" := {"dac"}, "dac" := {"fff"}, "fff" := {"ggg", "hhh"}, "ggg" := {"out"},
    "hhh" := {"out"}]

  const Rank2: map<string, nat> := map[
    "svr" := 9, "aaa" := 8, "bbb" := 8, "fft" := 7, "tty" := 7, "ccc" := 6, "ddd" := 5,
    "eee" := 5, "hub" := 4, "dac" := 4, "fff" := 3, "ggg" := 2, "hhh" := 2, "out" := 0]

  /** The second example is acyclic. */
  lemma Example2Ranked(g: Graph, rank: map<string, nat>)
    requires g == Example2 && rank == Rank2
    ensures Ranked(g, rank)
  {
  }

  /** Its devices as the counting sees them. */
  lemma Example2Succ(g: Graph)
    requires g == Example2
    ensures Succ(g, "svr") == {"aaa", "bbb"} && Succ(g, "aaa") == {"fft"} && Succ(g, "fft") == {"ccc"}
    ensures Succ(g, "bbb") == {"tty"} && Succ(g, "tty") == {"ccc"} && Succ(g, "ccc") == {"ddd", "eee"}
    ensures Succ(g, "ddd") == {"hub"} && Succ(g, "hub") == {"fff"} && Succ(g, "eee") == {"dac"}
    ensures Succ(g, "dac") == {"fff"} && Succ(g, "fff") == {"ggg", "hhh"}
    ensures Succ(g, "ggg") == {"out"} && Succ(g, "hhh") == {"out"}
  {
  }

  /** From "fff" on, each flag setting gives both endings or none. */
  lemma Example2Tail(g: Graph, rank: map<string, nat>, f: (bool, bool))
    requires Ranked(g, rank)
    requires Succ(g, "fff") == {"ggg", "hhh"} && Succ(g, "ggg") == {"out"} && Succ(g, "hhh") == {"out"}
    ensures Count(g, rank, Seen, Both, "fff", f) == if Both(f) then 2 else 0
  {
    CountOne(g, rank, Seen, Both, "ggg", f, "out");
    CountOne(g, rank, Seen, Both, "hhh", f, "out");
    CountTwo(g, rank, Seen, Both, "fff", f, "ggg", "hhh");
  }

  /** The connections of the second example below "svr". */
  predicate Example2Shape(g: Graph)
  {
    Succ(g, "aaa") == {"fft"} && Succ(g, "fft") == {"ccc"} &&
    Succ(g, "bbb") == {"tty"} && Succ(g, "tty") == {"ccc"} && Succ(g, "ccc") == {"ddd", "eee"} &&
    Succ(g, "ddd") == {"hub"} && Succ(g, "hub") == {"fff"} && Succ(g, "eee") == {"dac"} &&
    Succ(g, "dac") == {"fff"} && Succ(g, "fff") == {"ggg", "hhh"} &&
    Succ(g, "ggg") == {"out"} && Succ(g, "hhh") == {"out"}
  }

  /** Through "aaa" and "fft", the two paths by "dac" are counted. */
  lemma Example2Through(g: Graph, rank: map<string, nat>)
    requires Ranked(g, rank) && Example2Shape(g)
    ensures Count(g, rank, Seen, Both, "aaa", (false, false)) == 2
  {
    var tf, tt, ff := (true, false), (true, true), (false, false);
    Example2Tail(g, rank, tf);
    Example2Tail(g, rank, tt);
    CountOne(g, rank, Seen, Both, "hub", tf, "fff");
    CountOne(g, rank, Seen, Both, "ddd", tf, "hub");
    CountOne(g, rank, Seen, Both, "dac", tt, "fff");
    CountOne(g, rank, Seen, Both, "eee", tf, "dac");
    CountTwo(g, rank, Seen, Both, "ccc", tf, "ddd", "eee");
    CountOne(g, rank, Seen, Both, "fft", tf, "ccc");
    CountOne(g, rank, Seen, Both, "aaa", ff, "fft");
  }

  /** Through "bbb" no path passes "fft", so none is counted. */
  lemma Example2Around(g: Graph, rank: map<string, nat>)
    requires Ranked(g, rank) && Example2Shape(g)
    ensures Count(g, rank, Seen, Both, "bbb", (false, false)) == 0
  {
    var ff, ft := (false, false), (false, true);
    Example2Tail(g, rank, ff);
    Example2Tail(g, rank, ft);
    CountOne(g, rank, Seen, Both, "hub", ff, "fff");
    CountOne(g, rank, Seen, Both, "ddd", ff, "hub");
    CountOne(g, rank, Seen, Both, "dac", ft, "fff");
    CountOne(g, rank, Seen, Both, "eee", ff, "dac");
    CountTwo(g, rank, Seen, Both, "ccc", ff, "ddd", "eee");
    CountOne(g, rank, Seen, Both, "tty", ff, "ccc");
    CountOne(g, rank, Seen, Both, "bbb", ff, "tty");
  }

  /** Two of the paths from "svr" to "out" in the second example pass "fft" and "dac". */
  lemma Part2Example(g: Graph, rank: map<string, nat>)
    requires g == Example2 && rank == Rank2
    ensures Ranked(g, rank) && Count(g, rank, Seen, Both, "svr", (false, false)) == 2
  {
    Example2Ranked(g, rank);
    Example2Succ(g);
    Example2Through(g, rank);
    Example2Around(g, rank);
    CountTwo(g, rank, Seen, Both, "svr", (false, false), "aaa", "bbb");
  }
}
