/**
  Immediate dominators, dominator depths and least common ancestors.

  The functions mirror the code: a `Region`'s immediate dominator is the fold of `Lca`
  over its inputs, and `Lca` climbs from whichever side is deeper. `Depth` is not
  the depth in the dominator tree: a `Region` counts one more than its deepest input.
 */
module Dominators {
  import opened ControlGraph

  function Max(a: nat, b: nat): nat { if a < b then b else a }

  /** Rank of a node, with the nil node below all others. */
  function Rk(g: Cfg, n: Id): nat {
    if n in g.rank then g.rank[n] + 1 else 0
  }

  // ---- depth ----

  function Depth(g: Cfg, n: Id): (d: nat)
    requires (n == 0 || n in g.nodes)
    ensures d > 0
    decreases Rk(g, n), 1, 0
  {
    if n == 0 then 1
    else if g.nodes[n].kind == Entry then 1
    else if g.nodes[n].kind == Region then 1 + MaxDepth(g, n, |g.nodes[n].inputs|)
    else
      assert WellFormedNode(g, n) && ForwardEdge(g, g.nodes[n].inputs[0], n);
      1 + Depth(g, g.nodes[n].inputs[0])
  }

  /** Greatest depth among the first k inputs of the region n. */
  function MaxDepth(g: Cfg, n: Id, k: nat): (d: nat)
    requires n in g.nodes && g.nodes[n].kind == Region && k <= |g.nodes[n].inputs|
    ensures forall i :: 0 <= i < k ==> InputDepth(g, n, i) <= d
    decreases Rk(g, n), 0, k + 1
  {
    if k == 0 then 0
    else Max(MaxDepth(g, n, k - 1), InputDepth(g, n, k - 1))
  }

  function InputDepth(g: Cfg, n: Id, i: nat): nat
    requires n in g.nodes && g.nodes[n].kind == Region && i < |g.nodes[n].inputs|
    decreases Rk(g, n), 0, 0
  {
    var m := g.nodes[n].inputs[i];
    assert WellFormedNode(g, n);
    assert m != 0 ==> ForwardEdge(g, m, n);
    Depth(g, m)
  }

  /** p is one of the longest ways from the entry to n that take no back edge. */
  ghost predicate LongestWalk(g: Cfg, p: seq<Id>, n: Id) {
    IsForwardWalk(g, p, g.entry, n) && forall q :: IsForwardWalk(g, q, g.entry, n) ==> |q| <= |p|
  }

  /** The depth of a node is the number of nodes on a longest walk from the entry to it. */
  lemma {:induction false} DepthIsLongestWalk(g: Cfg, n: Id) returns (p: seq<Id>)
    requires n in g.nodes
    ensures LongestWalk(g, p, n) && |p| == Depth(g, n)
    decreases Rk(g, n)
  {
    if n == g.entry {
      p := [n];
    } else {
      var m := DeepestPredecessor(g, n);
      var q := DepthIsLongestWalk(g, m);
      WalkExtends(g, q, g.entry, m, n);
      p := q + [n];
    }
    forall q | IsForwardWalk(g, q, g.entry, n) ensures |q| <= |p| {
      NoLongerWalk(g, q, n);
    }
  }

  lemma DeepestPredecessor(g: Cfg, n: Id) returns (m: Id)
    requires n in g.nodes && n != g.entry
    ensures ForwardEdge(g, m, n) && Depth(g, n) == 1 + Depth(g, m)
  {
    var c := g.nodes[n];
    assert WellFormedNode(g, n);
    if c.kind == Region {
      var i := DeepestRegionInput(g, n, |c.inputs|);
      m := c.inputs[i];
    } else {
      m := c.inputs[0];
    }
  }

  /** Of inputs of the same depth a node rather than nil. */
  lemma {:induction false} DeepestRegionInput(g: Cfg, n: Id, k: nat) returns (i: nat)
    requires n in g.nodes && g.nodes[n].kind == Region && k <= |g.nodes[n].inputs|
    requires exists j :: 0 <= j < k && g.nodes[n].inputs[j] != 0
    ensures i < k && g.nodes[n].inputs[i] in g.nodes && MaxDepth(g, n, k) == Depth(g, g.nodes[n].inputs[i])
  {
    MaxDepthStep(g, n, k - 1);
    var m := g.nodes[n].inputs[k - 1];
    i := k - 1;
    if j :| 0 <= j < k - 1 && g.nodes[n].inputs[j] != 0 {
      var i' := DeepestRegionInput(g, n, k - 1);
      if m == 0 || Depth(g, m) <= MaxDepth(g, n, k - 1) { i := i'; }
    } else {
      NilDepth(g, n, k - 1);
    }
  }

  lemma {:induction false} NilDepth(g: Cfg, n: Id, k: nat)
    requires n in g.nodes && g.nodes[n].kind == Region && k <= |g.nodes[n].inputs|
    requires forall j :: 0 <= j < k ==> g.nodes[n].inputs[j] == 0
    ensures MaxDepth(g, n, k) <= 1
  {
    if k > 0 {
      NilDepth(g, n, k - 1);
      MaxDepthStep(g, n, k - 1);
    }
  }

  lemma {:induction false} NoLongerWalk(g: Cfg, q: seq<Id>, n: Id)
    requires IsForwardWalk(g, q, g.entry, n)
    ensures |q| <= Depth(g, n)
    decreases |q|
  {
    if |q| > 1 {
      var m := q[|q| - 2];
      assert ForwardEdge(g, q[|q| - 2], q[|q| - 1]);
      NoLongerWalk(g, q[..|q| - 1], m);
      EdgeDeeper(g, m, n);
    }
  }

  lemma EdgeDeeper(g: Cfg, m: Id, n: Id)
    requires ForwardEdge(g, m, n)
    ensures Depth(g, m) < Depth(g, n)
  {
    var c := g.nodes[n];
    if c.kind == Region {
      var i :| 0 <= i < |c.inputs| && c.inputs[i] == m;
      assert InputDepth(g, n, i) <= MaxDepth(g, n, |c.inputs|);
    }
  }

  // ---- immediate dominators and least common ancestors ----

  function Idom(g: Cfg, n: Id): (r: Id)
    requires n in g.nodes
    ensures r == 0 || (r in g.nodes && g.rank[r] < g.rank[n])
    decreases Rk(g, n), 2, 0
  {
    if g.nodes[n].kind == Entry then 0
    else if g.nodes[n].kind == Region then FoldLca(g, n, |g.nodes[n].inputs|)
    else
      assert WellFormedNode(g, n) && ForwardEdge(g, g.nodes[n].inputs[0], n);
      g.nodes[n].inputs[0]
  }

  /** Least common ancestor of the first k inputs of the region n, nil inputs ignored. */
  function FoldLca(g: Cfg, n: Id, k: nat): (r: Id)
    requires n in g.nodes && g.nodes[n].kind == Region && k <= |g.nodes[n].inputs|
    ensures r == 0 || (r in g.nodes && g.rank[r] < g.rank[n])
    decreases Rk(g, n), 1, k
  {
    if k == 0 then 0
    else
      var m := g.nodes[n].inputs[k - 1];
      assert WellFormedNode(g, n);
      assert m != 0 ==> ForwardEdge(g, m, n);
      Lca(g, FoldLca(g, n, k - 1), m)
  }

  function Lca(g: Cfg, a: Id, b: Id): (r: Id)
    requires (a == 0 || a in g.nodes) && (b == 0 || b in g.nodes)
    ensures r == 0 || (r in g.nodes && Rk(g, r) <= Max(Rk(g, a), Rk(g, b)))
    decreases Max(Rk(g, a), Rk(g, b)), 3, Rk(g, a) + Rk(g, b)
  {
    if a == b then a
    else if a == 0 then b
    else if b == 0 then a
    else
      var ia, ib := Idom(g, a), Idom(g, b);
      var da, db := Depth(g, a), Depth(g, b);
      Lca(g, if da >= db then ia else a, if db >= da then ib else b)
  }

  /** n and everything above it: the nodes visited by following `Idom` from n. */
  ghost function Chain(g: Cfg, n: Id): set<Id>
    requires (n == 0 || n in g.nodes)
    decreases Rk(g, n)
  {
    if n == 0 then {} else {n} + Chain(g, Idom(g, n))
  }

  lemma {:induction false} ChainInGraph(g: Cfg, n: Id)
    requires (n == 0 || n in g.nodes)
    ensures forall c :: c in Chain(g, n) ==> c in g.nodes && g.rank[c] <= g.rank[n]
    ensures n != 0 ==> g.entry in Chain(g, n)
    decreases Rk(g, n)
  {
    if n != 0 {
      var i := Idom(g, n);
      ChainInGraph(g, i);
      if i == 0 && n != g.entry { IdomShallower(g, n); }
    }
  }

  /** The parent of a node is strictly shallower, so depth works as a climbing order. */
  lemma {:induction false} IdomShallower(g: Cfg, n: Id)
    requires n in g.nodes && n != g.entry
    ensures Idom(g, n) != 0 && Depth(g, Idom(g, n)) < Depth(g, n)
    decreases Rk(g, n), 2, 0
  {
    var c := g.nodes[n];
    assert WellFormedNode(g, n);
    if c.kind == Region {
      var i :| 0 <= i < |c.inputs| && c.inputs[i] != 0;
      FoldIsMeet(g, n, |c.inputs|, i);
      ParentAboveInput(g, n, i);
      var r := Idom(g, n);
      assert ForwardEdge(g, c.inputs[i], n);
      if r != c.inputs[i] {
        ChainShallower(g, c.inputs[i], r);
      }
      assert InputDepth(g, n, i) <= MaxDepth(g, n, |c.inputs|);
    } else {
      assert ForwardEdge(g, c.inputs[0], n);
    }
  }

  lemma {:induction false} ChainShallower(g: Cfg, n: Id, c: Id)
    requires n in g.nodes && c in Chain(g, n) && c != n
    ensures c in g.nodes && Depth(g, c) < Depth(g, n)
    decreases Rk(g, n), 3, 0
  {
    var i := Idom(g, n);
    assert c in Chain(g, i);
    if n != g.entry {
      IdomShallower(g, n);
      if c != i { ChainShallower(g, i, c); }
    }
  }

  lemma {:induction false} EntryOnChain(g: Cfg, n: Id)
    requires n in g.nodes
    ensures g.entry in Chain(g, n)
    decreases Rk(g, n), 3, 0
  {
    assert WellFormedNode(g, n);
    if n != g.entry {
      IdomShallower(g, n);
      EntryOnChain(g, Idom(g, n));
    }
  }

  /** Dominators are the meet: the ancestors of the LCA are exactly the common ancestors. */
  lemma {:induction false} LcaIsMeet(g: Cfg, a: Id, b: Id)
    requires a in g.nodes && b in g.nodes
    ensures Lca(g, a, b) in g.nodes
    ensures Chain(g, Lca(g, a, b)) == Chain(g, a) * Chain(g, b)
    decreases Max(Rk(g, a), Rk(g, b)), 4, Rk(g, a) + Rk(g, b)
  {
    if a != b {
      var da, db := Depth(g, a), Depth(g, b);
      EntryOnChain(g, a);
      EntryOnChain(g, b);
      if da >= db {
        if a in Chain(g, b) { ChainShallower(g, b, a); }
        if a == g.entry { assert false; }
        IdomShallower(g, a);
      }
      if db >= da {
        if b in Chain(g, a) { ChainShallower(g, a, b); }
        if b == g.entry { assert false; }
        IdomShallower(g, b);
      }
      var a' := if da >= db then Idom(g, a) else a;
      var b' := if db >= da then Idom(g, b) else b;
      LcaIsMeet(g, a', b');
      assert Chain(g, a') * Chain(g, b') == Chain(g, a) * Chain(g, b);
    }
  }

  /** c is above every non-nil one of the first k inputs of the region n. */
  ghost predicate AboveInputs(g: Cfg, n: Id, k: nat, c: Id)
    requires n in g.nodes && g.nodes[n].kind == Region && k <= |g.nodes[n].inputs|
  {
    assert WellFormedNode(g, n);
    forall j :: 0 <= j < k && g.nodes[n].inputs[j] != 0 ==> c in Chain(g, g.nodes[n].inputs[j])
  }

  /** The fold over the first k inputs keeps exactly the ancestors shared by the non-nil ones. */
  ghost predicate FoldMeets(g: Cfg, n: Id, k: nat)
    requires n in g.nodes && g.nodes[n].kind == Region && k <= |g.nodes[n].inputs|
  {
    && FoldLca(g, n, k) in g.nodes
    && (forall c :: c in Chain(g, FoldLca(g, n, k)) <==> AboveInputs(g, n, k, c))
  }

  lemma {:induction false} FoldIsMeet(g: Cfg, n: Id, k: nat, i: nat)
    requires n in g.nodes && g.nodes[n].kind == Region
    requires i < k <= |g.nodes[n].inputs| && g.nodes[n].inputs[i] != 0
    ensures FoldMeets(g, n, k)
    decreases Rk(g, n), 1, k
  {
    var m := g.nodes[n].inputs[k - 1];
    if i' :| 0 <= i' < k - 1 && g.nodes[n].inputs[i'] != 0 {
      FoldIsMeet(g, n, k - 1, i');
      if m != 0 {
        assert WellFormedNode(g, n) && ForwardEdge(g, m, n);
        LcaIsMeet(g, FoldLca(g, n, k - 1), m);
        FoldMeetsBoth(g, n, k);
      } else {
        FoldMeetsNil(g, n, k);
      }
    } else {
      NilFold(g, n, k - 1);
      FoldMeetsFirst(g, n, k);
    }
  }

  lemma FoldMeetsBoth(g: Cfg, n: Id, k: nat)
    requires n in g.nodes && g.nodes[n].kind == Region
    requires 0 < k <= |g.nodes[n].inputs| && FoldMeets(g, n, k - 1)
    requires var m := g.nodes[n].inputs[k - 1];
      m in g.nodes && Lca(g, FoldLca(g, n, k - 1), m) in g.nodes &&
      Chain(g, Lca(g, FoldLca(g, n, k - 1), m)) == Chain(g, FoldLca(g, n, k - 1)) * Chain(g, m)
    ensures FoldMeets(g, n, k)
  {
    var m := g.nodes[n].inputs[k - 1];
    forall c ensures c in Chain(g, FoldLca(g, n, k)) <==> AboveInputs(g, n, k, c) {
      AboveOneMore(g, n, k, c);
    }
  }

  lemma FoldMeetsNil(g: Cfg, n: Id, k: nat)
    requires n in g.nodes && g.nodes[n].kind == Region
    requires 0 < k <= |g.nodes[n].inputs| && FoldMeets(g, n, k - 1) && g.nodes[n].inputs[k - 1] == 0
    ensures FoldMeets(g, n, k)
  {
    assert FoldLca(g, n, k) == FoldLca(g, n, k - 1);
    forall c ensures c in Chain(g, FoldLca(g, n, k)) <==> AboveInputs(g, n, k, c) {
      AboveOneMore(g, n, k, c);
    }
  }

  lemma FoldMeetsFirst(g: Cfg, n: Id, k: nat)
    requires n in g.nodes && g.nodes[n].kind == Region
    requires 0 < k <= |g.nodes[n].inputs| && g.nodes[n].inputs[k - 1] != 0
    requires FoldLca(g, n, k - 1) == 0 && forall j :: 0 <= j < k - 1 ==> g.nodes[n].inputs[j] == 0
    ensures FoldMeets(g, n, k)
  {
    assert WellFormedNode(g, n);
    assert FoldLca(g, n, k) == g.nodes[n].inputs[k - 1];
    forall c ensures c in Chain(g, FoldLca(g, n, k)) <==> AboveInputs(g, n, k, c) {
      AboveOneMore(g, n, k, c);
    }
  }

  lemma AboveOneMore(g: Cfg, n: Id, k: nat, c: Id)
    requires n in g.nodes && g.nodes[n].kind == Region && 0 < k <= |g.nodes[n].inputs|
    ensures WellFormedNode(g, n)
    ensures AboveInputs(g, n, k, c) <==>
      AboveInputs(g, n, k - 1, c) && (g.nodes[n].inputs[k - 1] != 0 ==> c in Chain(g, g.nodes[n].inputs[k - 1]))
  {
    assert WellFormedNode(g, n);
  }

  lemma ParentAboveInput(g: Cfg, n: Id, i: nat)
    requires n in g.nodes && g.nodes[n].kind == Region
    requires i < |g.nodes[n].inputs| && g.nodes[n].inputs[i] != 0 && FoldMeets(g, n, |g.nodes[n].inputs|)
    ensures WellFormedNode(g, n) && Idom(g, n) in g.nodes && Idom(g, n) in Chain(g, g.nodes[n].inputs[i])
  {
    assert WellFormedNode(g, n);
    assert Idom(g, n) in Chain(g, Idom(g, n));
    assert AboveInputs(g, n, |g.nodes[n].inputs|, Idom(g, n));
  }

  lemma {:induction false} NilFold(g: Cfg, n: Id, k: nat)
    requires n in g.nodes && g.nodes[n].kind == Region && k <= |g.nodes[n].inputs|
    requires forall i :: 0 <= i < k ==> g.nodes[n].inputs[i] == 0
    ensures FoldLca(g, n, k) == 0
  {
    if k > 0 { NilFold(g, n, k - 1); }
  }

  /** Ancestors are transitive: the chain of an ancestor is part of the chain. */
  lemma {:induction false} ChainNests(g: Cfg, n: Id, c: Id)
    requires n in g.nodes && c in Chain(g, n)
    ensures c in g.nodes && Chain(g, c) <= Chain(g, n)
    decreases Rk(g, n)
  {
    if c != n { ChainNests(g, Idom(g, n), c); }
  }

  /** Two ancestors of one node are ordered by depth. */
  lemma {:induction false} ChainIsOrdered(g: Cfg, n: Id, a: Id, b: Id)
    requires n in g.nodes && a in Chain(g, n) && b in Chain(g, n)
    ensures a in g.nodes && b in g.nodes
    ensures Depth(g, a) <= Depth(g, b) ==> a in Chain(g, b)
    decreases Rk(g, n)
  {
    ChainNests(g, n, a);
    ChainNests(g, n, b);
    if a == n && b != n {
      ChainShallower(g, n, b);
    } else if a != n && b != n {
      ChainIsOrdered(g, Idom(g, n), a, b);
    }
  }

  // ---- dominance by paths ----

  lemma ParentAbovePredecessor(g: Cfg, m: Id, n: Id)
    requires ForwardEdge(g, m, n)
    ensures Idom(g, n) in Chain(g, m)
  {
    var c := g.nodes[n];
    assert WellFormedNode(g, n);
    if c.kind == Region {
      var i :| 0 <= i < |c.inputs| && c.inputs[i] == m;
      FoldIsMeet(g, n, |c.inputs|, i);
      ParentAboveInput(g, n, i);
    }
  }

  /** Every ancestor of n lies on every walk from the entry to n, back edges included. */
  lemma {:induction false} ChainDominates(g: Cfg, p: seq<Id>, n: Id)
    requires Reducible(g) && IsWalkFromTo(g, p, g.entry, n)
    ensures forall c :: c in Chain(g, n) ==> c in p
    decreases |p|
  {
    if |p| == 1 {
      assert n == g.entry && p[0] == n;
    } else {
      var m := p[|p| - 2];
      var q := p[..|p| - 1];
      assert Edge(g, p[|p| - 2], p[|p| - 1]);
      WalkPrefix(g, p, g.entry, |p| - 2);
      if ForwardEdge(g, m, n) {
        ChainDominates(g, q, m);
        ParentAbovePredecessor(g, m, n);
        ChainNests(g, m, Idom(g, n));
      } else {
        assert Dominates(g, n, m);
        var k :| 0 <= k < |q| && q[k] == n;
        WalkPrefix(g, q, g.entry, k);
        ChainDominates(g, q[..k + 1], n);
      }
    }
  }

  /** A node off the chain can be avoided, without taking any back edge. */
  lemma {:induction false} AvoidingWalk(g: Cfg, n: Id, d: Id) returns (p: seq<Id>)
    requires n in g.nodes && d !in Chain(g, n)
    ensures IsForwardWalk(g, p, g.entry, n) && d !in p
    decreases Rk(g, n)
  {
    if n == g.entry {
      p := [n];
    } else {
      var c := g.nodes[n];
      assert WellFormedNode(g, n);
      var m: Id;
      IdomShallower(g, n);
      if c.kind == Region {
        var i :| 0 <= i < |c.inputs| && c.inputs[i] != 0;
        FoldIsMeet(g, n, |c.inputs|, i);
        assert !AboveInputs(g, n, |c.inputs|, d);
        var j :| 0 <= j < |c.inputs| && c.inputs[j] != 0 && d !in Chain(g, c.inputs[j]);
        m := c.inputs[j];
      } else {
        m := c.inputs[0];
      }
      assert ForwardEdge(g, m, n);
      var q := AvoidingWalk(g, m, d);
      WalkExtends(g, q, g.entry, m, n);
      p := q + [n];
    }
  }

  /** Following `Idom` from n visits exactly the nodes that lie on every walk from the entry to n. */
  lemma IdomChainIsExact(g: Cfg, d: Id, n: Id)
    requires Reducible(g) && n in g.nodes
    ensures d in Chain(g, n) <==> Dominates(g, d, n)
  {
    if d in Chain(g, n) {
      forall p | IsWalkFromTo(g, p, g.entry, n) ensures d in p {
        ChainDominates(g, p, n);
      }
    } else {
      var p := AvoidingWalk(g, n, d);
      assert IsWalkFromTo(g, p, g.entry, n);
    }
  }

  /** The least common ancestor is the nearest common dominator: it dominates both
      nodes, and every node that dominates both dominates it. */
  lemma LcaIsNearestCommonDominator(g: Cfg, a: Id, b: Id)
    requires Reducible(g) && a in g.nodes && b in g.nodes
    ensures var r := Lca(g, a, b);
      && Dominates(g, r, a) && Dominates(g, r, b)
      && (forall d :: Dominates(g, d, a) && Dominates(g, d, b) ==> Dominates(g, d, r))
  {
    var r := Lca(g, a, b);
    LcaIsMeet(g, a, b);
    assert r in Chain(g, r);
    IdomChainIsExact(g, r, a);
    IdomChainIsExact(g, r, b);
    forall d | Dominates(g, d, a) && Dominates(g, d, b) ensures Dominates(g, d, r) {
      IdomChainIsExact(g, d, a);
      IdomChainIsExact(g, d, b);
      IdomChainIsExact(g, d, r);
    }
  }

  // ---- the procedures, with their depth cache ----

  lemma RegionHasInput(g: Cfg, n: Id)
    requires n in g.nodes && g.nodes[n].kind == Region
    ensures |g.nodes[n].inputs| > 0
  {
    assert WellFormedNode(g, n);
  }

  /** The next input lies below the region, and its depth is the next one to compare. */
  lemma MaxDepthStep(g: Cfg, n: Id, k: nat)
    requires n in g.nodes && g.nodes[n].kind == Region && k < |g.nodes[n].inputs|
    ensures var b := g.nodes[n].inputs[k];
      && (b == 0 || b in g.nodes) && Rk(g, b) < Rk(g, n)
      && MaxDepth(g, n, k + 1) == Max(MaxDepth(g, n, k), Depth(g, b)) && (k == 0 ==> MaxDepth(g, n, k) == 0)
  {
    assert WellFormedNode(g, n);
    var b := g.nodes[n].inputs[k];
    assert b != 0 ==> ForwardEdge(g, b, n);
  }

  /** Nothing yet, or the floor and the greatest depth so far. */
  function CachedMax(g: Cfg, n: Id, k: nat, floor: nat): nat
    requires n in g.nodes && g.nodes[n].kind == Region && k <= |g.nodes[n].inputs|
  {
    if k == 0 then 0 else floor + MaxDepth(g, n, k)
  }

  lemma DeeperInput(g: Cfg, n: Id, k: nat, floor: nat, mx: nat, d: nat)
    requires n in g.nodes && g.nodes[n].kind == Region && k < |g.nodes[n].inputs| && mx == CachedMax(g, n, k, floor)
    requires g.nodes[n].inputs[k] == 0 || g.nodes[n].inputs[k] in g.nodes
    requires d == floor + Depth(g, g.nodes[n].inputs[k])
    ensures Max(mx, d) == CachedMax(g, n, k + 1, floor)
  {
    MaxDepthStep(g, n, k);
  }

  /** Both operands of the next step lie below the region. */
  lemma FoldLcaStep(g: Cfg, n: Id, k: nat)
    requires n in g.nodes && g.nodes[n].kind == Region && k < |g.nodes[n].inputs|
    ensures var a, b := FoldLca(g, n, k), g.nodes[n].inputs[k];
      && (a == 0 || a in g.nodes) && (b == 0 || b in g.nodes) && Max(Rk(g, a), Rk(g, b)) < Rk(g, n)
      && FoldLca(g, n, k + 1) == Lca(g, a, b)
  {
    assert WellFormedNode(g, n);
    var b := g.nodes[n].inputs[k];
    assert b != 0 ==> ForwardEdge(g, b, n);
  }

  /** The control graph of a procedure together with the cached dominator depths.
      A cached depth is trusted only while it lies above the floor `minIdepth`. */
  class DominatorCache {
    var cfg: Cfg
    var idepth: map<Id, nat>
    var minIdepth: nat
    var maxIdepth: nat

    ghost predicate Valid()
      reads this
    {
      && minIdepth <= maxIdepth
      && (forall n :: n in idepth ==> idepth[n] <= maxIdepth)
      && (forall n :: n in idepth && idepth[n] > minIdepth ==>
            n in cfg.nodes && idepth[n] == minIdepth + Depth(cfg, n))
    }

    constructor (g: Cfg)
      ensures Valid() && cfg == g && minIdepth == 0
    {
      cfg, idepth, minIdepth, maxIdepth := g, map[], 0, 0;
    }

    /** Raising the floor to the greatest depth handed out so far makes every cached
        depth stale, so the graph may be replaced by any other well-formed one. */
    method InvalidateIdepth(g: Cfg)
      requires Valid()
      modifies this
      ensures Valid() && cfg == g && minIdepth == maxIdepth == old(maxIdepth) && idepth == old(idepth)
    {
      minIdepth := maxIdepth;
      cfg := g;
    }

    method GetIdepth(n: Id) returns (d: nat)
      requires Valid() && (n == 0 || n in cfg.nodes)
      modifies this`idepth, this`maxIdepth
      ensures Valid() && d == minIdepth + Depth(cfg, n)
      decreases Rk(cfg, n), 1, 0
    {
      if n in idepth && idepth[n] > minIdepth {
        return idepth[n];
      }
      if n == 0 {
        return minIdepth + 1;
      }
      var c := cfg.nodes[n];
      assert WellFormedNode(cfg, n);
      if c.kind == Entry {
        d := minIdepth + 1;
      } else if c.kind == Region {
        d := MaxInputIdepth(n);
        d := 1 + d;
      } else {
        assert ForwardEdge(cfg, c.inputs[0], n);
        d := GetIdepth(c.inputs[0]);
        d := 1 + d;
      }
      RememberIdepth(n, d);
    }

    method RememberIdepth(n: Id, d: nat)
      requires Valid() && n in cfg.nodes && d == minIdepth + Depth(cfg, n)
      modifies this`idepth, this`maxIdepth
      ensures Valid() && idepth == old(idepth)[n := d] && maxIdepth == Max(old(maxIdepth), d)
    {
      idepth := idepth[n := d];
      maxIdepth := Max(maxIdepth, d);
    }

    method MaxInputIdepth(n: Id) returns (mx: nat)
      requires Valid() && n in cfg.nodes && cfg.nodes[n].kind == Region
      modifies this`idepth, this`maxIdepth
      ensures Valid() && mx == minIdepth + MaxDepth(cfg, n, |cfg.nodes[n].inputs|)
      decreases Rk(cfg, n), 0, 0
    {
      var inputs := cfg.nodes[n].inputs;
      RegionHasInput(cfg, n);
      mx := 0;
      var k := 0;
      while k < |inputs|
        invariant 0 <= k <= |inputs| && Valid()
        invariant mx == CachedMax(cfg, n, k, minIdepth)
      {
        MaxDepthStep(cfg, n, k);
        var d := GetIdepth(inputs[k]);
        DeeperInput(cfg, n, k, minIdepth, mx, d);
        mx := Max(mx, d);
        k := k + 1;
      }
    }

    method GetIdom(n: Id) returns (r: Id)
      requires Valid() && (n == 0 || n in cfg.nodes)
      modifies this`idepth, this`maxIdepth
      ensures Valid() && r == if n == 0 then 0 else Idom(cfg, n)
      decreases Rk(cfg, n), 2, 0
    {
      if n == 0 {
        return 0;
      }
      var c := cfg.nodes[n];
      assert WellFormedNode(cfg, n);
      if c.kind == Entry {
        r := 0;
      } else if c.kind == Region {
        r := LcaOfInputs(n);
      } else {
        r := c.inputs[0];
      }
    }

    method LcaOfInputs(n: Id) returns (r: Id)
      requires Valid() && n in cfg.nodes && cfg.nodes[n].kind == Region
      modifies this`idepth, this`maxIdepth
      ensures Valid() && r == FoldLca(cfg, n, |cfg.nodes[n].inputs|)
      decreases Rk(cfg, n), 1, 0
    {
      var inputs := cfg.nodes[n].inputs;
      r := 0;
      var k := 0;
      while k < |inputs|
        invariant 0 <= k <= |inputs| && Valid()
        invariant r == FoldLca(cfg, n, k)
      {
        FoldLcaStep(cfg, n, k);
        r := ComputeLca(r, inputs[k]);
        k := k + 1;
      }
    }

    method ComputeLca(a0: Id, b0: Id) returns (r: Id)
      requires Valid() && (a0 == 0 || a0 in cfg.nodes) && (b0 == 0 || b0 in cfg.nodes)
      modifies this`idepth, this`maxIdepth
      ensures Valid() && r == Lca(cfg, a0, b0)
      decreases Max(Rk(cfg, a0), Rk(cfg, b0)), 3, 0
    {
      var a, b := a0, b0;
      while a != b
        invariant Valid() && (a == 0 || a in cfg.nodes) && (b == 0 || b in cfg.nodes)
        invariant Rk(cfg, a) <= Max(Rk(cfg, a0), Rk(cfg, b0)) && Rk(cfg, b) <= Max(Rk(cfg, a0), Rk(cfg, b0))
        invariant Lca(cfg, a, b) == Lca(cfg, a0, b0)
        decreases Rk(cfg, a) + Rk(cfg, b)
      {
        if a == 0 { return b; }
        if b == 0 { return a; }
        var da := GetIdepth(a);
        var db := GetIdepth(b);
        var a', b' := a, b;
        if da >= db { a' := GetIdom(a); }
        if db >= da { b' := GetIdom(b); }
        a, b := a', b';
      }
      return a;
    }
  }
}
