/**
  The control-flow part of a procedure, as global code motion sees it.

  A control node has one control predecessor, except for `Entry` (none), `Region`
  (any number) and `Loop` (the entering edge at input 0, the back edge at input 1).
  Id 0 is the nil node: a `Region` input or a back edge that has been folded away.
 */
module ControlGraph {
  type Id = nat

  datatype Kind =
    | Entry | Then | Else | Region | Loop | CallEnd           // open a basic block
    | If | Jump | Trap | Call | Always | Return               // close a basic block

  datatype Ctrl = Ctrl(kind: Kind, inputs: seq<Id>)

  /** `rank` witnesses that the edges other than loop back edges form no cycle. */
  datatype RawCfg = RawCfg(entry: Id, nodes: map<Id, Ctrl>, rank: map<Id, nat>)

  predicate StartsBlock(k: Kind) {
    k in {Entry, Then, Else, Region, Loop, CallEnd}
  }

  /** m -> n is an edge other than a loop back edge. */
  predicate ForwardEdge(g: RawCfg, m: Id, n: Id) {
    m != 0 && m in g.nodes && n in g.nodes &&
    var c := g.nodes[n];
    if c.kind == Entry then false
    else if c.kind == Region then m in c.inputs
    else |c.inputs| > 0 && c.inputs[0] == m
  }

  predicate BackEdge(g: RawCfg, m: Id, n: Id) {
    m != 0 && m in g.nodes && n in g.nodes &&
    g.nodes[n].kind == Loop && |g.nodes[n].inputs| > 1 && g.nodes[n].inputs[1] == m
  }

  predicate Edge(g: RawCfg, m: Id, n: Id) {
    ForwardEdge(g, m, n) || BackEdge(g, m, n)
  }

  predicate WellFormedNode(g: RawCfg, n: Id)
    requires n in g.nodes
  {
    var c := g.nodes[n];
    if c.kind == Entry then
      n == g.entry && c.inputs == []
    else if c.kind == Region then
      |c.inputs| > 1 &&
      (exists i :: 0 <= i < |c.inputs| && c.inputs[i] != 0) &&
      (forall i :: 0 <= i < |c.inputs| && c.inputs[i] != 0 ==> c.inputs[i] in g.nodes)
    else
      |c.inputs| == (if c.kind == Loop then 2 else 1) && c.inputs[0] != 0 && c.inputs[0] in g.nodes &&
      (c.kind == Loop && c.inputs[1] != 0 ==> c.inputs[1] in g.nodes)
  }

  ghost predicate WellFormed(g: RawCfg) {
    && 0 !in g.nodes
    && g.entry in g.nodes && g.nodes[g.entry].kind == Entry
    && g.rank.Keys == g.nodes.Keys
    && (forall n {:trigger WellFormedNode(g, n)} :: n in g.nodes ==> WellFormedNode(g, n))
    && (forall m, n :: ForwardEdge(g, m, n) ==> g.rank[m] < g.rank[n])
  }

  type Cfg = g: RawCfg | WellFormed(g)
    ghost witness RawCfg(1, map[1 := Ctrl(Entry, [])], map[1 := 0])

  // ---- paths and dominance ----

  /** A non-empty walk along control edges. */
  ghost predicate IsWalk(g: Cfg, p: seq<Id>) {
    && |p| > 0 && (forall i :: 0 <= i < |p| ==> p[i] in g.nodes)
    && (forall i :: 0 < i < |p| ==> Edge(g, p[i - 1], p[i]))
  }

  ghost predicate IsWalkFromTo(g: Cfg, p: seq<Id>, a: Id, b: Id) {
    IsWalk(g, p) && p[0] == a && p[|p| - 1] == b
  }

  /** A walk that takes no loop back edge. */
  ghost predicate IsForwardWalk(g: Cfg, p: seq<Id>, a: Id, b: Id) {
    && IsWalkFromTo(g, p, a, b)
    && (forall i :: 0 < i < |p| ==> ForwardEdge(g, p[i - 1], p[i]))
  }

  /** d lies on every walk from the entry to n. */
  ghost predicate Dominates(g: Cfg, d: Id, n: Id) {
    forall p :: IsWalkFromTo(g, p, g.entry, n) ==> d in p
  }

  /** Every loop header dominates the source of its back edge. */
  ghost predicate Reducible(g: Cfg) {
    forall m, n :: BackEdge(g, m, n) ==> Dominates(g, n, m)
  }

  lemma WalkExtends(g: Cfg, p: seq<Id>, a: Id, m: Id, n: Id)
    requires IsWalkFromTo(g, p, a, m) && Edge(g, m, n)
    ensures IsWalkFromTo(g, p + [n], a, n)
  {
  }

  lemma WalkPrefix(g: Cfg, p: seq<Id>, a: Id, k: nat)
    requires IsWalk(g, p) && p[0] == a && k < |p|
    ensures IsWalkFromTo(g, p[..k + 1], a, p[k])
  {
  }

  lemma WalksJoin(g: Cfg, p: seq<Id>, q: seq<Id>, a: Id, m: Id, b: Id)
    requires IsWalkFromTo(g, p, a, m) && IsWalkFromTo(g, q, m, b)
    ensures IsWalkFromTo(g, p + q[1..], a, b)
  {
    var r := p + q[1..];
    forall i | 0 < i < |r| ensures Edge(g, r[i - 1], r[i]) {
      if i >= |p| {
        assert r[i] == q[i - |p| + 1];
        assert r[i - 1] == q[i - |p|];
      }
    }
  }

  lemma ForwardWalksJoin(g: Cfg, p: seq<Id>, q: seq<Id>, a: Id, m: Id, b: Id)
    requires IsForwardWalk(g, p, a, m) && IsForwardWalk(g, q, m, b)
    ensures IsForwardWalk(g, p + q[1..], a, b)
  {
    WalksJoin(g, p, q, a, m, b);
    var r := p + q[1..];
    forall i | 0 < i < |r| ensures ForwardEdge(g, r[i - 1], r[i]) {
      if i >= |p| {
        assert r[i] == q[i - |p| + 1];
        assert r[i - 1] == q[i - |p|];
      }
    }
  }

  /** Ranks strictly grow along a forward walk. */
  lemma {:induction false} ForwardRanksGrow(g: Cfg, p: seq<Id>, i: nat, j: nat)
    requires IsWalk(g, p) && i < j < |p|
    requires forall k :: 0 < k < |p| ==> ForwardEdge(g, p[k - 1], p[k])
    ensures g.rank[p[i]] < g.rank[p[j]]
    decreases j - i
  {
    assert ForwardEdge(g, p[j - 1], p[j]);
    if i < j - 1 {
      ForwardRanksGrow(g, p, i, j - 1);
    }
  }
}
