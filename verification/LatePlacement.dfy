/**
  The procedures of late placement, run over one shared array of block ids, and the
  guarantee that no load is moved past a consumer of the memory version it reads.
 */
module LatePlacement {
  import opened ControlGraph
  import opened Dominators
  import opened CodeMotion

  // ---- walking backwards from a block ----

  /** v reaches c without passing `bound` on the way (v itself may be `bound`). */
  ghost predicate BackReach(g: Cfg, v: Id, c: Id, bound: Id) {
    exists q :: BackWalk(g, q, v, c, bound)
  }

  ghost predicate BackWalk(g: Cfg, q: seq<Id>, v: Id, c: Id, bound: Id) {
    IsWalkFromTo(g, q, v, c) && forall i :: 0 < i < |q| ==> q[i] != bound
  }

  /** Everything met before `bound` lies below it, when the start does. */
  lemma {:induction false} BackReachBelowBound(g: Cfg, q: seq<Id>, v: Id, c: Id, bound: Id)
    requires Reducible(g) && BackWalk(g, q, v, c, bound) && bound in Chain(g, c)
    ensures bound in Chain(g, v)
    decreases |q|
  {
    if |q| > 1 {
      var w := q[1];
      assert BackWalk(g, q[1..], w, c, bound);
      BackReachBelowBound(g, q[1..], w, c, bound);
      assert Edge(g, q[0], q[1]);
      if ForwardEdge(g, v, w) {
        ParentAbovePredecessor(g, v, w);
        ChainNests(g, v, Idom(g, w));
      } else {
        assert Dominates(g, w, v);
        IdomChainIsExact(g, w, v);
        ChainNests(g, v, w);
      }
    }
  }

  /** A set holding c and closed under predecessors, except those of `bound`, holds all that is met. */
  lemma {:induction false} ClosedSetHoldsReach(g: Cfg, marked: set<Id>, q: seq<Id>, v: Id, c: Id, bound: Id)
    requires BackWalk(g, q, v, c, bound) && c in marked
    requires forall m, n :: n in marked && n != bound && Edge(g, m, n) ==> m in marked
    ensures v in marked
    decreases |q|
  {
    if |q| > 1 {
      assert BackWalk(g, q[1..], q[1], c, bound);
      ClosedSetHoldsReach(g, marked, q[1..], q[1], c, bound);
      assert Edge(g, q[0], q[1]);
    }
  }

  lemma BackReachStep(g: Cfg, m: Id, n: Id, c: Id, bound: Id)
    requires BackReach(g, n, c, bound) && n != bound && Edge(g, m, n)
    ensures BackReach(g, m, c, bound)
  {
    var q :| BackWalk(g, q, n, c, bound);
    assert BackWalk(g, [m] + q, m, c, bound);
  }

  /** From an ancestor one can walk down without taking a back edge. */
  lemma {:induction false} DescendingWalk(g: Cfg, d: Id, n: Id) returns (p: seq<Id>)
    requires n in g.nodes && d in Chain(g, n)
    ensures IsForwardWalk(g, p, d, n)
    decreases Rk(g, n)
  {
    if d == n {
      p := [n];
    } else {
      var c := g.nodes[n];
      assert WellFormedNode(g, n);
      var m: Id;
      if c.kind == Region {
        var i :| 0 <= i < |c.inputs| && c.inputs[i] != 0;
        m := c.inputs[i];
      } else {
        m := c.inputs[0];
      }
      assert ForwardEdge(g, m, n);
      ParentAbovePredecessor(g, m, n);
      ChainNests(g, m, Idom(g, n));
      var q := DescendingWalk(g, d, m);
      WalkExtends(g, q, d, m, n);
      p := q + [n];
    }
  }

  /** Part of a forward walk from `early` that does not begin there does not come by it later either. */
  lemma ForwardAvoidsStart(g: Cfg, q: seq<Id>, v: Id, low: Id, early: Id)
    requires IsForwardWalk(g, q, v, low) && (v == early || (early in g.rank && g.rank[early] < g.rank[v]))
    ensures BackReach(g, v, low, early)
  {
    forall j | 0 < j < |q| ensures q[j] != early {
      ForwardRanksGrow(g, q, 0, j);
    }
    assert BackWalk(g, q, v, low, early);
  }

  lemma ForwardSuffix(g: Cfg, p: seq<Id>, i: nat, early: Id, mid: Id)
    requires IsForwardWalk(g, p, early, mid) && i < |p|
    ensures IsForwardWalk(g, p[i..], p[i], mid) && (p[i] == early || (early in g.rank && g.rank[early] < g.rank[p[i]]))
  {
    if i > 0 { ForwardRanksGrow(g, p, 0, i); }
  }

  /** A block on a forward walk from `early` to an ancestor of `low` is met when walking back from
      `low` to `early`. */
  lemma OnPathIsMet(g: Cfg, p: seq<Id>, i: nat, early: Id, mid: Id, low: Id)
    requires low in g.nodes && mid in Chain(g, low)
    requires IsForwardWalk(g, p, early, mid) && i < |p|
    ensures BackReach(g, p[i], low, early)
  {
    var w := DescendingWalk(g, mid, low);
    ForwardSuffix(g, p, i, early, mid);
    ForwardWalksJoin(g, p[i..], w, p[i], mid, low);
    ForwardAvoidsStart(g, p[i..] + w[1..], p[i], low, early);
  }

  lemma MutualAncestorsAreEqual(g: Cfg, a: Id, b: Id)
    requires a in g.nodes && b in g.nodes && a in Chain(g, b) && b in Chain(g, a)
    ensures a == b
  {
    if a != b {
      ChainShallower(g, b, a);
      ChainShallower(g, a, b);
    }
  }

  // ---- loads against the consumers of their memory version ----

  /** u overwrites, or hands on, the memory version it reads. */
  predicate Consumes(s: Son, u: Id)
    requires u in s.nodes
  {
    s.nodes[u].isStore || s.nodes[u].class_ == Phi || (u in s.cfg.nodes && s.cfg.nodes[u].kind == Call)
  }

  /** On no forward walk from the load's early block to its final block does u consume the
      memory version before the final block; if it stores there, the order is recorded. */
  ghost predicate ConsumerClear(s: Son, late: map<Id, Id>, antideps: map<Id, seq<Id>>, n: Id, u: Id, k: nat)
    requires IsData(s, n) && n in late && u in s.nodes
  {
    && u in late
    && (s.nodes[u].class_ == Phi ==> HasEdgeBlock(s, u, k))
    && (forall p :: IsForwardWalk(s.cfg, p, Early(s, n), late[n]) && UseBlock(s, late, u, k) in p ==>
          UseBlock(s, late, u, k) == late[n])
    && (s.nodes[u].isStore && late[u] == late[n] ==> u in antideps && n in antideps[u])
  }

  /** u consumes, as its input k, the memory version that the load n reads. */
  predicate RivalOf(s: Son, n: Id, u: Id, k: nat) {
    && IsData(s, n) && s.nodes[n].isLoad && |s.nodes[n].inputs| > 1
    && Uses(s, u, k, s.nodes[n].inputs[1]) && Consumes(s, u)
  }

  ghost predicate LoadsOk(s: Son, late: map<Id, Id>, antideps: map<Id, seq<Id>>)
    requires late.Keys <= s.nodes.Keys
  {
    forall n, u, k :: n in late && RivalOf(s, n, u, k) ==> ConsumerClear(s, late, antideps, n, u, k)
  }

  /** Dependences of n are added to placed nodes, and none is dropped. */
  ghost predicate OnlyRecords(late: map<Id, Id>, antideps: map<Id, seq<Id>>, antideps': map<Id, seq<Id>>, n: Id) {
    && antideps'.Keys <= antideps.Keys + late.Keys
    && (forall u :: u in antideps ==> u in antideps' && antideps[u] <= antideps'[u])
    && (forall u, x :: x != n ==> TimesRecorded(antideps', u, x) == TimesRecorded(antideps, u, x))
  }

  /** How often x is recorded to precede u. */
  function TimesRecorded(antideps: map<Id, seq<Id>>, u: Id, x: Id): nat {
    if u in antideps then multiset(antideps[u])[x] else 0
  }

  /** How often u is among the users. */
  function TimesUser(outs: seq<(Id, nat)>, u: Id): nat {
    if outs == [] then 0
    else TimesUser(outs[..|outs| - 1], u) + if outs[|outs| - 1].0 == u then 1 else 0
  }

  lemma {:induction false} SomeUse(outs: seq<(Id, nat)>, u: Id)
    ensures TimesUser(outs, u) > 0 <==> exists j :: 0 <= j < |outs| && outs[j].0 == u
  {
    if outs != [] {
      var last := |outs| - 1;
      SomeUse(outs[..last], u);
      if j :| 0 <= j < last && outs[j].0 == u { assert outs[..last][j].0 == u; }
    }
  }

  /** Loads stay clear when further nodes are placed and further dependences recorded. */
  lemma LoadsStayClear(s: Son, late: map<Id, Id>, late': map<Id, Id>,
                       antideps: map<Id, seq<Id>>, antideps': map<Id, seq<Id>>, id: Id)
    requires id in s.nodes && id !in late && late.Keys <= s.nodes.Keys
    requires late'.Keys == late.Keys + {id} && forall m :: m in late ==> late'[m] == late[m]
    requires forall u :: u in antideps ==> u in antideps' && antideps[u] <= antideps'[u]
    requires LoadsOk(s, late, antideps)
    requires forall u, k :: RivalOf(s, id, u, k) ==> ConsumerClear(s, late', antideps', id, u, k)
    ensures LoadsOk(s, late', antideps')
  {
    forall n, u, k | n in late' && RivalOf(s, n, u, k)
      ensures ConsumerClear(s, late', antideps', n, u, k)
    {
      if n != id {
        assert ConsumerClear(s, late, antideps, n, u, k);
        assert UseBlock(s, late', u, k) == UseBlock(s, late, u, k);
      }
    }
  }

  /** The heart of the antidependence step. `low` is the block before pulling up, `pulled` the one after
      it and `final` the block chosen at or above that. */
  lemma PulledUpIsClear(g: Cfg, p: seq<Id>, i: nat, early: Id, low: Id, pulled: Id, final: Id)
    requires low in g.nodes && pulled in g.nodes && i < |p| && p[i] in g.nodes
    requires final in Chain(g, pulled) && pulled in Chain(g, low)
    requires BackReach(g, p[i], low, early) ==> pulled in Chain(g, p[i])
    requires IsForwardWalk(g, p, early, final)
    ensures p[i] == final
  {
    ChainNests(g, low, pulled);
    OnPathIsMet(g, p, i, early, final, low);
    ChainNests(g, p[i], pulled);
    ChainInGraph(g, p[i]);
    if i < |p| - 1 { ForwardRanksGrow(g, p, i, |p| - 1); }
  }

  /** A consumer sitting in the final block has pulled the load exactly there. */
  lemma ConsumerInFinalBlock(g: Cfg, early: Id, low: Id, pulled: Id, final: Id)
    requires low in g.nodes && pulled in g.nodes && final in g.nodes
    requires early in Chain(g, final) && final in Chain(g, pulled) && pulled in Chain(g, low)
    requires BackReach(g, final, low, early) ==> pulled in Chain(g, final)
    ensures final == pulled
  {
    ChainNests(g, low, pulled);
    var p := DescendingWalk(g, early, final);
    OnPathIsMet(g, p, |p| - 1, early, final, low);
    MutualAncestorsAreEqual(g, final, pulled);
  }

  /** Moving from a to the LCA of a and b only moves up, and stays below whatever is above both. */
  lemma LcaMovesUp(g: Cfg, a: Id, b: Id, e: Id)
    requires a in g.nodes && b in g.nodes && e in Chain(g, a) && e in Chain(g, b)
    ensures Lca(g, a, b) in g.nodes && e in Chain(g, Lca(g, a, b))
    ensures Lca(g, a, b) in Chain(g, a) && Lca(g, a, b) in Chain(g, b)
  {
    LcaIsMeet(g, a, b);
    assert Lca(g, a, b) in Chain(g, Lca(g, a, b));
  }

  /** Clear of every consumer that the backward walk met. */
  ghost predicate AboveMetRivals(s: Son, late: map<Id, Id>, n: Id, low: Id, pulled: Id)
    requires IsData(s, n)
  {
    forall u, k :: RivalOf(s, n, u, k) ==> AboveRival(s, late, low, Early(s, n), pulled, u, k)
  }

  ghost predicate AboveRival(s: Son, late: map<Id, Id>, low: Id, early: Id, pulled: Id, u: Id, k: nat)
    requires u in s.nodes
  {
    && u in late && (s.nodes[u].class_ == Phi ==> HasEdgeBlock(s, u, k))
    && IsCtrl(s, UseBlock(s, late, u, k))
    && (BackReach(s.cfg, UseBlock(s, late, u, k), low, early) ==> pulled in Chain(s.cfg, UseBlock(s, late, u, k)))
  }

  ghost predicate StoresRecorded(s: Son, late: map<Id, Id>, antideps: map<Id, seq<Id>>, n: Id, b: Id)
    requires IsData(s, n)
  {
    forall u, k :: RivalOf(s, n, u, k) && s.nodes[u].isStore && u in late && late[u] == b ==>
      u in antideps && n in antideps[u]
  }

  // ---- where a node is placed ----

  predicate Used(s: Son, n: Id) { exists u, k :: u in s.nodes && 0 <= k < |s.nodes[u].inputs| && Uses(s, u, k, n) }

  /** Every use of n is placed, and b is above it. */
  ghost predicate AboveUses(s: Son, late: map<Id, Id>, n: Id, b: Id) {
    forall u, k :: Uses(s, u, k, n) ==> u in late && UseReached(s, late, b, u, k)
  }

  /** The lowest control node above all uses; a node without uses stays early. */
  ghost predicate LowestUse(s: Son, late: map<Id, Id>, n: Id, low: Id)
    requires IsData(s, n)
  {
    && IsCtrl(s, low) && Early(s, n) in Chain(s.cfg, low) && AboveUses(s, late, n, low)
    && if Used(s, n) then forall c :: IsCtrl(s, c) && AboveUses(s, late, n, c) ==> c in Chain(s.cfg, low)
       else low == Early(s, n)
  }

  /** The lowest control node at or above that, and above the consumers met on the way back to the early block. */
  ghost predicate LowestClear(s: Son, late: map<Id, Id>, n: Id, low: Id, pulled: Id)
    requires IsData(s, n) && IsCtrl(s, low)
  {
    && IsCtrl(s, pulled) && pulled in Chain(s.cfg, low) && Early(s, n) in Chain(s.cfg, pulled)
    && AboveMetRivals(s, late, n, low, pulled)
    && (forall c :: c in Chain(s.cfg, low) && AboveMetRivals(s, late, n, low, c) ==> c in Chain(s.cfg, pulled))
  }

  /** A block between the early block and all uses, and for a load above the consumers met. */
  ghost predicate Candidate(s: Son, late: map<Id, Id>, n: Id, low: Id, b: Id)
    requires IsData(s, n)
  {
    && IsCtrl(s, b) && StartsBlock(s.cfg.nodes[b].kind) && Early(s, n) in Chain(s.cfg, b)
    && (if Used(s, n) then AboveUses(s, late, n, b) else b == Early(s, n))
    && AboveMetRivals(s, late, n, low, b)
  }

  /** Of all candidates, b lies in the shallowest loop, and of those in as shallow a loop it is the lowest. */
  ghost predicate BestOf(s: Son, loopDepth: map<Id, nat>, late: map<Id, Id>, n: Id, low: Id, b: Id)
    requires IsData(s, n) && loopDepth.Keys == s.cfg.nodes.Keys
  {
    && Candidate(s, late, n, low, b)
    && forall c :: Candidate(s, late, n, low, c) ==>
         loopDepth[b] <= loopDepth[c] && (loopDepth[b] == loopDepth[c] ==> c in Chain(s.cfg, b))
  }

  /** u takes, in the block b, the memory version of the load n and makes another. */
  ghost predicate StoresOver(s: Son, late: map<Id, Id>, n: Id, b: Id, u: Id) {
    (exists k :: RivalOf(s, n, u, k)) && s.nodes[u].isStore && u in late && late[u] == b
  }

  /** Recorded are the stores over the version of n in the block b, once for each time they take it. */
  ghost predicate RecordsOf(s: Son, late: map<Id, Id>, antideps: map<Id, seq<Id>>, n: Id, b: Id)
    requires IsData(s, n)
  {
    forall u :: TimesRecorded(antideps, u, n) == if StoresOver(s, late, n, b, u) then TimesTaken(s, n, u) else 0
  }

  /** How often u takes the memory version that the load n reads. */
  function TimesTaken(s: Son, n: Id, u: Id): nat
    requires IsData(s, n)
  {
    if s.nodes[n].isLoad && |s.nodes[n].inputs| > 1 && s.nodes[n].inputs[1] in s.nodes
    then TimesUser(s.nodes[s.nodes[n].inputs[1]].outs, u) else 0
  }

  lemma StoreIsTaken(s: Son, late: map<Id, Id>, n: Id, b: Id, u: Id)
    requires IsData(s, n) && StoresOver(s, late, n, b, u)
    ensures TimesTaken(s, n, u) > 0
  {
    var k: nat :| RivalOf(s, n, u, k);
    assert WellFormedData(s, n);
    var m := s.nodes[n].inputs[1];
    assert OutsExact(s, m) && (u, k) in s.nodes[m].outs;
    var j :| 0 <= j < |s.nodes[m].outs| && s.nodes[m].outs[j] == (u, k);
    SomeUse(s.nodes[m].outs, u);
  }

  /** The free node n is in place at b, and its order against the stores is recorded. */
  ghost predicate Settled(s: Son, loopDepth: map<Id, nat>, late: map<Id, Id>, antideps: map<Id, seq<Id>>, n: Id, b: Id)
    requires IsData(s, n) && loopDepth.Keys == s.cfg.nodes.Keys
  {
    exists low, pulled :: SettledBelow(s, loopDepth, late, antideps, n, b, low, pulled)
  }

  ghost predicate SettledBelow(s: Son, loopDepth: map<Id, nat>, late: map<Id, Id>, antideps: map<Id, seq<Id>>, n: Id,
                               b: Id, low: Id, pulled: Id)
    requires IsData(s, n) && loopDepth.Keys == s.cfg.nodes.Keys
  {
    && LowestUse(s, late, n, low) && LowestClear(s, late, n, low, pulled)
    && BestOf(s, loopDepth, late, n, low, b) && RecordsOf(s, late, antideps, n, pulled)
  }

  ghost predicate AllSettled(s: Son, loopDepth: map<Id, nat>, late: map<Id, Id>, antideps: map<Id, seq<Id>>)
    requires loopDepth.Keys == s.cfg.nodes.Keys
  {
    && (forall n {:trigger Settled(s, loopDepth, late, antideps, n, late[n])} :: n in late && Free(s, n) ==>
          Settled(s, loopDepth, late, antideps, n, late[n]))
    && (forall u, x :: TimesRecorded(antideps, u, x) > 0 ==> x in late && Free(s, x))
  }

  /** What has been placed stays where it is. */
  ghost predicate Extends(late: map<Id, Id>, late': map<Id, Id>) {
    forall m :: m in late ==> m in late' && late'[m] == late[m]
  }

  lemma UseBlockStays(s: Son, late: map<Id, Id>, late': map<Id, Id>, u: Id, k: nat, b: Id)
    requires Extends(late, late') && u in s.nodes && u in late
    ensures UseReached(s, late', b, u, k) <==> UseReached(s, late, b, u, k)
    ensures (s.nodes[u].class_ == Phi ==> HasEdgeBlock(s, u, k)) ==> UseBlock(s, late', u, k) == UseBlock(s, late, u, k)
  {
  }

  lemma AboveUsesStays(s: Son, late: map<Id, Id>, late': map<Id, Id>, n: Id, low: Id, b: Id)
    requires Extends(late, late') && AboveUses(s, late, n, low)
    ensures AboveUses(s, late', n, b) <==> AboveUses(s, late, n, b)
  {
    forall u: Id, k: nat | Uses(s, u, k, n)
      ensures u in late && (UseReached(s, late', b, u, k) <==> UseReached(s, late, b, u, k))
    {
      UseBlockStays(s, late, late', u, k, b);
    }
  }

  lemma AboveMetRivalsStays(s: Son, late: map<Id, Id>, late': map<Id, Id>, n: Id, low: Id, pulled: Id, b: Id)
    requires Extends(late, late') && IsData(s, n) && AboveMetRivals(s, late, n, low, pulled)
    ensures AboveMetRivals(s, late', n, low, b) <==> AboveMetRivals(s, late, n, low, b)
  {
    forall u: Id, k: nat | RivalOf(s, n, u, k)
      ensures AboveRival(s, late', low, Early(s, n), b, u, k) <==> AboveRival(s, late, low, Early(s, n), b, u, k)
    {
      assert AboveRival(s, late, low, Early(s, n), pulled, u, k);
      UseBlockStays(s, late, late', u, k, b);
    }
  }

  lemma CandidateStays(s: Son, late: map<Id, Id>, late': map<Id, Id>, n: Id, low: Id, pulled: Id, b: Id)
    requires Extends(late, late') && IsData(s, n) && AboveUses(s, late, n, low)
    requires AboveMetRivals(s, late, n, low, pulled)
    ensures Candidate(s, late', n, low, b) <==> Candidate(s, late, n, low, b)
  {
    AboveUsesStays(s, late, late', n, low, b);
    AboveMetRivalsStays(s, late, late', n, low, pulled, b);
  }

  lemma RecordsStay(s: Son, late: map<Id, Id>, late': map<Id, Id>, antideps: map<Id, seq<Id>>,
                    antideps': map<Id, seq<Id>>, n: Id, low: Id, pulled: Id)
    requires Extends(late, late') && IsData(s, n) && AboveMetRivals(s, late, n, low, pulled)
    requires RecordsOf(s, late, antideps, n, pulled)
    requires forall u :: TimesRecorded(antideps', u, n) == TimesRecorded(antideps, u, n)
    ensures RecordsOf(s, late', antideps', n, pulled)
  {
    forall u ensures StoresOver(s, late', n, pulled, u) <==> StoresOver(s, late, n, pulled, u) {
      if k: nat :| RivalOf(s, n, u, k) {
        assert AboveRival(s, late, low, Early(s, n), pulled, u, k);
      }
    }
  }

  /** Placing further nodes does not change which block is the best for n. */
  lemma SettledStays(s: Son, loopDepth: map<Id, nat>, late: map<Id, Id>, late': map<Id, Id>,
                     antideps: map<Id, seq<Id>>, antideps': map<Id, seq<Id>>, n: Id, b: Id)
    requires Extends(late, late') && IsData(s, n) && loopDepth.Keys == s.cfg.nodes.Keys
    requires forall u :: TimesRecorded(antideps', u, n) == TimesRecorded(antideps, u, n)
    requires Settled(s, loopDepth, late, antideps, n, b)
    ensures Settled(s, loopDepth, late', antideps', n, b)
  {
    var low, pulled :| SettledBelow(s, loopDepth, late, antideps, n, b, low, pulled);
    forall c ensures AboveUses(s, late', n, c) <==> AboveUses(s, late, n, c) {
      AboveUsesStays(s, late, late', n, low, c);
    }
    forall c ensures AboveMetRivals(s, late', n, low, c) <==> AboveMetRivals(s, late, n, low, c) {
      AboveMetRivalsStays(s, late, late', n, low, pulled, c);
    }
    forall c ensures Candidate(s, late', n, low, c) <==> Candidate(s, late, n, low, c) {
      CandidateStays(s, late, late', n, low, pulled, c);
    }
    RecordsStay(s, late, late', antideps, antideps', n, low, pulled);
    assert SettledBelow(s, loopDepth, late', antideps', n, b, low, pulled);
  }

  lemma PlacingKeepsSettled(s: Son, loopDepth: map<Id, nat>, late: map<Id, Id>, antideps: map<Id, seq<Id>>,
                            antideps': map<Id, seq<Id>>, n: Id, b: Id)
    requires loopDepth.Keys == s.cfg.nodes.Keys && AllSettled(s, loopDepth, late, antideps)
    requires n in s.nodes && n !in late && OnlyRecords(late, antideps, antideps', n)
    requires if Free(s, n) then Settled(s, loopDepth, late, antideps', n, b) else antideps' == antideps
    ensures AllSettled(s, loopDepth, late[n := b], antideps')
  {
    var late' := late[n := b];
    forall m | m in late' && Free(s, m) ensures Settled(s, loopDepth, late', antideps', m, late'[m]) {
      if m == n {
        SettledStays(s, loopDepth, late, late', antideps', antideps', n, b);
      } else {
        assert Settled(s, loopDepth, late, antideps, m, late[m]);
        SettledStays(s, loopDepth, late, late', antideps, antideps', m, late[m]);
      }
    }
  }

  lemma FinalBlockIsClear(s: Son, late: map<Id, Id>, antideps: map<Id, seq<Id>>, n: Id, low: Id, pulled: Id, final: Id,
                          u: Id, k: nat)
    requires IsData(s, n) && n !in late && IsCtrl(s, low) && IsCtrl(s, pulled) && IsCtrl(s, final)
    requires Early(s, n) in Chain(s.cfg, final) && final in Chain(s.cfg, pulled) && pulled in Chain(s.cfg, low)
    requires AboveMetRivals(s, late, n, low, pulled) && StoresRecorded(s, late, antideps, n, pulled)
    requires RivalOf(s, n, u, k)
    ensures ConsumerClear(s, late[n := final], antideps, n, u, k)
  {
    var late' := late[n := final];
    assert AboveRival(s, late, low, Early(s, n), pulled, u, k);
    var b := UseBlock(s, late, u, k);
    assert UseBlock(s, late', u, k) == b;
    forall p | IsForwardWalk(s.cfg, p, Early(s, n), final) && b in p ensures b == final {
      var i :| 0 <= i < |p| && p[i] == b;
      PulledUpIsClear(s.cfg, p, i, Early(s, n), low, pulled, final);
    }
    if s.nodes[u].isStore && late[u] == final {
      StoreInFinalBlockRecorded(s, late, antideps, n, low, pulled, final, u, k);
    }
  }

  lemma StoreInFinalBlockRecorded(s: Son, late: map<Id, Id>, antideps: map<Id, seq<Id>>, n: Id, low: Id, pulled: Id,
                                  final: Id, u: Id, k: nat)
    requires IsData(s, n) && IsCtrl(s, low) && IsCtrl(s, pulled) && IsCtrl(s, final)
    requires Early(s, n) in Chain(s.cfg, final) && final in Chain(s.cfg, pulled) && pulled in Chain(s.cfg, low)
    requires RivalOf(s, n, u, k) && AboveRival(s, late, low, Early(s, n), pulled, u, k)
    requires StoresRecorded(s, late, antideps, n, pulled)
    requires s.nodes[u].isStore && late[u] == final
    ensures u in antideps && n in antideps[u]
  {
    assert WellFormedData(s, u);
    ConsumerInFinalBlock(s.cfg, Early(s, n), low, pulled, final);
  }

  // ---- the shared array ----

  ghost predicate SlotOk(s: Son, slot: map<Id, Id>, late: map<Id, Id>, n: Id)
    requires n in slot
  {
    && (IsData(s, n) ==> slot[n] == Early(s, n))
    && (IsCtrl(s, n) ==> IsCtrl(s, slot[n]) || slot[n] in late)
  }

  ghost predicate SlotsOk(s: Son, slot: map<Id, Id>, late: map<Id, Id>) {
    forall n {:trigger SlotOk(s, slot, late, n)} :: n in slot ==> SlotOk(s, slot, late, n)
  }

  lemma WritingKeepsSlots(s: Son, slot: map<Id, Id>, late: map<Id, Id>, n: Id, v: Id)
    requires SlotsOk(s, slot, late)
    requires IsData(s, n) ==> v == Early(s, n)
    requires IsCtrl(s, n) ==> IsCtrl(s, v) || v in late
    ensures SlotsOk(s, slot[n := v], late)
  {
    var slot' := slot[n := v];
    forall m | m in slot' ensures SlotOk(s, slot', late, m) {
      if m != n { assert SlotOk(s, slot, late, m); }
    }
  }

  predicate Marked(slot: map<Id, Id>, id: Id, c: Id) {
    c in slot && slot[c] == id
  }

  /** Marking touches no data node's entry, and writes nothing but `id`. */
  ghost predicate MarksOnly(s: Son, before: map<Id, Id>, after: map<Id, Id>, id: Id) {
    && (forall n :: n in before ==> n in after)
    && (forall n :: n in after && (IsData(s, n) || after[n] != id) ==> n in before && after[n] == before[n])
  }

  ghost function Unmarked(g: Cfg, slot: map<Id, Id>, id: Id): set<Id> {
    set x | x in g.nodes.Keys + {0} && !Marked(slot, id, x)
  }

  lemma MarkingOne(s: Son, before: map<Id, Id>, slot: map<Id, Id>, id: Id, c: Id)
    requires MarksOnly(s, before, slot, id) && (c == 0 || IsCtrl(s, c)) && !Marked(slot, id, c)
    ensures MarksOnly(s, before, slot[c := id], id)
    ensures Unmarked(s.cfg, slot[c := id], id) < Unmarked(s.cfg, slot, id)
  {
    assert c in Unmarked(s.cfg, slot, id) && c !in Unmarked(s.cfg, slot[c := id], id);
  }

  /** Every predecessor of a marked node, unless that is `bound`, is marked or still waiting. */
  ghost predicate FrontierWaits(g: Cfg, slot: map<Id, Id>, id: Id, bound: Id, waiting: seq<Id>) {
    forall m, n :: Marked(slot, id, n) && n != bound && Edge(g, m, n) ==> Marked(slot, id, m) || m in waiting
  }

  /** The inputs of a control node are nil or its predecessors. */
  lemma InputsArePredecessors(g: Cfg, c: Id, i: nat)
    requires c in g.nodes && i < |g.nodes[c].inputs| && g.nodes[c].inputs[i] != 0
    ensures Edge(g, g.nodes[c].inputs[i], c)
  {
    assert WellFormedNode(g, c);
  }

  /** What holds while marking: marks and waiting nodes have been met, and the frontier waits. */
  ghost predicate Marking(g: Cfg, slot: map<Id, Id>, id: Id, low: Id, bound: Id, waiting: seq<Id>) {
    && (forall x :: x in waiting && x != 0 ==> x in g.nodes && BackReach(g, x, low, bound))
    && (forall c :: c in g.nodes && Marked(slot, id, c) ==> BackReach(g, c, low, bound))
    && FrontierWaits(g, slot, id, bound, waiting)
    && (Marked(slot, id, low) || low in waiting)
  }

  lemma MarkingSkips(g: Cfg, slot: map<Id, Id>, id: Id, low: Id, bound: Id, waiting: seq<Id>, c: Id)
    requires low in g.nodes && Marking(g, slot, id, low, bound, waiting + [c])
    ensures Marked(slot, id, c) ==> Marking(g, slot, id, low, bound, waiting)
    ensures c == 0 || c == bound ==> Marking(g, slot[c := id], id, low, bound, waiting)
  {
    assert c in waiting + [c];
    var all := waiting + [c];
    forall x | x in waiting ensures x in all {}
    var slot' := if c == 0 || c == bound then slot[c := id] else slot;
    if Marked(slot, id, c) || c == 0 || c == bound {
      forall m, n | Marked(slot', id, n) && n != bound && Edge(g, m, n)
        ensures Marked(slot', id, m) || m in waiting
      {
        assert Marked(slot, id, n);
        assert Marked(slot, id, m) || m in all;
      }
    }
  }

  lemma MarkingAdvances(g: Cfg, slot: map<Id, Id>, id: Id, low: Id, bound: Id, waiting: seq<Id>, c: Id)
    requires low in g.nodes && Marking(g, slot, id, low, bound, waiting + [c]) && c != 0 && c != bound
    ensures c in g.nodes && Marking(g, slot[c := id], id, low, bound, waiting + g.nodes[c].inputs)
  {
    var all := waiting + [c];
    assert c in all;
    var slot' := slot[c := id];
    var inputs := g.nodes[c].inputs;
    forall x | x in waiting + inputs && x != 0 ensures x in g.nodes && BackReach(g, x, low, bound) {
      if x in waiting {
        assert x in all;
      } else {
        var i :| 0 <= i < |inputs| && inputs[i] == x;
        InputsArePredecessors(g, c, i);
        BackReachStep(g, x, c, low, bound);
      }
    }
    forall m, n | Marked(slot', id, n) && n != bound && Edge(g, m, n)
      ensures Marked(slot', id, m) || m in waiting + inputs
    {
      if n != c {
        assert Marked(slot, id, n);
        assert Marked(slot, id, m) || m in all;
      }
    }
    assert Marked(slot, id, low) || low in all;
  }

  /** Once nothing waits, the marks are exactly the nodes met. */
  lemma MarksAreReach(g: Cfg, slot: map<Id, Id>, id: Id, low: Id, bound: Id)
    requires low in g.nodes && Marked(slot, id, low) && FrontierWaits(g, slot, id, bound, [])
    requires forall c :: c in g.nodes && Marked(slot, id, c) ==> BackReach(g, c, low, bound)
    ensures forall c :: c in g.nodes ==> (Marked(slot, id, c) <==> BackReach(g, c, low, bound))
  {
    var marked := set c | c in slot && slot[c] == id;
    forall c | c in g.nodes && BackReach(g, c, low, bound) ensures Marked(slot, id, c) {
      var q :| BackWalk(g, q, c, low, bound);
      forall m, n | n in marked && n != bound && Edge(g, m, n) ensures m in marked {
        assert Marked(slot, id, n);
        assert Marked(slot, id, m) || m in [];
      }
      ClosedSetHoldsReach(g, marked, q, c, low, bound);
    }
  }

  lemma AttachedEarly(s: Son, c: Id, i: nat)
    requires IsCtrl(s, c) && i < |s.nodes[c].outs|
    ensures var u := s.nodes[c].outs[i].0; (IsData(s, u) ==> Early(s, u) == c) && (IsCtrl(s, u) || Attached(s, u))
  {
    var (u, k) := s.nodes[c].outs[i];
    assert (u, k) in s.nodes[c].outs && OutsExact(s, c) && Uses(s, u, k, c);
    assert WellFormedData(s, u);
  }

  lemma InputComesFirst(s: Son, n: Id, k: nat)
    requires IsData(s, n) && !Attached(s, n) && k < |s.nodes[n].inputs|
    ensures var i := s.nodes[n].inputs[k]; i == 0 || (IsData(s, i) && s.order[i] < s.order[n])
  {
    assert WellFormedData(s, n);
    assert Uses(s, n, k, s.nodes[n].inputs[k]);
  }

  /** Whatever is clear of all consumers met is above `pulled`. */
  ghost predicate ClearIsAbove(s: Son, late: map<Id, Id>, n: Id, low: Id, pulled: Id)
    requires IsData(s, n) && IsCtrl(s, low) && IsCtrl(s, pulled)
  {
    forall c :: c in Chain(s.cfg, low) && AboveMetRivals(s, late, n, low, c) ==> c in Chain(s.cfg, pulled)
  }

  lemma PullingKeepsClear(s: Son, late: map<Id, Id>, n: Id, low: Id, pulled: Id, u: Id, k: nat)
    requires IsData(s, n) && IsCtrl(s, low) && IsCtrl(s, pulled) && RivalOf(s, n, u, k) && u in late
    requires s.nodes[u].class_ == Phi ==> HasEdgeBlock(s, u, k)
    requires IsCtrl(s, UseBlock(s, late, u, k)) && BackReach(s.cfg, UseBlock(s, late, u, k), low, Early(s, n))
    requires IsCtrl(s, Lca(s.cfg, pulled, UseBlock(s, late, u, k)))
    ensures ClearIsAbove(s, late, n, low, pulled) ==>
      ClearIsAbove(s, late, n, low, Lca(s.cfg, pulled, UseBlock(s, late, u, k)))
  {
    var b := UseBlock(s, late, u, k);
    LcaIsMeet(s.cfg, pulled, b);
    forall c | c in Chain(s.cfg, low) && AboveMetRivals(s, late, n, low, c) ensures c in Chain(s.cfg, b) {
      assert AboveRival(s, late, low, Early(s, n), c, u, k);
    }
  }

  /** After looking at the first i users of n's memory version. */
  ghost predicate FirstRivalsMet(s: Son, late: map<Id, Id>, n: Id, i: nat, low: Id, pulled: Id)
    requires IsData(s, n) && |s.nodes[n].inputs| > 1 && IsData(s, s.nodes[n].inputs[1])
    requires i <= |s.nodes[s.nodes[n].inputs[1]].outs|
  {
    forall j :: 0 <= j < i ==>
      var o := s.nodes[s.nodes[n].inputs[1]].outs[j];
      RivalOf(s, n, o.0, o.1) ==> AboveRival(s, late, low, Early(s, n), pulled, o.0, o.1)
  }

  lemma OneMoreRivalMet(s: Son, late: map<Id, Id>, n: Id, i: nat, low: Id, pulled: Id, pulled': Id)
    requires IsData(s, n) && |s.nodes[n].inputs| > 1 && IsData(s, s.nodes[n].inputs[1])
    requires i < |s.nodes[s.nodes[n].inputs[1]].outs| && IsCtrl(s, pulled) && pulled' in Chain(s.cfg, pulled)
    requires FirstRivalsMet(s, late, n, i, low, pulled)
    requires var o := s.nodes[s.nodes[n].inputs[1]].outs[i];
      RivalOf(s, n, o.0, o.1) ==> AboveRival(s, late, low, Early(s, n), pulled', o.0, o.1)
    ensures FirstRivalsMet(s, late, n, i + 1, low, pulled')
  {
    var outs := s.nodes[s.nodes[n].inputs[1]].outs;
    forall j | 0 <= j < i && RivalOf(s, n, outs[j].0, outs[j].1)
      ensures AboveRival(s, late, low, Early(s, n), pulled', outs[j].0, outs[j].1)
    {
      RivalStaysAbove(s, late, low, Early(s, n), pulled, pulled', outs[j].0, outs[j].1);
    }
  }

  lemma RivalStaysAbove(s: Son, late: map<Id, Id>, low: Id, early: Id, pulled: Id, pulled': Id, u: Id, k: nat)
    requires IsCtrl(s, pulled) && pulled' in Chain(s.cfg, pulled)
    requires u in s.nodes && AboveRival(s, late, low, early, pulled, u, k)
    ensures AboveRival(s, late, low, early, pulled', u, k)
  {
    var b := UseBlock(s, late, u, k);
    if pulled in Chain(s.cfg, b) { ChainNests(s.cfg, b, pulled); }
  }

  lemma AllRivalsMet(s: Son, late: map<Id, Id>, n: Id, low: Id, pulled: Id)
    requires IsData(s, n) && |s.nodes[n].inputs| > 1 && IsData(s, s.nodes[n].inputs[1])
    requires FirstRivalsMet(s, late, n, |s.nodes[s.nodes[n].inputs[1]].outs|, low, pulled)
    ensures AboveMetRivals(s, late, n, low, pulled)
  {
    var m := s.nodes[n].inputs[1];
    assert OutsExact(s, m);
    forall u: Id, k: nat | RivalOf(s, n, u, k) ensures AboveRival(s, late, low, Early(s, n), pulled, u, k) {
      var j :| 0 <= j < |s.nodes[m].outs| && s.nodes[m].outs[j] == (u, k);
      assert RivalOf(s, n, s.nodes[m].outs[j].0, s.nodes[m].outs[j].1);
    }
  }

  lemma UsesStayReached(s: Son, late: map<Id, Id>, n: Id, low: Id, b: Id)
    requires n in s.nodes && n !in late && IsCtrl(s, low) && b in Chain(s.cfg, low)
    requires forall u, k :: Uses(s, u, k, n) ==> u in late && UseReached(s, late, low, u, k)
    ensures forall u, k :: Uses(s, u, k, n) ==> u != n && u in late && UseReached(s, late, b, u, k)
  {
    forall u: Id, k: nat | Uses(s, u, k, n) ensures u != n && u in late && UseReached(s, late, b, u, k) {
      assert UseReached(s, late, low, u, k);
      ChainNests(s.cfg, UseBlock(s, late, u, k), low);
    }
  }

  /** b lies between the early block and every use of n, and clear of every rival of n. */
  ghost predicate GoodBlock(s: Son, late: map<Id, Id>, antideps: map<Id, seq<Id>>, n: Id, b: Id)
    requires n in s.nodes
  {
    && SitsAt(s, n, b) && (IsData(s, n) ==> Early(s, n) in Chain(s.cfg, b))
    && (Free(s, n) ==> forall u, k :: Uses(s, u, k, n) ==> u != n && u in late && UseReached(s, late, b, u, k))
    && (forall u, k :: RivalOf(s, n, u, k) ==> ConsumerClear(s, late[n := b], antideps, n, u, k))
  }

  lemma SettledIsGood(s: Son, late: map<Id, Id>, antideps: map<Id, seq<Id>>, n: Id, low: Id, pulled: Id, b: Id)
    requires Free(s, n) && n !in late && LowestUse(s, late, n, low) && LowestClear(s, late, n, low, pulled)
    requires RecordsOf(s, late, antideps, n, pulled) && Candidate(s, late, n, low, b) && b in Chain(s.cfg, pulled)
    ensures GoodBlock(s, late, antideps, n, b)
  {
    ChainNests(s.cfg, low, pulled);
    UsesStayReached(s, late, n, low, b);
    forall u: Id, k: nat | RivalOf(s, n, u, k) && s.nodes[u].isStore && u in late && late[u] == pulled
      ensures u in antideps && n in antideps[u]
    {
      assert StoresOver(s, late, n, pulled, u);
      StoreIsTaken(s, late, n, pulled, u);
      assert TimesRecorded(antideps, u, n) > 0;
    }
    assert StoresRecorded(s, late, antideps, n, pulled);
    forall u: Id, k: nat | RivalOf(s, n, u, k) ensures ConsumerClear(s, late[n := b], antideps, n, u, k) {
      FinalBlockIsClear(s, late, antideps, n, low, pulled, b, u, k);
    }
  }

  /** What is no load has no consumers to be clear of. */
  lemma NothingToClear(s: Son, late: map<Id, Id>, antideps: map<Id, seq<Id>>, n: Id, low: Id)
    requires IsData(s, n) && !s.nodes[n].isLoad && IsCtrl(s, low) && Early(s, n) in Chain(s.cfg, low)
    requires forall u :: TimesRecorded(antideps, u, n) == 0
    ensures LowestClear(s, late, n, low, low) && RecordsOf(s, late, antideps, n, low)
  {
    assert low in Chain(s.cfg, low);
  }

  predicate StoresHere(s: Son, late: map<Id, Id>, u: Id, b: Id) {
    u in s.nodes && s.nodes[u].isStore && u in late && late[u] == b
  }

  function WithRecord(antideps: map<Id, seq<Id>>, u: Id, n: Id): map<Id, seq<Id>> {
    antideps[u := (if u in antideps then antideps[u] else []) + [n]]
  }

  /** The first i users have been dealt with. */
  ghost predicate RecordedFirst(s: Son, late: map<Id, Id>, before: map<Id, seq<Id>>, antideps: map<Id, seq<Id>>, n: Id,
                                b: Id, outs: seq<(Id, nat)>, i: nat) {
    && i <= |outs| && OnlyRecords(late, before, antideps, n)
    && forall u :: TimesRecorded(antideps, u, n) == if StoresHere(s, late, u, b) then TimesUser(outs[..i], u) else 0
  }

  lemma RecordOne(late: map<Id, Id>, before: map<Id, seq<Id>>, antideps: map<Id, seq<Id>>, n: Id, u: Id)
    requires OnlyRecords(late, before, antideps, n) && u in late
    ensures OnlyRecords(late, before, WithRecord(antideps, u, n), n)
    ensures var after := WithRecord(antideps, u, n); forall v ::
      TimesRecorded(after, v, n) == TimesRecorded(antideps, v, n) + if v == u then 1 else 0
  {
    var was := if u in antideps then antideps[u] else [];
    assert multiset(was + [n]) == multiset(was) + multiset{n};
    assert u !in antideps ==> multiset(was)[n] == 0;
    forall v, x | x != n
      ensures TimesRecorded(WithRecord(antideps, u, n), v, x) == TimesRecorded(antideps, v, x) {}
  }

  lemma RecordedNext(s: Son, late: map<Id, Id>, before: map<Id, seq<Id>>, antideps: map<Id, seq<Id>>, n: Id, b: Id,
                     outs: seq<(Id, nat)>, i: nat)
    requires i < |outs| && RecordedFirst(s, late, before, antideps, n, b, outs, i)
    ensures var u := outs[i].0; RecordedFirst(s, late, before,
      if StoresHere(s, late, u, b) then WithRecord(antideps, u, n) else antideps, n, b, outs, i + 1)
  {
    var u := outs[i].0;
    if StoresHere(s, late, u, b) { RecordOne(late, before, antideps, n, u); }
    assert outs[..i + 1][..i] == outs[..i];
    forall v ensures TimesUser(outs[..i + 1], v) == TimesUser(outs[..i], v) + if v == u then 1 else 0 {}
  }

  lemma RecordedAll(s: Son, late: map<Id, Id>, before: map<Id, seq<Id>>, antideps: map<Id, seq<Id>>, n: Id, b: Id)
    requires IsData(s, n) && s.nodes[n].isLoad && |s.nodes[n].inputs| > 1 && s.nodes[n].inputs[1] in s.nodes
    requires var outs := s.nodes[s.nodes[n].inputs[1]].outs;
      RecordedFirst(s, late, before, antideps, n, b, outs, |outs|)
    ensures RecordsOf(s, late, antideps, n, b)
  {
    var m := s.nodes[n].inputs[1];
    var outs := s.nodes[m].outs;
    assert OutsExact(s, m) && outs[..|outs|] == outs;
    forall u ensures TimesRecorded(antideps, u, n) == if StoresOver(s, late, n, b, u) then TimesTaken(s, n, u) else 0 {
      SomeUse(outs, u);
      if StoresHere(s, late, u, b) && TimesUser(outs, u) > 0 {
        var j :| 0 <= j < |outs| && outs[j].0 == u;
        assert (outs[j].0, outs[j].1) in outs && Uses(s, u, outs[j].1, m);
        assert RivalOf(s, n, u, outs[j].1);
      }
    }
  }

  /** The block found on the way up from the block start above `pulled` is the best of all candidates. */
  lemma HoistedIsBest(s: Son, loopDepth: map<Id, nat>, late: map<Id, Id>, n: Id, low: Id, pulled: Id, b: Id)
    requires loopDepth.Keys == s.cfg.nodes.Keys && IsData(s, n)
    requires LowestUse(s, late, n, low) && LowestClear(s, late, n, low, pulled)
    requires IsCtrl(s, b) && StartsBlock(s.cfg.nodes[b].kind) && Early(s, n) in Chain(s.cfg, b)
    requires b in Chain(s.cfg, BlockHead(s.cfg, pulled))
    requires BestBetween(s.cfg, loopDepth, b, BlockHead(s.cfg, pulled), Early(s, n))
    ensures BestOf(s, loopDepth, late, n, low, b) && b in Chain(s.cfg, pulled)
  {
    ChainNests(s.cfg, pulled, BlockHead(s.cfg, pulled));
    AboveIsCandidate(s, late, n, low, pulled, b);
    forall c | Candidate(s, late, n, low, c) ensures c in Chain(s.cfg, BlockHead(s.cfg, pulled)) {
      CandidateIsAbove(s, late, n, low, pulled, c);
      StartAboveHead(s.cfg, pulled, c);
    }
  }

  lemma AboveIsCandidate(s: Son, late: map<Id, Id>, n: Id, low: Id, pulled: Id, b: Id)
    requires IsData(s, n) && LowestUse(s, late, n, low) && LowestClear(s, late, n, low, pulled)
    requires IsCtrl(s, b) && StartsBlock(s.cfg.nodes[b].kind) && Early(s, n) in Chain(s.cfg, b)
    requires b in Chain(s.cfg, pulled)
    ensures Candidate(s, late, n, low, b)
  {
    ChainNests(s.cfg, low, pulled);
    forall u: Id, k: nat | Uses(s, u, k, n) ensures UseReached(s, late, b, u, k) {
      assert UseReached(s, late, low, u, k);
      ChainNests(s.cfg, UseBlock(s, late, u, k), low);
    }
    forall u: Id, k: nat | RivalOf(s, n, u, k) ensures AboveRival(s, late, low, Early(s, n), b, u, k) {
      RivalStaysAbove(s, late, low, Early(s, n), pulled, b, u, k);
    }
    if !Used(s, n) { MutualAncestorsAreEqual(s.cfg, b, low); }
  }

  lemma CandidateIsAbove(s: Son, late: map<Id, Id>, n: Id, low: Id, pulled: Id, c: Id)
    requires IsData(s, n) && LowestUse(s, late, n, low) && LowestClear(s, late, n, low, pulled)
    requires Candidate(s, late, n, low, c)
    ensures c in Chain(s.cfg, pulled)
  {
    assert low in Chain(s.cfg, low);
  }

  lemma PlacementKept(s: Son, slot: map<Id, Id>, slot': map<Id, Id>, late: map<Id, Id>,
                      antideps: map<Id, seq<Id>>, antideps': map<Id, seq<Id>>, n: Id, b: Id)
    requires SlotsOk(s, slot, late) && MarksOnly(s, slot, slot', n) && LateOk(s, late) && LoadsOk(s, late, antideps)
    requires OnlyRecords(late, antideps, antideps', n)
    requires n in s.nodes && n !in late && GoodBlock(s, late, antideps', n, b)
    ensures SlotsOk(s, slot', late[n := b]) && LateOk(s, late[n := b]) && LoadsOk(s, late[n := b], antideps')
  {
    PlacingKeepsLateOk(s, late, n, b);
    LoadsStayClear(s, late, late[n := b], antideps, antideps', n);
    MarksKeepSlots(s, slot, slot', late, n, b);
  }

  /** Where the climb to a block start begins for a node that does not move. */
  function HomeOf(s: Son, n: Id): Id
    requires n in s.nodes && !Free(s, n)
  {
    assert WellFormedData(s, n);
    if IsCtrl(s, n) then
      assert WellFormedNode(s.cfg, n);
      if StartsBlock(s.cfg.nodes[n].kind) then n else s.cfg.nodes[n].inputs[0]
    else s.nodes[n].inputs[0]
  }

  lemma FixedNodeSits(s: Son, n: Id)
    requires n in s.nodes && !Free(s, n)
    ensures IsCtrl(s, HomeOf(s, n))
    ensures forall late, antideps :: GoodBlock(s, late, antideps, n, BlockHead(s.cfg, HomeOf(s, n)))
  {
    assert WellFormedData(s, n);
    if IsCtrl(s, n) {
      assert WellFormedNode(s.cfg, n);
    }
  }

  lemma MarksKeepSlots(s: Son, slot: map<Id, Id>, slot': map<Id, Id>, late: map<Id, Id>, n: Id, b: Id)
    requires SlotsOk(s, slot, late) && MarksOnly(s, slot, slot', n)
    ensures SlotsOk(s, slot', late[n := b])
  {
    forall m | m in slot' ensures SlotOk(s, slot', late[n := b], m) {
      if m in slot { assert SlotOk(s, slot, late, m); }
    }
  }

  // ---- when a node may be placed ----

  /** All uses are placed, and for a load also everything that consumes its memory version. */
  ghost predicate Ready(s: Son, late: map<Id, Id>, n: Id)
    requires n in s.nodes
  {
    && (Free(s, n) ==> forall u, k :: Uses(s, u, k, n) ==> u in late)
    && (s.nodes[n].isLoad && |s.nodes[n].inputs| > 1 ==>
          forall u, k :: Uses(s, u, k, s.nodes[n].inputs[1]) ==>
            u in late || s.nodes[u].isLoad || s.nodes[u].class_ == Local)
  }

  lemma RivalsArePlaced(s: Son, late: map<Id, Id>, n: Id, u: Id, k: nat)
    requires n in s.nodes && Ready(s, late, n) && RivalOf(s, n, u, k) && LateOk(s, late)
    ensures u in late && (s.nodes[u].class_ == Phi ==> HasEdgeBlock(s, u, k))
    ensures IsCtrl(s, UseBlock(s, late, u, k))
  {
    assert WellFormedData(s, u) && WellFormedData(s, n);
    assert PlacedOk(s, late, u);
  }

  /** What is asserted while the dependences of a load of m are recorded: the stores that take m are placed. */
  ghost predicate StoresPlaced(s: RawSon, late: map<Id, Id>, m: Id) {
    forall u, k :: Uses(s, u, k, m) && s.nodes[u].isStore ==> u in late
  }

  lemma ReadyMeetsAssertion(s: Son, late: map<Id, Id>, n: Id)
    requires n in s.nodes && s.nodes[n].isLoad && |s.nodes[n].inputs| > 1 && Ready(s, late, n)
    ensures StoresPlaced(s, late, s.nodes[n].inputs[1])
  {
    forall u: Id, k: nat | Uses(s, u, k, s.nodes[n].inputs[1]) && s.nodes[u].isStore ensures u in late {
      assert WellFormedData(s, u);
    }
  }

  /** A node that both loads and stores fails it on its own account, not being placed yet: this is why loads are
      taken not to store. */
  lemma LoadStoreFailsAssertion(s: RawSon, late: map<Id, Id>, n: Id)
    requires n in s.nodes && s.nodes[n].isStore && |s.nodes[n].inputs| > 1 && n !in late
    ensures !StoresPlaced(s, late, s.nodes[n].inputs[1])
  {
    assert Uses(s, n, 1, s.nodes[n].inputs[1]);
  }

  ghost predicate FirstUsesReached(s: Son, late: map<Id, Id>, n: Id, i: nat, b: Id)
    requires n in s.nodes && i <= |s.nodes[n].outs|
  {
    forall j :: 0 <= j < i ==> var o := s.nodes[n].outs[j];
      o.0 in s.nodes && o.0 in late && UseReached(s, late, b, o.0, o.1)
  }

  lemma OneMoreUseReached(s: Son, late: map<Id, Id>, n: Id, i: nat, lca: Id, b: Id)
    requires IsData(s, n) && i < |s.nodes[n].outs| && FirstUsesReached(s, late, n, i, lca)
    requires i == 0 ==> lca == 0
    requires i > 0 ==> IsCtrl(s, lca) && Early(s, n) in Chain(s.cfg, lca)
    requires var o := s.nodes[n].outs[i]; o.0 in s.nodes && o.0 in late && UseReached(s, late, b, o.0, o.1)
    requires IsCtrl(s, b) && Early(s, n) in Chain(s.cfg, b)
    ensures IsCtrl(s, Lca(s.cfg, lca, b)) && Early(s, n) in Chain(s.cfg, Lca(s.cfg, lca, b))
    ensures FirstUsesReached(s, late, n, i + 1, Lca(s.cfg, lca, b))
  {
    var r := Lca(s.cfg, lca, b);
    assert b in Chain(s.cfg, b);
    if i > 0 {
      LcaMovesUp(s.cfg, lca, b, Early(s, n));
    }
    forall j | 0 <= j < i + 1 ensures
      var o := s.nodes[n].outs[j]; o.0 in s.nodes && o.0 in late && UseReached(s, late, r, o.0, o.1)
    {
      var o := s.nodes[n].outs[j];
      if j < i {
        assert UseReached(s, late, lca, o.0, o.1);
        ChainNests(s.cfg, UseBlock(s, late, o.0, o.1), lca);
      } else {
        ChainNests(s.cfg, UseBlock(s, late, o.0, o.1), b);
      }
    }
  }

  /** Whatever is above the first i uses is above b. */
  ghost predicate LowestOfFirst(s: Son, late: map<Id, Id>, n: Id, i: nat, b: Id)
    requires n in s.nodes && i <= |s.nodes[n].outs| && (b == 0 || IsCtrl(s, b))
  {
    i > 0 ==> forall c :: IsCtrl(s, c) && FirstUsesReached(s, late, n, i, c) ==> c in Chain(s.cfg, b)
  }

  lemma LowestOfOneMore(s: Son, late: map<Id, Id>, n: Id, i: nat, lca: Id, b: Id)
    requires IsData(s, n) && i < |s.nodes[n].outs| && (if i == 0 then lca == 0 else IsCtrl(s, lca)) && IsCtrl(s, b)
    requires LowestOfFirst(s, late, n, i, lca)
    requires var o := s.nodes[n].outs[i];
      o.0 in s.nodes && o.0 in late && UseReached(s, late, b, o.0, o.1) && b == UseBlock(s, late, o.0, o.1)
    ensures IsCtrl(s, Lca(s.cfg, lca, b)) && LowestOfFirst(s, late, n, i + 1, Lca(s.cfg, lca, b))
  {
    var o := s.nodes[n].outs[i];
    if i > 0 { LcaIsMeet(s.cfg, lca, b); }
    forall c | IsCtrl(s, c) && FirstUsesReached(s, late, n, i + 1, c) ensures c in Chain(s.cfg, Lca(s.cfg, lca, b)) {
      assert s.nodes[n].outs[i] == o && UseReached(s, late, c, o.0, o.1);
      if i > 0 {
        assert FirstUsesReached(s, late, n, i, c);
      }
    }
  }

  /** After all uses that are recorded. */
  lemma AllUsesReached(s: Son, late: map<Id, Id>, n: Id, lca: Id)
    requires IsData(s, n) && IsCtrl(s, lca) && Early(s, n) in Chain(s.cfg, lca) && s.nodes[n].outs != []
    requires FirstUsesReached(s, late, n, |s.nodes[n].outs|, lca)
    requires LowestOfFirst(s, late, n, |s.nodes[n].outs|, lca)
    ensures LowestUse(s, late, n, lca)
  {
    var outs := s.nodes[n].outs;
    assert OutsExact(s, n);
    forall u: Id, k: nat | Uses(s, u, k, n) ensures u in late && UseReached(s, late, lca, u, k) {
      var j :| 0 <= j < |outs| && outs[j] == (u, k);
      assert UseReached(s, late, lca, outs[j].0, outs[j].1);
    }
    assert (outs[0].0, outs[0].1) in outs && Uses(s, outs[0].0, outs[0].1, n);
    forall c | IsCtrl(s, c) && AboveUses(s, late, n, c) ensures c in Chain(s.cfg, lca) {
      forall j | 0 <= j < |outs| ensures outs[j].0 in s.nodes && outs[j].0 in late
        && UseReached(s, late, c, outs[j].0, outs[j].1) {
        assert (outs[j].0, outs[j].1) in outs && Uses(s, outs[j].0, outs[j].1, n);
      }
      assert FirstUsesReached(s, late, n, |outs|, c);
    }
  }

  lemma NoUses(s: Son, late: map<Id, Id>, n: Id)
    requires IsData(s, n) && s.nodes[n].outs == []
    ensures LowestUse(s, late, n, Early(s, n))
  {
    assert OutsExact(s, n);
    assert forall u: Id, k: nat :: Uses(s, u, k, n) ==> (u, k) in s.nodes[n].outs;
    assert Early(s, n) in Chain(s.cfg, Early(s, n));
  }

  /** How a free node ranks the blocks between `low` and its early block. */
  ghost predicate BestBetween(g: Cfg, loopDepth: map<Id, nat>, best: Id, low: Id, top: Id)
    requires loopDepth.Keys == g.nodes.Keys && low in g.nodes && best in g.nodes
  {
    forall b :: b in Chain(g, low) && b in g.nodes && StartsBlock(g.nodes[b].kind) && top in Chain(g, b) ==>
      loopDepth[best] <= loopDepth[b] && (loopDepth[best] == loopDepth[b] ==> b in Chain(g, best))
  }

  lemma BestBetweenStep(g: Cfg, loopDepth: map<Id, nat>, best: Id, low: Id, top: Id)
    requires loopDepth.Keys == g.nodes.Keys && low in g.nodes && best in g.nodes && StartsBlock(g.nodes[best].kind)
    requires top in Chain(g, low) && top in g.nodes && top != g.entry
    requires best in Chain(g, low) && top in Chain(g, best) && BestBetween(g, loopDepth, best, low, top)
    ensures Idom(g, top) in g.nodes
    ensures Idom(g, top) in Chain(g, low) && Idom(g, top) in Chain(g, best)
    ensures var next := Idom(g, top);
      var best' := if StartsBlock(g.nodes[next].kind) && loopDepth[best] > loopDepth[next] then next else best;
      BestBetween(g, loopDepth, best', low, next)
  {
    IdomShallower(g, top);
    var next := Idom(g, top);
    ChainNests(g, low, top);
    ChainNests(g, best, top);
    assert next in Chain(g, next) && Chain(g, next) <= Chain(g, top);
    var best' := if StartsBlock(g.nodes[next].kind) && loopDepth[best] > loopDepth[next] then next else best;
    forall b | b in Chain(g, low) && b in g.nodes && StartsBlock(g.nodes[b].kind) && next in Chain(g, b)
      ensures loopDepth[best'] <= loopDepth[b] && (loopDepth[best'] == loopDepth[b] ==> b in Chain(g, best'))
    {
      BetweenStep(g, low, top, b);
    }
  }

  /** Between `low` and the parent of `top` lie the blocks down to `top`, and that parent. */
  lemma BetweenStep(g: Cfg, low: Id, top: Id, b: Id)
    requires low in g.nodes && top in g.nodes && b in g.nodes && top in Chain(g, low) && b in Chain(g, low)
    requires Idom(g, top) in g.nodes && Idom(g, top) in Chain(g, b)
    ensures b == Idom(g, top) || top in Chain(g, b)
  {
    ChainIsOrdered(g, low, top, b);
    ChainIsOrdered(g, low, b, top);
    if top !in Chain(g, b) {
      assert b in Chain(g, Idom(g, top));
      MutualAncestorsAreEqual(g, b, Idom(g, top));
    }
  }

  // ---- filling in early blocks ----

  /** The data inputs of u have their early blocks. */
  ghost predicate InputsFilled(s: Son, slot: map<Id, Id>, u: Id) {
    u in s.nodes ==> forall k :: 0 <= k < |s.nodes[u].inputs| && !IsCtrl(s, s.nodes[u].inputs[k]) ==>
      s.nodes[u].inputs[k] in slot
  }

  /** What is attached to c has its early block. */
  ghost predicate AttachedAt(s: Son, slot: map<Id, Id>, c: Id) {
    forall n :: Attached(s, n) && s.nodes[n].inputs[0] == c ==> n in slot
  }

  lemma AllAttached(s: Son, slot: map<Id, Id>, rpo: seq<Id>)
    requires forall i :: 0 <= i < |rpo| ==> AttachedAt(s, slot, rpo[i])
    ensures forall n :: Attached(s, n) && s.nodes[n].inputs[0] in rpo ==> n in slot
  {
    forall n | Attached(s, n) && s.nodes[n].inputs[0] in rpo ensures n in slot {
      var i :| 0 <= i < |rpo| && rpo[i] == s.nodes[n].inputs[0];
      assert AttachedAt(s, slot, rpo[i]);
    }
  }

  /** The first k inputs of u have, as far as they are data. */
  ghost predicate FirstFilled(s: Son, slot: map<Id, Id>, u: Id, k: nat)
    requires u in s.nodes && k <= |s.nodes[u].inputs|
  {
    forall j :: 0 <= j < k && !IsCtrl(s, s.nodes[u].inputs[j]) ==> s.nodes[u].inputs[j] in slot
  }

  lemma FirstFilledNext(s: Son, slot: map<Id, Id>, slot': map<Id, Id>, u: Id, k: nat)
    requires u in s.nodes && k < |s.nodes[u].inputs| && FirstFilled(s, slot, u, k) && slot.Keys <= slot'.Keys
    requires IsCtrl(s, s.nodes[u].inputs[k]) || s.nodes[u].inputs[k] in slot'
    ensures FirstFilled(s, slot', u, k + 1)
  {
  }

  /** The inputs of the first i users of c. */
  ghost predicate UsersFilled(s: Son, slot: map<Id, Id>, c: Id, i: nat)
    requires c in s.nodes && i <= |s.nodes[c].outs|
  {
    forall j :: 0 <= j < i ==> InputsFilled(s, slot, s.nodes[c].outs[j].0)
  }

  lemma UserIsNode(s: Son, c: Id, i: nat)
    requires c in s.nodes && i < |s.nodes[c].outs|
    ensures s.nodes[c].outs[i].0 in s.nodes
  {
    var (u, k) := s.nodes[c].outs[i];
    assert OutsExact(s, c) && (u, k) in s.nodes[c].outs;
    assert Uses(s, u, k, c);
  }

  lemma InputsStayFilled(s: Son, slot: map<Id, Id>, slot': map<Id, Id>, u: Id)
    requires InputsFilled(s, slot, u) && slot.Keys <= slot'.Keys
    ensures InputsFilled(s, slot', u)
  {
  }

  lemma UsersFilledNext(s: Son, slot: map<Id, Id>, slot': map<Id, Id>, c: Id, i: nat)
    requires c in s.nodes && i < |s.nodes[c].outs| && UsersFilled(s, slot, c, i) && slot.Keys <= slot'.Keys
    requires InputsFilled(s, slot', s.nodes[c].outs[i].0)
    ensures UsersFilled(s, slot', c, i + 1)
  {
    forall j | 0 <= j < i ensures InputsFilled(s, slot', s.nodes[c].outs[j].0) {
      InputsStayFilled(s, slot, slot', s.nodes[c].outs[j].0);
    }
  }

  lemma AllUsersFilled(s: Son, slot: map<Id, Id>, slot': map<Id, Id>, c: Id)
    requires c in s.nodes && UsersFilled(s, slot, c, |s.nodes[c].outs|) && slot.Keys <= slot'.Keys
    requires InputsFilled(s, slot', c)
    ensures FilledAround(s, slot', c)
  {
    forall u: Id, k: nat | Uses(s, u, k, c) ensures InputsFilled(s, slot', u) {
      assert OutsExact(s, c);
      var j :| 0 <= j < |s.nodes[c].outs| && s.nodes[c].outs[j] == (u, k);
      InputsStayFilled(s, slot, slot', s.nodes[c].outs[j].0);
    }
  }

  /** Nothing has been filled in yet but at control nodes and next to them. */
  ghost predicate OnlyAttached(s: Son, slot: map<Id, Id>) {
    forall n :: n in slot ==> IsCtrl(s, n) || Attached(s, n)
  }

  /** What has no control input gets its early block after its inputs do. */
  ghost predicate Filled(s: Son, slot: map<Id, Id>) {
    forall n {:trigger InputsFilled(s, slot, n)} :: n in slot && IsData(s, n) && !Attached(s, n) ==>
      InputsFilled(s, slot, n)
  }

  ghost predicate EarlySoFar(s: Son, slot: map<Id, Id>, late: map<Id, Id>) {
    && SlotsOk(s, slot, late) && Filled(s, slot) && (forall m :: Attached(s, m) ==> m in slot)
    && (0 in slot ==> slot[0] == s.cfg.entry)
  }

  ghost predicate FilledAround(s: Son, slot: map<Id, Id>, c: Id) {
    InputsFilled(s, slot, c) && forall u, k :: Uses(s, u, k, c) ==> InputsFilled(s, slot, u)
  }

  lemma WritingKeepsFilled(s: Son, slot: map<Id, Id>, n: Id, v: Id)
    requires Filled(s, slot) && (IsData(s, n) && !Attached(s, n) ==> InputsFilled(s, slot, n))
    ensures Filled(s, slot[n := v])
  {
    forall m | m in slot[n := v] && IsData(s, m) && !Attached(s, m) ensures InputsFilled(s, slot[n := v], m) {
      assert InputsFilled(s, slot, m);
    }
  }

  // ---- the procedures ----

  class Scheduler {
    const s: Son
    const loopDepth: map<Id, nat>
    /** One array serves as both early_schedules and antidep_node: a data node's entry is its early
        block, a control node's entry the last load whose backward walk met it. */
    var slot: map<Id, Id>
    var late: map<Id, Id>
    var antideps: map<Id, seq<Id>>

    ghost predicate Valid()
      reads this
    {
      && loopDepth.Keys == s.cfg.nodes.Keys
      && SlotsOk(s, slot, late)
      && LateOk(s, late)
      && LoadsOk(s, late, antideps)
      && antideps.Keys <= late.Keys
      && AllSettled(s, loopDepth, late, antideps)
    }

    constructor (s: Son, loopDepth: map<Id, nat>)
      requires loopDepth.Keys == s.cfg.nodes.Keys
      ensures Valid() && this.s == s && this.loopDepth == loopDepth && late == map[] && slot == map[]
    {
      this.s, this.loopDepth := s, loopDepth;
      slot, late, antideps := map[], map[], map[];
    }

    /** First pass of early scheduling: whatever reads a control node starts there. */
    method AttachEarly(rpo: seq<Id>)
      requires SlotsOk(s, slot, late)
      requires forall i :: 0 <= i < |rpo| ==> IsCtrl(s, rpo[i])
      modifies this`slot
      ensures SlotsOk(s, slot, late)
      ensures forall n :: Attached(s, n) && s.nodes[n].inputs[0] in rpo ==> n in slot
      ensures OnlyAttached(s, old(slot)) ==> OnlyAttached(s, slot)
    {
      for j := 0 to |rpo|
        invariant SlotsOk(s, slot, late) && (OnlyAttached(s, old(slot)) ==> OnlyAttached(s, slot))
        invariant forall i :: 0 <= i < j ==> AttachedAt(s, slot, rpo[i])
      {
        ghost var before := slot;
        AttachTo(rpo[j]);
        forall i | 0 <= i < j ensures AttachedAt(s, slot, rpo[i]) {
          assert AttachedAt(s, before, rpo[i]);
        }
      }
      AllAttached(s, slot, rpo);
    }

    method AttachTo(c: Id)
      requires SlotsOk(s, slot, late) && IsCtrl(s, c)
      modifies this`slot
      ensures SlotsOk(s, slot, late) && old(slot).Keys <= slot.Keys
      ensures AttachedAt(s, slot, c) && (OnlyAttached(s, old(slot)) ==> OnlyAttached(s, slot))
    {
      WritingKeepsSlots(s, slot, late, c, c);
      slot := slot[c := c];
      var outs := s.nodes[c].outs;
      for i := 0 to |outs|
        invariant SlotsOk(s, slot, late) && old(slot).Keys <= slot.Keys
        invariant OnlyAttached(s, old(slot)) ==> OnlyAttached(s, slot)
        invariant forall j :: 0 <= j < i ==> outs[j].0 in slot
      {
        AttachedEarly(s, c, i);
        WritingKeepsSlots(s, slot, late, outs[i].0, c);
        slot := slot[outs[i].0 := c];
      }
      forall n | Attached(s, n) && s.nodes[n].inputs[0] == c ensures n in slot {
        assert OutsExact(s, c) && Uses(s, n, 0, c);
        var j :| 0 <= j < |outs| && outs[j] == (n, 0);
      }
    }

    /** Second pass: the deepest early block of the inputs. */
    method SchedEarly(n: Id)
      requires EarlySoFar(s, slot, late) && (n == 0 || IsData(s, n))
      modifies this`slot
      ensures EarlySoFar(s, slot, late) && old(slot).Keys <= slot.Keys && n in slot && slot[n] == Early(s, n)
      decreases if n == 0 then 0 else s.order[n] + 1, 1
    {
      if n in slot {
        assert SlotOk(s, slot, late, n);
        return;
      }
      var sched := s.cfg.entry;
      if n != 0 {
        sched := DeepestInput(n);
      }
      WritingKeepsSlots(s, slot, late, n, sched);
      WritingKeepsFilled(s, slot, n, sched);
      slot := slot[n := sched];
    }

    method DeepestInput(n: Id) returns (sched: Id)
      requires EarlySoFar(s, slot, late) && IsData(s, n) && !Attached(s, n)
      modifies this`slot
      ensures EarlySoFar(s, slot, late) && old(slot).Keys <= slot.Keys && InputsFilled(s, slot, n)
      ensures sched == DeepestEarly(s, n, |s.nodes[n].inputs|)
      decreases s.order[n] + 1, 0
    {
      sched := s.cfg.entry;
      var inputs := s.nodes[n].inputs;
      for k := 0 to |inputs|
        invariant EarlySoFar(s, slot, late) && old(slot).Keys <= slot.Keys
        invariant sched == DeepestEarly(s, n, k) && FirstFilled(s, slot, n, k)
      {
        ghost var before := slot;
        InputComesFirst(s, n, k);
        SchedEarly(inputs[k]);
        FirstFilledNext(s, before, slot, n, k);
        var e := slot[inputs[k]];
        if Depth(s.cfg, e) > Depth(s.cfg, sched) {
          sched := e;
        }
      }
    }

    /** Early blocks of whatever is read next to a control node or by it. */
    method FillEarly(rpo: seq<Id>)
      requires EarlySoFar(s, slot, late) && forall i :: 0 <= i < |rpo| ==> IsCtrl(s, rpo[i])
      modifies this`slot
      ensures EarlySoFar(s, slot, late) && old(slot).Keys <= slot.Keys
      ensures forall i :: 0 <= i < |rpo| ==> FilledAround(s, slot, rpo[i])
    {
      for i := 0 to |rpo|
        invariant EarlySoFar(s, slot, late) && old(slot).Keys <= slot.Keys
        invariant forall j :: 0 <= j < i ==> FilledAround(s, slot, rpo[j])
      {
        ghost var before := slot;
        FillAround(rpo[i]);
        forall j | 0 <= j < i ensures FilledAround(s, slot, rpo[j]) {
          assert FilledAround(s, before, rpo[j]);
        }
      }
    }

    method FillAround(c: Id)
      requires EarlySoFar(s, slot, late) && IsCtrl(s, c)
      modifies this`slot
      ensures EarlySoFar(s, slot, late) && old(slot).Keys <= slot.Keys && FilledAround(s, slot, c)
    {
      var outs := s.nodes[c].outs;
      for i := 0 to |outs|
        invariant EarlySoFar(s, slot, late) && old(slot).Keys <= slot.Keys && UsersFilled(s, slot, c, i)
      {
        ghost var before := slot;
        UserIsNode(s, c, i);
        SchedInputs(outs[i].0);
        UsersFilledNext(s, before, slot, c, i);
      }
      ghost var before := slot;
      SchedInputs(c);
      AllUsersFilled(s, before, slot, c);
    }

    method SchedInputs(u: Id)
      requires EarlySoFar(s, slot, late) && u in s.nodes
      modifies this`slot
      ensures EarlySoFar(s, slot, late) && old(slot).Keys <= slot.Keys && InputsFilled(s, slot, u)
    {
      var inputs := s.nodes[u].inputs;
      assert WellFormedData(s, u);
      for k := 0 to |inputs|
        invariant EarlySoFar(s, slot, late) && old(slot).Keys <= slot.Keys && FirstFilled(s, slot, u, k)
      {
        ghost var before := slot;
        if inputs[k] !in s.cfg.nodes { SchedEarly(inputs[k]); }
        FirstFilledNext(s, before, slot, u, k);
      }
    }

    /** Marks, with the load's id, the control nodes met when walking back from `low` to `bound`. */
    method MarkBackward(id: Id, low: Id, bound: Id)
      requires IsCtrl(s, low) && forall c :: IsCtrl(s, c) ==> !Marked(slot, id, c)
      modifies this`slot
      ensures forall c :: IsCtrl(s, c) ==> (Marked(slot, id, c) <==> BackReach(s.cfg, c, low, bound))
      ensures MarksOnly(s, old(slot), slot, id)
    {
      var stack := [low];
      assert BackWalk(s.cfg, [low], low, low, bound);
      while stack != []
        invariant MarksOnly(s, old(slot), slot, id)
        invariant Marking(s.cfg, slot, id, low, bound, stack)
        decreases Unmarked(s.cfg, slot, id), |stack|
      {
        var cursor := stack[|stack| - 1];
        ghost var before, marks := stack, slot;
        stack := stack[..|stack| - 1];
        assert before == stack + [cursor];
        MarkingSkips(s.cfg, slot, id, low, bound, stack, cursor);
        if !Marked(slot, id, cursor) {
          assert cursor in before;
          MarkingOne(s, old(slot), slot, id, cursor);
          slot := slot[cursor := id];
          if cursor != 0 && cursor != bound {
            MarkingAdvances(s.cfg, marks, id, low, bound, stack, cursor);
            stack := stack + s.cfg.nodes[cursor].inputs;
          }
        }
      }
      MarksAreReach(s.cfg, slot, id, low, bound);
    }

    method IsReady(n: Id) returns (ready: bool)
      requires n in s.nodes
      ensures ready <==> Ready(s, late, n)
    {
      ready := true;
      assert OutsExact(s, n) && WellFormedData(s, n);
      if s.nodes[n].isLoad {
        ready := MemoryUsersPlaced(s.nodes[n].inputs[1]);
      }
      if Free(s, n) && exists i :: 0 <= i < |s.nodes[n].outs| && s.nodes[n].outs[i].0 !in late {
        ghost var i :| 0 <= i < |s.nodes[n].outs| && s.nodes[n].outs[i].0 !in late;
        ghost var o := s.nodes[n].outs[i];
        assert (o.0, o.1) in s.nodes[n].outs && Uses(s, o.0, o.1, n);
        ready := false;
      }
    }

    method MemoryUsersPlaced(m: Id) returns (placed: bool)
      requires m in s.nodes
      ensures placed <==> forall u, k :: Uses(s, u, k, m) ==>
        u in late || s.nodes[u].isLoad || s.nodes[u].class_ == Local
    {
      var outs := s.nodes[m].outs;
      assert OutsExact(s, m);
      placed := true;
      for i := 0 to |outs|
        invariant placed <==> forall j :: 0 <= j < i ==> UserPlaced(outs[j].0)
      {
        assert (outs[i].0, outs[i].1) in outs && Uses(s, outs[i].0, outs[i].1, m);
        if !UserPlaced(outs[i].0) {
          placed := false;
        }
      }
      if placed {
        forall u: Id, k: nat | Uses(s, u, k, m) ensures UserPlaced(u) {
          var j :| 0 <= j < |outs| && outs[j] == (u, k);
        }
      } else {
        ghost var j :| 0 <= j < |outs| && !UserPlaced(outs[j].0);
        assert (outs[j].0, outs[j].1) in outs && Uses(s, outs[j].0, outs[j].1, m);
      }
    }

    predicate UserPlaced(u: Id)
      reads this
    {
      u in late || (u in s.nodes && (s.nodes[u].isLoad || s.nodes[u].class_ == Local))
    }

    /** Least common ancestor of the blocks of all uses; a node without uses stays early. */
    method LcaOfUses(n: Id, ghost at: map<Id, Id>) returns (lca: Id)
      requires LegalAtControl(s, at) && LateOk(s, late) && SlotsOk(s, slot, late)
      requires Free(s, n) && n in slot && Ready(s, late, n)
      ensures LowestUse(s, late, n, lca)
    {
      var outs := s.nodes[n].outs;
      assert SlotOk(s, slot, late, n) && OutsExact(s, n);
      if outs == [] {
        lca := slot[n];
        NoUses(s, late, n);
        return;
      }
      lca := 0;
      for i := 0 to |outs|
        invariant i == 0 ==> lca == 0
        invariant i > 0 ==> IsCtrl(s, lca) && Early(s, n) in Chain(s.cfg, lca)
        invariant FirstUsesReached(s, late, n, i, lca) && LowestOfFirst(s, late, n, i, lca)
      {
        assert (outs[i].0, outs[i].1) in outs && Uses(s, outs[i].0, outs[i].1, n);
        EarlyAboveUse(s, at, late, n, outs[i].0, outs[i].1);
        var b := UseBlock(s, late, outs[i].0, outs[i].1);
        assert b in Chain(s.cfg, b);
        OneMoreUseReached(s, late, n, i, lca, b);
        LowestOfOneMore(s, late, n, i, lca, b);
        lca := Lca(s.cfg, lca, b);
      }
      AllUsesReached(s, late, n, lca);
    }

    /** Climbs to the closest block start. */
    method ClimbToBlock(c: Id) returns (h: Id)
      requires IsCtrl(s, c)
      ensures h == BlockHead(s.cfg, c)
    {
      h := c;
      while !StartsBlock(s.cfg.nodes[h].kind)
        invariant IsCtrl(s, h) && BlockHead(s.cfg, h) == BlockHead(s.cfg, c)
        decreases Rk(s.cfg, h)
      {
        IdomShallower(s.cfg, h);
        h := Idom(s.cfg, h);
      }
    }

    /** Of the blocks between `low` and the early block, the one in the shallowest loop; the lowest such. */
    method Hoist(low: Id, early: Id) returns (best: Id)
      requires loopDepth.Keys == s.cfg.nodes.Keys
      requires IsCtrl(s, low) && StartsBlock(s.cfg.nodes[low].kind) && early in Chain(s.cfg, low)
      ensures IsCtrl(s, best) && StartsBlock(s.cfg.nodes[best].kind)
      ensures best in Chain(s.cfg, low) && early in Chain(s.cfg, best)
      ensures BestBetween(s.cfg, loopDepth, best, low, early)
    {
      best := low;
      var cursor := low;
      assert low in Chain(s.cfg, low);
      forall b | b in Chain(s.cfg, low) && b in s.cfg.nodes && low in Chain(s.cfg, b) ensures b == low {
        MutualAncestorsAreEqual(s.cfg, b, low);
      }
      while cursor != early
        invariant IsCtrl(s, cursor) && IsCtrl(s, best) && StartsBlock(s.cfg.nodes[best].kind)
        invariant cursor in Chain(s.cfg, low) && early in Chain(s.cfg, cursor)
        invariant best in Chain(s.cfg, low) && cursor in Chain(s.cfg, best)
        invariant BestBetween(s.cfg, loopDepth, best, low, cursor)
        decreases Rk(s.cfg, cursor)
      {
        BestBetweenStep(s.cfg, loopDepth, best, low, cursor);
        cursor := Idom(s.cfg, cursor);
        assert cursor in Chain(s.cfg, cursor);
        best := Better(best, cursor);
      }
    }

    method Better(current: Id, next: Id) returns (r: Id)
      requires loopDepth.Keys == s.cfg.nodes.Keys
      requires IsCtrl(s, current) && IsCtrl(s, next) && next in Chain(s.cfg, current)
      ensures r == if StartsBlock(s.cfg.nodes[next].kind) && loopDepth[current] > loopDepth[next] then next else current
    {
      if !StartsBlock(s.cfg.nodes[next].kind) { return current; }
      if loopDepth[current] > loopDepth[next] { return next; }
      if next != current { ChainShallower(s.cfg, current, next); }
      if Depth(s.cfg, current) < Depth(s.cfg, next) { return next; }
      return current;
    }

    /** Pulls `low` above every marked block that consumes the memory version of the load. */
    method PullAboveRivals(n: Id, low: Id) returns (lca: Id)
      requires Reducible(s.cfg) && LateOk(s, late) && n in s.nodes && Ready(s, late, n)
      requires IsData(s, n) && s.nodes[n].isLoad && IsCtrl(s, low) && Early(s, n) in Chain(s.cfg, low)
      requires forall c :: IsCtrl(s, c) ==> (Marked(slot, n, c) <==> BackReach(s.cfg, c, low, Early(s, n)))
      ensures LowestClear(s, late, n, low, lca)
    {
      assert WellFormedData(s, n);
      var m := s.nodes[n].inputs[1];
      var outs := s.nodes[m].outs;
      lca := low;
      assert lca in Chain(s.cfg, lca);
      for i := 0 to |outs|
        invariant IsCtrl(s, lca) && lca in Chain(s.cfg, low) && Early(s, n) in Chain(s.cfg, lca)
        invariant FirstRivalsMet(s, late, n, i, low, lca) && ClearIsAbove(s, late, n, low, lca)
      {
        var pulled := PullAboveRival(n, low, lca, i);
        OneMoreRivalMet(s, late, n, i, low, lca, pulled);
        ChainNests(s.cfg, low, lca);
        lca := pulled;
      }
      AllRivalsMet(s, late, n, low, lca);
    }

    method PullAboveRival(n: Id, low: Id, lca: Id, i: nat) returns (pulled: Id)
      requires Reducible(s.cfg) && LateOk(s, late) && n in s.nodes && Ready(s, late, n)
      requires IsData(s, n) && s.nodes[n].isLoad && |s.nodes[n].inputs| > 1 && IsData(s, s.nodes[n].inputs[1])
      requires i < |s.nodes[s.nodes[n].inputs[1]].outs|
      requires IsCtrl(s, low) && IsCtrl(s, lca) && Early(s, n) in Chain(s.cfg, low) && Early(s, n) in Chain(s.cfg, lca)
      requires forall c :: IsCtrl(s, c) ==> (Marked(slot, n, c) <==> BackReach(s.cfg, c, low, Early(s, n)))
      ensures IsCtrl(s, pulled) && pulled in Chain(s.cfg, lca) && Early(s, n) in Chain(s.cfg, pulled)
      ensures var o := s.nodes[s.nodes[n].inputs[1]].outs[i];
        RivalOf(s, n, o.0, o.1) ==> AboveRival(s, late, low, Early(s, n), pulled, o.0, o.1)
      ensures ClearIsAbove(s, late, n, low, lca) ==> ClearIsAbove(s, late, n, low, pulled)
    {
      var m := s.nodes[n].inputs[1];
      var (u, k) := s.nodes[m].outs[i];
      assert OutsExact(s, m) && (u, k) in s.nodes[m].outs && Uses(s, u, k, m);
      pulled := lca;
      assert lca in Chain(s.cfg, lca);
      if Consumes(s, u) {
        assert RivalOf(s, n, u, k);
        RivalsArePlaced(s, late, n, u, k);
        var b := UseBlock(s, late, u, k);
        if Marked(slot, n, b) {
          ghost var q :| BackWalk(s.cfg, q, b, low, Early(s, n));
          BackReachBelowBound(s.cfg, q, b, low, Early(s, n));
          LcaMovesUp(s.cfg, lca, b, Early(s, n));
          pulled := Lca(s.cfg, lca, b);
          PullingKeepsClear(s, late, n, low, lca, u, k);
        }
      }
    }

    /** Records that the load precedes each store of its memory version placed in the same block. */
    method RecordAntideps(n: Id, b: Id)
      requires IsData(s, n) && s.nodes[n].isLoad && forall u :: TimesRecorded(antideps, u, n) == 0
      modifies this`antideps
      ensures RecordsOf(s, late, antideps, n, b) && OnlyRecords(late, old(antideps), antideps, n)
    {
      assert WellFormedData(s, n);
      var m := s.nodes[n].inputs[1];
      var outs := s.nodes[m].outs;
      for i := 0 to |outs|
        invariant RecordedFirst(s, late, old(antideps), antideps, n, b, outs, i)
      {
        var u := outs[i].0;
        RecordedNext(s, late, old(antideps), antideps, n, b, outs, i);
        if StoresHere(s, late, u, b) {
          antideps := WithRecord(antideps, u, n);
        }
      }
      RecordedAll(s, late, old(antideps), antideps, n, b);
    }

    method AddMemAntideps(n: Id, low: Id) returns (lca: Id)
      requires Reducible(s.cfg) && SlotsOk(s, slot, late) && LateOk(s, late) && n in s.nodes && Ready(s, late, n)
      requires IsData(s, n) && n in slot && n !in late && s.nodes[n].isLoad
      requires IsCtrl(s, low) && Early(s, n) in Chain(s.cfg, low) && forall u :: TimesRecorded(antideps, u, n) == 0
      modifies this`slot, this`antideps
      ensures MarksOnly(s, old(slot), slot, n)
      ensures OnlyRecords(late, old(antideps), antideps, n)
      ensures LowestClear(s, late, n, low, lca) && RecordsOf(s, late, antideps, n, lca)
    {
      assert SlotOk(s, slot, late, n);
      forall c | IsCtrl(s, c) ensures !Marked(slot, n, c) {
        if c in slot { assert SlotOk(s, slot, late, c); }
      }
      MarkBackward(n, low, slot[n]);
      lca := PullAboveRivals(n, low);
      RecordAntideps(n, lca);
    }

    /** The block of a node that is free to move. */
    method ChooseBlock(n: Id, ghost at: map<Id, Id>) returns (b: Id)
      requires Reducible(s.cfg) && LegalAtControl(s, at) && loopDepth.Keys == s.cfg.nodes.Keys
      requires SlotsOk(s, slot, late) && LateOk(s, late) && forall u :: TimesRecorded(antideps, u, n) == 0
      requires Free(s, n) && n in slot && n !in late && Ready(s, late, n)
      modifies this`slot, this`antideps
      ensures MarksOnly(s, old(slot), slot, n)
      ensures OnlyRecords(late, old(antideps), antideps, n)
      ensures GoodBlock(s, late, antideps, n, b) && Settled(s, loopDepth, late, antideps, n, b)
    {
      assert SlotOk(s, slot, late, n);
      var low := LcaOfUses(n, at);
      var pulled := low;
      if s.nodes[n].isLoad {
        pulled := AddMemAntideps(n, low);
      } else {
        NothingToClear(s, late, antideps, n, low);
      }
      var head := ClimbToBlock(pulled);
      StartAboveHead(s.cfg, pulled, Early(s, n));
      b := Hoist(head, slot[n]);
      HoistedIsBest(s, loopDepth, late, n, low, pulled, b);
      assert SettledBelow(s, loopDepth, late, antideps, n, b, low, pulled);
      SettledIsGood(s, late, antideps, n, low, pulled, b);
    }

    /** Places one ready node. */
    method Place(n: Id, ghost at: map<Id, Id>)
      requires Valid() && Reducible(s.cfg) && LegalAtControl(s, at)
      requires n in s.nodes && n !in late && Ready(s, late, n) && (IsData(s, n) ==> n in slot)
      modifies this
      ensures Valid() && n in late && late == old(late)[n := late[n]] && antideps.Keys <= old(late).Keys
      ensures forall m :: IsData(s, m) && m in old(slot) ==> m in slot
    {
      var b: Id;
      if Free(s, n) {
        b := ChooseBlock(n, at);
      } else {
        FixedNodeSits(s, n);
        b := ClimbToBlock(HomeOf(s, n));
      }
      PlacementKept(s, old(slot), slot, late, old(antideps), antideps, n, b);
      PlacingKeepsSettled(s, loopDepth, late, old(antideps), antideps, n, b);
      late := late[n := b];
    }

    /** Late scheduling as a whole: the worklist offers nodes in any order, with repetition, and a node
        that is not ready is skipped until it is offered again. */
    method ScheduleLate(offered: seq<Id>, ghost at: map<Id, Id>)
      requires Valid() && Reducible(s.cfg) && LegalAtControl(s, at)
      requires forall i :: 0 <= i < |offered| ==> offered[i] in s.nodes
      requires forall m :: IsData(s, m) ==> m in slot
      modifies this
      ensures Valid()
      ensures late.Keys == s.nodes.Keys ==> Legal(s, late)
    {
      for i := 0 to |offered|
        invariant Valid() && forall m :: IsData(s, m) ==> m in slot
      {
        if offered[i] !in late {
          var ready := IsReady(offered[i]);
          if ready {
            Place(offered[i], at);
          }
        }
      }
      if late.Keys == s.nodes.Keys {
        FullScheduleIsLegal(s, at, late);
      }
    }
  }
}
