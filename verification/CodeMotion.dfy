/**
  Global code motion: which blocks a floating node may be placed in.

  A node's early block is the deepest of its inputs' early blocks; its late block is the
  least common ancestor of the blocks that use it, pulled above memory antidependences and
  then hoisted to the shallowest loop on the way up to the early block.
 */
module CodeMotion {
  import opened ControlGraph
  import opened Dominators

  /** How the scheduler treats a node. `Pinned` stands for Param, Ret, Dbg_Scope and the
      Mem of a Call_End; `Float` for every other data node except Local. */
  datatype Class = Control | Phi | Pinned | Local | Float

  /** `isMemory` tells the Phis of memory versions from those of values. */
  datatype Node = Node(class_: Class, isLoad: bool, isStore: bool, isMemory: bool, inputs: seq<Id>,
    outs: seq<(Id, nat)>)

  /** `order` witnesses that data flow among nodes without a control input is acyclic. */
  datatype RawSon = RawSon(cfg: Cfg, nodes: map<Id, Node>, order: map<Id, nat>)

  predicate IsCtrl(s: RawSon, n: Id) { n in s.cfg.nodes }

  predicate IsData(s: RawSon, n: Id) { n in s.nodes && s.nodes[n].class_ != Control }

  /** A data node with a control input, which is then input 0. */
  predicate Attached(s: RawSon, n: Id) {
    IsData(s, n) && |s.nodes[n].inputs| > 0 && IsCtrl(s, s.nodes[n].inputs[0])
  }

  /** Placed by the motion rather than fixed at its control. */
  predicate Free(s: RawSon, n: Id) {
    IsData(s, n) && s.nodes[n].class_ != Phi && s.nodes[n].class_ != Pinned
  }

  predicate Uses(s: RawSon, u: Id, k: nat, n: Id) {
    u in s.nodes && k < |s.nodes[u].inputs| && s.nodes[u].inputs[k] == n
  }

  /** The block at the end of which a Phi reads its k-th input. */
  predicate HasEdgeBlock(s: RawSon, u: Id, k: nat) {
    && u in s.nodes && 0 < k < |s.nodes[u].inputs| && IsCtrl(s, s.nodes[u].inputs[0])
    && var preds := s.cfg.nodes[s.nodes[u].inputs[0]].inputs;
       k - 1 < |preds| && IsCtrl(s, preds[k - 1]) &&
       |s.cfg.nodes[preds[k - 1]].inputs| > 0 &&
       var b := s.cfg.nodes[preds[k - 1]].inputs[0];
       IsCtrl(s, b) && StartsBlock(s.cfg.nodes[b].kind)
  }

  function EdgeBlock(s: RawSon, u: Id, k: nat): Id
    requires HasEdgeBlock(s, u, k)
  {
    s.cfg.nodes[s.cfg.nodes[s.nodes[u].inputs[0]].inputs[k - 1]].inputs[0]
  }

  /** Control that enters the block of a Phi along the edge of its k-th input comes from there. */
  lemma EdgeBlockIsLeft(s: RawSon, u: Id, k: nat, p: seq<Id>, i: nat)
    requires HasEdgeBlock(s, u, k) && IsWalk(s.cfg, p) && i + 2 < |p|
    requires p[i + 2] == s.nodes[u].inputs[0] && p[i + 1] == s.cfg.nodes[p[i + 2]].inputs[k - 1]
    requires s.cfg.nodes[p[i + 1]].kind == Jump
    ensures p[i] == EdgeBlock(s, u, k)
  {
    var j := i + 1;
    assert Edge(s.cfg, p[j - 1], p[j]);
  }

  predicate WellFormedData(s: RawSon, n: Id)
    requires n in s.nodes
  {
    var d := s.nodes[n];
    && (forall k :: 0 <= k < |d.inputs| ==> d.inputs[k] == 0 || d.inputs[k] in s.nodes)
    && (d.class_ == Local || d.class_ == Phi ==> !d.isStore)
    && (d.isLoad ==> !d.isStore && d.class_ == Float && |d.inputs| > 1 && IsData(s, d.inputs[1]))
    && (d.class_ != Control ==> forall k :: 0 < k < |d.inputs| ==> !IsCtrl(s, d.inputs[k]))
    && (Attached(s, n) ==> StartsBlock(s.cfg.nodes[d.inputs[0]].kind))
    && (d.class_ == Pinned || d.class_ == Phi ==> Attached(s, n))
    && (d.class_ == Phi ==> forall k :: 0 < k < |d.inputs| && d.inputs[k] != 0 ==> HasEdgeBlock(s, n, k))
  }

  /** The output list of n holds exactly the uses of n. */
  ghost predicate OutsExact(s: RawSon, n: Id)
    requires n in s.nodes
  {
    forall u: Id, k: nat :: Uses(s, u, k, n) <==> (u, k) in s.nodes[n].outs
  }

  ghost predicate WellFormedSon(s: RawSon) {
    && 0 !in s.nodes
    && (forall n :: n in s.cfg.nodes <==> n in s.nodes && s.nodes[n].class_ == Control)
    && s.order.Keys == s.nodes.Keys
    && (forall n {:trigger WellFormedData(s, n)} :: n in s.nodes ==> WellFormedData(s, n))
    && (forall n {:trigger OutsExact(s, n)} :: n in s.nodes ==> OutsExact(s, n))
    && (forall n, k, i :: IsData(s, n) && !Attached(s, n) && Uses(s, n, k, i) && i in s.nodes ==>
          s.order[i] < s.order[n])
  }

  type Son = s: RawSon | WellFormedSon(s)
    ghost witness RawSon(RawCfg(1, map[1 := Ctrl(Entry, [])], map[1 := 0]),
      map[1 := Node(Control, false, false, false, [], [])], map[1 := 0])

  // ---- early blocks ----

  ghost function Early(s: Son, n: Id): (e: Id)
    requires (n == 0 || IsData(s, n))
    ensures IsCtrl(s, e) && StartsBlock(s.cfg.nodes[e].kind)
    decreases if n == 0 then 0 else s.order[n] + 1, 1, 0
  {
    if n == 0 then s.cfg.entry
    else
      assert WellFormedData(s, n);
      if Attached(s, n) then s.nodes[n].inputs[0]
      else DeepestEarly(s, n, |s.nodes[n].inputs|)
  }

  /** Deepest early block among the first k inputs of n, starting from the entry. */
  ghost function DeepestEarly(s: Son, n: Id, k: nat): (e: Id)
    requires IsData(s, n) && !Attached(s, n) && k <= |s.nodes[n].inputs|
    ensures IsCtrl(s, e) && StartsBlock(s.cfg.nodes[e].kind)
    decreases s.order[n] + 1, 0, k
  {
    if k == 0 then s.cfg.entry
    else
      var i := s.nodes[n].inputs[k - 1];
      assert WellFormedData(s, n) && Uses(s, n, k - 1, i);
      var e, best := Early(s, i), DeepestEarly(s, n, k - 1);
      if Depth(s.cfg, e) > Depth(s.cfg, best) then e else best
  }

  // ---- placements ----

  /** First block start at or above c. */
  function BlockHead(g: Cfg, c: Id): (h: Id)
    requires c in g.nodes
    ensures h in Chain(g, c) && h in g.nodes && StartsBlock(g.nodes[h].kind)
    decreases Rk(g, c)
  {
    if StartsBlock(g.nodes[c].kind) then c
    else
      IdomShallower(g, c);
      BlockHead(g, Idom(g, c))
  }

  /** The block in which u reads its k-th input, when nodes sit where `at` says. */
  function UseBlock(s: Son, at: map<Id, Id>, u: Id, k: nat): Id
    requires u in s.nodes && u in at
    requires s.nodes[u].class_ == Phi ==> HasEdgeBlock(s, u, k)
  {
    if s.nodes[u].class_ == Phi then EdgeBlock(s, u, k) else at[u]
  }

  /** Control nodes sit in their own block, pinned nodes and Phis at their control. */
  ghost predicate SitsAt(s: Son, n: Id, b: Id)
    requires n in s.nodes
  {
    && IsCtrl(s, b) && StartsBlock(s.cfg.nodes[b].kind)
    && (IsCtrl(s, n) ==> b == BlockHead(s.cfg, n))
    && (IsData(s, n) && !Free(s, n) ==> Attached(s, n) && b == s.nodes[n].inputs[0])
  }

  /** The definition of n reaches its use as input k of u. */
  ghost predicate ReachesUse(s: Son, at: map<Id, Id>, n: Id, u: Id, k: nat)
    requires u in s.nodes && u in at && n in at && IsCtrl(s, at[n]) && IsCtrl(s, at[u])
    requires Uses(s, u, k, n) && IsData(s, n)
  {
    assert WellFormedData(s, u) && WellFormedData(s, n);
    at[n] in Chain(s.cfg, UseBlock(s, at, u, k))
  }

  /** Every definition reaches every use of it. */
  ghost predicate Legal(s: Son, at: map<Id, Id>)
  {
    && at.Keys == s.nodes.Keys
    && (forall n {:trigger SitsAt(s, n, at[n])} :: n in s.nodes ==> SitsAt(s, n, at[n]))
    && (forall n, u, k {:trigger ReachesUse(s, at, n, u, k)} ::
          IsData(s, n) && Uses(s, u, k, n) && SitsAt(s, n, at[n]) && SitsAt(s, u, at[u]) ==> ReachesUse(s, at, n, u, k))
  }

  /** A legal placement that keeps every node with a control input at that control. */
  ghost predicate LegalAtControl(s: Son, at: map<Id, Id>)
  {
    Legal(s, at) && forall n :: Attached(s, n) ==> at[n] == s.nodes[n].inputs[0]
  }

  // ---- facts about early blocks ----

  /** In any legal placement the early block is above the placed one. */
  lemma {:induction false} EarlyAbovePlacement(s: Son, at: map<Id, Id>, n: Id)
    requires LegalAtControl(s, at) && IsData(s, n)
    ensures SitsAt(s, n, at[n]) && Early(s, n) in Chain(s.cfg, at[n])
    decreases s.order[n] + 1, 1, 0
  {
    assert WellFormedData(s, n) && SitsAt(s, n, at[n]);
    if !Attached(s, n) {
      DeepestAbovePlacement(s, at, n, |s.nodes[n].inputs|);
    }
  }

  lemma {:induction false} DeepestAbovePlacement(s: Son, at: map<Id, Id>, n: Id, k: nat)
    requires LegalAtControl(s, at) && IsData(s, n) && !Attached(s, n)
    requires k <= |s.nodes[n].inputs|
    ensures SitsAt(s, n, at[n]) && DeepestEarly(s, n, k) in Chain(s.cfg, at[n])
    decreases s.order[n] + 1, 0, k
  {
    assert WellFormedData(s, n) && SitsAt(s, n, at[n]);
    if k == 0 {
      EntryOnChain(s.cfg, at[n]);
    } else {
      DeepestAbovePlacement(s, at, n, k - 1);
      InputEarlyAbovePlacement(s, at, n, k - 1);
    }
  }

  /** What a node reads is available, at its earliest, above every legal place for the node. */
  lemma {:induction false} InputEarlyAbovePlacement(s: Son, at: map<Id, Id>, n: Id, k: nat)
    requires LegalAtControl(s, at) && IsData(s, n) && !Attached(s, n)
    requires k < |s.nodes[n].inputs|
    ensures WellFormedData(s, n) && SitsAt(s, n, at[n])
    ensures var i := s.nodes[n].inputs[k]; (i == 0 || IsData(s, i)) && Early(s, i) in Chain(s.cfg, at[n])
    decreases s.order[n] + 1, 0, 0
  {
    var i := s.nodes[n].inputs[k];
    assert WellFormedData(s, n) && SitsAt(s, n, at[n]);
    if i == 0 {
      EntryOnChain(s.cfg, at[n]);
    } else {
      assert Uses(s, n, k, i);
      EarlyAbovePlacement(s, at, i);
      assert ReachesUse(s, at, i, n, k);
      ChainNests(s.cfg, at[n], at[i]);
    }
  }

  lemma {:induction false} DeepestIsDeepest(s: Son, n: Id, k: nat, j: nat)
    requires IsData(s, n) && !Attached(s, n) && j < k <= |s.nodes[n].inputs|
    ensures WellFormedData(s, n)
    ensures Depth(s.cfg, Early(s, s.nodes[n].inputs[j])) <= Depth(s.cfg, DeepestEarly(s, n, k))
  {
    assert WellFormedData(s, n);
    if j < k - 1 { DeepestIsDeepest(s, n, k - 1, j); }
  }

  lemma {:induction false} DeepestIsOne(s: Son, n: Id, k: nat, c: Id)
    requires IsData(s, n) && !Attached(s, n) && k <= |s.nodes[n].inputs| && IsCtrl(s, c)
    requires forall j :: 0 <= j < k ==> InputEarlyAbove(s, n, j, c)
    ensures DeepestEarly(s, n, k) in Chain(s.cfg, c)
  {
    if k == 0 {
      EntryOnChain(s.cfg, c);
    } else {
      assert WellFormedData(s, n) && InputEarlyAbove(s, n, k - 1, c);
      DeepestIsOne(s, n, k - 1, c);
    }
  }

  /** What n reads as input k is available at c. */
  ghost predicate InputEarlyAbove(s: Son, n: Id, k: nat, c: Id)
    requires IsData(s, n) && !Attached(s, n) && k < |s.nodes[n].inputs| && IsCtrl(s, c)
  {
    assert WellFormedData(s, n);
    Early(s, s.nodes[n].inputs[k]) in Chain(s.cfg, c)
  }

  /** The early block of a node without a control input is the highest at which all that it reads is available. */
  lemma EarlyIsHighest(s: Son, at: map<Id, Id>, n: Id, c: Id)
    requires LegalAtControl(s, at) && IsData(s, n) && !Attached(s, n) && IsCtrl(s, c)
    ensures Early(s, n) in Chain(s.cfg, c) <==>
      forall k :: 0 <= k < |s.nodes[n].inputs| ==> InputEarlyAbove(s, n, k, c)
  {
    assert WellFormedData(s, n);
    if Early(s, n) in Chain(s.cfg, c) {
      ChainNests(s.cfg, c, Early(s, n));
      forall k | 0 <= k < |s.nodes[n].inputs| ensures InputEarlyAbove(s, n, k, c) {
        var i := s.nodes[n].inputs[k];
        if i == 0 { EntryOnChain(s.cfg, c); } else { EarlyAboveUserEarly(s, at, i, n, k); }
      }
    } else if forall k :: 0 <= k < |s.nodes[n].inputs| ==> InputEarlyAbove(s, n, k, c) {
      DeepestIsOne(s, n, |s.nodes[n].inputs|, c);
    }
  }

  /** The early block of an input is above the early block of every node reading it. */
  lemma EarlyAboveUserEarly(s: Son, at: map<Id, Id>, n: Id, u: Id, k: nat)
    requires LegalAtControl(s, at) && IsData(s, n) && IsData(s, u)
    requires Uses(s, u, k, n) && s.nodes[u].class_ != Phi
    ensures Early(s, n) in Chain(s.cfg, Early(s, u))
  {
    assert WellFormedData(s, u);
    EarlyAbovePlacement(s, at, n);
    EarlyAbovePlacement(s, at, u);
    assert ReachesUse(s, at, n, u, k);
    ChainNests(s.cfg, at[u], at[n]);
    if !Attached(s, u) {
      DeepestIsDeepest(s, u, |s.nodes[u].inputs|, k);
      ChainIsOrdered(s.cfg, at[u], Early(s, n), Early(s, u));
    }
  }

  // ---- the invariant of late placement ----

  ghost predicate PlacedOk(s: Son, late: map<Id, Id>, n: Id)
    requires n in late && n in s.nodes
  {
    && SitsAt(s, n, late[n])
    && (IsData(s, n) ==> Early(s, n) in Chain(s.cfg, late[n]))
  }

  /** A placed free node has all its uses placed, below it. */
  ghost predicate UseOk(s: Son, late: map<Id, Id>, n: Id, u: Id, k: nat)
    requires n in late && n in s.nodes
  {
    Free(s, n) && Uses(s, u, k, n) ==>
      u in late && SitsAt(s, n, late[n]) && SitsAt(s, u, late[u]) && ReachesUse(s, late, n, u, k)
  }

  ghost predicate LateOk(s: Son, late: map<Id, Id>)
  {
    && late.Keys <= s.nodes.Keys
    && (forall n {:trigger PlacedOk(s, late, n)} :: n in late ==> PlacedOk(s, late, n))
    && (forall n, u, k {:trigger UseOk(s, late, n, u, k)} :: n in late ==> UseOk(s, late, n, u, k))
  }

  /** Whatever uses n has been placed below n's early block. */
  lemma EarlyAboveUse(s: Son, at: map<Id, Id>, late: map<Id, Id>, n: Id, u: Id, k: nat)
    requires LegalAtControl(s, at) && LateOk(s, late)
    requires IsData(s, n) && Uses(s, u, k, n) && u in late
    ensures WellFormedData(s, u) && SitsAt(s, u, late[u])
    ensures s.nodes[u].class_ == Phi ==> HasEdgeBlock(s, u, k)
    ensures UseBlock(s, late, u, k) in s.cfg.nodes
    ensures Early(s, n) in Chain(s.cfg, UseBlock(s, late, u, k))
  {
    assert WellFormedData(s, u) && WellFormedData(s, n) && PlacedOk(s, late, u);
    EarlyAbovePlacement(s, at, n);
    assert SitsAt(s, u, at[u]) && ReachesUse(s, at, n, u, k);
    ChainNests(s.cfg, UseBlock(s, at, u, k), at[n]);
    if IsData(s, u) && s.nodes[u].class_ != Phi {
      EarlyAboveUserEarly(s, at, n, u, k);
      ChainNests(s.cfg, late[u], Early(s, u));
    }
  }

  /** Placing one more node keeps the invariant when its block lies between the early
      block and every use. */
  lemma PlacingKeepsLateOk(s: Son, late: map<Id, Id>, n: Id, b: Id)
    requires LateOk(s, late) && n in s.nodes && n !in late && SitsAt(s, n, b)
    requires IsData(s, n) ==> Early(s, n) in Chain(s.cfg, b)
    requires Free(s, n) ==> forall u, k :: Uses(s, u, k, n) ==>
      u != n && u in late && UseReached(s, late, b, u, k)
    ensures LateOk(s, late[n := b])
  {
    var late' := late[n := b];
    forall m | m in late' ensures PlacedOk(s, late', m) {
      if m != n { assert PlacedOk(s, late, m); }
    }
    forall m, u, k | m in late' && Free(s, m) && Uses(s, u, k, m) ensures UseOk(s, late', m, u, k) {
      if m != n {
        assert UseOk(s, late, m, u, k);
      } else {
        assert UseReached(s, late, b, u, k);
        assert WellFormedData(s, u) && WellFormedData(s, n);
        assert PlacedOk(s, late, u);
      }
    }
  }

  ghost predicate UseReached(s: Son, late: map<Id, Id>, b: Id, u: Id, k: nat)
    requires u in s.nodes && u in late
  {
    && (s.nodes[u].class_ == Phi ==> HasEdgeBlock(s, u, k))
    && UseBlock(s, late, u, k) in s.cfg.nodes && b in Chain(s.cfg, UseBlock(s, late, u, k))
  }

  /** A block start above c is above c's block head. */
  lemma {:induction false} StartAboveHead(g: Cfg, c: Id, e: Id)
    requires c in g.nodes && e in Chain(g, c) && e in g.nodes && StartsBlock(g.nodes[e].kind)
    ensures e in Chain(g, BlockHead(g, c))
    decreases Rk(g, c)
  {
    if !StartsBlock(g.nodes[c].kind) {
      IdomShallower(g, c);
      StartAboveHead(g, Idom(g, c), e);
    }
  }

  /** When every node has been placed, the schedule is legal, and so the motion finds a
      legal schedule whenever some placement at control is one. */
  lemma FullScheduleIsLegal(s: Son, at: map<Id, Id>, late: map<Id, Id>)
    requires LegalAtControl(s, at) && LateOk(s, late) && late.Keys == s.nodes.Keys
    ensures Legal(s, late)
  {
    forall n | n in s.nodes ensures SitsAt(s, n, late[n]) {
      assert PlacedOk(s, late, n);
    }
    forall n, u, k | IsData(s, n) && Uses(s, u, k, n) && SitsAt(s, n, late[n]) && SitsAt(s, u, late[u])
      ensures ReachesUse(s, late, n, u, k)
    {
      PlacedReachesUse(s, at, late, n, u, k);
    }
  }

  lemma PlacedReachesUse(s: Son, at: map<Id, Id>, late: map<Id, Id>, n: Id, u: Id, k: nat)
    requires LegalAtControl(s, at) && LateOk(s, late)
    requires IsData(s, n) && Uses(s, u, k, n) && n in late && u in late
    ensures SitsAt(s, n, late[n]) && SitsAt(s, u, late[u]) && ReachesUse(s, late, n, u, k)
  {
    assert UseOk(s, late, n, u, k);
    if !Free(s, n) {
      assert WellFormedData(s, n) && PlacedOk(s, late, n);
      EarlyAboveUse(s, at, late, n, u, k);
    }
  }

  /** In terms of walks: whenever control reaches a use, it has passed the block of the definition,
      and whenever it reaches the block of a data node it has passed its early block. */
  lemma ScheduleRespectsDominance(s: Son, at: map<Id, Id>, late: map<Id, Id>, n: Id, u: Id, k: nat)
    requires Reducible(s.cfg) && LegalAtControl(s, at)
    requires LateOk(s, late) && late.Keys == s.nodes.Keys
    requires IsData(s, n) && Uses(s, u, k, n)
    ensures s.nodes[u].class_ == Phi ==> HasEdgeBlock(s, u, k)
    ensures Dominates(s.cfg, late[n], UseBlock(s, late, u, k))
    ensures Dominates(s.cfg, Early(s, n), late[n])
  {
    FullScheduleIsLegal(s, at, late);
    assert SitsAt(s, n, late[n]) && SitsAt(s, u, late[u]);
    assert ReachesUse(s, late, n, u, k);
    EarlyAboveUse(s, at, late, n, u, k);
    IdomChainIsExact(s.cfg, late[n], UseBlock(s, late, u, k));
    assert PlacedOk(s, late, n);
    IdomChainIsExact(s.cfg, Early(s, n), late[n]);
  }
}
