/**
  Strongly connected components of the call graph, found by one depth-first search with
  a stack and lowlinks.
 */
module Components {
  import opened Basics
  import opened CallGraph

  datatype Assoc = Assoc(index: nat, lowlink: nat, sccId: nat, onStack: bool)

  /** A snapshot of the search. An index of 0 means not visited yet. */
  datatype State = State(assoc: seq<Assoc>, stack: seq<nat>, sccs: seq<seq<nat>>, index: nat)

  function Idx(s: State, v: nat): nat {
    if v < |s.assoc| then s.assoc[v].index else 0
  }

  function Scc(s: State, v: nat): nat {
    if v < |s.assoc| then s.assoc[v].sccId else 0
  }

  predicate Visited(s: State, v: nat) {
    v < |s.assoc| && s.assoc[v].index > 0
  }

  /** Assigned to a component. */
  predicate Done(s: State, v: nat) {
    Visited(s, v) && !s.assoc[v].onStack
  }

  predicate Stacked(s: State, v: nat) {
    Visited(s, v) && s.assoc[v].onStack
  }

  // ---- the invariant, part by part ----

  /** The stack lists the visited procedures without a component, in the order of their indices. */
  ghost predicate StackOk(g: Calls, s: State) {
    && |s.assoc| == |g|
    && (forall v: nat :: v < |g| && s.assoc[v].onStack ==> s.assoc[v].index > 0)
    && (forall v: nat :: Visited(s, v) ==> Idx(s, v) <= s.index)
    && (forall v: nat :: v in s.stack <==> Stacked(s, v))
    && (forall i, j :: 0 <= i < j < |s.stack| ==> Idx(s, s.stack[i]) < Idx(s, s.stack[j]))
  }

  /** Each component lists, once each, exactly the procedures that carry its number. */
  ghost predicate ListsOk(s: State) {
    && (forall v: nat :: Done(s, v) ==> Scc(s, v) < |s.sccs| && v in s.sccs[Scc(s, v)])
    && (forall c, v: nat :: 0 <= c < |s.sccs| && v in s.sccs[c] ==> Done(s, v) && Scc(s, v) == c)
    && (forall c :: 0 <= c < |s.sccs| ==> Distinct(s.sccs[c]) && s.sccs[c] != [])
  }

  /** Calls from assigned procedures lead to assigned ones, never to a later component. */
  ghost predicate DoneClosed(g: Calls, s: State) {
    forall a: nat, b: nat :: Done(s, a) && Edge(g, a, b) ==> Done(s, b) && Scc(s, b) <= Scc(s, a)
  }

  /** Assigned procedures share a component exactly when they call each other. */
  ghost predicate DoneExact(g: Calls, s: State) {
    forall a: nat, b: nat :: Done(s, a) && Done(s, b) ==> (Scc(s, a) == Scc(s, b) <==> Mutual(g, a, b))
  }

  /** Lower on the stack reaches higher. */
  ghost predicate StackReaches(g: Calls, s: State) {
    forall i, j :: 0 <= i <= j < |s.stack| ==> Reach(g, s.stack[i], s.stack[j])
  }

  /** The stack position j reaches a procedure still being explored at or below it. */
  ghost predicate ReachesGray(g: Calls, s: State, gray: set<nat>, j: nat)
    requires j < |s.stack|
  {
    exists i :: 0 <= i <= j && s.stack[i] in gray && Reach(g, s.stack[j], s.stack[i])
  }

  ghost predicate GrayReached(g: Calls, s: State, gray: set<nat>) {
    && (forall x :: x in gray ==> x in s.stack)
    && (forall j :: 0 <= j < |s.stack| ==> ReachesGray(g, s, gray, j))
  }

  /** Fully explored procedures call only visited ones. */
  ghost predicate BlackClosed(g: Calls, s: State, gray: set<nat>) {
    forall a: nat, b: nat :: Visited(s, a) && a !in gray && Edge(g, a, b) ==> Visited(s, b)
  }

  ghost predicate Inv(g: Calls, s: State, gray: set<nat>) {
    && StackOk(g, s) && ListsOk(s) && DoneClosed(g, s) && DoneExact(g, s)
    && StackReaches(g, s) && GrayReached(g, s, gray) && BlackClosed(g, s, gray)
  }

  // ---- what an exploration promises ----

  /** What an exploration leaves alone. */
  ghost predicate Extends(s: State, s': State) {
    && |s.assoc| == |s'.assoc| && s.stack <= s'.stack && s.sccs <= s'.sccs && s.index <= s'.index
    && (forall v: nat :: Visited(s, v) ==> s'.assoc[v] == s.assoc[v])
  }

  /** Calls from the stack at or above `from` down to below `mark` land no lower than `low`. */
  ghost predicate CrossingsBound(g: Calls, s: State, from: nat, mark: nat, low: nat)
    requires mark <= |s.stack|
  {
    forall i, j :: from <= i < |s.stack| && 0 <= j < mark && Edge(g, s.stack[i], s.stack[j]) ==>
      low <= Idx(s, s.stack[j])
  }

  /** The lowlink is the index of a stacked procedure that v reaches. */
  ghost predicate LowReached(g: Calls, s: State, v: nat, low: nat) {
    exists j :: 0 <= j < |s.stack| && Idx(s, s.stack[j]) == low && Reach(g, v, s.stack[j])
  }

  /** v has been explored: either it has left with its whole component, or it stays on the stack
      together with what it found, and reaches below itself. */
  ghost predicate Explored(g: Calls, s: State, s': State, v: nat)
    requires v < |s'.assoc|
  {
    var mark, low := |s.stack|, s'.assoc[v].lowlink;
    && s.index < Idx(s', v) && low <= Idx(s', v) && |s'.stack| >= mark
    && (|s'.stack| == mark ==> low == Idx(s', v))
    && (|s'.stack| > mark ==> s'.stack[mark] == v && low < Idx(s', v) && LowReached(g, s, v, low))
    && CrossingsBound(g, s', mark, mark, low)
  }

  /** What the first k calls of v say about how low v reaches. */
  ghost predicate LowKnown(g: Calls, s0: State, s: State, v: nat, k: nat, low: nat)
    requires v < |g| && k <= |g[v]| && |s0.stack| <= |s.stack|
  {
    && low <= Idx(s, v) && (low == Idx(s, v) || LowReached(g, s0, v, low))
    && CrossingsBound(g, s, |s0.stack| + 1, |s0.stack|, low)
    && (forall j :: 0 <= j < k ==> Visited(s, g[v][j]))
    && (forall i, j :: 0 <= j < k && 0 <= i < |s0.stack| && s.stack[i] == g[v][j] ==> low <= Idx(s, s.stack[i]))
  }

  /** The first k calls of v have been looked at; s0 is the state before v was visited. */
  ghost predicate Exploring(g: Calls, s0: State, s: State, gray: set<nat>, v: nat, k: nat)
    requires v < |g| && k <= |g[v]|
  {
    && Inv(g, s, gray + {v}) && Extends(s0, s) && !Visited(s0, v) && |s0.assoc| == |g|
    && |s.stack| > |s0.stack| && s.stack[|s0.stack|] == v && s0.index < Idx(s, v)
    && LowKnown(g, s0, s, v, k, s.assoc[v].lowlink)
  }

  // ---- visiting v ----

  function Push(s: State, v: nat): State
    requires v < |s.assoc|
  {
    State(s.assoc[v := Assoc(s.index + 1, s.index + 1, s.assoc[v].sccId, true)], s.stack + [v], s.sccs, s.index + 1)
  }

  lemma PushKeepsStack(g: Calls, s: State, v: nat)
    requires v < |g| && StackOk(g, s) && !Visited(s, v)
    ensures StackOk(g, Push(s, v))
  {
    var t := Push(s, v);
    forall u: nat | Visited(t, u) ensures Idx(t, u) <= t.index {
      if u != v { assert Visited(s, u); }
    }
    forall u: nat ensures u in t.stack <==> Stacked(t, u) {
      assert u in t.stack <==> u in s.stack || u == v;
      assert u != v ==> (Stacked(t, u) <==> Stacked(s, u));
    }
    forall i, j | 0 <= i < j < |t.stack| ensures Idx(t, t.stack[i]) < Idx(t, t.stack[j]) {
      assert s.stack[i] in s.stack && Stacked(s, s.stack[i]);
      if j < |s.stack| { assert s.stack[j] in s.stack && Stacked(s, s.stack[j]); }
    }
  }

  lemma PushKeepsDone(g: Calls, s: State, v: nat)
    requires v < |g| && StackOk(g, s) && !Visited(s, v) && ListsOk(s) && DoneClosed(g, s) && DoneExact(g, s)
    ensures ListsOk(Push(s, v)) && DoneClosed(g, Push(s, v)) && DoneExact(g, Push(s, v))
  {
    var t := Push(s, v);
    assert forall u: nat :: Done(t, u) <==> Done(s, u);
    assert forall u: nat :: Done(s, u) ==> Scc(t, u) == Scc(s, u);
  }

  lemma PushKeepsReach(g: Calls, s: State, gray: set<nat>, v: nat)
    requires v < |g| && StackOk(g, s) && !Visited(s, v)
    requires StackReaches(g, s) && GrayReached(g, s, gray) && BlackClosed(g, s, gray)
    requires forall x :: x in gray ==> Reach(g, x, v)
    ensures StackReaches(g, Push(s, v)) && GrayReached(g, Push(s, v), gray + {v})
    ensures BlackClosed(g, Push(s, v), gray + {v})
  {
    var t := Push(s, v);
    ReachSelf(g, v);
    forall i | 0 <= i < |s.stack| ensures Reach(g, s.stack[i], v) {
      assert ReachesGray(g, s, gray, i);
      var h :| 0 <= h <= i && s.stack[h] in gray && Reach(g, s.stack[i], s.stack[h]);
      ReachTrans(g, s.stack[i], s.stack[h], v);
    }
    forall j | 0 <= j < |t.stack| ensures ReachesGray(g, t, gray + {v}, j) {
      if j < |s.stack| {
        assert ReachesGray(g, s, gray, j);
        var h :| 0 <= h <= j && s.stack[h] in gray && Reach(g, s.stack[j], s.stack[h]);
        assert t.stack[h] in gray + {v};
      } else {
        assert t.stack[j] == v;
      }
    }
    forall a: nat, b: nat | Visited(t, a) && a !in gray + {v} && Edge(g, a, b) ensures Visited(t, b) {
      assert Visited(s, a) && Visited(s, b);
    }
  }

  lemma PushStarts(g: Calls, s: State, gray: set<nat>, v: nat)
    requires v < |g| && Inv(g, s, gray) && !Visited(s, v)
    requires forall x :: x in gray ==> Reach(g, x, v)
    ensures Exploring(g, s, Push(s, v), gray, v, 0)
  {
    PushKeepsStack(g, s, v);
    PushKeepsDone(g, s, v);
    PushKeepsReach(g, s, gray, v);
  }

  // ---- looking at one call ----

  function Lower(s: State, v: nat, x: nat): State
    requires v < |s.assoc|
  {
    s.(assoc := s.assoc[v := s.assoc[v].(lowlink := if x < s.assoc[v].lowlink then x else s.assoc[v].lowlink)])
  }

  lemma LowerKeepsInv(g: Calls, s: State, gray: set<nat>, v: nat, x: nat)
    requires v < |s.assoc| && Inv(g, s, gray)
    ensures Inv(g, Lower(s, v, x), gray)
  {
    var t := Lower(s, v, x);
    assert forall u: nat :: Idx(t, u) == Idx(s, u) && Scc(t, u) == Scc(s, u);
    assert forall u: nat ::
      (Visited(t, u) <==> Visited(s, u)) && (Done(t, u) <==> Done(s, u)) && (Stacked(t, u) <==> Stacked(s, u));
    forall j | 0 <= j < |t.stack| ensures ReachesGray(g, t, gray, j) {
      assert ReachesGray(g, s, gray, j);
    }
  }

  /** The call at position k leads to an assigned procedure: nothing to learn. */
  lemma DoneCall(g: Calls, s0: State, s: State, gray: set<nat>, v: nat, k: nat)
    requires v < |g| && k < |g[v]| && Exploring(g, s0, s, gray, v, k) && Done(s, g[v][k])
    ensures Exploring(g, s0, s, gray, v, k + 1)
  {
    forall i | 0 <= i < |s0.stack| ensures s.stack[i] != g[v][k] {
      assert s.stack[i] in s.stack;
    }
  }

  /** The stack below v is the stack before v was visited, with the same indices. */
  lemma BelowIsOld(g: Calls, s0: State, s: State, gray: set<nat>, v: nat, k: nat)
    requires v < |g| && k <= |g[v]| && StackOk(g, s0) && Exploring(g, s0, s, gray, v, k)
    ensures forall i :: 0 <= i < |s0.stack| ==>
      s.stack[i] == s0.stack[i] && Visited(s0, s0.stack[i]) && Idx(s, s.stack[i]) == Idx(s0, s0.stack[i])
    ensures forall i :: 0 <= i < |s.stack| ==> (Idx(s, s.stack[i]) < Idx(s, v) <==> i < |s0.stack|)
  {
    forall i | 0 <= i < |s0.stack|
      ensures s.stack[i] == s0.stack[i] && Visited(s0, s0.stack[i]) && Idx(s, s.stack[i]) == Idx(s0, s0.stack[i])
    {
      assert s0.stack[i] in s0.stack && Stacked(s0, s0.stack[i]);
    }
  }

  /** The call at position k leads to a stacked procedure. */
  lemma StackedCall(g: Calls, s0: State, s: State, gray: set<nat>, v: nat, k: nat)
    requires v < |g| && k < |g[v]| && StackOk(g, s0) && Exploring(g, s0, s, gray, v, k) && Stacked(s, g[v][k])
    ensures Exploring(g, s0, Lower(s, v, Idx(s, g[v][k])), gray, v, k + 1)
  {
    BelowIsOld(g, s0, s, gray, v, k);
    assert g[v][k] in s.stack;
    StackedCallLow(g, s0, s, v, k);
    LowerExploring(g, s0, s, gray, v, k + 1, Idx(s, g[v][k]));
  }

  function Min(a: nat, b: nat): nat { if a < b then a else b }

  lemma StackedCallLow(g: Calls, s0: State, s: State, v: nat, k: nat)
    requires v < |g| && k < |g[v]| && |s0.stack| <= |s.stack|
    requires v < |s.assoc| && LowKnown(g, s0, s, v, k, s.assoc[v].lowlink)
    requires forall i :: 0 <= i < |s0.stack| ==> s.stack[i] == s0.stack[i] && Idx(s, s.stack[i]) == Idx(s0, s0.stack[i])
    requires forall i :: 0 <= i < |s.stack| ==> (Idx(s, s.stack[i]) < Idx(s, v) <==> i < |s0.stack|)
    requires g[v][k] in s.stack && Visited(s, g[v][k])
    ensures LowKnown(g, s0, s, v, k + 1, Min(Idx(s, g[v][k]), s.assoc[v].lowlink))
  {
    var w, low := g[v][k], s.assoc[v].lowlink;
    var i :| 0 <= i < |s.stack| && s.stack[i] == w;
    assert Edge(g, v, w);
    ReachEdge(g, v, w);
    if Idx(s, w) < low {
      assert Idx(s0, s0.stack[i]) == Idx(s, w) && Reach(g, v, s0.stack[i]);
      assert LowReached(g, s0, v, Idx(s, w));
    }
  }

  /** Writing the lowlink establishes what has been learnt. */
  lemma LowerExploring(g: Calls, s0: State, s: State, gray: set<nat>, v: nat, k: nat, x: nat)
    requires v < |g| && k <= |g[v]| && Inv(g, s, gray + {v}) && Extends(s0, s) && !Visited(s0, v) && |s0.assoc| == |g|
    requires |s.stack| > |s0.stack| && s.stack[|s0.stack|] == v && s0.index < Idx(s, v)
    requires LowKnown(g, s0, s, v, k, Min(x, s.assoc[v].lowlink))
    ensures Exploring(g, s0, Lower(s, v, x), gray, v, k)
  {
    var r := Lower(s, v, x);
    LowerKeepsInv(g, s, gray + {v}, v, x);
    LowKnownIgnoresLowlinks(g, s0, s, v, k, Min(x, s.assoc[v].lowlink), x);
    forall u: nat | Visited(s0, u) ensures r.assoc[u] == s0.assoc[u] { assert u != v; }
  }

  lemma LowKnownIgnoresLowlinks(g: Calls, s0: State, s: State, v: nat, k: nat, low: nat, x: nat)
    requires v < |g| && k <= |g[v]| && |s0.stack| <= |s.stack| && v < |s.assoc| && LowKnown(g, s0, s, v, k, low)
    ensures LowKnown(g, s0, Lower(s, v, x), v, k, low)
  {
    var r := Lower(s, v, x);
    assert forall u: nat :: Idx(r, u) == Idx(s, u) && (Visited(r, u) <==> Visited(s, u));
  }

  lemma ExtendsTrans(s: State, t: State, u: State)
    requires Extends(s, t) && Extends(t, u)
    ensures Extends(s, u)
  {
    forall v: nat | Visited(s, v) ensures u.assoc[v] == s.assoc[v] {
      assert Visited(t, v);
    }
  }

  /** Crossings stay bounded when the stack above grows by crossings bounded by `low`. */
  lemma CrossingsCombine(g: Calls, s: State, t: State, mark: nat, low: nat, childLow: nat)
    requires Extends(s, t) && mark < |s.stack| && (forall i :: 0 <= i < |s.stack| ==> Visited(s, s.stack[i]))
    requires CrossingsBound(g, s, mark + 1, mark, low) && CrossingsBound(g, t, |s.stack|, |s.stack|, childLow)
    ensures CrossingsBound(g, t, mark + 1, mark, Min(childLow, low))
  {
    forall i, j | mark + 1 <= i < |t.stack| && 0 <= j < mark && Edge(g, t.stack[i], t.stack[j])
      ensures Min(childLow, low) <= Idx(t, t.stack[j])
    {
      assert t.stack[j] == s.stack[j] && Idx(t, t.stack[j]) == Idx(s, s.stack[j]);
      if i < |s.stack| {
        assert t.stack[i] == s.stack[i];
      }
    }
  }

  /** The call at position k led to a new procedure, which has been explored. */
  lemma ChildExplored(g: Calls, s0: State, s: State, t: State, gray: set<nat>, v: nat, k: nat)
    requires v < |g| && k < |g[v]| && StackOk(g, s0) && Exploring(g, s0, s, gray, v, k) && !Visited(s, g[v][k])
    requires Inv(g, t, gray + {v}) && Extends(s, t) && Explored(g, s, t, g[v][k])
    ensures Exploring(g, s0, Lower(t, v, t.assoc[g[v][k]].lowlink), gray, v, k + 1)
  {
    ExtendsTrans(s0, s, t);
    ChildLow(g, s0, s, t, gray, v, k);
    LowerExploring(g, s0, t, gray, v, k + 1, t.assoc[g[v][k]].lowlink);
  }

  lemma ChildLow(g: Calls, s0: State, s: State, t: State, gray: set<nat>, v: nat, k: nat)
    requires v < |g| && k < |g[v]| && StackOk(g, s0) && Exploring(g, s0, s, gray, v, k) && !Visited(s, g[v][k])
    requires Inv(g, t, gray + {v}) && Extends(s, t) && Explored(g, s, t, g[v][k])
    ensures t.assoc[v] == s.assoc[v] && s.stack <= t.stack
    ensures LowKnown(g, s0, t, v, k + 1, Min(t.assoc[g[v][k]].lowlink, s.assoc[v].lowlink))
  {
    var childLow, low, mark := t.assoc[g[v][k]].lowlink, s.assoc[v].lowlink, |s0.stack|;
    forall i | 0 <= i < |s.stack| ensures Visited(s, s.stack[i]) {
      assert s.stack[i] in s.stack;
    }
    assert s.stack[mark] == v;
    CrossingsCombine(g, s, t, mark, low, childLow);
    if childLow < low {
      ChildLowReached(g, s0, s, t, gray, v, k);
    }
    ChildCalls(g, s0, s, t, gray, v, k);
  }

  lemma ChildLowReached(g: Calls, s0: State, s: State, t: State, gray: set<nat>, v: nat, k: nat)
    requires v < |g| && k < |g[v]| && StackOk(g, s0) && Exploring(g, s0, s, gray, v, k) && !Visited(s, g[v][k])
    requires Inv(g, t, gray + {v}) && Extends(s, t) && Explored(g, s, t, g[v][k])
    requires t.assoc[g[v][k]].lowlink < s.assoc[v].lowlink
    ensures LowReached(g, s0, v, t.assoc[g[v][k]].lowlink)
  {
    var w, childLow := g[v][k], t.assoc[g[v][k]].lowlink;
    BelowIsOld(g, s0, s, gray, v, k);
    assert s.stack[|s0.stack|] in s.stack && Idx(s, v) <= s.index;
    assert Edge(g, v, w);
    ReachEdge(g, v, w);
    var j :| 0 <= j < |s.stack| && Idx(s, s.stack[j]) == childLow && Reach(g, w, s.stack[j]);
    ReachTrans(g, v, w, s.stack[j]);
    assert j < |s0.stack|;
    assert Idx(s0, s0.stack[j]) == childLow && Reach(g, v, s0.stack[j]);
  }

  lemma ChildCalls(g: Calls, s0: State, s: State, t: State, gray: set<nat>, v: nat, k: nat)
    requires v < |g| && k < |g[v]| && StackOk(g, s0) && Exploring(g, s0, s, gray, v, k) && !Visited(s, g[v][k])
    requires Inv(g, t, gray + {v}) && Extends(s, t) && Explored(g, s, t, g[v][k])
    ensures forall j :: 0 <= j < k + 1 ==> Visited(t, g[v][j])
    ensures forall i, j :: 0 <= j < k + 1 && 0 <= i < |s0.stack| && t.stack[i] == g[v][j] ==>
      s.assoc[v].lowlink <= Idx(t, t.stack[i])
  {
    forall j | 0 <= j < k ensures Visited(t, g[v][j]) {
      assert Visited(s, g[v][j]);
    }
    forall i, j | 0 <= j < k + 1 && 0 <= i < |s0.stack| && t.stack[i] == g[v][j]
      ensures s.assoc[v].lowlink <= Idx(t, t.stack[i])
    {
      assert t.stack[i] == s.stack[i] && s.stack[i] in s.stack && Visited(s, s.stack[i]);
    }
  }

  // ---- leaving v on the stack ----

  /** A call from v or from what it left on the stack to below v bounds the lowlink. */
  lemma CrossingsOfAll(g: Calls, s0: State, s: State, gray: set<nat>, v: nat)
    requires v < |g| && Exploring(g, s0, s, gray, v, |g[v]|)
    ensures CrossingsBound(g, s, |s0.stack|, |s0.stack|, s.assoc[v].lowlink)
  {
    var mark, low := |s0.stack|, s.assoc[v].lowlink;
    forall i, j | mark <= i < |s.stack| && 0 <= j < mark && Edge(g, s.stack[i], s.stack[j])
      ensures low <= Idx(s, s.stack[j])
    {
      if i == mark {
        var h :| 0 <= h < |g[v]| && g[v][h] == s.stack[j];
      }
    }
  }

  lemma LeaveBlackClosed(g: Calls, s0: State, s: State, gray: set<nat>, v: nat)
    requires v < |g| && Exploring(g, s0, s, gray, v, |g[v]|)
    ensures BlackClosed(g, s, gray)
  {
    forall a: nat, b: nat | Visited(s, a) && a !in gray && Edge(g, a, b) ensures Visited(s, b) {
      if a == v {
        var h :| 0 <= h < |g[v]| && g[v][h] == b;
        assert Visited(s, g[v][h]);
      }
    }
  }

  /** Whoever relied on reaching v now relies on what v reaches below. */
  lemma GrayHandedDown(g: Calls, s0: State, s: State, gray: set<nat>, v: nat, low: nat, j: nat)
    requires s0.stack <= s.stack && |s0.stack| < |s.stack| && j < |s.stack|
    requires forall i :: 0 <= i < |s.stack| && s.stack[i] == v ==> i == |s0.stack|
    requires GrayReached(g, s0, gray) && LowReached(g, s0, v, low) && ReachesGray(g, s, gray + {v}, j)
    ensures ReachesGray(g, s, gray, j)
  {
    var i :| 0 <= i <= j && s.stack[i] in gray + {v} && Reach(g, s.stack[j], s.stack[i]);
    if s.stack[i] !in gray {
      BelowReachesGray(g, s0, gray, v, low);
      var z :| 0 <= z < |s0.stack| && s0.stack[z] in gray && Reach(g, v, s0.stack[z]);
      assert s.stack[z] == s0.stack[z];
      ReachTrans(g, s.stack[j], v, s.stack[z]);
    }
  }

  lemma BelowReachesGray(g: Calls, s0: State, gray: set<nat>, v: nat, low: nat)
    requires GrayReached(g, s0, gray) && LowReached(g, s0, v, low)
    ensures exists z :: 0 <= z < |s0.stack| && s0.stack[z] in gray && Reach(g, v, s0.stack[z])
  {
    var h :| 0 <= h < |s0.stack| && Idx(s0, s0.stack[h]) == low && Reach(g, v, s0.stack[h]);
    assert ReachesGray(g, s0, gray, h);
    var z :| 0 <= z <= h && s0.stack[z] in gray && Reach(g, s0.stack[h], s0.stack[z]);
    ReachTrans(g, v, s0.stack[h], s0.stack[z]);
  }

  lemma LeaveOnStack(g: Calls, s0: State, s: State, gray: set<nat>, v: nat)
    requires v < |g| && Inv(g, s0, gray) && Exploring(g, s0, s, gray, v, |g[v]|)
    requires s.assoc[v].lowlink != Idx(s, v)
    ensures Inv(g, s, gray) && Extends(s0, s) && Visited(s, v) && Explored(g, s0, s, v)
  {
    CrossingsOfAll(g, s0, s, gray, v);
    LeaveBlackClosed(g, s0, s, gray, v);
    forall j | 0 <= j < |s.stack| ensures ReachesGray(g, s, gray, j) {
      GrayHandedDown(g, s0, s, gray, v, s.assoc[v].lowlink, j);
    }
  }

  // ---- closing a component ----

  function Pop(s: State, mark: nat): State
    requires mark <= |s.stack|
  {
    State(seq(|s.assoc|, u requires 0 <= u < |s.assoc| =>
              if u in s.stack[mark..] then s.assoc[u].(sccId := |s.sccs|, onStack := false) else s.assoc[u]),
          s.stack[..mark], s.sccs + [s.stack[mark..]], s.index)
  }

  /** Calls from the component stay in it or go to assigned procedures. */
  lemma ComponentClosed(g: Calls, s0: State, s: State, gray: set<nat>, v: nat, x: nat, y: nat)
    requires v < |g| && Inv(g, s0, gray) && Exploring(g, s0, s, gray, v, |g[v]|)
    requires s.assoc[v].lowlink == Idx(s, v) && x in s.stack[|s0.stack|..] && Edge(g, x, y)
    ensures y in s.stack[|s0.stack|..] || Done(s, y)
  {
    var mark := |s0.stack|;
    ComponentCallsVisited(g, s0, s, gray, v, x, y);
    if !Done(s, y) {
      assert Stacked(s, y) && y in s.stack;
      SplitMembership(s.stack, mark, y);
      if y in s.stack[..mark] {
        CrossingsOfAll(g, s0, s, gray, v);
        NoCrossing(g, s, mark, s.assoc[v].lowlink, x, y);
      }
    }
  }

  lemma ComponentCallsVisited(g: Calls, s0: State, s: State, gray: set<nat>, v: nat, x: nat, y: nat)
    requires v < |g| && Inv(g, s0, gray) && Exploring(g, s0, s, gray, v, |g[v]|)
    requires x in s.stack[|s0.stack|..] && Edge(g, x, y)
    ensures Visited(s, y)
  {
    LeaveBlackClosed(g, s0, s, gray, v);
    assert x in s.stack && Visited(s, x);
    assert x !in gray by {
      NoRepeatOnStack(g, s, |s0.stack|, x);
      assert s.stack[..|s0.stack|] == s0.stack;
    }
  }

  /** With the lowlink at v's own index, no call crosses below v. */
  lemma NoCrossing(g: Calls, s: State, mark: nat, low: nat, x: nat, y: nat)
    requires StackOk(g, s) && mark < |s.stack| && low == Idx(s, s.stack[mark])
    requires CrossingsBound(g, s, mark, mark, low) && x in s.stack[mark..] && y in s.stack[..mark]
    ensures !Edge(g, x, y)
  {
    var i :| mark <= i < |s.stack| && s.stack[i] == x;
    var j :| 0 <= j < mark && s.stack[j] == y;
  }

  /** Within the component everyone reaches v and is reached from v. */
  lemma ComponentMutual(g: Calls, s0: State, s: State, gray: set<nat>, v: nat, x: nat)
    requires v < |g| && Inv(g, s0, gray) && Exploring(g, s0, s, gray, v, |g[v]|)
    requires s.assoc[v].lowlink == Idx(s, v) && x in s.stack[|s0.stack|..]
    ensures Mutual(g, v, x)
  {
    var mark := |s0.stack|;
    var i :| mark <= i < |s.stack| && s.stack[i] == x;
    assert Reach(g, s.stack[mark], s.stack[i]);
    var z := GrayBelow(g, s, gray + {v}, i);
    if z != v {
      ComponentCannotReach(g, s0, s, gray, v, x, z);
    }
  }

  lemma GrayBelow(g: Calls, s: State, gray: set<nat>, i: nat) returns (z: nat)
    requires GrayReached(g, s, gray) && i < |s.stack|
    ensures z in gray && Reach(g, s.stack[i], z)
  {
    assert ReachesGray(g, s, gray, i);
    var h :| 0 <= h <= i && s.stack[h] in gray && Reach(g, s.stack[i], s.stack[h]);
    z := s.stack[h];
  }

  lemma ComponentCannotReach(g: Calls, s0: State, s: State, gray: set<nat>, v: nat, x: nat, z: nat)
    requires v < |g| && Inv(g, s0, gray) && Exploring(g, s0, s, gray, v, |g[v]|)
    requires s.assoc[v].lowlink == Idx(s, v) && x in s.stack[|s0.stack|..] && z in s0.stack
    ensures !Reach(g, x, z)
  {
    var mark := |s0.stack|;
    var inside := set u: nat | u < |g| && (u in s.stack[mark..] || Done(s, u));
    forall a, b | a in inside && Edge(g, a, b) ensures b in inside {
      if a in s.stack[mark..] { ComponentClosed(g, s0, s, gray, v, a, b); }
    }
    NotBothSides(g, s0, s, gray, v, z);
    assert x in s.stack && Stacked(s, x) && x in inside;
    forall p | IsPath(g, p, x, z) ensures false {
      PathStaysInside(g, inside, p, x, z);
    }
  }

  lemma NotBothSides(g: Calls, s0: State, s: State, gray: set<nat>, v: nat, x: nat)
    requires v < |g| && Exploring(g, s0, s, gray, v, |g[v]|) && x in s0.stack
    ensures x !in s.stack[|s0.stack|..] && Stacked(s, x)
  {
    var mark := |s0.stack|;
    var h :| 0 <= h < mark && s0.stack[h] == x;
    assert s.stack[h] == x && x in s.stack;
    NoRepeatOnStack(g, s, mark, x);
  }

  lemma NoRepeatOnStack(g: Calls, s: State, mark: nat, x: nat)
    requires StackOk(g, s) && mark <= |s.stack|
    ensures !(x in s.stack[..mark] && x in s.stack[mark..])
  {
  }

  /** How popping changes the classification of procedures. */
  lemma PopFacts(g: Calls, s: State, mark: nat)
    requires StackOk(g, s) && mark <= |s.stack|
    ensures var t := Pop(s, mark);
      && |t.assoc| == |g|
      && (forall u: nat :: Idx(t, u) == Idx(s, u) && (Visited(t, u) <==> Visited(s, u)))
      && (forall u: nat :: Done(t, u) <==> Done(s, u) || u in s.stack[mark..])
      && (forall u: nat :: u in s.stack[mark..] ==> Scc(t, u) == |s.sccs| && Stacked(s, u))
      && (forall u: nat :: u !in s.stack[mark..] ==> Scc(t, u) == Scc(s, u))
  {
    var t := Pop(s, mark);
    forall u: nat | u in s.stack[mark..] ensures u in s.stack && Stacked(s, u) {}
  }

  lemma PopKeepsStack(g: Calls, s: State, mark: nat)
    requires StackOk(g, s) && mark <= |s.stack|
    ensures StackOk(g, Pop(s, mark))
  {
    var t := Pop(s, mark);
    PopFacts(g, s, mark);
    forall u: nat ensures u in t.stack <==> Stacked(t, u) {
      NoRepeatOnStack(g, s, mark, u);
      SplitMembership(s.stack, mark, u);
    }
  }

  lemma SplitMembership(q: seq<nat>, mark: nat, u: nat)
    requires mark <= |q|
    ensures u in q <==> u in q[..mark] || u in q[mark..]
  {
    assert q == q[..mark] + q[mark..];
  }

  lemma PopKeepsLists(g: Calls, s: State, mark: nat)
    requires StackOk(g, s) && ListsOk(s) && mark < |s.stack|
    ensures ListsOk(Pop(s, mark))
  {
    var t := Pop(s, mark);
    PopFacts(g, s, mark);
    forall c, v: nat | 0 <= c < |t.sccs| && v in t.sccs[c] ensures Done(t, v) && Scc(t, v) == c {
      if c < |s.sccs| { assert v in s.sccs[c]; }
    }
    forall v: nat | Done(t, v) ensures Scc(t, v) < |t.sccs| && v in t.sccs[Scc(t, v)] {
      if v !in s.stack[mark..] { assert Done(s, v); }
    }
    assert Distinct(s.stack[mark..]) by {
      forall i, j | 0 <= i < j < |s.stack| - mark ensures s.stack[mark..][i] != s.stack[mark..][j] {
        assert Idx(s, s.stack[mark + i]) < Idx(s, s.stack[mark + j]);
      }
    }
  }

  /** The component is closed with the assigned procedures, and one strongly connected component. */
  lemma CloseKeepsDone(g: Calls, s0: State, s: State, gray: set<nat>, v: nat)
    requires v < |g| && Inv(g, s0, gray) && Exploring(g, s0, s, gray, v, |g[v]|) && s.assoc[v].lowlink == Idx(s, v)
    ensures DoneClosed(g, Pop(s, |s0.stack|)) && DoneExact(g, Pop(s, |s0.stack|))
  {
    var mark := |s0.stack|;
    var t := Pop(s, mark);
    PopFacts(g, s, mark);
    forall a: nat, b: nat | Done(t, a) && Edge(g, a, b) ensures Done(t, b) && Scc(t, b) <= Scc(t, a) {
      if a in s.stack[mark..] {
        ComponentClosed(g, s0, s, gray, v, a, b);
      } else {
        assert Done(s, a) && Done(s, b);
      }
    }
    forall a: nat, b: nat | Done(t, a) && Done(t, b) ensures Scc(t, a) == Scc(t, b) <==> Mutual(g, a, b) {
      CloseExact(g, s0, s, gray, v, a, b);
    }
  }

  lemma CloseExact(g: Calls, s0: State, s: State, gray: set<nat>, v: nat, a: nat, b: nat)
    requires v < |g| && Inv(g, s0, gray) && Exploring(g, s0, s, gray, v, |g[v]|) && s.assoc[v].lowlink == Idx(s, v)
    requires Done(Pop(s, |s0.stack|), a) && Done(Pop(s, |s0.stack|), b)
    ensures Scc(Pop(s, |s0.stack|), a) == Scc(Pop(s, |s0.stack|), b) <==> Mutual(g, a, b)
  {
    var mark := |s0.stack|;
    PopFacts(g, s, mark);
    var inA, inB := a in s.stack[mark..], b in s.stack[mark..];
    if inA && inB {
      ComponentMutual(g, s0, s, gray, v, a);
      ComponentMutual(g, s0, s, gray, v, b);
      ReachTrans(g, a, v, b);
      ReachTrans(g, b, v, a);
    } else if !inA && inB {
      DoneCannotReach(g, s, a, b);
    } else if inA && !inB {
      DoneCannotReach(g, s, b, a);
    }
  }

  lemma DoneCannotReach(g: Calls, s: State, a: nat, b: nat)
    requires |s.assoc| == |g| && DoneClosed(g, s) && Done(s, a) && !Done(s, b)
    ensures !Reach(g, a, b)
  {
    var inside := set u: nat | u < |g| && Done(s, u);
    forall p | IsPath(g, p, a, b) ensures false {
      PathStaysInside(g, inside, p, a, b);
    }
  }

  lemma CloseKeepsReach(g: Calls, s0: State, s: State, gray: set<nat>, v: nat)
    requires v < |g| && Inv(g, s0, gray) && Exploring(g, s0, s, gray, v, |g[v]|)
    ensures var t := Pop(s, |s0.stack|); StackReaches(g, t) && GrayReached(g, t, gray) && BlackClosed(g, t, gray)
  {
    var t := Pop(s, |s0.stack|);
    PopFacts(g, s, |s0.stack|);
    assert t.stack == s0.stack;
    LeaveBlackClosed(g, s0, s, gray, v);
    forall j | 0 <= j < |t.stack| ensures ReachesGray(g, t, gray, j) {
      assert ReachesGray(g, s0, gray, j);
    }
  }

  lemma CloseComponent(g: Calls, s0: State, s: State, gray: set<nat>, v: nat)
    requires v < |g| && Inv(g, s0, gray) && Exploring(g, s0, s, gray, v, |g[v]|) && s.assoc[v].lowlink == Idx(s, v)
    ensures var t := Pop(s, |s0.stack|);
      Inv(g, t, gray) && Extends(s0, t) && Visited(t, v) && Explored(g, s0, t, v)
  {
    var mark := |s0.stack|;
    var t := Pop(s, mark);
    PopKeepsStack(g, s, mark);
    PopKeepsLists(g, s, mark);
    CloseKeepsDone(g, s0, s, gray, v);
    CloseKeepsReach(g, s0, s, gray, v);
    assert t.stack == s0.stack;
    CloseExtends(g, s0, s, gray, v);
  }

  lemma CloseExtends(g: Calls, s0: State, s: State, gray: set<nat>, v: nat)
    requires v < |g| && Inv(g, s0, gray) && Exploring(g, s0, s, gray, v, |g[v]|)
    ensures Extends(s0, Pop(s, |s0.stack|)) && Visited(Pop(s, |s0.stack|), v)
    ensures Pop(s, |s0.stack|).assoc[v].lowlink == s.assoc[v].lowlink
  {
    var mark := |s0.stack|;
    var t := Pop(s, mark);
    PopFacts(g, s, mark);
    assert s.stack[mark] in s.stack;
    forall u: nat | Visited(s0, u) ensures t.assoc[u] == s0.assoc[u] {
      if u in s.stack[mark..] {
        assert u in s.stack && Stacked(s0, u) && u in s0.stack;
        NotBothSides(g, s0, s, gray, v, u);
      }
    }
  }

  // ---- the search ----

  /** The search has finished: every procedure has its component. */
  ghost predicate Partitioned(g: Calls, s: State) {
    && |s.assoc| == |g| && (forall v: nat :: v < |g| ==> Done(s, v))
    && ListsOk(s) && DoneClosed(g, s) && DoneExact(g, s)
  }

  class Search {
    const calls: Calls
    var assoc: seq<Assoc>
    var stack: seq<nat>
    var sccs: seq<seq<nat>>
    var index: nat

    ghost function Now(): State
      reads this
    {
      State(assoc, stack, sccs, index)
    }

    constructor (g: Calls)
      ensures calls == g && Now() == State(seq(|g|, _ => Assoc(0, 0, 0, false)), [], [], 0)
    {
      calls := g;
      assoc, stack, sccs, index := seq(|g|, _ => Assoc(0, 0, 0, false)), [], [], 0;
    }

    method StrongConnect(v: nat, ghost gray: set<nat>)
      requires v < |calls| && Inv(calls, Now(), gray) && !Visited(Now(), v)
      requires forall x :: x in gray ==> Reach(calls, x, v)
      modifies this
      ensures Inv(calls, Now(), gray) && Extends(old(Now()), Now()) && Visited(Now(), v)
      ensures Explored(calls, old(Now()), Now(), v)
      decreases Unvisited(calls, Now()), 1
    {
      var mark := |stack|;
      ghost var s0 := Now();
      PushStarts(calls, s0, gray, v);
      Visit(v);
      for k := 0 to |calls[v]|
        invariant Exploring(calls, s0, Now(), gray, v, k)
      {
        FewerUnvisited(calls, s0, Now(), v);
        LookAtCall(v, k, s0, gray);
      }
      if assoc[v].index == assoc[v].lowlink {
        CloseComponent(calls, s0, Now(), gray, v);
        StackInRange(calls, Now());
        CloseFrom(mark);
      } else {
        LeaveOnStack(calls, s0, Now(), gray, v);
      }
    }

    method Visit(v: nat)
      requires v < |assoc|
      modifies this
      ensures Now() == Push(old(Now()), v)
    {
      index := index + 1;
      assoc := assoc[v := assoc[v].(index := index, lowlink := index, onStack := true)];
      stack := stack + [v];
    }

    method LowerLowlink(v: nat, x: nat)
      requires v < |assoc|
      modifies this
      ensures Now() == Lower(old(Now()), v, x)
    {
      assoc := assoc[v := assoc[v].(lowlink := Min(x, assoc[v].lowlink))];
    }

    method LookAtCall(v: nat, k: nat, ghost s0: State, ghost gray: set<nat>)
      requires v < |calls| && k < |calls[v]| && Inv(calls, s0, gray) && Exploring(calls, s0, Now(), gray, v, k)
      requires forall x :: x in gray ==> Reach(calls, x, v)
      modifies this
      ensures Exploring(calls, s0, Now(), gray, v, k + 1)
      decreases Unvisited(calls, Now()), 2
    {
      ghost var s := Now();
      var w := calls[v][k];
      if assoc[w].index == 0 {
        GrayReachCallee(calls, gray, v, k);
        StrongConnect(w, gray + {v});
        ChildExplored(calls, s0, s, Now(), gray, v, k);
        LowerLowlink(v, assoc[w].lowlink);
      } else if assoc[w].onStack {
        StackedCall(calls, s0, s, gray, v, k);
        LowerLowlink(v, assoc[w].index);
      } else {
        DoneCall(calls, s0, s, gray, v, k);
      }
    }

    /** Moves the stack above `mark` into a new component. */
    method CloseFrom(mark: nat)
      requires mark <= |stack| && forall i :: 0 <= i < |stack| ==> stack[i] < |assoc|
      modifies this
      ensures Now() == Pop(old(Now()), mark)
    {
      for i := mark to |stack|
        invariant mark <= i <= |stack| && |assoc| == |old(assoc)|
        invariant stack == old(stack) && sccs == old(sccs) && index == old(index)
        invariant forall u :: 0 <= u < |assoc| ==>
          assoc[u] == if u in stack[mark..i] then old(assoc)[u].(sccId := |sccs|, onStack := false) else old(assoc)[u]
      {
        assert stack[mark..i + 1] == stack[mark..i] + [stack[i]];
        assoc := assoc[stack[i] := assoc[stack[i]].(sccId := |sccs|, onStack := false)];
      }
      assert stack[mark..|stack|] == stack[mark..];
      sccs := sccs + [stack[mark..]];
      stack := stack[..mark];
    }

    /** Starts a search at every procedure not visited yet. */
    method FindComponents()
      requires Now() == State(seq(|calls|, _ => Assoc(0, 0, 0, false)), [], [], 0)
      modifies this
      ensures Partitioned(calls, Now())
    {
      for v := 0 to |calls|
        invariant Inv(calls, Now(), {}) && stack == []
        invariant forall u: nat :: u < v ==> Visited(Now(), u)
      {
        if assoc[v].index == 0 {
          StrongConnect(v, {});
        }
      }
      AllAssigned(calls, Now());
    }
  }

  lemma StackInRange(g: Calls, s: State)
    requires StackOk(g, s)
    ensures forall i :: 0 <= i < |s.stack| ==> s.stack[i] < |s.assoc|
  {
    forall i | 0 <= i < |s.stack| ensures s.stack[i] < |s.assoc| {
      assert Stacked(s, s.stack[i]);
    }
  }

  lemma AllAssigned(g: Calls, s: State)
    requires Inv(g, s, {}) && s.stack == [] && forall u: nat :: u < |g| ==> Visited(s, u)
    ensures Partitioned(g, s)
  {
    forall v: nat | v < |g| ensures Done(s, v) {
      assert Visited(s, v) && v !in s.stack;
    }
  }

  ghost function Unvisited(g: Calls, s: State): set<nat> {
    set u: nat | u < |g| && !Visited(s, u)
  }

  lemma FewerUnvisited(g: Calls, s0: State, s: State, v: nat)
    requires v < |g| && Extends(s0, s) && !Visited(s0, v) && Visited(s, v)
    ensures Unvisited(g, s) < Unvisited(g, s0)
  {
    assert v in Unvisited(g, s0) && v !in Unvisited(g, s);
  }

  lemma GrayReachCallee(g: Calls, gray: set<nat>, v: nat, k: nat)
    requires v < |g| && k < |g[v]| && forall x :: x in gray ==> Reach(g, x, v)
    ensures forall x :: x in gray + {v} ==> Reach(g, x, g[v][k])
  {
    assert Edge(g, v, g[v][k]);
    ReachEdge(g, v, g[v][k]);
    forall x | x in gray ensures Reach(g, x, g[v][k]) {
      ReachTrans(g, x, v, g[v][k]);
    }
  }
}
