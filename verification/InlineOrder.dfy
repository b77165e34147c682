/**
  The order in which components are inlined and optimised: callees before their callers,
  by counting down references from processed components.
 */
module InlineOrder {
  import opened Basics
  import opened CallGraph
  import opened Components

  // ---- transposing the call edges ----

  /** Lists, for each callee, the caller of every call to it. */
  method Transpose(g: Calls) returns (callers: seq<seq<nat>>)
    ensures Transposed(g, callers)
  {
    callers := seq(|g|, _ => []);
    for a := 0 to |g|
      invariant |callers| == |g| && Closed(callers)
      invariant forall b: nat, x: nat :: b < |g| && x < |g| ==>
        multiset(callers[b])[x] == if x < a then multiset(g[x])[b] else 0
    {
      callers := AddCaller(g, a, callers);
    }
  }

  method AddCaller(g: Calls, a: nat, before: seq<seq<nat>>) returns (callers: seq<seq<nat>>)
    requires a < |g| && |before| == |g| && Closed(before)
    ensures |callers| == |g| && Closed(callers)
    ensures forall b: nat, x: nat :: b < |g| ==>
      multiset(callers[b])[x] == multiset(before[b])[x] + if x == a then multiset(g[a])[b] else 0
  {
    callers := before;
    for j := 0 to |g[a]|
      invariant |callers| == |g| && Closed(callers)
      invariant forall b: nat, x: nat :: b < |g| ==>
        multiset(callers[b])[x] == multiset(before[b])[x] + if x == a then multiset(g[a][..j])[b] else 0
    {
      var e := g[a][j];
      assert g[a][..j + 1] == g[a][..j] + [e];
      callers := callers[e := callers[e] + [a]];
    }
    assert g[a][..|g[a]|] == g[a];
  }

  // ---- edges between components ----

  /** The components that call component c, once per call. */
  function CallingComponents(s: State, callers: seq<seq<nat>>, members: seq<nat>): seq<nat>
    requires forall i :: 0 <= i < |members| ==> members[i] < |callers|
  {
    if members == [] then []
    else
      var m := members[|members| - 1];
      CallingComponents(s, callers, members[..|members| - 1])
        + seq(|callers[m]|, j requires 0 <= j < |callers[m]| => Scc(s, callers[m][j]))
  }

  /** x calls into the members exactly when one of its procedures calls one of them. */
  lemma {:induction false} CallingComponentsExact(s: State, callers: seq<seq<nat>>, members: seq<nat>, x: nat)
    requires forall i :: 0 <= i < |members| ==> members[i] < |callers|
    ensures x in CallingComponents(s, callers, members) <==>
      exists i, j :: 0 <= i < |members| && 0 <= j < |callers[members[i]]| && Scc(s, callers[members[i]][j]) == x
  {
    if members != [] {
      var front, m := members[..|members| - 1], members[|members| - 1];
      CallingComponentsExact(s, callers, front, x);
      var last := seq(|callers[m]|, j requires 0 <= j < |callers[m]| => Scc(s, callers[m][j]));
      if x in CallingComponents(s, callers, members) {
        if x in CallingComponents(s, callers, front) {
          var i, j :| 0 <= i < |front| && 0 <= j < |callers[front[i]]| && Scc(s, callers[front[i]][j]) == x;
          assert Scc(s, callers[members[i]][j]) == x;
        } else {
          assert x in last;
          var j :| 0 <= j < |last| && last[j] == x;
          assert Scc(s, callers[members[|members| - 1]][j]) == x;
        }
      }
      if i, j :| 0 <= i < |members| && 0 <= j < |callers[members[i]]| && Scc(s, callers[members[i]][j]) == x {
        if i < |front| {
          assert Scc(s, callers[front[i]][j]) == x;
        } else {
          assert last[j] == x;
        }
      }
    }
  }

  // ---- counting references ----

  /** How often x calls into components before k that are neither x nor processed. */
  function Pending(ev: seq<seq<nat>>, x: nat, processed: set<nat>, k: nat): nat
    requires k <= |ev|
  {
    if k == 0 then 0
    else Pending(ev, x, processed, k - 1) +
         if k - 1 == x || k - 1 in processed then 0 else multiset(ev[k - 1])[x]
  }

  lemma {:induction false} PendingZero(ev: seq<seq<nat>>, x: nat, processed: set<nat>, k: nat)
    requires k <= |ev|
    ensures Pending(ev, x, processed, k) == 0 <==> forall i :: 0 <= i < k && i != x && x in ev[i] ==> i in processed
  {
    if k > 0 { PendingZero(ev, x, processed, k - 1); }
  }

  lemma {:induction false} PendingProcess(ev: seq<seq<nat>>, x: nat, processed: set<nat>, c: nat, k: nat)
    requires k <= |ev| && c < |ev| && c !in processed && c != x
    ensures Pending(ev, x, processed, k) == Pending(ev, x, processed + {c}, k) + if c < k then multiset(ev[c])[x] else 0
  {
    if k > 0 { PendingProcess(ev, x, processed, c, k - 1); }
  }

  ghost predicate InRange(ev: seq<seq<nat>>) {
    forall i, j :: 0 <= i < |ev| && 0 <= j < |ev[i]| ==> ev[i][j] < |ev|
  }

  /** Counts, for every component, the calls it makes into other components. */
  method CountReferences(ev: seq<seq<nat>>) returns (rc: seq<int>)
    requires InRange(ev)
    ensures |rc| == |ev| && forall x: nat :: x < |ev| ==> rc[x] == Pending(ev, x, {}, |ev|)
  {
    rc := seq(|ev|, _ => 0);
    for i := 0 to |ev|
      invariant |rc| == |ev| && forall x: nat :: x < |ev| ==> rc[x] == Pending(ev, x, {}, i)
    {
      ghost var before := rc;
      for j := 0 to |ev[i]|
        invariant |rc| == |ev|
        invariant forall x: nat :: x < |ev| ==> rc[x] == before[x] + if x == i then 0 else multiset(ev[i][..j])[x]
      {
        assert ev[i][..j + 1] == ev[i][..j] + [ev[i][j]];
        rc := rc[ev[i][j] := rc[ev[i][j]] + if ev[i][j] != i then 1 else 0];
      }
      assert ev[i][..|ev[i]|] == ev[i];
    }
  }

  // ---- counting down ----

  ghost function Elements(q: seq<nat>): set<nat> {
    set x | x in q
  }

  /** The component at each position comes after all those it calls into. */
  ghost predicate CalleesFirst(ev: seq<seq<nat>>, order: seq<nat>) {
    forall p, i: nat :: 0 <= p < |order| && i < |ev| && i != order[p] && order[p] in ev[i] ==> i in order[..p]
  }

  /** What holds before the component at position i is processed. */
  ghost predicate Counting(ev: seq<seq<nat>>, rc: seq<int>, order: seq<nat>, i: nat)
    requires i <= |order|
  {
    && |rc| == |ev| && OrderOk(ev, order)
    && (forall x: nat :: x < |ev| && x !in order[..i] ==> rc[x] == Pending(ev, x, Elements(order[..i]), |ev|))
    && (forall x: nat :: x < |ev| ==> (x in order <==> Pending(ev, x, Elements(order[..i]), |ev|) == 0))
  }

  ghost predicate OrderOk(ev: seq<seq<nat>>, order: seq<nat>) {
    Distinct(order) && (forall p :: 0 <= p < |order| ==> order[p] < |ev|) && CalleesFirst(ev, order)
  }

  /** The counts while c is processed, after its first j callers; c and what came before it are `done`. */
  ghost predicate CountsOk(ev: seq<seq<nat>>, rc: seq<int>, order: seq<nat>, done: set<nat>, c: nat, j: nat)
    requires c < |ev| && j <= |ev[c]|
  {
    && |rc| == |ev| && (j == 0 ==> rc[c] == 0) && rc[c] <= 0
    && (forall x: nat :: x < |ev| && x !in done ==> rc[x] == Pending(ev, x, done, |ev|) + multiset(ev[c][j..])[x])
    && (forall x: nat :: x < |ev| && x !in done ==> (x in order <==> rc[x] == 0))
    && (forall x: nat :: x in done ==> Pending(ev, x, done, |ev|) == 0 && (x != c ==> x !in ev[c]))
  }

  /** What holds while position i is processed, after its first j callers. */
  ghost predicate CountingDown(ev: seq<seq<nat>>, rc: seq<int>, order: seq<nat>, i: nat, j: nat)
    requires i < |order| && order[i] < |ev| && j <= |ev[order[i]]|
  {
    OrderOk(ev, order) && CountsOk(ev, rc, order, Elements(order[..i + 1]), order[i], j)
  }

  lemma PrefixGrows(order: seq<nat>, i: nat)
    requires i < |order| && Distinct(order)
    ensures order[..i + 1] == order[..i] + [order[i]] && order[i] !in order[..i]
    ensures Elements(order[..i + 1]) == Elements(order[..i]) + {order[i]}
  {
  }

  lemma StartDown(ev: seq<seq<nat>>, rc: seq<int>, order: seq<nat>, i: nat)
    requires i < |order| && Counting(ev, rc, order, i)
    ensures CountingDown(ev, rc, order, i, 0)
  {
    var c, before, done := order[i], Elements(order[..i]), Elements(order[..i + 1]);
    PrefixGrows(order, i);
    assert ev[c][0..] == ev[c];
    forall x: nat | x < |ev| && x != c
      ensures Pending(ev, x, before, |ev|) == Pending(ev, x, done, |ev|) + multiset(ev[c])[x] {
      PendingProcess(ev, x, before, c, |ev|);
    }
    assert order[i] in order;
    PendingZero(ev, c, before, |ev|);
    PendingZero(ev, c, done, |ev|);
    forall x: nat | x in done ensures Pending(ev, x, done, |ev|) == 0 && (x != c ==> x !in ev[c]) {
      assert x in order && x < |ev|;
    }
  }

  lemma FinishDown(ev: seq<seq<nat>>, rc: seq<int>, order: seq<nat>, i: nat)
    requires i < |order| && order[i] < |ev| && CountingDown(ev, rc, order, i, |ev[order[i]]|)
    ensures Counting(ev, rc, order, i + 1)
  {
    var c := order[i];
    PrefixGrows(order, i);
    assert ev[c][|ev[c]|..] == [];
    forall x: nat | x < |ev| ensures x in order <==> Pending(ev, x, Elements(order[..i + 1]), |ev|) == 0 {
      if x in order[..i + 1] {
        assert x in order;
      }
    }
  }

  /** Dropping a reference: the caller joins the order when its last callee has been processed. */
  function Drop(rc: seq<int>, e: nat): seq<int>
    requires e < |rc|
  {
    rc[e := rc[e] - 1]
  }

  function Enqueue(rc: seq<int>, order: seq<nat>, e: nat): seq<nat>
    requires e < |rc|
  {
    if rc[e] == 0 then order + [e] else order
  }

  lemma StepDown(ev: seq<seq<nat>>, rc: seq<int>, order: seq<nat>, i: nat, j: nat)
    requires InRange(ev) && i < |order| && order[i] < |ev| && j < |ev[order[i]]| && CountingDown(ev, rc, order, i, j)
    ensures var e := ev[order[i]][j]; var rc' := Drop(rc, e);
      var order' := Enqueue(rc', order, e);
      i < |order'| && order'[i] == order[i] && CountingDown(ev, rc', order', i, j + 1)
  {
    var c := order[i];
    var e := ev[c][j];
    var rc' := Drop(rc, e);
    var order' := Enqueue(rc', order, e);
    PrefixGrows(order, i);
    assert order'[..i + 1] == order[..i + 1];
    DropKeepsCounts(ev, rc, order, Elements(order[..i + 1]), c, j);
    if rc'[e] == 0 {
      EnqueueKeepsOrder(ev, order, i, e);
    }
  }

  lemma DropKeepsCounts(ev: seq<seq<nat>>, rc: seq<int>, order: seq<nat>, done: set<nat>, c: nat, j: nat)
    requires InRange(ev) && c < |ev| && j < |ev[c]| && c in done && CountsOk(ev, rc, order, done, c, j)
    ensures var e := ev[c][j]; var rc' := Drop(rc, e);
      && CountsOk(ev, rc', Enqueue(rc', order, e), done, c, j + 1)
      && (rc'[e] == 0 ==> e !in order && Pending(ev, e, done, |ev|) == 0)
  {
    var e := ev[c][j];
    assert ev[c][j..] == [e] + ev[c][j + 1..];
    assert e in ev[c];
    var rc' := Drop(rc, e);
    var order' := Enqueue(rc', order, e);
    if e != c {
      assert e !in done && rc[e] > 0 && e !in order;
      if rc'[e] == 0 {
        assert e in order';
      }
    }
  }

  lemma EnqueueKeepsOrder(ev: seq<seq<nat>>, order: seq<nat>, i: nat, e: nat)
    requires i < |order| && e !in order && e < |ev| && OrderOk(ev, order)
    requires Pending(ev, e, Elements(order[..i + 1]), |ev|) == 0
    ensures OrderOk(ev, order + [e])
  {
    var order' := order + [e];
    PendingZero(ev, e, Elements(order[..i + 1]), |ev|);
    forall p, k: nat | 0 <= p < |order'| && k < |ev| && k != order'[p] && order'[p] in ev[k] ensures k in order'[..p] {
      if p < |order| {
        assert order'[..p] == order[..p];
      } else {
        assert k in order[..i + 1];
        assert order'[..p] == order;
      }
    }
  }

  /** Components are numbered callees first, so that calls only come from equal or higher numbers. */
  ghost predicate NumberedCalleesFirst(ev: seq<seq<nat>>) {
    forall i: nat, x: nat :: i < |ev| && x in ev[i] ==> i <= x
  }

  /** Nothing is left waiting. */
  lemma {:induction false} AllOrdered(ev: seq<seq<nat>>, rc: seq<int>, order: seq<nat>, x: nat)
    requires NumberedCalleesFirst(ev) && Counting(ev, rc, order, |order|) && x < |ev|
    ensures x in order
  {
    assert order[..|order|] == order;
    PendingZero(ev, x, Elements(order), |ev|);
    forall i | 0 <= i < |ev| && i != x && x in ev[i] ensures i in Elements(order) {
      AllOrdered(ev, rc, order, i);
    }
  }

  /** Lists every component once, after all components it calls into. */
  method OrderComponents(ev: seq<seq<nat>>) returns (order: seq<nat>)
    requires InRange(ev) && NumberedCalleesFirst(ev)
    ensures Distinct(order) && CalleesFirst(ev, order)
    ensures forall x: nat :: x in order <==> x < |ev|
  {
    var rc := CountReferences(ev);
    order := Unreferencing(rc);
    InitialCounting(ev, rc, order);
    var i := 0;
    while i < |order|
      invariant 0 <= i <= |order| && Counting(ev, rc, order, i)
      decreases |ev| - i
    {
      DistinctBounded(order, |ev|);
      rc, order := CountDown(ev, rc, order, i);
      i := i + 1;
    }
    forall x: nat | x < |ev| ensures x in order {
      AllOrdered(ev, rc, order, x);
    }
  }

  /** The components that call into no other. */
  method Unreferencing(rc: seq<int>) returns (order: seq<nat>)
    ensures Distinct(order) && forall x: nat :: x in order <==> x < |rc| && rc[x] == 0
  {
    order := [];
    for k := 0 to |rc|
      invariant Distinct(order) && forall x: nat :: x in order <==> x < k && rc[x] == 0
    {
      if rc[k] == 0 {
        order := order + [k];
      }
    }
  }

  /** Processes the component at position i: each call into it costs its caller one reference. Calls from
      within the component push its own count below zero and so never list it again. */
  method CountDown(ev: seq<seq<nat>>, rc0: seq<int>, order0: seq<nat>, i: nat) returns (rc: seq<int>, order: seq<nat>)
    requires InRange(ev) && i < |order0| && Counting(ev, rc0, order0, i)
    ensures i < |order| && Counting(ev, rc, order, i + 1)
  {
    rc, order := rc0, order0;
    StartDown(ev, rc, order, i);
    var c := order[i];
    assert rc[c] == 0;
    for j := 0 to |ev[c]|
      invariant i < |order| && order[i] == c && CountingDown(ev, rc, order, i, j)
    {
      rc, order := DropReference(ev, rc, order, i, j);
    }
    FinishDown(ev, rc, order, i);
  }

  method DropReference(ev: seq<seq<nat>>, rc0: seq<int>, order0: seq<nat>, i: nat, j: nat)
    returns (rc: seq<int>, order: seq<nat>)
    requires InRange(ev) && i < |order0| && order0[i] < |ev|
    requires j < |ev[order0[i]]| && CountingDown(ev, rc0, order0, i, j)
    ensures i < |order| && order[i] == order0[i] && CountingDown(ev, rc, order, i, j + 1)
  {
    StepDown(ev, rc0, order0, i, j);
    var e := ev[order0[i]][j];
    rc := Drop(rc0, e);
    order := Enqueue(rc, order0, e);
  }

  lemma InitialCounting(ev: seq<seq<nat>>, rc: seq<int>, order: seq<nat>)
    requires |rc| == |ev| && Distinct(order)
    requires forall x: nat :: x < |ev| ==> rc[x] == Pending(ev, x, {}, |ev|)
    requires forall x: nat :: x in order <==> x < |ev| && rc[x] == 0
    ensures Counting(ev, rc, order, 0)
  {
    assert order[..0] == [] && Elements(order[..0]) == {};
    forall p | 0 <= p < |order|
      ensures order[p] < |ev| && forall i: nat :: i < |ev| && i != order[p] ==> order[p] !in ev[i]
    {
      assert order[p] in order;
      PendingZero(ev, order[p], {}, |ev|);
    }
  }

  lemma {:induction false} DistinctBounded(q: seq<nat>, n: nat)
    requires Distinct(q) && forall p :: 0 <= p < |q| ==> q[p] < n
    ensures |q| <= n
    decreases n
  {
    if q == [] { return; }
    assert q[0] < n;
    if k :| 0 <= k < |q| && q[k] == n - 1 {
      var rest := q[..k] + q[k + 1..];
      forall p | 0 <= p < |rest| ensures rest[p] < n - 1 {
        assert rest[p] == q[if p < k then p else p + 1];
      }
      DistinctBounded(rest, n - 1);
    } else {
      DistinctBounded(q, n - 1);
    }
  }

  // ---- the whole computation ----

  /** First position of x in q. */
  function Position(q: seq<nat>, x: nat): (p: nat)
    requires x in q
    ensures p < |q| && q[p] == x
  {
    if q[0] == x then 0 else 1 + Position(q[1..], x)
  }

  ghost predicate Transposed(g: Calls, callers: seq<seq<nat>>) {
    && |callers| == |g| && Closed(callers)
    && (forall a: nat, b: nat :: a < |g| && b < |g| ==> multiset(callers[b])[a] == multiset(g[a])[b])
  }

  lemma CallerIsEdge(g: Calls, callers: seq<seq<nat>>, a: nat, b: nat)
    requires Transposed(g, callers) && a < |g| && b < |g|
    ensures a in callers[b] <==> Edge(g, a, b)
  {
    assert a in callers[b] <==> multiset(callers[b])[a] > 0;
    assert b in g[a] <==> multiset(g[a])[b] > 0;
  }

  lemma MembersInRange(g: Calls, s: State, c: nat)
    requires Partitioned(g, s) && c < |s.sccs|
    ensures forall i :: 0 <= i < |s.sccs[c]| ==> s.sccs[c][i] < |g|
  {
    forall i | 0 <= i < |s.sccs[c]| ensures s.sccs[c][i] < |g| {
      assert s.sccs[c][i] in s.sccs[c] && Done(s, s.sccs[c][i]);
    }
  }

  lemma EventHasEdge(g: Calls, s: State, callers: seq<seq<nat>>, c: nat, x: nat)
    requires Partitioned(g, s) && Transposed(g, callers) && c < |s.sccs|
    requires forall i :: 0 <= i < |s.sccs[c]| ==> s.sccs[c][i] < |g|
    requires x in CallingComponents(s, callers, s.sccs[c])
    ensures CallsInto(g, s, x, c)
  {
    var members := s.sccs[c];
    CallingComponentsExact(s, callers, members, x);
    var i, j :| 0 <= i < |members| && 0 <= j < |callers[members[i]]| && Scc(s, callers[members[i]][j]) == x;
    var a, b := callers[members[i]][j], members[i];
    assert b in s.sccs[c] && a in callers[b];
    CallerIsEdge(g, callers, a, b);
  }

  lemma EdgeHasEvent(g: Calls, s: State, callers: seq<seq<nat>>, c: nat, a: nat, b: nat)
    requires Partitioned(g, s) && Transposed(g, callers) && c < |s.sccs|
    requires forall i :: 0 <= i < |s.sccs[c]| ==> s.sccs[c][i] < |g|
    requires Edge(g, a, b) && Scc(s, b) == c
    ensures Scc(s, a) in CallingComponents(s, callers, s.sccs[c])
  {
    var members := s.sccs[c];
    CallingComponentsExact(s, callers, members, Scc(s, a));
    var h :| 0 <= h < |g[a]| && g[a][h] == b;
    assert b < |g| && Done(s, b);
    CallerIsEdge(g, callers, a, b);
    var i :| 0 <= i < |members| && members[i] == b;
    var j :| 0 <= j < |callers[members[i]]| && callers[members[i]][j] == a;
    assert Scc(s, callers[members[i]][j]) == Scc(s, a);
  }

  lemma EventsAreEdges(g: Calls, s: State, callers: seq<seq<nat>>, c: nat)
    requires Partitioned(g, s) && Transposed(g, callers) && c < |s.sccs|
    ensures forall i :: 0 <= i < |s.sccs[c]| ==> s.sccs[c][i] < |callers|
    ensures forall x: nat :: x in CallingComponents(s, callers, s.sccs[c]) <==> CallsInto(g, s, x, c)
  {
    MembersInRange(g, s, c);
    forall x: nat ensures x in CallingComponents(s, callers, s.sccs[c]) <==> CallsInto(g, s, x, c) {
      if x in CallingComponents(s, callers, s.sccs[c]) {
        EventHasEdge(g, s, callers, c, x);
      }
      if CallsInto(g, s, x, c) {
        var a: nat, b: nat :| Edge(g, a, b) && Scc(s, b) == c && Scc(s, a) == x;
        EdgeHasEvent(g, s, callers, c, a, b);
      }
    }
  }

  /** Who calls into each component. */
  method ComponentEdges(g: Calls, s: State, callers: seq<seq<nat>>) returns (ev: seq<seq<nat>>)
    requires Partitioned(g, s) && Transposed(g, callers)
    ensures |ev| == |s.sccs| && forall k: nat, x: nat :: k < |ev| ==> (x in ev[k] <==> CallsInto(g, s, x, k))
  {
    ev := [];
    for c := 0 to |s.sccs|
      invariant |ev| == c
      invariant forall k: nat, x: nat :: k < c ==> (x in ev[k] <==> CallsInto(g, s, x, k))
    {
      EventsAreEdges(g, s, callers, c);
      ev := ev + [CallingComponents(s, callers, s.sccs[c])];
    }
  }

  /** Finds the components of the call graph and the order to inline them in. */
  method ComputeInlineOrder(g: Calls) returns (search: Search, order: seq<nat>)
    ensures fresh(search) && Partitioned(g, search.Now())
    ensures forall a: nat, b: nat :: a < |g| && b < |g| ==>
      (Scc(search.Now(), a) == Scc(search.Now(), b) <==> Mutual(g, a, b))
    ensures Distinct(order) && forall c: nat :: c in order <==> c < |search.sccs|
    ensures forall a: nat, b: nat :: Edge(g, a, b) && Scc(search.Now(), a) != Scc(search.Now(), b) ==>
      Scc(search.Now(), a) in order && Scc(search.Now(), b) in order[..Position(order, Scc(search.Now(), a))]
  {
    var callers := Transpose(g);
    search := new Search(g);
    search.FindComponents();
    var s := State(search.assoc, search.stack, search.sccs, search.index);
    var ev := ComponentEdges(g, s, callers);
    EventsWellFormed(g, s, ev);
    order := OrderComponents(ev);
    forall a: nat, b: nat | a < |g| && b < |g| ensures Scc(s, a) == Scc(s, b) <==> Mutual(g, a, b) {
      assert Done(s, a) && Done(s, b);
    }
    forall a: nat, b: nat | Edge(g, a, b) && Scc(s, a) != Scc(s, b)
      ensures Scc(s, a) in order && Scc(s, b) in order[..Position(order, Scc(s, a))]
    {
      assert CallsInto(g, s, Scc(s, a), Scc(s, b));
      assert Done(s, a) && Done(s, b);
    }
  }

  ghost predicate CallsInto(g: Calls, s: State, x: nat, c: nat) {
    exists a: nat, b: nat :: Edge(g, a, b) && Scc(s, b) == c && Scc(s, a) == x
  }

  lemma EventsWellFormed(g: Calls, s: State, ev: seq<seq<nat>>)
    requires Partitioned(g, s) && |ev| == |s.sccs|
    requires forall k: nat, x: nat :: k < |ev| ==> (x in ev[k] <==> CallsInto(g, s, x, k))
    ensures InRange(ev) && NumberedCalleesFirst(ev)
  {
    forall k: nat, x: nat | k < |ev| && x in ev[k] ensures x < |ev| && k <= x {
      var a: nat, b: nat :| Edge(g, a, b) && Scc(s, b) == k && Scc(s, a) == x;
      assert Done(s, a) && Done(s, b);
    }
    forall i, j | 0 <= i < |ev| && 0 <= j < |ev[i]| ensures ev[i][j] < |ev| {
      assert ev[i][j] in ev[i];
    }
  }
}
