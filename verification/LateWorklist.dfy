/**
  The worklist of late scheduling: which nodes are offered for placing, and why every node gets its turn.
 */
module LateWorklist {
  import opened Basics
  import opened ControlGraph
  import opened CodeMotion
  import opened LatePlacement

  // ---- what a node waits for, and what calls for it ----

  predicate IsLoop(s: Son, n: Id) { n in s.cfg.nodes && s.cfg.nodes[n].kind == Loop }

  /** Placing n may be what the loads of the memory version it takes were waiting for. */
  predicate Announces(s: Son, n: Id) {
    && n in s.nodes
    && (s.nodes[n].isStore || (s.nodes[n].class_ == Phi && s.nodes[n].isMemory)
        || (n in s.cfg.nodes && s.cfg.nodes[n].kind in {Call, Return}))
  }

  /** Whatever else takes the memory version of a load announces itself, and takes it where it is looked for. */
  ghost predicate ConsumersAnnounce(s: Son) {
    forall n, u, k :: n in s.nodes && s.nodes[n].isLoad && |s.nodes[n].inputs| > 1 && WaitsForConsumer(s, n, u, k) ==>
      Announces(s, u) && if s.nodes[u].class_ == Phi then k >= 1 else k == 1
  }

  /** The load n waits for u, which takes the same memory version as its input k. */
  predicate WaitsForConsumer(s: Son, n: Id, u: Id, k: nat)
    requires n in s.nodes && |s.nodes[n].inputs| > 1
  {
    Uses(s, u, k, s.nodes[n].inputs[1]) && !s.nodes[u].isLoad && s.nodes[u].class_ != Local
  }

  ghost predicate UsedByPlaced(s: Son, late: map<Id, Id>, n: Id) {
    exists u, k :: u in late && Uses(s, u, k, n)
  }

  ghost predicate FollowsPlacedLoop(s: Son, late: map<Id, Id>, n: Id) {
    exists l, k :: l in late && IsLoop(s, l) && Uses(s, n, k, l)
  }

  ghost predicate Called(s: Son, roots: seq<Id>, late: map<Id, Id>, n: Id) {
    n in roots || UsedByPlaced(s, late, n) || FollowsPlacedLoop(s, late, n)
  }

  /** Whatever has been called for and could be placed now is queued. */
  ghost predicate NoneForgotten(s: Son, roots: seq<Id>, late: map<Id, Id>, queued: set<Id>) {
    forall n {:trigger Called(s, roots, late, n)} ::
      n in s.nodes && n !in late && Ready(s, late, n) && Called(s, roots, late, n) ==> n in queued
  }

  // ---- graphs on which everything gets its turn ----

  /** A free node is used, and everything it waits for has a smaller rank; any other node is called for by the end
      of the procedure, by something of a smaller rank that uses it, or by a loop of a smaller rank. */
  ghost predicate Served(s: Son, roots: seq<Id>, rank: map<Id, nat>, n: Id)
    requires rank.Keys == s.nodes.Keys && n in s.nodes
  {
    if Free(s, n) then
      && n !in roots && (exists u, k :: Uses(s, u, k, n))
      && (forall u, k :: Uses(s, u, k, n) ==> rank[u] < rank[n])
      && (s.nodes[n].isLoad && |s.nodes[n].inputs| > 1 ==> forall u, k :: WaitsForConsumer(s, n, u, k) ==>
            rank[u] < rank[n])
    else
      || n in roots
      || (exists u, k :: Uses(s, u, k, n) && rank[u] < rank[n])
      || (exists l, k :: IsLoop(s, l) && Uses(s, n, k, l) && l in s.nodes && rank[l] < rank[n])
  }

  ghost predicate AllServed(s: Son, roots: seq<Id>, rank: map<Id, nat>) {
    && rank.Keys == s.nodes.Keys && (forall a, b :: a in rank && b in rank && rank[a] == rank[b] ==> a == b)
    && (forall n {:trigger Served(s, roots, rank, n)} :: n in s.nodes ==> Served(s, roots, rank, n))
  }

  /** With nothing queued, nothing is left to place. */
  lemma {:induction false} EventuallyPlaced(s: Son, roots: seq<Id>, rank: map<Id, nat>, late: map<Id, Id>, n: Id)
    requires AllServed(s, roots, rank) && NoneForgotten(s, roots, late, {}) && n in s.nodes
    ensures n in late
    decreases rank[n]
  {
    assert Served(s, roots, rank, n);
    forall u | u in s.nodes && rank[u] < rank[n] ensures u in late {
      EventuallyPlaced(s, roots, rank, late, u);
    }
    if n !in late {
      IsReadyNow(s, roots, rank, late, n);
      assert Called(s, roots, late, n);
    }
  }

  lemma IsReadyNow(s: Son, roots: seq<Id>, rank: map<Id, nat>, late: map<Id, Id>, n: Id)
    requires AllServed(s, roots, rank) && n in s.nodes && Served(s, roots, rank, n)
    requires forall u :: u in s.nodes && rank[u] < rank[n] ==> u in late
    ensures Ready(s, late, n)
  {
    assert WellFormedData(s, n);
    if s.nodes[n].isLoad {
      forall u: Id, k: nat | Uses(s, u, k, s.nodes[n].inputs[1])
        ensures u in late || s.nodes[u].isLoad || s.nodes[u].class_ == Local {
        assert !s.nodes[u].isLoad && s.nodes[u].class_ != Local ==> WaitsForConsumer(s, n, u, k);
      }
    }
  }

  /** n cannot be placed before u is. */
  ghost predicate WaitsFor(s: Son, n: Id, u: Id)
    requires n in s.nodes
  {
    || (Free(s, n) && exists k :: Uses(s, u, k, n))
    || (s.nodes[n].isLoad && |s.nodes[n].inputs| > 1 && exists k :: WaitsForConsumer(s, n, u, k))
  }

  /** Nodes that wait for each other in a circle are never placed, in whatever order nodes are offered. */
  lemma WaitingCircleStays(s: Son, late: map<Id, Id>, circle: set<Id>, n: Id, b: Id)
    requires circle !! late.Keys && n in s.nodes && Ready(s, late, n)
    requires forall x :: x in circle ==> x in s.nodes && exists u :: u in circle && WaitsFor(s, x, u)
    ensures circle !! late[n := b].Keys
  {
    forall u | u in circle ensures !WaitsFor(s, n, u) {
      ReadyWaitsForNone(s, late, n, u);
    }
  }

  lemma ReadyWaitsForNone(s: Son, late: map<Id, Id>, n: Id, u: Id)
    requires n in s.nodes && Ready(s, late, n) && u !in late
    ensures !WaitsFor(s, n, u)
  {
  }

  // ---- one turn ----

  /** What a placed node calls for. */
  ghost predicate CalledBy(s: Son, n: Id, x: Id) {
    && x in s.nodes && n in s.nodes
    && ((exists k :: Uses(s, n, k, x)) || (IsLoop(s, n) && exists k :: Uses(s, x, k, n)) || Told(s, n, x))
  }

  /** n announces itself to the load x. */
  ghost predicate Told(s: Son, n: Id, x: Id)
    requires x in s.nodes && n in s.nodes
  {
    && Announces(s, n) && s.nodes[x].isLoad && |s.nodes[x].inputs| > 1
    && exists k :: Uses(s, n, k, s.nodes[x].inputs[1]) && if s.nodes[n].class_ == Phi then k >= 1 else k == 1
  }

  lemma NoneForgottenOnPlacing(s: Son, roots: seq<Id>, late: map<Id, Id>, n: Id, b: Id, queued: set<Id>,
                               queued': set<Id>)
    requires ConsumersAnnounce(s) && NoneForgotten(s, roots, late, queued) && n in s.nodes && n !in late
    requires queued - {n} <= queued' && forall x :: x !in late && x != n && CalledBy(s, n, x) ==> x in queued'
    ensures NoneForgotten(s, roots, late[n := b], queued')
  {
    var late' := late[n := b];
    forall x | x in s.nodes && x !in late' && Ready(s, late', x) && Called(s, roots, late', x) ensures x in queued' {
      if !CalledBy(s, n, x) {
        CalledBefore(s, roots, late, n, b, x);
        ReadyBefore(s, late, n, b, x);
        assert Called(s, roots, late, x);
      }
    }
  }

  lemma CalledBefore(s: Son, roots: seq<Id>, late: map<Id, Id>, n: Id, b: Id, x: Id)
    requires n in s.nodes && x in s.nodes && !CalledBy(s, n, x) && Called(s, roots, late[n := b], x)
    ensures Called(s, roots, late, x)
  {
    var late' := late[n := b];
    if UsedByPlaced(s, late', x) {
      var u, k :| u in late' && Uses(s, u, k, x);
      assert u in late;
    } else if x !in roots {
      var l, k :| l in late' && IsLoop(s, l) && Uses(s, x, k, l);
      assert l in late;
    }
  }

  lemma ReadyBefore(s: Son, late: map<Id, Id>, n: Id, b: Id, x: Id)
    requires ConsumersAnnounce(s) && n in s.nodes && x in s.nodes && !CalledBy(s, n, x) && Ready(s, late[n := b], x)
    ensures Ready(s, late, x)
  {
    var late' := late[n := b];
    forall u: Id, k: nat | Free(s, x) && Uses(s, u, k, x) ensures u in late {
      assert u in late';
    }
    if s.nodes[x].isLoad && |s.nodes[x].inputs| > 1 {
      forall u: Id, k: nat | Uses(s, u, k, s.nodes[x].inputs[1])
        ensures u in late || s.nodes[u].isLoad || s.nodes[u].class_ == Local {
        assert u == n && WaitsForConsumer(s, x, u, k) ==> Told(s, n, x);
      }
    }
  }

  // ---- why the turns come to an end ----

  /** The ranks as the digits of a binary number, from rank lo on. */
  ghost function Digits(ranks: set<nat>, lo: nat, top: nat): nat
    requires lo <= top
    decreases top - lo
  {
    if lo == top then 0 else 2 * Digits(ranks, lo + 1, top) + if lo in ranks then 1 else 0
  }

  lemma {:induction false} SameDigits(a: set<nat>, b: set<nat>, lo: nat, top: nat)
    requires lo <= top && forall r :: lo <= r < top ==> (r in a <==> r in b)
    ensures Digits(a, lo, top) == Digits(b, lo, top)
    decreases top - lo
  {
    if lo < top { SameDigits(a, b, lo + 1, top); }
  }

  /** Replacing a rank by any smaller ones makes the number smaller. */
  lemma {:induction false} DigitsDrop(a: set<nat>, b: set<nat>, c: nat, lo: nat, top: nat)
    requires lo <= c < top && c in a && c !in b && forall r :: c < r < top ==> (r in a <==> r in b)
    ensures Digits(b, lo, top) < Digits(a, lo, top)
    decreases c - lo
  {
    if lo == c {
      SameDigits(a, b, c + 1, top);
    } else {
      DigitsDrop(a, b, c, lo + 1, top);
    }
  }

  ghost function Ranks(rank: map<Id, nat>, queued: set<Id>): set<nat> {
    set n | n in queued && n in rank :: rank[n]
  }

  lemma SkippingDrops(s: Son, roots: seq<Id>, rank: map<Id, nat>, top: nat, n: Id, queued: set<Id>, queued': set<Id>)
    requires AllServed(s, roots, rank) && Free(s, n) && n in queued && rank[n] < top
    requires queued - {n} <= queued' && n !in queued' && queued <= s.nodes.Keys && queued' <= s.nodes.Keys
    requires forall x :: x in queued' && x !in queued ==> exists k :: Uses(s, x, k, n)
    ensures Digits(Ranks(rank, queued'), 0, top) < Digits(Ranks(rank, queued), 0, top)
  {
    assert Served(s, roots, rank, n);
    var a, b, c := Ranks(rank, queued), Ranks(rank, queued'), rank[n];
    forall r | c < r < top ensures r in a <==> r in b {
      if r in a {
        var x :| x in queued && x in rank && rank[x] == r;
        assert x in queued';
      }
      if r in b {
        var x :| x in queued' && x in rank && rank[x] == r;
        assert x in queued;
      }
    }
    DigitsDrop(a, b, c, 0, top);
  }

  // ---- the worklist ----

  /** A queue without repeats; nil counts as queued, so it is never added. */
  class Worklist {
    var items: seq<Id>
    var marks: set<Id>

    ghost predicate Valid()
      reads this
    {
      && Distinct(items)
      && 0 !in items && forall n :: n in marks <==> n in items || n == 0
    }

    ghost function Queued(): set<Id>
      reads this
    {
      set n | n in items
    }

    constructor ()
      ensures Valid() && Queued() == {} && items == []
    {
      items, marks := [], {0};
    }

    method Add(n: Id)
      requires Valid()
      modifies this
      ensures Valid() && Queued() == old(Queued()) + ({n} - {0})
      ensures items == if n == 0 || n in old(items) then old(items) else old(items) + [n]
    {
      if n !in marks {
        marks := marks + {n};
        items := items + [n];
      }
    }

    method Next() returns (n: Id)
      requires Valid() && items != []
      modifies this
      ensures Valid() && n in old(Queued()) && Queued() == old(Queued()) - {n}
      ensures old(items) == [n] + items
    {
      n := items[0];
      items := items[1..];
      marks := marks - {n};
    }
  }

  function Waiting(late: map<Id, Id>, ids: seq<Id>): set<Id> { set n | n in ids && n != 0 && n !in late }

  /** Adds those that are not placed. */
  method AddNodes(late: map<Id, Id>, ids: seq<Id>, w: Worklist)
    requires w.Valid()
    modifies w
    ensures w.Valid() && w.Queued() == old(w.Queued()) + Waiting(late, ids)
  {
    for i := 0 to |ids|
      invariant w.Valid() && w.Queued() == old(w.Queued()) + Waiting(late, ids[..i])
    {
      assert ids[..i + 1] == ids[..i] + [ids[i]];
      if ids[i] !in late { w.Add(ids[i]); }
    }
    assert ids[..|ids|] == ids;
  }

  // ---- what placing a node adds ----

  predicate Wanted(s: Son, late: map<Id, Id>, loadsOnly: bool, n: Id) {
    n in s.nodes && n !in late && (loadsOnly ==> s.nodes[n].isLoad)
  }

  predicate IsUser(s: Son, u: Id, n: Id) {
    n != 0 && u in s.nodes && exists k :: 0 <= k < |s.nodes[u].inputs| && Uses(s, u, k, n)
  }

  /** Adds the users of n that are not placed, all of them or the loads. */
  method AddUsers(s: Son, late: map<Id, Id>, n: Id, loadsOnly: bool, w: Worklist)
    requires w.Valid() && n in s.nodes
    modifies w
    ensures w.Valid()
    ensures forall u :: u in w.Queued() <==>
      u in old(w.Queued()) || (IsUser(s, u, n) && Wanted(s, late, loadsOnly, u))
  {
    var outs := s.nodes[n].outs;
    ghost var before := w.Queued();
    for i := 0 to |outs|
      invariant w.Valid() && UsersAdded(s, late, n, loadsOnly, i, before, w.Queued())
    {
      UsersAddedNext(s, late, n, loadsOnly, i, before, w.Queued());
      if Wanted(s, late, loadsOnly, outs[i].0) { w.Add(outs[i].0); }
    }
    AllUsersAdded(s, late, n, loadsOnly, before, w.Queued());
  }

  predicate AmongUsers(outs: seq<(Id, nat)>, i: nat, u: Id) { exists j :: 0 <= j < i && j < |outs| && outs[j].0 == u }

  /** The first i users of n have been dealt with. */
  ghost predicate UsersAdded(s: Son, late: map<Id, Id>, n: Id, loadsOnly: bool, i: nat, before: set<Id>, after: set<Id>)
    requires n in s.nodes && i <= |s.nodes[n].outs|
  {
    forall u :: u in after <==>
      u in before || (AmongUsers(s.nodes[n].outs, i, u) && Wanted(s, late, loadsOnly, u))
  }

  lemma UsersAddedNext(s: Son, late: map<Id, Id>, n: Id, loadsOnly: bool, i: nat, before: set<Id>, after: set<Id>)
    requires n in s.nodes && i < |s.nodes[n].outs| && UsersAdded(s, late, n, loadsOnly, i, before, after)
    ensures var u := s.nodes[n].outs[i].0;
      UsersAdded(s, late, n, loadsOnly, i + 1, before, if Wanted(s, late, loadsOnly, u) then after + {u} else after)
    ensures s.nodes[n].outs[i].0 != 0
  {
    var outs := s.nodes[n].outs;
    assert OutsExact(s, n) && (outs[i].0, outs[i].1) in outs;
    assert Uses(s, outs[i].0, outs[i].1, n);
    forall u ensures AmongUsers(outs, i + 1, u) <==> AmongUsers(outs, i, u) || u == outs[i].0 {}
  }

  lemma AllUsersAdded(s: Son, late: map<Id, Id>, n: Id, loadsOnly: bool, before: set<Id>, after: set<Id>)
    requires n in s.nodes && UsersAdded(s, late, n, loadsOnly, |s.nodes[n].outs|, before, after)
    ensures forall u :: u in after <==> u in before || (IsUser(s, u, n) && Wanted(s, late, loadsOnly, u))
  {
    var outs := s.nodes[n].outs;
    assert OutsExact(s, n);
    forall u ensures AmongUsers(outs, |outs|, u) <==> IsUser(s, u, n) {
      if AmongUsers(outs, |outs|, u) {
        var j :| 0 <= j < |outs| && outs[j].0 == u;
        assert (outs[j].0, outs[j].1) in outs && Uses(s, u, outs[j].1, n);
      }
      if IsUser(s, u, n) {
        var k :| 0 <= k < |s.nodes[u].inputs| && Uses(s, u, k, n);
        var j :| 0 <= j < |outs| && outs[j] == (u, k);
      }
    }
  }

  /** What is queued on placing n: its inputs, the users of a loop, and the loads of the memory versions that it makes
      or takes. */
  ghost predicate Follows(s: Son, n: Id, x: Id)
    requires n in s.nodes
  {
    && x in s.nodes
    && (x in s.nodes[n].inputs || (IsLoop(s, n) && IsUser(s, x, n)) || (Announces(s, n) && IsTold(s, n, x)))
  }

  /** x loads a memory version that n makes, or takes. */
  ghost predicate IsTold(s: Son, n: Id, x: Id)
    requires n in s.nodes
  {
    && x in s.nodes && s.nodes[x].isLoad
    && (IsUser(s, x, n) || exists k :: 1 <= k < Taken(s, n) && IsUser(s, x, s.nodes[n].inputs[k]))
  }

  /** How many inputs of n may be memory versions that it takes; input 0 is none. */
  function Taken(s: Son, n: Id): (k: nat)
    requires n in s.nodes
    ensures k <= |s.nodes[n].inputs|
  {
    var inputs := s.nodes[n].inputs;
    if s.nodes[n].class_ == Phi then |inputs| else if |inputs| > 1 then 2 else 0
  }

  /** Whatever is called for by n is queued on placing it. */
  lemma CalledFollows(s: Son, n: Id, x: Id)
    requires CalledBy(s, n, x)
    ensures Follows(s, n, x)
  {
    if k: nat :| Uses(s, n, k, x) { assert s.nodes[n].inputs[k] == x; }
    if Told(s, n, x) {
      var m := s.nodes[x].inputs[1];
      var k: nat :| Uses(s, n, k, m) && if s.nodes[n].class_ == Phi then k >= 1 else k == 1;
      assert WellFormedData(s, x) && Uses(s, x, 1, m) && 1 <= k < Taken(s, n) && IsUser(s, x, s.nodes[n].inputs[k]);
    }
  }

  /** Adds whatever the node just placed calls for. */
  method Follow(s: Son, late: map<Id, Id>, n: Id, w: Worklist)
    requires w.Valid() && n in s.nodes && s.nodes[s.cfg.entry].inputs == []
    modifies w
    ensures w.Valid()
    ensures forall x :: x in w.Queued() <==> x in old(w.Queued()) || (x !in late && Follows(s, n, x))
  {
    assert WellFormedData(s, n);
    if IsLoop(s, n) { AddUsers(s, late, n, false, w); }
    ghost var one := w.Queued();
    if n != s.cfg.entry {
      AddNodes(late, s.nodes[n].inputs, w);
    }
    ghost var two := w.Queued();
    forall x ensures x in two <==> x in one || (x in s.nodes && x !in late && x in s.nodes[n].inputs) {
      InputsAreWaiting(s, late, n, x);
    }
    if Announces(s, n) { Announce(s, late, n, w); }
  }

  lemma InputsAreWaiting(s: Son, late: map<Id, Id>, n: Id, x: Id)
    requires n in s.nodes
    ensures x in Waiting(late, s.nodes[n].inputs) <==> x in s.nodes && x !in late && x in s.nodes[n].inputs
  {
    assert WellFormedData(s, n);
    if x in s.nodes[n].inputs {
      var k :| 0 <= k < |s.nodes[n].inputs| && s.nodes[n].inputs[k] == x;
    }
  }

  method AddLoads(s: Son, late: map<Id, Id>, m: Id, w: Worklist)
    requires w.Valid() && (m == 0 || m in s.nodes)
    modifies w
    ensures w.Valid()
    ensures forall x :: x in w.Queued() <==> x in old(w.Queued()) || (IsUser(s, x, m) && Wanted(s, late, true, x))
  {
    if m != 0 { AddUsers(s, late, m, true, w); }
  }

  /** x loads one of the inputs of n from 1 to k - 1. */
  ghost predicate LoadsTaken(s: Son, n: Id, k: nat, x: Id)
    requires n in s.nodes
  {
    exists i :: 1 <= i < k && i < |s.nodes[n].inputs| && IsUser(s, x, s.nodes[n].inputs[i])
  }

  /** Tells the loads of the memory version that n makes, and of those that it takes. */
  method Announce(s: Son, late: map<Id, Id>, n: Id, w: Worklist)
    requires w.Valid() && n in s.nodes && Announces(s, n)
    modifies w
    ensures w.Valid()
    ensures forall x :: x in w.Queued() <==> x in old(w.Queued()) || (x !in late && IsTold(s, n, x))
  {
    AddUsers(s, late, n, true, w);
    ghost var before := w.Queued();
    var k := 1;
    while k < Taken(s, n)
      invariant 1 <= k && w.Valid() && (k <= Taken(s, n) || k == 1)
      invariant forall x :: x in w.Queued() <==> x in before || (LoadsTaken(s, n, k, x) && Wanted(s, late, true, x))
    {
      AnnounceInput(s, late, n, k, w, before);
      k := k + 1;
    }
    forall x
      ensures LoadsTaken(s, n, k, x) <==> exists i :: 1 <= i < Taken(s, n) && IsUser(s, x, s.nodes[n].inputs[i]) {}
  }

  method AnnounceInput(s: Son, late: map<Id, Id>, n: Id, k: nat, w: Worklist, ghost before: set<Id>)
    requires w.Valid() && n in s.nodes && 1 <= k < |s.nodes[n].inputs|
    requires forall x :: x in w.Queued() <==> x in before || (LoadsTaken(s, n, k, x) && Wanted(s, late, true, x))
    modifies w
    ensures w.Valid()
    ensures forall x :: x in w.Queued() <==> x in before || (LoadsTaken(s, n, k + 1, x) && Wanted(s, late, true, x))
  {
    assert WellFormedData(s, n);
    var m := s.nodes[n].inputs[k];
    AddLoads(s, late, m, w);
    forall x ensures LoadsTaken(s, n, k + 1, x) <==> LoadsTaken(s, n, k, x) || IsUser(s, x, m) {
      NextTaken(s, n, k, x);
    }
  }

  lemma NextTaken(s: Son, n: Id, k: nat, x: Id)
    requires n in s.nodes && 1 <= k < |s.nodes[n].inputs|
    ensures LoadsTaken(s, n, k + 1, x) <==> LoadsTaken(s, n, k, x) || IsUser(s, x, s.nodes[n].inputs[k])
  {
  }

  // ---- the loop ----

  /** Only nodes that are yet to be placed are queued, and none is forgotten. */
  ghost predicate Underway(s: Son, roots: seq<Id>, late: map<Id, Id>, queued: set<Id>) {
    && late.Keys <= s.nodes.Keys && queued <= s.nodes.Keys && queued !! late.Keys
    && NoneForgotten(s, roots, late, queued)
  }

  /** The graph lets everything get its turn. */
  ghost predicate Orderly(s: Son, roots: seq<Id>, rank: map<Id, nat>, top: nat) {
    && ConsumersAnnounce(s) && s.nodes[s.cfg.entry].inputs == []
    && AllServed(s, roots, rank) && forall n :: n in rank ==> rank[n] < top
  }

  ghost predicate EarlyKnown(s: Son, slot: map<Id, Id>) { forall m :: IsData(s, m) ==> m in slot }

  method PlaceOne(sch: Scheduler, n: Id, ghost at: map<Id, Id>)
    requires sch.Valid() && Reducible(sch.s.cfg) && LegalAtControl(sch.s, at) && EarlyKnown(sch.s, sch.slot)
    requires n in sch.s.nodes && n !in sch.late && Ready(sch.s, sch.late, n)
    modifies sch
    ensures sch.Valid() && EarlyKnown(sch.s, sch.slot) && n in sch.late && sch.late == old(sch.late)[n := sch.late[n]]
    ensures n !in sch.antideps
  {
    sch.Place(n, at);
  }

  /** Places a ready node. Its dependences need no look: they are recorded at nodes placed before. */
  method PlaceNext(sch: Scheduler, roots: seq<Id>, w: Worklist, n: Id, ghost at: map<Id, Id>, ghost queued: set<Id>)
    requires sch.Valid() && Reducible(sch.s.cfg) && LegalAtControl(sch.s, at) && EarlyKnown(sch.s, sch.slot)
    requires ConsumersAnnounce(sch.s) && sch.s.nodes[sch.s.cfg.entry].inputs == []
    requires w.Valid() && Underway(sch.s, roots, sch.late, queued) && n in queued && w.Queued() == queued - {n}
    requires Ready(sch.s, sch.late, n)
    modifies sch, w
    ensures sch.Valid() && EarlyKnown(sch.s, sch.slot) && w.Valid() && Underway(sch.s, roots, sch.late, w.Queued())
    ensures sch.late.Keys == old(sch.late).Keys + {n} && n !in old(sch.late) && n !in sch.antideps
    ensures forall x :: x in w.Queued() <==> x in queued - {n} || (x !in sch.late && Follows(sch.s, n, x))
  {
    ghost var late := sch.late;
    PlaceOne(sch, n, at);
    Follow(sch.s, sch.late, n, w);
    UnderwayOnPlacing(sch.s, roots, late, n, sch.late[n], queued, w.Queued());
  }

  lemma UnderwayOnPlacing(s: Son, roots: seq<Id>, late: map<Id, Id>, n: Id, b: Id, queued: set<Id>, queued': set<Id>)
    requires ConsumersAnnounce(s) && Underway(s, roots, late, queued) && n in queued
    requires forall x :: x in queued' <==> x in queued - {n} || (x !in late[n := b] && Follows(s, n, x))
    ensures Underway(s, roots, late[n := b], queued')
  {
    forall x | x !in late && x != n && CalledBy(s, n, x) ensures x in queued' {
      CalledFollows(s, n, x);
    }
    NoneForgottenOnPlacing(s, roots, late, n, b, queued, queued');
  }

  /** Puts off a node that is not ready, in favour of its users. */
  method SkipNext(sch: Scheduler, roots: seq<Id>, w: Worklist, n: Id, ghost rank: map<Id, nat>, ghost top: nat,
                  ghost queued: set<Id>)
    requires Orderly(sch.s, roots, rank, top) && w.Valid()
    requires Underway(sch.s, roots, sch.late, queued) && n in queued && w.Queued() == queued - {n}
    requires !Ready(sch.s, sch.late, n)
    modifies w
    ensures w.Valid() && Underway(sch.s, roots, sch.late, w.Queued())
    ensures forall x :: x in w.Queued() <==> x in queued - {n} || (x !in sch.late && IsUser(sch.s, x, n))
    ensures Digits(Ranks(rank, w.Queued()), 0, top) < Digits(Ranks(rank, queued), 0, top)
  {
    NotReadyIsFree(sch.s, sch.late, n);
    AddUsers(sch.s, sch.late, n, false, w);
    UsedBySelf(sch.s, roots, rank, n);
    SkippingDrops(sch.s, roots, rank, top, n, queued, w.Queued());
  }

  lemma NotReadyIsFree(s: Son, late: map<Id, Id>, n: Id)
    requires n in s.nodes && !Ready(s, late, n)
    ensures Free(s, n)
  {
    assert WellFormedData(s, n);
  }

  /** A free node of an orderly graph does not use itself. */
  lemma UsedBySelf(s: Son, roots: seq<Id>, rank: map<Id, nat>, n: Id)
    requires AllServed(s, roots, rank) && Free(s, n)
    ensures forall k :: !Uses(s, n, k, n)
  {
    assert Served(s, roots, rank, n);
  }

  method Turn(sch: Scheduler, roots: seq<Id>, w: Worklist, ghost at: map<Id, Id>, ghost rank: map<Id, nat>,
              ghost top: nat)
    requires sch.Valid() && Reducible(sch.s.cfg) && LegalAtControl(sch.s, at) && EarlyKnown(sch.s, sch.slot)
    requires Orderly(sch.s, roots, rank, top)
    requires w.Valid() && w.items != [] && Underway(sch.s, roots, sch.late, w.Queued())
    modifies sch, w
    ensures sch.Valid() && EarlyKnown(sch.s, sch.slot) && w.Valid() && Underway(sch.s, roots, sch.late, w.Queued())
    ensures sch.s.nodes.Keys - sch.late.Keys < sch.s.nodes.Keys - old(sch.late).Keys
      || (sch.late == old(sch.late)
         && Digits(Ranks(rank, w.Queued()), 0, top) < Digits(Ranks(rank, old(w.Queued())), 0, top))
  {
    ghost var queued := w.Queued();
    var n := w.Next();
    var ready := sch.IsReady(n);
    if ready {
      PlaceNext(sch, roots, w, n, at, queued);
      assert n in sch.s.nodes.Keys - old(sch.late).Keys;
    } else {
      SkipNext(sch, roots, w, n, rank, top, queued);
    }
  }

  /** Late scheduling as a whole, from the inputs of the end node: the worklist runs empty, every node it takes up is
      yet to be placed, and in the end all nodes are placed, each where its definition reaches its uses. */
  method ScheduleAll(sch: Scheduler, roots: seq<Id>, ghost at: map<Id, Id>, ghost rank: map<Id, nat>, ghost top: nat)
    requires sch.Valid() && Reducible(sch.s.cfg) && LegalAtControl(sch.s, at) && EarlyKnown(sch.s, sch.slot)
    requires sch.late == map[] && Orderly(sch.s, roots, rank, top)
    requires forall i :: 0 <= i < |roots| ==> roots[i] in sch.s.nodes
    modifies sch
    ensures sch.Valid() && sch.late.Keys == sch.s.nodes.Keys && Legal(sch.s, sch.late)
    ensures AllSettled(sch.s, sch.loopDepth, sch.late, sch.antideps)
  {
    var w := new Worklist();
    AddNodes(sch.late, roots, w);
    StartsWithRoots(sch.s, roots);
    while w.items != []
      invariant sch.Valid() && EarlyKnown(sch.s, sch.slot) && w.Valid() && Underway(sch.s, roots, sch.late, w.Queued())
      decreases sch.s.nodes.Keys - sch.late.Keys, Digits(Ranks(rank, w.Queued()), 0, top)
    {
      Turn(sch, roots, w, at, rank, top);
    }
    assert w.Queued() == {};
    forall n | n in sch.s.nodes ensures n in sch.late {
      EventuallyPlaced(sch.s, roots, rank, sch.late, n);
    }
    FullScheduleIsLegal(sch.s, at, sch.late);
  }

  lemma StartsWithRoots(s: Son, roots: seq<Id>)
    requires forall i :: 0 <= i < |roots| ==> roots[i] in s.nodes
    ensures Underway(s, roots, map[], Waiting(map[], roots))
  {
    forall n | n in s.nodes && Called(s, roots, map[], n) ensures n in Waiting(map[], roots) {}
  }

  // ---- early and late scheduling together ----

  /** Around all control nodes filled in, early blocks are known everywhere: what is used is used, in the end, by a
      control node or next to one. */
  lemma {:induction false} EarlyIsKnown(s: Son, roots: seq<Id>, rank: map<Id, nat>, slot: map<Id, Id>,
                                        late: map<Id, Id>, n: Id)
    requires AllServed(s, roots, rank) && EarlySoFar(s, slot, late) && IsData(s, n)
    requires forall c :: IsCtrl(s, c) ==> FilledAround(s, slot, c)
    ensures n in slot
    decreases rank[n]
  {
    if !Attached(s, n) {
      assert Served(s, roots, rank, n) && WellFormedData(s, n);
      var u: Id, k: nat :| Uses(s, u, k, n);
      if IsCtrl(s, u) {
        assert FilledAround(s, slot, u) && InputsFilled(s, slot, u);
      } else if Attached(s, u) {
        var c := s.nodes[u].inputs[0];
        assert FilledAround(s, slot, c) && Uses(s, u, 0, c);
        assert InputsFilled(s, slot, u);
      } else {
        EarlyIsKnown(s, roots, rank, slot, late, u);
        assert InputsFilled(s, slot, u);
      }
    }
  }

  lemma AllEarlyKnown(s: Son, roots: seq<Id>, rank: map<Id, nat>, slot: map<Id, Id>, late: map<Id, Id>)
    requires AllServed(s, roots, rank) && EarlySoFar(s, slot, late)
    requires forall c :: IsCtrl(s, c) ==> FilledAround(s, slot, c)
    ensures EarlyKnown(s, slot)
  {
    forall m | IsData(s, m) ensures m in slot {
      EarlyIsKnown(s, roots, rank, slot, late, m);
    }
  }

  /** Both passes of early scheduling over the control nodes. */
  method ScheduleEarly(sch: Scheduler, rpo: seq<Id>)
    requires sch.slot == map[] && sch.late == map[] && forall c :: IsCtrl(sch.s, c) <==> c in rpo
    modifies sch`slot
    ensures EarlySoFar(sch.s, sch.slot, sch.late) && forall c :: IsCtrl(sch.s, c) ==> FilledAround(sch.s, sch.slot, c)
  {
    sch.AttachEarly(rpo);
    assert forall m :: Attached(sch.s, m) ==> sch.s.nodes[m].inputs[0] in rpo;
    sch.FillEarly(rpo);
    forall c | IsCtrl(sch.s, c) ensures FilledAround(sch.s, sch.slot, c) {
      assert c in rpo;
    }
  }

  /** Global code motion from scratch. */
  method Schedule(s: Son, loopDepth: map<Id, nat>, rpo: seq<Id>, roots: seq<Id>,
                  ghost at: map<Id, Id>, ghost rank: map<Id, nat>, ghost top: nat)
    returns (sch: Scheduler)
    requires loopDepth.Keys == s.cfg.nodes.Keys && (forall c :: IsCtrl(s, c) <==> c in rpo)
    requires Reducible(s.cfg) && LegalAtControl(s, at) && Orderly(s, roots, rank, top)
    requires forall i :: 0 <= i < |roots| ==> roots[i] in s.nodes
    ensures fresh(sch) && sch.Valid() && sch.s == s && sch.late.Keys == s.nodes.Keys && Legal(s, sch.late)
    ensures AllSettled(s, loopDepth, sch.late, sch.antideps)
  {
    sch := new Scheduler(s, loopDepth);
    ScheduleEarly(sch, rpo);
    AllEarlyKnown(s, roots, rank, sch.slot, sch.late);
    ScheduleAll(sch, roots, at, rank, top);
  }
}
