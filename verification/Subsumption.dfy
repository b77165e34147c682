/**
  Replacing a node by another one: what redirecting its uses, deleting it and merging the users
  that thereby become equal to existing nodes does to the graph.
 */
module Subsumption {
  import opened GraphNodes
  import opened GraphEdits
  import opened Interning

  // ---- replacement, meaning and rank ----

  /** What has been replaced by what. */
  type Renaming = map<Id, Id>

  function Apply(sub: Renaming, x: Id): Id {
    if x in sub then sub[x] else x
  }

  function Compose(first: Renaming, second: Renaming): Renaming {
    map x | x in first.Keys + second.Keys :: Apply(second, Apply(first, x))
  }

  lemma ApplyCompose(first: Renaming, second: Renaming, x: Id)
    ensures Apply(Compose(first, second), x) == Apply(second, Apply(first, x))
  {
  }

  /** Any assignment of values to nodes that computes interned nodes from their inputs. */
  datatype Meaning = Meaning(value: Id -> int, op: (Spec, seq<nat>, seq<int>) -> int)

  ghost function Values(m: Meaning, ids: seq<Id>): seq<int> {
    seq(|ids|, k requires 0 <= k < |ids| => m.value(ids[k]))
  }

  ghost predicate Means(m: Meaning, c: Content, v: int) {
    v == m.op(c.spec, c.extra, Values(m, c.inputs))
  }

  ghost predicate Consistent(env: Env, nodes: Nodes, m: Meaning) {
    forall n {:trigger nodes[n]} :: n in nodes && Interned(env, nodes[n].content) ==>
      Means(m, nodes[n].content, m.value(n))
  }

  /** Ranks of nodes, and the meanings whose nodes must rank strictly apart from what they read. */
  datatype Ranks = Ranks(of: map<Id, nat>, strict: set<int>)

  function Rank(r: Ranks, n: Id): nat {
    if n in r.of then r.of[n] else 0
  }

  predicate Strict(r: Ranks, m: Meaning, n: Id) { m.value(n) in r.strict }

  /** x could be merged with y: both are interned and mean the same. */
  predicate Partners(env: Env, nodes: Nodes, m: Meaning, x: Id, y: Id) {
    && x in nodes && y in nodes && x != y && m.value(x) == m.value(y)
    && Interned(env, nodes[x].content) && Interned(env, nodes[y].content)
  }

  ghost predicate Mergeable(env: Env, nodes: Nodes, m: Meaning, x: Id) {
    exists y :: Partners(env, nodes, m, x, y)
  }

  /** Merging x with one partner leaves it another. */
  ghost predicate Crowded(env: Env, nodes: Nodes, m: Meaning, x: Id) {
    exists y, z :: y != z && Partners(env, nodes, m, x, y) && Partners(env, nodes, m, x, z)
  }

  predicate Under(r: Ranks, m: Meaning, x: Id, u: Id) {
    if Strict(r, m, x) || Strict(r, m, u) then Rank(r, x) < Rank(r, u) else Rank(r, x) <= Rank(r, u)
  }

  /** A mergeable node ranks no lower than the mergeable nodes it reads. */
  ghost predicate RankedAt(env: Env, nodes: Nodes, m: Meaning, rank: Ranks, u: Id)
    requires u in nodes
  {
    Mergeable(env, nodes, m, u) ==>
      forall k :: 0 <= k < |nodes[u].content.inputs| ==> BelowIn(env, nodes, m, rank, nodes[u].content.inputs[k], u)
  }

  ghost predicate BelowIn(env: Env, nodes: Nodes, m: Meaning, rank: Ranks, x: Id, u: Id) {
    Mergeable(env, nodes, m, x) ==> Under(rank, m, x, u)
  }

  /** Crowded nodes rank strictly, so they lie on no cycle of mergeable nodes. */
  ghost predicate Ranked(env: Env, nodes: Nodes, m: Meaning, rank: Ranks) {
    && (forall u {:trigger RankedAt(env, nodes, m, rank, u)} :: u in nodes ==> RankedAt(env, nodes, m, rank, u))
    && (forall x {:trigger Crowded(env, nodes, m, x)} :: Crowded(env, nodes, m, x) ==> Strict(rank, m, x))
  }

  /** Mergeable users of the target rank above it. */
  ghost predicate UsersRankAbove(env: Env, nodes: Nodes, m: Meaning, rank: Ranks, target: Id) {
    forall u :: Mergeable(env, nodes, m, u) && u in nodes && target in nodes[u].content.inputs ==>
      Under(rank, m, target, u)
  }

  ghost predicate Fewer(a: Nodes, b: Nodes) {
    forall n :: n in b ==> n in a && b[n].content.spec == a[n].content.spec
  }

  /** With fewer nodes, fewer can be merged. */
  lemma MergeableFades(env: Env, a: Nodes, b: Nodes, m: Meaning, x: Id)
    requires Fewer(a, b)
    ensures Mergeable(env, b, m, x) ==> Mergeable(env, a, m, x)
    ensures Crowded(env, b, m, x) ==> Crowded(env, a, m, x)
  {
    forall y | Partners(env, b, m, x, y) ensures Partners(env, a, m, x, y) {}
  }

  // ---- how a state may evolve while nodes above rank `bound` are merged ----

  ghost predicate Carried(a: Nodes, b: Nodes, sub: Renaming, n: Id)
    requires n in b
  {
    && n in a && Apply(sub, n) == n && Pins(b, n) >= Pins(a, n)
    && b[n].content.spec == a[n].content.spec && b[n].content.extra == a[n].content.extra
    && |b[n].content.inputs| == |a[n].content.inputs|
    && (forall k :: 0 <= k < |a[n].content.inputs| ==> b[n].content.inputs[k] == Apply(sub, a[n].content.inputs[k]))
  }

  /** At the bound, or above it where ranks are strict. */
  predicate AtLeast(r: Ranks, m: Meaning, bound: nat, n: Id) {
    if Strict(r, m, n) then bound < Rank(r, n) else bound <= Rank(r, n)
  }

  ghost predicate RankStep(r: Ranks, r': Ranks, bound: nat, m: Meaning, n: Id) {
    r'.strict == r.strict && (Rank(r', n) == Rank(r, n) || (AtLeast(r', m, bound, n) && Rank(r', n) <= Rank(r, n)))
  }

  ghost predicate Evolves(a: Nodes, b: Nodes, r: Ranks, r': Ranks, sub: Renaming, bound: nat, m: Meaning) {
    AllCarried(a, b, sub) && KeepsValues(sub, m) && RanksFall(r, r', bound, m)
  }

  ghost predicate AllCarried(a: Nodes, b: Nodes, sub: Renaming) {
    forall n {:trigger Carried(a, b, sub, n)} :: n in b ==> Carried(a, b, sub, n)
  }

  ghost predicate KeepsValues(sub: Renaming, m: Meaning) {
    forall x :: m.value(Apply(sub, x)) == m.value(x)
  }

  ghost predicate RanksFall(r: Ranks, r': Ranks, bound: nat, m: Meaning) {
    forall n {:trigger RankStep(r, r', bound, m, n)} :: RankStep(r, r', bound, m, n)
  }

  /** Not to be merged while nodes at the bound or above are: it has no partner, or ranks no higher than the bound. */
  ghost predicate Safe(env: Env, nodes: Nodes, m: Meaning, r: Ranks, bound: nat, n: Id) {
    Mergeable(env, nodes, m, n) ==> Strict(r, m, n) && Rank(r, n) <= bound
  }

  /** Pinned, and out of reach of merging. */
  ghost predicate Shielded(env: Env, nodes: Nodes, m: Meaning, r: Ranks, bound: nat, n: Id) {
    n in nodes && Pins(nodes, n) > 0 && Safe(env, nodes, m, r, bound, n)
  }

  ghost predicate Shields(env: Env, a: Nodes, b: Nodes, m: Meaning, r: Ranks, bound: nat, except: Id) {
    forall n :: n != except && Shielded(env, a, m, r, bound, n) ==> n in b
  }

  lemma CarriedTrans(a: Nodes, b: Nodes, c: Nodes, s: Renaming, t: Renaming, m: Meaning)
    requires AllCarried(a, b, s) && AllCarried(b, c, t) && KeepsValues(s, m) && KeepsValues(t, m)
    ensures AllCarried(a, c, Compose(s, t)) && KeepsValues(Compose(s, t), m)
  {
    forall n | n in c ensures Carried(a, c, Compose(s, t), n) {
      assert Carried(b, c, t, n) && Carried(a, b, s, n);
      ApplyCompose(s, t, n);
      forall k | 0 <= k < |a[n].content.inputs|
        ensures c[n].content.inputs[k] == Apply(Compose(s, t), a[n].content.inputs[k]) {
        ApplyCompose(s, t, a[n].content.inputs[k]);
      }
    }
    forall x ensures m.value(Apply(Compose(s, t), x)) == m.value(x) {
      ApplyCompose(s, t, x);
    }
  }

  lemma EvolvesTrans(a: Nodes, b: Nodes, c: Nodes, r: Ranks, r': Ranks, r'': Ranks, s: Renaming, t: Renaming,
                     bound: nat, m: Meaning)
    requires Evolves(a, b, r, r', s, bound, m) && Evolves(b, c, r', r'', t, bound, m)
    ensures Evolves(a, c, r, r'', Compose(s, t), bound, m)
  {
    CarriedTrans(a, b, c, s, t, m);
    forall n ensures RankStep(r, r'', bound, m, n) {
      assert RankStep(r, r', bound, m, n) && RankStep(r', r'', bound, m, n);
    }
  }

  lemma EvolvesFewer(a: Nodes, b: Nodes, r: Ranks, r': Ranks, sub: Renaming, bound: nat, m: Meaning)
    requires Evolves(a, b, r, r', sub, bound, m)
    ensures Fewer(a, b)
  {
    forall n | n in b ensures n in a && b[n].content.spec == a[n].content.spec {
      assert Carried(a, b, sub, n);
    }
  }

  lemma EvolvesFades(env: Env, a: Nodes, b: Nodes, r: Ranks, r': Ranks, sub: Renaming, bound: nat, m: Meaning, x: Id)
    requires Evolves(a, b, r, r', sub, bound, m)
    ensures Mergeable(env, b, m, x) ==> Mergeable(env, a, m, x)
  {
    EvolvesFewer(a, b, r, r', sub, bound, m);
    MergeableFades(env, a, b, m, x);
  }

  lemma ShieldsTrans(env: Env, a: Nodes, b: Nodes, c: Nodes, r: Ranks, r': Ranks, s: Renaming, bound: nat, m: Meaning,
                     except: Id)
    requires Evolves(a, b, r, r', s, bound, m) && Shields(env, a, b, m, r, bound, except)
    requires Shields(env, b, c, m, r', bound, except)
    ensures Shields(env, a, c, m, r, bound, except)
  {
    forall n | n != except && Shielded(env, a, m, r, bound, n) ensures n in c {
      assert Carried(a, b, s, n) && RankStep(r, r', bound, m, n);
      EvolvesFades(env, a, b, r, r', s, bound, m, n);
      assert Shielded(env, b, m, r', bound, n);
    }
  }

  lemma CarriedShrinks(a: Nodes, b: Nodes, sub: Renaming)
    requires AllCarried(a, b, sub)
    ensures b.Keys <= a.Keys
  {
    forall n | n in b ensures n in a {
      assert Carried(a, b, sub, n);
    }
  }

  // ---- redirecting the uses of the target ----

  function Swing(inputs: seq<Id>, target: Id, with: Id): seq<Id> {
    seq(|inputs|, k requires 0 <= k < |inputs| => if inputs[k] == target then with else inputs[k])
  }

  /** Every use of the target reads `with`, which takes over the records. */
  function Redirected(nodes: Nodes, target: Id, with: Id): Nodes
    requires with in nodes && target in nodes
  {
    map n | n in nodes ::
      Node(nodes[n].content.(inputs := Swing(nodes[n].content.inputs, target, with)),
           if n == with then nodes[with].outs + nodes[target].outs else if n == target then [] else nodes[n].outs)
  }

  lemma {:induction false} CountConcat(a: seq<Out>, b: seq<Out>, o: Out)
    ensures Count(a + b, o) == Count(a, o) + Count(b, o)
  {
    if b != [] {
      var last := |b| - 1;
      assert (a + b)[..|a + b| - 1] == a + b[..last];
      CountConcat(a, b[..last], o);
    } else {
      assert a + b == a;
    }
  }

  lemma RedirectedRecords(nodes: Nodes, target: Id, with: Id, n: Id, o: Out)
    requires with in nodes && target in nodes && with != target && n in nodes
    ensures Records(Redirected(nodes, target, with), n, o) ==
      if n == with then Records(nodes, with, o) + Records(nodes, target, o) else if n == target then 0
        else Records(nodes, n, o)
  {
    CountConcat(nodes[with].outs, nodes[target].outs, o);
  }

  lemma RedirectedReads(nodes: Nodes, target: Id, with: Id, n: Id, o: Out)
    requires with in nodes && target in nodes && with != target
    ensures Reads(Redirected(nodes, target, with), IDLE, o, n) <==>
      if n == with then Reads(nodes, IDLE, o, with) || Reads(nodes, IDLE, o, target)
      else n != target && Reads(nodes, IDLE, o, n)
  {
  }

  lemma RedirectKeepsDefUse(nodes: Nodes, target: Id, with: Id)
    requires DefUse(nodes, IDLE) && with in nodes && target in nodes && with != target
    ensures DefUse(Redirected(nodes, target, with), IDLE)
  {
    var next := Redirected(nodes, target, with);
    forall n | n in next ensures RecordsExact(next, IDLE, n) {
      RedirectRecordsExact(nodes, target, with, n);
    }
    forall u | u in next ensures InputsLive(next, IDLE, u) {
      forall k | 0 <= k < |next[u].content.inputs|
        ensures next[u].content.inputs[k] == 0 || next[u].content.inputs[k] in next {
        LiveInput(nodes, u, k);
      }
      InputsStayLive(next, u);
    }
  }

  lemma RedirectRecordsExact(nodes: Nodes, target: Id, with: Id, n: Id)
    requires DefUse(nodes, IDLE) && with in nodes && target in nodes && with != target && n in nodes
    ensures RecordsExact(Redirected(nodes, target, with), IDLE, n)
  {
    var next := Redirected(nodes, target, with);
    forall o | o != PIN ensures Records(next, n, o) == if Reads(next, IDLE, o, n) then 1 else 0 {
      RedirectedRecords(nodes, target, with, n, o);
      RedirectedReads(nodes, target, with, n, o);
      assert RecordsExact(nodes, IDLE, n) && RecordsExact(nodes, IDLE, with) && RecordsExact(nodes, IDLE, target);
    }
  }

  lemma RedirectKeepsMeaning(env: Env, nodes: Nodes, target: Id, with: Id, m: Meaning)
    requires with in nodes && target in nodes && with != target && m.value(with) == m.value(target)
    requires Consistent(env, nodes, m)
    ensures Consistent(env, Redirected(nodes, target, with), m)
  {
    var next := Redirected(nodes, target, with);
    forall n | n in next && Interned(env, next[n].content) ensures Means(m, next[n].content, m.value(n)) {
      assert Means(m, nodes[n].content, m.value(n));
      assert Values(m, next[n].content.inputs) == Values(m, nodes[n].content.inputs);
    }
  }

  lemma RedirectKeepsRanks(env: Env, nodes: Nodes, target: Id, with: Id, rank: Ranks, m: Meaning)
    requires with in nodes && target in nodes && with != target && m.value(with) == m.value(target)
    requires Ranked(env, nodes, m, rank) && UsersRankAbove(env, nodes, m, rank, target)
    requires Mergeable(env, nodes, m, with) ==> Rank(rank, with) <= Rank(rank, target)
    ensures Ranked(env, Redirected(nodes, target, with), m, rank)
  {
    var next := Redirected(nodes, target, with);
    forall u | u in next ensures RankedAt(env, next, m, rank, u) {
      RedirectRankedAt(env, nodes, target, with, rank, m, u);
    }
    CrowdedFades(env, nodes, next, m, rank);
  }

  lemma RedirectRankedAt(env: Env, nodes: Nodes, target: Id, with: Id, rank: Ranks, m: Meaning, u: Id)
    requires with in nodes && target in nodes && with != target && m.value(with) == m.value(target) && u in nodes
    requires RankedAt(env, nodes, m, rank, u) && UsersRankAbove(env, nodes, m, rank, target)
    requires Mergeable(env, nodes, m, with) ==> Rank(rank, with) <= Rank(rank, target)
    ensures RankedAt(env, Redirected(nodes, target, with), m, rank, u)
  {
    var next := Redirected(nodes, target, with);
    MergeableFades(env, nodes, next, m, u);
    if Mergeable(env, next, m, u) {
      forall k | 0 <= k < |next[u].content.inputs| ensures BelowIn(env, next, m, rank, next[u].content.inputs[k], u) {
        MergeableFades(env, nodes, next, m, next[u].content.inputs[k]);
        assert BelowIn(env, nodes, m, rank, nodes[u].content.inputs[k], u);
      }
    }
  }

  lemma CrowdedFades(env: Env, a: Nodes, b: Nodes, m: Meaning, rank: Ranks)
    requires Fewer(a, b) && forall x {:trigger Crowded(env, a, m, x)} :: Crowded(env, a, m, x) ==> Strict(rank, m, x)
    ensures forall x {:trigger Crowded(env, b, m, x)} :: Crowded(env, b, m, x) ==> Strict(rank, m, x)
  {
    forall x | Crowded(env, b, m, x) ensures Strict(rank, m, x) {
      MergeableFades(env, a, b, m, x);
    }
  }

  // ---- redirecting one use after the other ----

  function SwingDone(inputs: seq<Id>, n: Id, target: Id, with: Id, done: seq<Out>): seq<Id> {
    seq(|inputs|, k requires 0 <= k < |inputs| => if inputs[k] == target && Out(n, k) in done then with else inputs[k])
  }

  /** The records have moved; the uses in `done` read `with` already. */
  function PartRedirected(nodes: Nodes, target: Id, with: Id, done: seq<Out>): Nodes
    requires with in nodes && target in nodes
  {
    map n | n in nodes ::
      Node(nodes[n].content.(inputs := SwingDone(nodes[n].content.inputs, n, target, with, done)),
           if n == with then nodes[with].outs + nodes[target].outs else if n == target then [] else nodes[n].outs)
  }

  lemma RedirectStarts(nodes: Nodes, target: Id, with: Id)
    requires with in nodes && target in nodes
    ensures var start := PartRedirected(nodes, target, with, []);
      start.Keys == nodes.Keys && forall n :: n in nodes ==> start[n].content == nodes[n].content
  {
    forall n | n in nodes ensures SwingDone(nodes[n].content.inputs, n, target, with, []) == nodes[n].content.inputs {}
  }

  lemma RedirectSkipsPin(nodes: Nodes, target: Id, with: Id, done: seq<Out>)
    requires with in nodes && target in nodes && 0 !in nodes
    ensures PartRedirected(nodes, target, with, done + [PIN]) == PartRedirected(nodes, target, with, done)
  {
    forall n | n in nodes
      ensures SwingDone(nodes[n].content.inputs, n, target, with, done + [PIN]) ==
        SwingDone(nodes[n].content.inputs, n, target, with, done)
    {
    }
  }

  lemma RedirectOne(nodes: Nodes, target: Id, with: Id, done: seq<Out>, o: Out)
    requires with in nodes && target in nodes && Reads(nodes, IDLE, o, target)
    ensures var now := PartRedirected(nodes, target, with, done);
      && o.id in now && o.idx < |now[o.id].content.inputs|
      && var c := now[o.id].content;
      PartRedirected(nodes, target, with, done + [o]) == SetContent(now, o.id, c.(inputs := c.inputs[o.idx := with]))
  {
    var now := PartRedirected(nodes, target, with, done);
    forall n | n in nodes && n != o.id
      ensures SwingDone(nodes[n].content.inputs, n, target, with, done + [o]) ==
        SwingDone(nodes[n].content.inputs, n, target, with, done)
    {
    }
    assert SwingDone(nodes[o.id].content.inputs, o.id, target, with, done + [o]) ==
      now[o.id].content.inputs[o.idx := with];
  }

  lemma RedirectEnds(nodes: Nodes, target: Id, with: Id)
    requires DefUse(nodes, IDLE) && with in nodes && target in nodes
    ensures PartRedirected(nodes, target, with, nodes[target].outs) == Redirected(nodes, target, with)
  {
    forall n | n in nodes
      ensures SwingDone(nodes[n].content.inputs, n, target, with, nodes[target].outs) ==
        Swing(nodes[n].content.inputs, target, with)
    {
      forall k | 0 <= k < |nodes[n].content.inputs| && nodes[n].content.inputs[k] == target
        ensures Out(n, k) in nodes[target].outs {
        LiveInput(nodes, n, k);
      }
    }
  }

  function UserIds(outs: seq<Out>): set<Id> {
    set o | o in outs :: o.id
  }

  lemma UserIdsLast(outs: seq<Out>, i: nat)
    requires i < |outs|
    ensures UserIds(outs[..i + 1]) == UserIds(outs[..i]) + {outs[i].id}
  {
    assert outs[..i + 1] == outs[..i] + [outs[i]];
  }

  lemma RecordIsUse(nodes: Nodes, n: Id, o: Out)
    requires DefUse(nodes, IDLE) && n in nodes && o in nodes[n].outs && o != PIN
    ensures Reads(nodes, IDLE, o, n)
  {
    assert RecordsExact(nodes, IDLE, n) && Records(nodes, n, o) > 0;
  }

  // ---- what a replacement may make go ----

  /** The merged nodes, and the nodes that took the place of others but are gone themselves. */
  ghost predicate HoldsSeeds(after: Nodes, sub: Renaming, s: set<Id>) {
    forall x :: x in sub ==> x in s && (sub[x] !in after ==> sub[x] in s)
  }

  ghost predicate LostWithin(before: Nodes, after: Nodes, s: set<Id>) {
    forall n :: n in before && n !in after ==> n in s
  }

  /** Merged nodes are gone, in favour of nodes that were not merged; no other pinned node is gone; and whatever else
      is belongs to every set that holds those seeds and is closed under losing the last use. */
  ghost predicate OnlyLost(before: Nodes, after: Nodes, sub: Renaming) {
    && (forall x :: x in sub ==> x in before && x !in after && sub[x] in before && sub[x] !in sub)
    && (forall n :: n in before && n !in sub && Pins(before, n) > 0 ==> n in after)
    && (forall s: set<Id> {:trigger ClosedUnderLastUse(before, s)} ::
          ClosedUnderLastUse(before, s) && HoldsSeeds(after, sub, s) ==> LostWithin(before, after, s))
  }

  /** A survivor of the first step that has taken nobody's place is used as before, but for users that are gone. */
  lemma UsedAsBefore(a: Nodes, b: Nodes, sub: Renaming, n: Id, o: Out)
    requires DefUse(a, IDLE) && DefUse(b, IDLE) && AllCarried(a, b, sub) && n in b && o != PIN
    requires n !in sub && forall x :: x in sub ==> sub[x] != n
    ensures o in Outs(b, n) ==> o in Outs(a, n)
    ensures o in Outs(a, n) && o.id in b ==> o in Outs(b, n)
  {
    assert Carried(a, b, sub, n);
    if o in Outs(b, n) {
      RecordIsUse(b, n, o);
      assert Carried(a, b, sub, o.id);
      assert Apply(sub, a[o.id].content.inputs[o.idx]) == n;
      LiveInput(a, o.id, o.idx);
    }
    if o in Outs(a, n) && o.id in b {
      RecordIsUse(a, n, o);
      assert Carried(a, b, sub, o.id);
      LiveInput(b, o.id, o.idx);
    }
  }

  /** A node that lives on after the first step and has lost its last use to s later belongs to s. */
  lemma LostLater(a: Nodes, b: Nodes, sub: Renaming, s: set<Id>, n: Id)
    requires DefUse(a, IDLE) && DefUse(b, IDLE) && AllCarried(a, b, sub) && n in b && n !in sub
    requires ClosedUnderLastUse(a, s) && LostWithin(a, b, s) && (forall x :: x in sub ==> sub[x] != n)
    requires Outs(b, n) != [] && PIN !in Outs(b, n) && forall o :: o in Outs(b, n) ==> o.id in s
    ensures n in s
  {
    assert Carried(a, b, sub, n);
    assert PIN in Outs(a, n) ==> Pins(b, n) > 0;
    forall o | o in Outs(a, n) ensures o.id in s {
      RecordIsUse(a, n, o);
      UsedAsBefore(a, b, sub, n, o);
    }
    var first := Outs(b, n)[0];
    assert first in Outs(b, n);
    UsedAsBefore(a, b, sub, n, first);
  }

  /** Who still reads a node keeps it alive. */
  lemma UsersLost(b: Nodes, c: Nodes, sub: Renaming, n: Id, o: Out)
    requires DefUse(b, IDLE) && DefUse(c, IDLE) && AllCarried(b, c, sub)
    requires n in b && n !in c && n !in sub && o in Outs(b, n) && o != PIN
    ensures o.id !in c
  {
    RecordIsUse(b, n, o);
    if o.id in c {
      assert Carried(b, c, sub, o.id);
      LiveInput(c, o.id, o.idx);
    }
  }

  lemma ClosedLater(a: Nodes, b: Nodes, c: Nodes, s: Renaming, t: Renaming, lost: set<Id>)
    requires DefUse(a, IDLE) && DefUse(b, IDLE) && DefUse(c, IDLE) && AllCarried(a, b, s) && AllCarried(b, c, t)
    requires OnlyLost(b, c, t) && LostWithin(a, b, lost) && (forall x :: x in s ==> x !in b)
    requires ClosedUnderLastUse(a, lost) && HoldsSeeds(c, Compose(s, t), lost)
    ensures ClosedUnderLastUse(b, lost + c.Keys)
  {
    forall n | n in b && Outs(b, n) != [] && (forall o :: o in Outs(b, n) ==> o.id in lost + c.Keys)
      ensures n in lost + c.Keys {
      if n !in c && n !in t {
        assert PIN in Outs(b, n) ==> Pins(b, n) > 0;
        forall o | o in Outs(b, n) ensures o.id in lost { UsersLost(b, c, t, n, o); }
        if x :| x in s && s[x] == n {
          assert Compose(s, t)[x] == n;
        } else {
          LostLater(a, b, s, lost, n);
        }
      }
    }
  }

  lemma SeedsSplit(b: Nodes, c: Nodes, s: Renaming, t: Renaming, lost: set<Id>)
    requires (forall x :: x in s ==> x !in b) && (forall y :: y in t ==> y in b) && c.Keys <= b.Keys
    requires HoldsSeeds(c, Compose(s, t), lost)
    ensures HoldsSeeds(b, s, lost) && HoldsSeeds(c, t, lost + c.Keys)
  {
    var sub := Compose(s, t);
    forall x | x in s ensures x in lost && (s[x] !in b ==> s[x] in lost) {
      assert x in sub && sub[x] == Apply(t, s[x]);
    }
    forall y | y in t ensures y in lost && (t[y] !in c ==> t[y] in lost) {
      assert y in sub && sub[y] == t[y];
    }
  }

  lemma LostTrans(a: Nodes, b: Nodes, c: Nodes, s: Renaming, t: Renaming, lost: set<Id>)
    requires DefUse(a, IDLE) && DefUse(b, IDLE) && DefUse(c, IDLE) && AllCarried(a, b, s) && AllCarried(b, c, t)
    requires OnlyLost(a, b, s) && OnlyLost(b, c, t) && c.Keys <= b.Keys
    requires ClosedUnderLastUse(a, lost) && HoldsSeeds(c, Compose(s, t), lost)
    ensures LostWithin(a, c, lost)
  {
    SeedsSplit(b, c, s, t, lost);
    ClosedLater(a, b, c, s, t, lost);
    assert LostWithin(b, c, lost + c.Keys);
  }

  lemma KeysTrans(a: Nodes, b: Nodes, s: Renaming, t: Renaming)
    requires forall x :: x in s ==> x in a && x !in b && s[x] in a && s[x] !in s
    requires (forall x :: x in t ==> x in b && t[x] in b && t[x] !in t) && forall n :: n in b ==> n in a
    ensures var sub := Compose(s, t); forall x :: x in sub ==> x in a && sub[x] in a && sub[x] !in sub
  {
    var sub := Compose(s, t);
    forall x | x in sub ensures x in a && sub[x] in a && sub[x] !in sub {
      ApplyCompose(s, t, x);
    }
  }

  lemma OnlyLostTrans(a: Nodes, b: Nodes, c: Nodes, s: Renaming, t: Renaming)
    requires DefUse(a, IDLE) && DefUse(b, IDLE) && DefUse(c, IDLE) && AllCarried(a, b, s) && AllCarried(b, c, t)
    requires OnlyLost(a, b, s) && OnlyLost(b, c, t)
    ensures OnlyLost(a, c, Compose(s, t))
  {
    forall n | n in c ensures n in b {
      assert Carried(b, c, t, n);
    }
    forall n | n in b ensures n in a && Pins(b, n) >= Pins(a, n) {
      assert Carried(a, b, s, n);
    }
    KeysTrans(a, b, s, t);
    forall lost: set<Id> | ClosedUnderLastUse(a, lost) && HoldsSeeds(c, Compose(s, t), lost)
      ensures LostWithin(a, c, lost) {
      LostTrans(a, b, c, s, t, lost);
    }
  }

  // ---- what is merged ----

  /** Interned nodes of the same kind whose inputs are the same up to merging. */
  ghost predicate Alike(env: Env, nodes: Nodes, sub: Renaming, x: Id, y: Id) {
    && x in nodes && y in nodes && Interned(env, nodes[x].content)
    && nodes[x].content.spec == nodes[y].content.spec && nodes[x].content.extra == nodes[y].content.extra
    && |nodes[x].content.inputs| == |nodes[y].content.inputs|
    && (forall k :: 0 <= k < |nodes[x].content.inputs| ==>
          Apply(sub, nodes[x].content.inputs[k]) == Apply(sub, nodes[y].content.inputs[k]))
  }

  /** But for the target, nodes are merged into nodes they had become equal to. */
  ghost predicate Merged(env: Env, nodes: Nodes, sub: Renaming, target: Id) {
    forall x :: x in sub && x != target ==> Alike(env, nodes, sub, x, sub[x])
  }

  lemma AlikeStays(env: Env, nodes: Nodes, s: Renaming, t: Renaming, x: Id, y: Id)
    requires Alike(env, nodes, s, x, y)
    ensures Alike(env, nodes, Compose(s, t), x, y)
  {
    forall k | 0 <= k < |nodes[x].content.inputs|
      ensures Apply(Compose(s, t), nodes[x].content.inputs[k]) == Apply(Compose(s, t), nodes[y].content.inputs[k]) {
      ApplyCompose(s, t, nodes[x].content.inputs[k]);
      ApplyCompose(s, t, nodes[y].content.inputs[k]);
    }
  }

  /** What is alike after the first step was so before, up to both. */
  lemma AlikeBefore(env: Env, a: Nodes, b: Nodes, s: Renaming, t: Renaming, x: Id, y: Id)
    requires AllCarried(a, b, s) && Alike(env, b, t, x, y)
    ensures Alike(env, a, Compose(s, t), x, y)
  {
    assert Carried(a, b, s, x) && Carried(a, b, s, y);
    forall k | 0 <= k < |a[x].content.inputs|
      ensures Apply(Compose(s, t), a[x].content.inputs[k]) == Apply(Compose(s, t), a[y].content.inputs[k]) {
      ApplyCompose(s, t, a[x].content.inputs[k]);
      ApplyCompose(s, t, a[y].content.inputs[k]);
      assert b[x].content.inputs[k] == Apply(s, a[x].content.inputs[k]);
      assert b[y].content.inputs[k] == Apply(s, a[y].content.inputs[k]);
    }
  }

  /** A nested replacement of u by its equal e. */
  lemma MergedTrans(env: Env, a: Nodes, b: Nodes, s: Renaming, t: Renaming, target: Id, u: Id, e: Id)
    requires AllCarried(a, b, s) && Merged(env, a, s, target) && Merged(env, b, t, u)
    requires u in b && e in b && b[u].content == b[e].content && Interned(env, b[u].content) && Apply(t, u) == e
    ensures Merged(env, a, Compose(s, t), target)
  {
    var sub := Compose(s, t);
    forall y | y in t ensures Alike(env, a, sub, y, t[y]) {
      if y == u { assert Alike(env, b, t, u, e); }
      AlikeBefore(env, a, b, s, t, y, t[y]);
    }
    forall x | x in sub && x != target ensures Alike(env, a, sub, x, sub[x]) {
      ApplyCompose(s, t, x);
      if x in s { AlikeStays(env, a, s, t, x, s[x]); }
    }
  }

  // ---- survivors, without regard to which nodes were merged ----

  /** Another node has the same value. */
  ghost predicate Shares(nodes: Nodes, m: Meaning, n: Id) {
    exists y :: y in nodes && y != n && m.value(y) == m.value(n)
  }

  /** A pinned node stays if no other shares its value, and what goes lies in every set that holds the nodes sharing
      values and is closed under losing the last use. */
  ghost predicate Bounded(before: Nodes, after: Nodes, m: Meaning) {
    && (forall n :: n in before && Pins(before, n) > 0 && !Shares(before, m, n) ==> n in after)
    && (forall s: set<Id> {:trigger ClosedUnderLastUse(before, s)} ::
          ClosedUnderLastUse(before, s) && HoldsShared(before, m, s) ==> LostWithin(before, after, s))
  }

  ghost predicate HoldsShared(nodes: Nodes, m: Meaning, s: set<Id>) {
    forall n {:trigger Shares(nodes, m, n)} :: n in nodes && Shares(nodes, m, n) ==> n in s
  }

  lemma OnlyLostIsBounded(before: Nodes, after: Nodes, sub: Renaming, m: Meaning)
    requires OnlyLost(before, after, sub) && forall x :: m.value(Apply(sub, x)) == m.value(x)
    ensures Bounded(before, after, m)
  {
    forall x | x in sub ensures Shares(before, m, x) && Shares(before, m, sub[x]) {
      assert m.value(Apply(sub, x)) == m.value(x) && sub[x] != x;
    }
    forall s: set<Id> | ClosedUnderLastUse(before, s) && HoldsShared(before, m, s)
      ensures LostWithin(before, after, s) {
      forall x | x in sub ensures x in s && sub[x] in s {
        assert Shares(before, m, x) && Shares(before, m, sub[x]);
      }
      assert HoldsSeeds(after, sub, s);
    }
  }

  // ---- the state in the course of a replacement ----

  /** From the nodes and table at the start the graph has come to this: invariant, meaning, what nodes hold now,
      entries, and what has been merged and lost. */
  ghost predicate Went(env: Env, start: Nodes, listed: seq<Entry>, nodes: Nodes, table: seq<Entry>, pending: set<Id>,
                       sub: Renaming, m: Meaning, target: Id) {
    && DefUse(nodes, IDLE) && TableOk(env, nodes, table, Slack(pending, {})) && Consistent(env, nodes, m)
    && AllCarried(start, nodes, sub) && KeepsValues(sub, m) && EntriesFrom(start, listed, nodes, table)
    && OnlyLost(start, nodes, sub) && Merged(env, start, sub, target)
  }

  /** Where there are ranks, they have stayed in order, and nodes out of reach of merging are still there. */
  ghost predicate Climbed(env: Env, start: Nodes, nodes: Nodes, r: Ranks, r': Ranks, bound: nat, m: Meaning,
                          except: Id) {
    Ranked(env, nodes, m, r') && RanksFall(r, r', bound, m) && Shields(env, start, nodes, m, r, bound, except)
  }

  /** Entries are old ones or belong to live nodes; none outlives its node unless one did at the start. */
  ghost predicate EntriesFrom(start: Nodes, listed: seq<Entry>, nodes: Nodes, table: seq<Entry>) {
    && (forall e :: e in table ==> e in listed || e.id in start)
    && (AllLive(start, listed) ==> AllLive(nodes, table))
  }

  lemma PinnedSurvives(before: Nodes, after: Nodes, id: Id, order: seq<Id>, n: Id)
    requires id in before && Cascaded(before, after, id, order) && 0 !in before && n in before && Pins(before, n) > 0
    ensures n in after && Pins(after, n) == Pins(before, n)
  {
    assert PIN in Outs(before, n);
    assert 0 !in order;
    forall j | 0 <= j < |order| ensures order[j] != n {}
    assert SurvivesPruning(before, after, order, n);
  }

  lemma PinsSurvive(before: Nodes, after: Nodes, id: Id, order: seq<Id>, n: Id)
    requires id in before && Cascaded(before, after, id, order) && 0 !in before && n in after
    ensures Pins(after, n) == Pins(before, n)
  {
    assert SurvivesPruning(before, after, order, n) && 0 !in order;
  }

  /** Meaning and rank speak about contents only, so they survive deletion. */
  lemma FewerNodesStayRanked(env: Env, before: Nodes, after: Nodes, rank: Ranks, m: Meaning)
    requires Ranked(env, before, m, rank)
    requires after.Keys <= before.Keys && forall n :: n in after ==> after[n].content == before[n].content
    ensures Ranked(env, after, m, rank)
  {
    forall u | u in after ensures RankedAt(env, after, m, rank, u) {
      assert RankedAt(env, before, m, rank, u);
      MergeableFades(env, before, after, m, u);
      if Mergeable(env, after, m, u) {
        forall k | 0 <= k < |after[u].content.inputs|
          ensures BelowIn(env, after, m, rank, after[u].content.inputs[k], u) {
          MergeableFades(env, before, after, m, after[u].content.inputs[k]);
          assert BelowIn(env, before, m, rank, before[u].content.inputs[k], u);
        }
      }
    }
    CrowdedFades(env, before, after, m, rank);
  }

  // ---- first: the target goes ----

  function Taken(nodes: Nodes, target: Id, with: Id): Nodes
    requires with in nodes && target in nodes
  {
    AddRecord(Redirected(nodes, target, with), with, PIN)
  }

  lemma TakenPins(nodes: Nodes, target: Id, with: Id, n: Id)
    requires with in nodes && target in nodes && with != target && n in nodes && n != target
    ensures Pins(Taken(nodes, target, with), n) >= Pins(nodes, n) + if n == with then 1 else 0
  {
    RedirectedRecords(nodes, target, with, n, PIN);
    AddRecordCounts(Redirected(nodes, target, with), with, PIN, n, PIN);
  }

  /** x has a partner besides the target. */
  ghost predicate HasOther(env: Env, nodes: Nodes, m: Meaning, x: Id, target: Id) {
    exists y :: y != target && Partners(env, nodes, m, x, y)
  }

  /** Where a replacement begins. */
  ghost predicate Begun(env: Env, nodes: Nodes, with: Id, target: Id, m: Meaning) {
    && DefUse(nodes, IDLE) && Consistent(env, nodes, m) && with in nodes && target in nodes && with != target
    && m.value(with) == m.value(target)
  }

  /** What a replacement demands for not coming round: equal meaning, users above, and if the replacement itself could
      still be merged once the target is gone, that it ranks strictly. */
  ghost predicate Replaceable(env: Env, nodes: Nodes, with: Id, target: Id, rank: Ranks, m: Meaning) {
    && with in nodes && target in nodes && with != target && m.value(with) == m.value(target)
    && UsersRankAbove(env, nodes, m, rank, target)
    && (Mergeable(env, nodes, m, with) ==> Rank(rank, with) <= Rank(rank, target))
    && (HasOther(env, nodes, m, with, target) ==> Strict(rank, m, with))
  }

  lemma TargetGoneStaysGood(env: Env, start: Nodes, nodes: Nodes, with: Id, target: Id, order: seq<Id>, m: Meaning)
    requires DefUse(start, IDLE) && Consistent(env, start, m) && with in start && target in start && with != target
    requires m.value(with) == m.value(target)
    requires target in Taken(start, target, with) && Cascaded(Taken(start, target, with), nodes, target, order)
    ensures DefUse(nodes, IDLE) && Consistent(env, nodes, m)
  {
    var taken := Taken(start, target, with);
    RedirectKeepsDefUse(start, target, with);
    RedirectKeepsMeaning(env, start, target, with, m);
    PinKeepsDefUse(Redirected(start, target, with), IDLE, with);
    CascadeKeepsDefUse(taken, nodes, target, order, IDLE);
    CascadeShrinks(taken, nodes, target, order);
    AddRecordContents(Redirected(start, target, with), with, PIN);
  }

  lemma TargetGoneCarries(start: Nodes, nodes: Nodes, with: Id, target: Id, order: seq<Id>, n: Id)
    requires 0 !in start && with in start && target in start && with != target
    requires target in Taken(start, target, with) && Cascaded(Taken(start, target, with), nodes, target, order)
    ensures target !in nodes && with in nodes && Pins(nodes, with) > Pins(start, with)
    ensures n in nodes ==> Carried(start, nodes, map[target := with], n)
    ensures n in start && n != target && Pins(start, n) > 0 ==> n in nodes
  {
    var taken := Taken(start, target, with);
    AddRecordContents(Redirected(start, target, with), with, PIN);
    CascadeShrinks(taken, nodes, target, order);
    TakenPins(start, target, with, with);
    PinnedSurvives(taken, nodes, target, order, with);
    assert Redirected(start, target, with)[target].outs == [] && taken[target].outs == [] && order[0] in order;
    if n in nodes {
      TakenPins(start, target, with, n);
      PinsSurvive(taken, nodes, target, order, n);
    }
    if n in start && n != target && Pins(start, n) > 0 {
      TakenPins(start, target, with, n);
      PinnedSurvives(taken, nodes, target, order, n);
    }
  }

  /** Of the redirected graph, too, only what the start loses can go. */
  lemma TakenClosed(start: Nodes, nodes: Nodes, with: Id, target: Id, lost: set<Id>)
    requires DefUse(start, IDLE) && DefUse(nodes, IDLE) && with in start
    requires target in start && with != target && with in nodes
    requires AllCarried(start, nodes, map[target := with])
    requires forall n :: n in start && n != target && Pins(start, n) > 0 ==> n in nodes
    requires ClosedUnderLastUse(start, lost) && target in lost
    ensures ClosedUnderLastUse(Taken(start, target, with), lost + nodes.Keys)
  {
    var taken := Taken(start, target, with);
    AddRecordContents(Redirected(start, target, with), with, PIN);
    forall n | n in taken && Outs(taken, n) != [] && (forall o :: o in Outs(taken, n) ==> o.id in lost + nodes.Keys)
      ensures n in lost + nodes.Keys {
      if n != target && n !in nodes {
        assert Outs(taken, n) == Outs(start, n);
        assert PIN in Outs(start, n) ==> Pins(start, n) > 0;
        forall o | o in Outs(start, n) ensures o.id in lost {
          UsersLost(start, nodes, map[target := with], n, o);
        }
      }
    }
  }

  lemma TargetLost(start: Nodes, nodes: Nodes, with: Id, target: Id, order: seq<Id>)
    requires DefUse(start, IDLE) && DefUse(nodes, IDLE) && with in start && target in start && with != target
    requires target in Taken(start, target, with) && Cascaded(Taken(start, target, with), nodes, target, order)
    ensures OnlyLost(start, nodes, map[target := with])
  {
    forall n ensures n in nodes ==> Carried(start, nodes, map[target := with], n)
      ensures n in start && n != target && Pins(start, n) > 0 ==> n in nodes {
      TargetGoneCarries(start, nodes, with, target, order, n);
    }
    TargetGoneCarries(start, nodes, with, target, order, with);
    var sub := map[target := with];
    assert forall x :: x in sub ==> x == target;
    forall lost: set<Id> | ClosedUnderLastUse(start, lost) && HoldsSeeds(nodes, sub, lost)
      ensures LostWithin(start, nodes, lost) {
      assert target in sub && target in lost;
      TakenClosed(start, nodes, with, target, lost);
      TargetLostWithin(start, nodes, with, target, order, lost);
    }
  }

  lemma TargetLostWithin(start: Nodes, nodes: Nodes, with: Id, target: Id, order: seq<Id>, lost: set<Id>)
    requires with in start && target in start && target in Taken(start, target, with) && target in lost
    requires Cascaded(Taken(start, target, with), nodes, target, order)
    requires ClosedUnderLastUse(Taken(start, target, with), lost + nodes.Keys)
    ensures LostWithin(start, nodes, lost)
  {
    AddRecordContents(Redirected(start, target, with), with, PIN);
    CascadeWithin(Taken(start, target, with), nodes, target, order, lost + nodes.Keys);
  }

  /** What a cascade takes away lies in any closed set that holds the first node if that goes. */
  lemma CascadeWithin(before: Nodes, after: Nodes, id: Id, order: seq<Id>, doomed: set<Id>)
    requires id in before && Cascaded(before, after, id, order) && ClosedUnderLastUse(before, doomed)
    requires id !in after ==> id in doomed
    ensures LostWithin(before, after, doomed)
  {
    forall n | n in before && n !in after ensures n in doomed {
      var j :| 0 <= j < |order| && order[j] == n;
      assert order[0] in order;
      CascadeIsLeast(before, order, doomed, j);
    }
  }

  /** Removing the target. */
  lemma TargetWent(env: Env, start: Nodes, listed: seq<Entry>, nodes: Nodes, table: seq<Entry>, users: set<Id>,
                   with: Id, target: Id, order: seq<Id>, m: Meaning)
    requires Begun(env, start, with, target, m)
    requires target in Taken(start, target, with) && Cascaded(Taken(start, target, with), nodes, target, order)
    requires TableOk(env, nodes, table, Slack(users, {})) && EntriesFrom(start, listed, nodes, table)
    ensures Went(env, start, listed, nodes, table, users, map[target := with], m, target)
    ensures target !in nodes && with in nodes && Pins(nodes, with) > Pins(start, with) && nodes.Keys < start.Keys
  {
    TargetGoneStaysGood(env, start, nodes, with, target, order, m);
    forall n ensures n in nodes ==> Carried(start, nodes, map[target := with], n) {
      TargetGoneCarries(start, nodes, with, target, order, n);
    }
    TargetGoneCarries(start, nodes, with, target, order, with);
    TargetLost(start, nodes, with, target, order);
    CarriedShrinks(start, nodes, map[target := with]);
    assert target in start.Keys;
  }

  lemma TargetClimbed(env: Env, start: Nodes, nodes: Nodes, with: Id, target: Id, order: seq<Id>, rank: Ranks,
                      m: Meaning)
    requires DefUse(start, IDLE) && Ranked(env, start, m, rank) && Replaceable(env, start, with, target, rank, m)
    requires target in Taken(start, target, with) && Cascaded(Taken(start, target, with), nodes, target, order)
    ensures Climbed(env, start, nodes, rank, rank, Rank(rank, target), m, target)
  {
    var redirected := Redirected(start, target, with);
    RedirectKeepsRanks(env, start, target, with, rank, m);
    CascadeShrinks(Taken(start, target, with), nodes, target, order);
    AddRecordContents(redirected, with, PIN);
    FewerNodesStayRanked(env, redirected, nodes, rank, m);
    forall n | n != target && Shielded(env, start, m, rank, Rank(rank, target), n) ensures n in nodes {
      TargetGoneCarries(start, nodes, with, target, order, n);
    }
  }

  /** The users to look at again: those whose record `with` still holds. */
  ghost predicate Kept(kept: seq<Out>, outs: seq<Out>, taken: seq<Out>) {
    forall o :: o in kept <==> o in outs && o != PIN && o in taken
  }

  /** A user of the target that is still alive is among them. */
  lemma LiveUsersKept(start: Nodes, nodes: Nodes, with: Id, target: Id, kept: seq<Out>, u: Id)
    requires DefUse(start, IDLE) && DefUse(nodes, IDLE) && target in start && with in nodes
    requires AllCarried(start, nodes, map[target := with])
    requires Kept(kept, start[target].outs, nodes[with].outs)
    requires u in UserIds(start[target].outs) && u in nodes
    ensures u in UserIds(kept)
  {
    var o :| o in start[target].outs && o.id == u;
    RecordIsUse(start, target, o);
    assert Carried(start, nodes, map[target := with], u);
    assert nodes[u].content.inputs[o.idx] == with;
    LiveInput(nodes, u, o.idx);
    assert o in nodes[with].outs;
  }

  lemma OnlyLivePending(env: Env, nodes: Nodes, table: seq<Entry>, pending: set<Id>, fewer: set<Id>)
    requires TableOk(env, nodes, table, Slack(pending, {})) && forall u :: u in pending && u in nodes ==> u in fewer
    ensures TableOk(env, nodes, table, Slack(fewer, {}))
  {
  }

  // ---- then: each former user goes back to the table, or is merged into its equal ----

  function Lowered(rank: Ranks, r: Id, u: Id): Ranks {
    rank.(of := rank.of[r := if Rank(rank, r) < Rank(rank, u) then Rank(rank, r) else Rank(rank, u)])
  }

  lemma EqualsMaybeReplaced(env: Env, nodes: Nodes, m: Meaning, u: Id, r: Id)
    requires DefUse(nodes, IDLE) && Consistent(env, nodes, m) && u in nodes && r in nodes && r != u
    requires nodes[r].content == nodes[u].content && Interned(env, nodes[u].content)
    ensures Begun(env, nodes, r, u, m)
  {
    assert Means(m, nodes[r].content, m.value(r)) && Means(m, nodes[u].content, m.value(u));
  }

  lemma EqualsAreReplaceable(env: Env, nodes: Nodes, rank: Ranks, m: Meaning, u: Id, r: Id)
    requires Consistent(env, nodes, m) && Ranked(env, nodes, m, rank) && u in nodes && r in nodes && r != u
    requires nodes[r].content == nodes[u].content && Interned(env, nodes[u].content)
    ensures Ranked(env, nodes, m, Lowered(rank, r, u))
    ensures Replaceable(env, nodes, r, u, Lowered(rank, r, u), m) && Mergeable(env, nodes, m, u)
  {
    var low := Lowered(rank, r, u);
    assert Means(m, nodes[r].content, m.value(r)) && Means(m, nodes[u].content, m.value(u));
    assert Partners(env, nodes, m, u, r) && Partners(env, nodes, m, r, u);
    forall n | n in nodes ensures RankedAt(env, nodes, m, low, n) {
      LoweredRankedAt(env, nodes, m, rank, u, r, n);
    }
    forall n | Mergeable(env, nodes, m, n) && n in nodes && u in nodes[n].content.inputs ensures Under(low, m, u, n) {
      assert RankedAt(env, nodes, m, low, n);
      var k :| 0 <= k < |nodes[n].content.inputs| && nodes[n].content.inputs[k] == u;
      assert BelowIn(env, nodes, m, low, nodes[n].content.inputs[k], n);
    }
    if HasOther(env, nodes, m, r, u) {
      assert Crowded(env, nodes, m, r);
    }
  }

  lemma LoweredRankedAt(env: Env, nodes: Nodes, m: Meaning, rank: Ranks, u: Id, r: Id, n: Id)
    requires Ranked(env, nodes, m, rank) && u in nodes && r in nodes && r != u && n in nodes && m.value(r) == m.value(u)
    requires nodes[r].content == nodes[u].content && Mergeable(env, nodes, m, u)
    ensures RankedAt(env, nodes, m, Lowered(rank, r, u), n)
  {
    var low := Lowered(rank, r, u);
    assert RankedAt(env, nodes, m, rank, n) && RankedAt(env, nodes, m, rank, u);
    if Mergeable(env, nodes, m, n) {
      forall k | 0 <= k < |nodes[n].content.inputs| ensures BelowIn(env, nodes, m, low, nodes[n].content.inputs[k], n) {
        assert BelowIn(env, nodes, m, rank, nodes[n].content.inputs[k], n);
        if n == r { assert BelowIn(env, nodes, m, rank, nodes[u].content.inputs[k], u); }
      }
    }
  }

  /** A former user that is alive still ranks above the target. */
  lemma UserAboveBound(env: Env, start: Nodes, nodes: Nodes, r: Ranks, r': Ranks, sub: Renaming, m: Meaning, target: Id,
                       o: Out)
    requires DefUse(start, IDLE) && target in start && UsersRankAbove(env, start, m, r, target)
    requires o in start[target].outs && o != PIN
    requires Evolves(start, nodes, r, r', sub, Rank(r, target), m) && Mergeable(env, nodes, m, o.id)
    ensures AtLeast(r', m, Rank(r, target), o.id)
  {
    RecordIsUse(start, target, o);
    assert Carried(start, nodes, sub, o.id) && RankStep(r, r', Rank(r, target), m, o.id);
    EvolvesFades(env, start, nodes, r, r', sub, Rank(r, target), m, o.id);
    assert target in start[o.id].content.inputs;
  }

  lemma EvolvesLowered(a: Nodes, b: Nodes, r: Ranks, r': Ranks, sub: Renaming, bound: nat, m: Meaning, e: Id, u: Id)
    requires Evolves(a, b, r, r', sub, bound, m) && AtLeast(r', m, bound, u) && m.value(e) == m.value(u)
    ensures Evolves(a, b, r, Lowered(r', e, u), sub, bound, m)
  {
    forall n ensures RankStep(r, Lowered(r', e, u), bound, m, n) {
      assert RankStep(r, r', bound, m, n);
    }
  }

  lemma EvolvesAbove(a: Nodes, b: Nodes, r: Ranks, r': Ranks, sub: Renaming, bound: nat, lower: nat, m: Meaning)
    requires Evolves(a, b, r, r', sub, bound, m) && lower <= bound
    ensures Evolves(a, b, r, r', sub, lower, m)
  {
    forall n ensures RankStep(r, r', lower, m, n) {
      assert RankStep(r, r', bound, m, n);
    }
  }

  /** A merge of u into its equal e, nested in the replacement of the target: how the graph evolves. */
  lemma EvolvesNested(env: Env, start: Nodes, mid: Nodes, nodes: Nodes, r: Ranks, r': Ranks, r'': Ranks, sub: Renaming,
                      inner: Renaming, bound: nat, m: Meaning, target: Id, u: Id, e: Id)
    requires Evolves(start, mid, r, r', sub, bound, m) && Shields(env, start, mid, m, r, bound, target)
    requires Mergeable(env, mid, m, u) && AtLeast(r', m, bound, u) && u != e && m.value(e) == m.value(u)
    requires Evolves(mid, nodes, Lowered(r', e, u), r'', inner, Rank(r', u), m)
    requires Shields(env, mid, nodes, m, Lowered(r', e, u), Rank(r', u), u)
    ensures Evolves(start, nodes, r, r'', Compose(sub, inner), bound, m)
    ensures Shields(env, start, nodes, m, r, bound, target)
  {
    var low := Lowered(r', e, u);
    EvolvesLowered(start, mid, r, r', sub, bound, m, e, u);
    EvolvesAbove(mid, nodes, low, r'', inner, Rank(r', u), bound, m);
    EvolvesTrans(start, mid, nodes, r, low, r'', sub, inner, bound, m);
    ShieldsNested(env, mid, nodes, m, low, bound, Rank(r', u), target, u);
    ShieldsTrans(env, start, mid, nodes, r, low, sub, bound, m, target);
  }

  /** And what it merges and loses. */
  lemma LostNested(env: Env, start: Nodes, mid: Nodes, nodes: Nodes, sub: Renaming, inner: Renaming, target: Id, u: Id,
                   e: Id)
    requires DefUse(start, IDLE) && DefUse(mid, IDLE) && DefUse(nodes, IDLE)
    requires AllCarried(start, mid, sub) && AllCarried(mid, nodes, inner)
    requires OnlyLost(start, mid, sub) && OnlyLost(mid, nodes, inner)
    requires Merged(env, start, sub, target) && Merged(env, mid, inner, u)
    requires u in mid && e in mid && mid[u].content == mid[e].content && Interned(env, mid[u].content)
    requires Apply(inner, u) == e
    ensures OnlyLost(start, nodes, Compose(sub, inner)) && Merged(env, start, Compose(sub, inner), target)
  {
    OnlyLostTrans(start, mid, nodes, sub, inner);
    MergedTrans(env, start, mid, sub, inner, target, u, e);
  }

  lemma WentNested(env: Env, start: Nodes, listed: seq<Entry>, mid: Nodes, entries: seq<Entry>, nodes: Nodes,
                   table: seq<Entry>, pending: set<Id>, sub: Renaming, inner: Renaming, m: Meaning, target: Id, u: Id,
                   e: Id)
    requires DefUse(start, IDLE) && Went(env, start, listed, mid, entries, pending, sub, m, target)
    requires Went(env, mid, entries, nodes, table, pending, inner, m, u) && Apply(inner, u) == e
    requires u in mid && e in mid && mid[u].content == mid[e].content && Interned(env, mid[u].content)
    ensures Went(env, start, listed, nodes, table, pending, Compose(sub, inner), m, target)
  {
    CarriedTrans(start, mid, nodes, sub, inner, m);
    EntriesNested(start, listed, mid, entries, nodes, table, sub);
    LostNested(env, start, mid, nodes, sub, inner, target, u, e);
  }

  lemma ClimbedNested(env: Env, start: Nodes, mid: Nodes, nodes: Nodes, r: Ranks, r': Ranks, r'': Ranks, sub: Renaming,
                      inner: Renaming, bound: nat, m: Meaning, target: Id, u: Id, e: Id)
    requires AllCarried(start, mid, sub) && KeepsValues(sub, m)
    requires AllCarried(mid, nodes, inner) && KeepsValues(inner, m)
    requires Climbed(env, start, mid, r, r', bound, m, target)
    requires Mergeable(env, mid, m, u) && AtLeast(r', m, bound, u) && u != e && m.value(e) == m.value(u)
    requires Climbed(env, mid, nodes, Lowered(r', e, u), r'', Rank(r', u), m, u)
    ensures Climbed(env, start, nodes, r, r'', bound, m, target)
  {
    EvolvesNested(env, start, mid, nodes, r, r', r'', sub, inner, bound, m, target, u, e);
  }

  /** A pinned node that is gone after a nested replacement was merged by it. */
  lemma WithFollows(mid: Nodes, nodes: Nodes, sub: Renaming, inner: Renaming, with: Id, target: Id, pins: nat)
    requires AllCarried(mid, nodes, inner) && OnlyLost(mid, nodes, inner)
    requires if with in mid then Apply(sub, target) == with && Pins(mid, with) > pins else with in sub
    ensures var both := Compose(sub, inner);
      if with in nodes then Apply(both, target) == with && Pins(nodes, with) > pins else with in both
  {
    ApplyCompose(sub, inner, target);
    if with in nodes { assert Carried(mid, nodes, inner, with); }
  }

  lemma EntriesNested(start: Nodes, listed: seq<Entry>, mid: Nodes, entries: seq<Entry>, nodes: Nodes,
                      table: seq<Entry>, sub: Renaming)
    requires EntriesFrom(start, listed, mid, entries) && EntriesFrom(mid, entries, nodes, table)
    requires AllCarried(start, mid, sub)
    ensures EntriesFrom(start, listed, nodes, table)
  {
    forall e | e in table ensures e in listed || e.id in start {
      if e.id in mid { assert Carried(start, mid, sub, e.id); }
    }
  }

  lemma ShieldsNested(env: Env, a: Nodes, b: Nodes, m: Meaning, r: Ranks, bound: nat, inner: nat, except: Id, u: Id)
    requires Shields(env, a, b, m, r, inner, u) && bound <= inner && Mergeable(env, a, m, u) && AtLeast(r, m, bound, u)
    ensures Shields(env, a, b, m, r, bound, except)
  {
    forall n | n != except && Shielded(env, a, m, r, bound, n) ensures n in b {
      assert Shielded(env, a, m, r, inner, n);
    }
  }

  /** The replacement outlives every nested merge. */
  lemma WithSurvives(env: Env, mid: Nodes, nodes: Nodes, r: Ranks, r': Ranks, r'': Ranks, inner: Renaming,
                     bound: nat, m: Meaning, u: Id, e: Id, with: Id)
    requires with in mid && Pins(mid, with) > 0 && Safe(env, mid, m, r', bound, with)
    requires Mergeable(env, mid, m, u) && AtLeast(r', m, bound, u)
    requires Shields(env, mid, nodes, m, Lowered(r', e, u), Rank(r', u), u)
    requires Evolves(mid, nodes, Lowered(r', e, u), r'', inner, Rank(r', u), m)
    ensures with in nodes && Pins(nodes, with) >= Pins(mid, with) && Apply(inner, with) == with
  {
    assert Shielded(env, mid, m, Lowered(r', e, u), Rank(r', u), with);
    assert Carried(mid, nodes, inner, with);
  }

  /** Once the target is gone, the replacement is safe: it has no partner left, or it ranks strictly and no higher. */
  lemma WithStaysSafe(env: Env, start: Nodes, nodes: Nodes, with: Id, target: Id, r: Ranks, r': Ranks, sub: Renaming,
                      m: Meaning)
    requires Replaceable(env, start, with, target, r, m) && with in nodes && target !in nodes
    requires Evolves(start, nodes, r, r', sub, Rank(r, target), m)
    ensures Safe(env, nodes, m, r', Rank(r, target), with)
  {
    assert Carried(start, nodes, sub, with) && RankStep(r, r', Rank(r, target), m, with);
    EvolvesFewer(start, nodes, r, r', sub, Rank(r, target), m);
    if Mergeable(env, nodes, m, with) {
      var y :| Partners(env, nodes, m, with, y);
      assert Partners(env, start, m, with, y);
    }
  }

  // ---- last: the replacement is let go ----

  lemma WithReleasedKeeps(start: Nodes, mid: Nodes, nodes: Nodes, with: Id, died: seq<Id>, n: Id)
    requires 0 !in mid && with in mid && PIN in mid[with].outs && Pins(mid, with) > Pins(start, with)
    requires Cascaded(WithoutRecord(mid, with, PIN), nodes, with, died)
    requires n in mid && Pins(mid, n) >= Pins(start, n)
    ensures n in nodes ==> Pins(nodes, n) >= Pins(start, n) && nodes[n].content == mid[n].content
    ensures Pins(start, n) > 0 ==> n in nodes
  {
    var dropped := WithoutRecord(mid, with, PIN);
    CascadeShrinks(dropped, nodes, with, died);
    RecordsLessOne(mid, with, PIN, n, PIN);
    if n in nodes { PinsSurvive(dropped, nodes, with, died, n); }
    if Pins(start, n) > 0 { PinnedSurvives(dropped, nodes, with, died, n); }
  }

  /** Without the pin on the replacement, still only what the start loses can go. */
  lemma DroppedClosed(start: Nodes, mid: Nodes, nodes: Nodes, with: Id, sub: Renaming, lost: set<Id>, target: Id)
    requires DefUse(start, IDLE) && DefUse(mid, IDLE) && DefUse(nodes, IDLE) && AllCarried(start, mid, sub)
    requires with in mid && PIN in mid[with].outs && target in sub && sub[target] == with
    requires nodes.Keys <= mid.Keys && forall n :: n in nodes ==> nodes[n].content == mid[n].content
    requires forall n :: n in mid && n != with && Pins(mid, n) > 0 ==> n in nodes
    requires ClosedUnderLastUse(start, lost) && LostWithin(start, mid, lost) && HoldsSeeds(nodes, sub, lost)
    requires forall x :: x in sub ==> x !in mid
    ensures ClosedUnderLastUse(WithoutRecord(mid, with, PIN), lost + nodes.Keys)
  {
    var dropped := WithoutRecord(mid, with, PIN);
    forall n | n in dropped && Outs(dropped, n) != []
      && (forall o :: o in Outs(dropped, n) ==> o.id in lost + nodes.Keys)
      ensures n in lost + nodes.Keys {
      if n !in nodes && !(exists x :: x in sub && sub[x] == n) {
        assert n != with && Outs(dropped, n) == Outs(mid, n);
        assert PIN in Outs(mid, n) ==> Pins(mid, n) > 0;
        forall o | o in Outs(mid, n) ensures o.id in lost { ReaderLost(mid, nodes, n, o); }
        LostLater(start, mid, sub, lost, n);
      }
    }
  }

  lemma ReaderLost(mid: Nodes, nodes: Nodes, n: Id, o: Out)
    requires DefUse(mid, IDLE) && DefUse(nodes, IDLE) && n in mid && n !in nodes && o in Outs(mid, n) && o != PIN
    requires nodes.Keys <= mid.Keys && forall n :: n in nodes ==> nodes[n].content == mid[n].content
    ensures o.id !in nodes
  {
    RecordIsUse(mid, n, o);
    if o.id in nodes { LiveInput(nodes, o.id, o.idx); }
  }

  lemma ReplacementLost(start: Nodes, mid: Nodes, nodes: Nodes, with: Id, target: Id, sub: Renaming, died: seq<Id>)
    requires DefUse(start, IDLE) && DefUse(mid, IDLE) && DefUse(nodes, IDLE) && AllCarried(start, mid, sub)
    requires with in mid && PIN in mid[with].outs && Pins(mid, with) > Pins(start, with)
    requires target in sub && sub[target] == with
    requires Cascaded(WithoutRecord(mid, with, PIN), nodes, with, died) && OnlyLost(start, mid, sub)
    ensures OnlyLost(start, nodes, sub)
  {
    var dropped := WithoutRecord(mid, with, PIN);
    CascadeShrinks(dropped, nodes, with, died);
    forall n | n in mid && n != with && Pins(mid, n) > 0 ensures n in nodes {
      RecordsLessOne(mid, with, PIN, n, PIN);
      PinnedSurvives(dropped, nodes, with, died, n);
    }
    forall n | n in start && n !in sub && Pins(start, n) > 0 ensures n in nodes {
      assert Carried(start, mid, sub, n);
      WithReleasedKeeps(start, mid, nodes, with, died, n);
    }
    forall lost: set<Id> | ClosedUnderLastUse(start, lost) && HoldsSeeds(nodes, sub, lost)
      ensures LostWithin(start, nodes, lost) {
      assert HoldsSeeds(mid, sub, lost);
      DroppedClosed(start, mid, nodes, with, sub, lost, target);
      CascadeWithin(dropped, nodes, with, died, lost + nodes.Keys);
    }
  }

  lemma WithReleasedGood(env: Env, mid: Nodes, nodes: Nodes, m: Meaning, with: Id, died: seq<Id>)
    requires DefUse(mid, IDLE) && Consistent(env, mid, m)
    requires with in mid && PIN in mid[with].outs && Cascaded(WithoutRecord(mid, with, PIN), nodes, with, died)
    ensures DefUse(nodes, IDLE) && Consistent(env, nodes, m) && nodes.Keys <= mid.Keys
    ensures forall n :: n in nodes ==> nodes[n].content == mid[n].content
  {
    UnpinKeepsDefUse(mid, with);
    CascadeKeepsDefUse(WithoutRecord(mid, with, PIN), nodes, with, died, IDLE);
    CascadeShrinks(WithoutRecord(mid, with, PIN), nodes, with, died);
  }

  lemma WentReleased(env: Env, start: Nodes, listed: seq<Entry>, mid: Nodes, entries: seq<Entry>, nodes: Nodes,
                     table: seq<Entry>, pending: set<Id>, sub: Renaming, m: Meaning, target: Id, with: Id,
                     died: seq<Id>)
    requires DefUse(start, IDLE) && Went(env, start, listed, mid, entries, pending, sub, m, target)
    requires with in mid && PIN in mid[with].outs && Pins(mid, with) > Pins(start, with)
    requires Cascaded(WithoutRecord(mid, with, PIN), nodes, with, died)
    requires TableOk(env, nodes, table, Slack(pending, {})) && Purged(env, mid, nodes, entries, table, {})
    requires Apply(sub, target) == with && target !in mid
    ensures Went(env, start, listed, nodes, table, pending, sub, m, target)
  {
    WithReleasedGood(env, mid, nodes, m, with, died);
    forall n | n in nodes ensures Carried(start, nodes, sub, n) {
      assert Carried(start, mid, sub, n);
      WithReleasedKeeps(start, mid, nodes, with, died, n);
    }
    ReplacementLost(start, mid, nodes, with, target, sub, died);
    if AllLive(start, listed) { PurgedLive(env, mid, nodes, entries, table); }
  }

  lemma ClimbedReleased(env: Env, start: Nodes, mid: Nodes, nodes: Nodes, r: Ranks, r': Ranks, sub: Renaming,
                        bound: nat, m: Meaning, target: Id, with: Id, died: seq<Id>)
    requires 0 !in mid && AllCarried(start, mid, sub) && Climbed(env, start, mid, r, r', bound, m, target)
    requires with in mid && PIN in mid[with].outs && Pins(mid, with) > Pins(start, with)
    requires Cascaded(WithoutRecord(mid, with, PIN), nodes, with, died)
    ensures Climbed(env, start, nodes, r, r', bound, m, target)
  {
    CascadeShrinks(WithoutRecord(mid, with, PIN), nodes, with, died);
    FewerNodesStayRanked(env, mid, nodes, r', m);
    forall n | n != target && Shielded(env, start, m, r, bound, n) ensures n in nodes {
      assert Carried(start, mid, sub, n);
      WithReleasedKeeps(start, mid, nodes, with, died, n);
    }
  }

  // ---- when the ranks exist ----

  /** Each node of the path, except perhaps the last, is mergeable and reads the next one. */
  ghost predicate DependencePath(env: Env, nodes: Nodes, m: Meaning, p: seq<Id>) {
    && |p| > 0
    && forall i, j :: 0 <= i && j == i + 1 && j < |p| ==> LeadsTo(env, nodes, m, p[i], p[j])
  }

  ghost predicate LeadsTo(env: Env, nodes: Nodes, m: Meaning, a: Id, b: Id) {
    Mergeable(env, nodes, m, a) && b in Inputs(nodes, a)
  }

  /** From a, mergeable nodes lead down to b. */
  ghost predicate DependsOn(env: Env, nodes: Nodes, m: Meaning, a: Id, b: Id) {
    exists p: seq<Id> :: DependencePath(env, nodes, m, p) && p[0] == a && p[|p| - 1] == b
  }

  lemma DependsOnSelf(env: Env, nodes: Nodes, m: Meaning, a: Id)
    ensures DependsOn(env, nodes, m, a, a)
  {
    assert DependencePath(env, nodes, m, [a]);
  }

  lemma ReaderDependsToo(env: Env, nodes: Nodes, m: Meaning, u: Id, x: Id, b: Id)
    requires Mergeable(env, nodes, m, u) && x in Inputs(nodes, u) && DependsOn(env, nodes, m, x, b)
    ensures DependsOn(env, nodes, m, u, b)
  {
    var p: seq<Id> :| DependencePath(env, nodes, m, p) && p[0] == x && p[|p| - 1] == b;
    var q := [u] + p;
    assert q[|q| - 1] == b;
    forall i, j | 0 <= i && j == i + 1 && j < |q| ensures LeadsTo(env, nodes, m, q[i], q[j]) {
      if i > 0 { assert q[i] == p[i - 1] && q[j] == p[i]; } else { assert q[i] == u && q[j] == p[0]; }
    }
    assert DependencePath(env, nodes, m, q) && q[0] == u;
  }

  /** Merging could come round to the node while its place is taken: besides the partner it is merged with, it has
      another one. */
  ghost predicate Critical(env: Env, nodes: Nodes, m: Meaning, with: Id, target: Id, x: Id) {
    && Mergeable(env, nodes, m, x)
    && (Crowded(env, nodes, m, x) || (m.value(x) == m.value(with) && HasOther(env, nodes, m, with, target)))
  }

  /** x depends on itself. */
  ghost predicate OnCycle(env: Env, nodes: Nodes, m: Meaning, x: Id) {
    exists y :: y in Inputs(nodes, x) && DependsOn(env, nodes, m, y, x)
  }

  /** The replacement does not depend on the target, and no critical node depends on itself. */
  ghost predicate Separable(env: Env, nodes: Nodes, m: Meaning, with: Id, target: Id) {
    && !DependsOn(env, nodes, m, with, target)
    && forall x {:trigger Critical(env, nodes, m, with, target, x)} :: Critical(env, nodes, m, with, target, x) ==>
       !OnCycle(env, nodes, m, x)
  }

  /** The critical nodes below n. */
  ghost function CriticalBelow(env: Env, nodes: Nodes, m: Meaning, with: Id, target: Id, n: Id): set<Id> {
    set c | c in nodes && Critical(env, nodes, m, with, target, c) && DependsOn(env, nodes, m, n, c)
  }

  /** Twice the number of critical nodes below, and one more for a node that is not critical itself. */
  ghost function BaseRank(env: Env, nodes: Nodes, m: Meaning, with: Id, target: Id, n: Id): nat {
    2 * |CriticalBelow(env, nodes, m, with, target, n)| + if Critical(env, nodes, m, with, target, n) then 0 else 1
  }

  ghost predicate RanksBelow(env: Env, nodes: Nodes, m: Meaning, with: Id, target: Id, x: Id, u: Id) {
    var critical := Critical(env, nodes, m, with, target, x) || Critical(env, nodes, m, with, target, u);
    var a, b := BaseRank(env, nodes, m, with, target, x), BaseRank(env, nodes, m, with, target, u);
    if critical then a < b else a <= b
  }

  lemma ReaderRanksAbove(env: Env, nodes: Nodes, m: Meaning, with: Id, target: Id, u: Id, x: Id)
    requires Separable(env, nodes, m, with, target) && Mergeable(env, nodes, m, u) && x in Inputs(nodes, u)
    ensures RanksBelow(env, nodes, m, with, target, x, u)
  {
    var below, above := CriticalBelow(env, nodes, m, with, target, x), CriticalBelow(env, nodes, m, with, target, u);
    forall c | c in below ensures c in above {
      ReaderDependsToo(env, nodes, m, u, x, c);
    }
    CardinalityGrows(below, above);
    if Critical(env, nodes, m, with, target, u) {
      DependsOnSelf(env, nodes, m, u);
      assert u in above && u !in below;
      CardinalityGrows(below + {u}, above);
    }
  }

  lemma {:induction false} CardinalityGrows(a: set<Id>, b: set<Id>)
    requires a <= b
    ensures |a| <= |b|
  {
    if a != {} {
      var x :| x in a;
      CardinalityGrows(a - {x}, b - {x});
    }
  }

  /** Lifts the target and what depends on it above the replacement. */
  ghost function LiftedRank(env: Env, nodes: Nodes, m: Meaning, with: Id, target: Id, n: Id): nat {
    var base := BaseRank(env, nodes, m, with, target, n);
    var over := BaseRank(env, nodes, m, with, target, with);
    if n == target && !Mergeable(env, nodes, m, target) then over
    else if DependsOn(env, nodes, m, n, target) then base + over + 1
    else base
  }

  ghost function Lifted(env: Env, nodes: Nodes, m: Meaning, with: Id, target: Id): Ranks {
    Ranks(map n | n in nodes :: LiftedRank(env, nodes, m, with, target, n),
          set x | x in nodes && Critical(env, nodes, m, with, target, x) :: m.value(x))
  }

  /** Strictly ranked mergeable nodes are the critical ones. */
  lemma StrictIsCritical(env: Env, nodes: Nodes, m: Meaning, with: Id, target: Id, x: Id)
    requires Mergeable(env, nodes, m, x)
    ensures Strict(Lifted(env, nodes, m, with, target), m, x) <==> Critical(env, nodes, m, with, target, x)
  {
    if y :| y in nodes && Critical(env, nodes, m, with, target, y) && m.value(y) == m.value(x) {
      if Crowded(env, nodes, m, y) { CrowdTogether(env, nodes, m, y, x); }
    }
  }

  lemma CrowdTogether(env: Env, nodes: Nodes, m: Meaning, y: Id, x: Id)
    requires Crowded(env, nodes, m, y) && Mergeable(env, nodes, m, x) && m.value(x) == m.value(y)
    ensures Crowded(env, nodes, m, x)
  {
    if x != y {
      var a, b :| a != b && Partners(env, nodes, m, y, a) && Partners(env, nodes, m, y, b);
      var c := if a == x then b else a;
      assert Partners(env, nodes, m, x, y) && Partners(env, nodes, m, x, c);
    }
  }

  /** Then there are ranks under which the target is replaceable. */
  lemma SeparableIsReplaceable(env: Env, nodes: Nodes, m: Meaning, with: Id, target: Id)
    requires Separable(env, nodes, m, with, target) && with in nodes && target in nodes && with != target
    requires m.value(with) == m.value(target)
    ensures var rank := Lifted(env, nodes, m, with, target);
      Ranked(env, nodes, m, rank) && Replaceable(env, nodes, with, target, rank, m)
  {
    var rank := Lifted(env, nodes, m, with, target);
    forall u | u in nodes ensures RankedAt(env, nodes, m, rank, u) {
      LiftedRankedAt(env, nodes, m, with, target, u);
    }
    forall x | Crowded(env, nodes, m, x) ensures Strict(rank, m, x) {
      StrictIsCritical(env, nodes, m, with, target, x);
    }
    forall u | Mergeable(env, nodes, m, u) && u in nodes && target in nodes[u].content.inputs
      ensures Under(rank, m, target, u) {
      LiftedUnder(env, nodes, m, with, target, target, u);
    }
    DependsOnSelf(env, nodes, m, target);
    if HasOther(env, nodes, m, with, target) {
      assert Critical(env, nodes, m, with, target, with);
    }
  }

  lemma LiftedRankedAt(env: Env, nodes: Nodes, m: Meaning, with: Id, target: Id, u: Id)
    requires Separable(env, nodes, m, with, target) && with in nodes && target in nodes && u in nodes
    ensures RankedAt(env, nodes, m, Lifted(env, nodes, m, with, target), u)
  {
    var rank := Lifted(env, nodes, m, with, target);
    if Mergeable(env, nodes, m, u) {
      forall k | 0 <= k < |nodes[u].content.inputs|
        ensures BelowIn(env, nodes, m, rank, nodes[u].content.inputs[k], u) {
        var x := nodes[u].content.inputs[k];
        if Mergeable(env, nodes, m, x) { LiftedUnder(env, nodes, m, with, target, x, u); }
      }
    }
  }

  lemma LiftedUnder(env: Env, nodes: Nodes, m: Meaning, with: Id, target: Id, x: Id, u: Id)
    requires Separable(env, nodes, m, with, target) && with in nodes && target in nodes && u in nodes && x in nodes
    requires Mergeable(env, nodes, m, u) && x in Inputs(nodes, u) && (x == target || Mergeable(env, nodes, m, x))
    ensures Under(Lifted(env, nodes, m, with, target), m, x, u)
  {
    ReaderRanksAbove(env, nodes, m, with, target, u, x);
    DependsOnSelf(env, nodes, m, target);
    if DependsOn(env, nodes, m, x, target) { ReaderDependsToo(env, nodes, m, u, x, target); }
    StrictIsCritical(env, nodes, m, with, target, u);
    if Mergeable(env, nodes, m, x) { StrictIsCritical(env, nodes, m, with, target, x); }
  }

  // ---- what a completed replacement amounts to ----

  /** Every surviving node is an old one that reads what it read before, up to nodes that took the place of dead ones;
      in particular it reads `with` where it read the target. Merged nodes go, and what loses its last use by that. */
  ghost predicate Replaced(env: Env, before: Nodes, after: Nodes, with: Id, target: Id, sub: Renaming) {
    && target !in after && Apply(sub, target) == with && OnlyLost(before, after, sub)
    && Merged(env, before, sub, target)
    && AllCarried(before, after, sub)
  }

  lemma FormerUseReadsReplacement(env: Env, before: Nodes, after: Nodes, with: Id, target: Id, sub: Renaming, u: Id,
                                  k: nat)
    requires Replaced(env, before, after, with, target, sub) && u in after
    requires u in before && k < |before[u].content.inputs|
    requires before[u].content.inputs[k] == target
    ensures k < |after[u].content.inputs| && after[u].content.inputs[k] == with
  {
    assert Carried(before, after, sub, u);
  }

  /** What took the place of a node has its value, and the surviving interned nodes still compute theirs. */
  ghost predicate KeepsMeaning(env: Env, after: Nodes, sub: Renaming, m: Meaning) {
    (forall x :: m.value(Apply(sub, x)) == m.value(x)) && Consistent(env, after, m)
  }

  lemma ReplacedKeepsMeaning(env: Env, before: Nodes, after: Nodes, with: Id, target: Id, sub: Renaming, m: Meaning)
    requires Replaced(env, before, after, with, target, sub) && Consistent(env, before, m)
    requires forall x :: m.value(Apply(sub, x)) == m.value(x)
    ensures KeepsMeaning(env, after, sub, m)
  {
    forall n | n in after && Interned(env, after[n].content) ensures Means(m, after[n].content, m.value(n)) {
      assert Carried(before, after, sub, n);
      assert Means(m, before[n].content, m.value(n));
      assert Values(m, after[n].content.inputs) == Values(m, before[n].content.inputs);
    }
  }

  lemma WentIsReplaced(env: Env, start: Nodes, listed: seq<Entry>, nodes: Nodes, table: seq<Entry>, sub: Renaming,
                       m: Meaning, with: Id, target: Id, pending: set<Id>, next: nat)
    requires Went(env, start, listed, nodes, table, pending, sub, m, target)
    requires target !in nodes && Apply(sub, target) == with
    requires (forall n :: n in start ==> n < next) && forall e :: e in listed ==> e.id < next
    ensures Replaced(env, start, nodes, with, target, sub)
    ensures (forall n :: n in nodes ==> n < next) && forall e :: e in table ==> e.id < next
  {
    CarriedShrinks(start, nodes, sub);
  }
}
