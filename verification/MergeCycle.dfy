/**
  Why replacing a node demands that critical nodes lie on no cycle: a graph on which the merges set off by one
  replacement come round to a node that an earlier, unfinished merge still holds on to.
 */
module MergeCycle {
  import opened GraphNodes
  import opened GraphEdits
  import opened Interning
  import opened Subsumption
  import opened Congruence
  import opened GraphStore

  const LOOP: Id := 1
  const STEP: Id := 2
  const TARGET: Id := 3
  const WITH: Id := 4

  /** Two loop values that differ in their start only, the sums of each with a step, and a third loop value. */
  const PHI: Id := 5
  const PHI2: Id := 6
  const SUM: Id := 7
  const SUM2: Id := 8
  const PHI3: Id := 9

  function Leaf(k: nat): Content { Content(Spec(0, 0), [k], []) }

  function PhiOf(a: Id, b: Id): Content { Content(Spec(1, 0), [], [LOOP, a, b]) }

  function SumOf(a: Id): Content { Content(Spec(2, 0), [], [a, STEP]) }

  function Start(n: Id): Content {
    if n == PHI then PhiOf(TARGET, SUM)
    else if n == PHI2 then PhiOf(WITH, SUM)
    else if n == SUM then SumOf(PHI)
    else if n == SUM2 then SumOf(PHI2)
    else if n == PHI3 then PhiOf(WITH, SUM2)
    else Leaf(n)
  }

  function StartOuts(n: Id): seq<Out> {
    if n == LOOP then [Out(PHI, 0), Out(PHI2, 0), Out(PHI3, 0)]
    else if n == STEP then [Out(SUM, 1), Out(SUM2, 1)]
    else if n == TARGET then [Out(PHI, 1)]
    else if n == WITH then [Out(PHI2, 1), Out(PHI3, 1)]
    else if n == PHI then [Out(SUM, 0)]
    else if n == PHI2 then [Out(SUM2, 0)]
    else if n == SUM then [Out(PHI, 2), Out(PHI2, 2)]
    else if n == SUM2 then [Out(PHI3, 2)]
    else [PIN]
  }

  const GRAPH: Nodes := map n: Id | 0 < n < 10 :: Node(Start(n), StartOuts(n))

  const INTERNED: seq<Id> := [PHI, PHI2, SUM, SUM2, PHI3]

  // ---- a graph that the store admits ----

  /** What user o.id reads through input o.idx, or nil. */
  function ReadAt(o: Out): Id {
    if o.id == PHI then (if o.idx == 0 then LOOP else if o.idx == 1 then TARGET else if o.idx == 2 then SUM else 0)
    else if o.id == PHI2 then (if o.idx == 0 then LOOP else if o.idx == 1 then WITH else if o.idx == 2 then SUM else 0)
    else if o.id == PHI3 then (if o.idx == 0 then LOOP else if o.idx == 1 then WITH else if o.idx == 2 then SUM2 else 0)
    else if o.id == SUM then (if o.idx == 0 then PHI else if o.idx == 1 then STEP else 0)
    else if o.id == SUM2 then (if o.idx == 0 then PHI2 else if o.idx == 1 then STEP else 0)
    else 0
  }

  lemma ReadsAre(o: Out, n: Id)
    requires n in GRAPH
    ensures Reads(GRAPH, IDLE, o, n) <==> ReadAt(o) == n
  {
  }

  lemma OutsAre(o: Out, n: Id)
    requires n in GRAPH && o != PIN
    ensures o in StartOuts(n) <==> ReadAt(o) == n
  {
  }

  lemma GraphListed(n: Id)
    requires n in GRAPH
    ensures UsesListed(GRAPH, n) && InputsListed(GRAPH, n)
  {
    forall o | o != PIN ensures o in GRAPH[n].outs <==> Reads(GRAPH, IDLE, o, n) {
      ReadsAre(o, n);
      OutsAre(o, n);
    }
  }

  lemma GraphIsGood(env: Env)
    requires env.kinds == {1, 2}
    ensures DefUse(GRAPH, IDLE)
    ensures TableOk(env, GRAPH, EntriesFor(env, GRAPH, INTERNED), TIGHT)
    ensures AllLive(GRAPH, EntriesFor(env, GRAPH, INTERNED))
  {
    forall n | n in GRAPH ensures UsesListed(GRAPH, n) && InputsListed(GRAPH, n) {
      GraphListed(n);
    }
    ListedIsDefUse(GRAPH);
    ListedIsExact(env, GRAPH, INTERNED);
  }

  // ---- the condition for replacing fails on it ----

  /** Whatever the nodes mean, the loop values are three of a kind and read each other through the sums. */
  lemma GraphIsNotSeparable(env: Env, m: Meaning)
    requires env.kinds == {1, 2} && Consistent(env, GRAPH, m) && m.value(WITH) == m.value(TARGET)
    ensures !Separable(env, GRAPH, m, WITH, TARGET)
  {
    CycleHasPartners(env, m);
    assert Critical(env, GRAPH, m, WITH, TARGET, PHI);
    DependsOnSelf(env, GRAPH, m, PHI);
    ReaderDependsToo(env, GRAPH, m, SUM, PHI, PHI);
    assert SUM in Inputs(GRAPH, PHI);
    assert OnCycle(env, GRAPH, m, PHI);
  }

  lemma CycleHasPartners(env: Env, m: Meaning)
    requires env.kinds == {1, 2} && Consistent(env, GRAPH, m) && m.value(WITH) == m.value(TARGET)
    ensures Mergeable(env, GRAPH, m, PHI) && Crowded(env, GRAPH, m, PHI) && Mergeable(env, GRAPH, m, SUM)
  {
    assert Values(m, [LOOP, TARGET, SUM]) == Values(m, [LOOP, WITH, SUM]);
    assert Means(m, GRAPH[PHI].content, m.value(PHI)) && Means(m, GRAPH[PHI2].content, m.value(PHI2));
    assert Partners(env, GRAPH, m, PHI, PHI2);
    assert Values(m, [PHI, STEP]) == Values(m, [PHI2, STEP]);
    assert Means(m, GRAPH[SUM].content, m.value(SUM)) && Means(m, GRAPH[SUM2].content, m.value(SUM2));
    assert Partners(env, GRAPH, m, SUM, SUM2);
    assert Values(m, [LOOP, WITH, SUM]) == Values(m, [LOOP, WITH, SUM2]);
    assert Means(m, GRAPH[PHI3].content, m.value(PHI3));
    assert Partners(env, GRAPH, m, PHI, PHI3);
  }

  lemma GraphMayNotReplace(env: Env)
    requires env.kinds == {1, 2}
    ensures !MayReplace(env, GRAPH, WITH, TARGET)
  {
    ClassesAreConsistent(env, GRAPH, WITH, TARGET);
    GraphIsNotSeparable(env, Classes(env, GRAPH, WITH, TARGET));
  }

  // ---- what one merge does to the contents ----

  function Swung(c: Content, target: Id, with: Id): Content {
    c.(inputs := Swing(c.inputs, target, with))
  }

  lemma SwungPhi(a: Id, b: Id, target: Id, with: Id)
    requires target != LOOP
    ensures Swung(PhiOf(a, b), target, with) == PhiOf(if a == target then with else a, if b == target then with else b)
  {
    assert Swing([LOOP, a, b], target, with) ==
      [LOOP, if a == target then with else a, if b == target then with else b];
  }

  lemma SwungSum(a: Id, target: Id, with: Id)
    requires target != STEP
    ensures Swung(SumOf(a), target, with) == SumOf(if a == target then with else a)
  {
    assert Swing([a, STEP], target, with) == [if a == target then with else a, STEP];
  }

  lemma SwungLeaf(k: nat, target: Id, with: Id)
    ensures Swung(Leaf(k), target, with) == Leaf(k)
  {
    assert Swing([], target, with) == [];
  }

  /** The nodes that are left after the first merges, and what they hold; SUM and PHI2 change as merges go on. */
  datatype Stage = Stage(gone: set<Id>, phi: Content, sum: Content, phi2: Content, sum2: Content)

  function Holds(s: Stage, n: Id): Content {
    if n == PHI then s.phi
    else if n == SUM then s.sum
    else if n == PHI2 then s.phi2
    else if n == SUM2 then s.sum2
    else Start(n)
  }

  ghost predicate At(nodes: Nodes, s: Stage) {
    && DefUse(nodes, IDLE) && Pins(nodes, PHI3) > 0
    && (forall n :: n in nodes <==> 0 < n < 10 && n !in s.gone)
    && (forall n :: n in nodes ==> nodes[n].content == Holds(s, n))
  }

  const STAGE0: Stage := Stage({}, PhiOf(TARGET, SUM), SumOf(PHI), PhiOf(WITH, SUM), SumOf(PHI2))
  const STAGE1: Stage := Stage({TARGET}, PhiOf(WITH, SUM), SumOf(PHI), PhiOf(WITH, SUM), SumOf(PHI2))
  const STAGE2: Stage := Stage({TARGET, PHI}, PhiOf(WITH, SUM), SumOf(PHI2), PhiOf(WITH, SUM), SumOf(PHI2))
  const STAGE3: Stage := Stage({TARGET, PHI, SUM}, PhiOf(WITH, SUM), SumOf(PHI2), PhiOf(WITH, SUM2), SumOf(PHI2))

  lemma StartsAt()
    ensures At(GRAPH, STAGE0)
  {
    forall n | n in GRAPH ensures UsesListed(GRAPH, n) && InputsListed(GRAPH, n) {
      GraphListed(n);
    }
    ListedIsDefUse(GRAPH);
  }

  // ---- which nodes one merge removes ----

  /** Something other than the target keeps n alive: a pin, or a user that does not read it through the target. */
  ghost predicate Held(nodes: Nodes, with: Id, target: Id, n: Id) {
    n == with || Pins(nodes, n) > 0 || exists o :: HeldBy(nodes, target, n, o)
  }

  predicate HeldBy(nodes: Nodes, target: Id, n: Id, o: Out) {
    n != target && o.id != target && Reads(nodes, IDLE, o, n)
  }

  ghost predicate AllHeld(nodes: Nodes, with: Id, target: Id) {
    forall n {:trigger Held(nodes, with, target, n)} :: n in nodes && n != target ==> Held(nodes, with, target, n)
  }

  lemma TargetSetIsClosed(nodes: Nodes, with: Id, target: Id)
    requires DefUse(nodes, IDLE) && with in nodes && target in nodes && with != target && AllHeld(nodes, with, target)
    ensures DefUse(Taken(nodes, target, with), IDLE) && ClosedUnderLastUse(Taken(nodes, target, with), {target})
  {
    var taken := Taken(nodes, target, with);
    RedirectKeepsDefUse(nodes, target, with);
    PinKeepsDefUse(Redirected(nodes, target, with), IDLE, with);
    AddRecordContents(Redirected(nodes, target, with), with, PIN);
    forall n | n in taken && Outs(taken, n) != [] && (forall o :: o in Outs(taken, n) ==> o.id in {target})
      ensures n in {target} {
      if n != target { HeldHasUse(nodes, with, target, n); }
    }
  }

  lemma OnlyTargetDies(nodes: Nodes, with: Id, target: Id, after: Nodes, order: seq<Id>)
    requires DefUse(nodes, IDLE) && with in nodes && target in nodes && with != target && AllHeld(nodes, with, target)
    requires target in Taken(nodes, target, with) && Cascaded(Taken(nodes, target, with), after, target, order)
    ensures DefUse(after, IDLE) && Pins(after, with) > 0 && forall n :: n in after <==> n in nodes && n != target
    ensures forall n :: n in after ==> MergedAt(nodes, with, target, after, n)
  {
    TargetSetIsClosed(nodes, with, target);
    CascadeKeepsDefUse(Taken(nodes, target, with), after, target, order, IDLE);
    forall n ensures n in after <==> n in nodes && n != target {
      StaysUnlessTarget(nodes, with, target, after, order, n);
    }
    forall n | n in after ensures MergedAt(nodes, with, target, after, n) {
      IsMergedAt(nodes, with, target, after, order, n);
    }
    TargetGoneCarries(nodes, after, with, target, order, with);
  }

  lemma StaysUnlessTarget(nodes: Nodes, with: Id, target: Id, after: Nodes, order: seq<Id>, n: Id)
    requires 0 !in nodes && with in nodes && target in nodes && with != target && target in Taken(nodes, target, with)
    requires ClosedUnderLastUse(Taken(nodes, target, with), {target})
    requires Cascaded(Taken(nodes, target, with), after, target, order)
    ensures n in after <==> n in nodes && n != target
  {
    var taken := Taken(nodes, target, with);
    AddRecordContents(Redirected(nodes, target, with), with, PIN);
    CascadeShrinks(taken, after, target, order);
    TargetGoneCarries(nodes, after, with, target, order, n);
    if n in nodes { CascadeIsDoomed(taken, after, target, order, n); }
  }

  lemma IsMergedAt(nodes: Nodes, with: Id, target: Id, after: Nodes, order: seq<Id>, n: Id)
    requires 0 !in nodes && with in nodes && target in nodes && with != target && n in after
    requires target in Taken(nodes, target, with) && Cascaded(Taken(nodes, target, with), after, target, order)
    ensures MergedAt(nodes, with, target, after, n)
  {
    TargetGoneCarries(nodes, after, with, target, order, n);
  }

  ghost predicate MergedAt(nodes: Nodes, with: Id, target: Id, after: Nodes, n: Id)
    requires n in after
  {
    n in nodes && after[n].content == Swung(nodes[n].content, target, with) && Pins(after, n) >= Pins(nodes, n)
  }

  lemma HeldHasUse(nodes: Nodes, with: Id, target: Id, n: Id)
    requires DefUse(nodes, IDLE) && with in nodes && target in nodes && with != target && n in nodes && n != target
    requires Held(nodes, with, target, n) && DefUse(Taken(nodes, target, with), IDLE)
    ensures exists o :: o in Outs(Taken(nodes, target, with), n) && o.id != target
  {
    var taken := Taken(nodes, target, with);
    TakenPins(nodes, target, with, n);
    if n == with || Pins(nodes, n) > 0 {
      assert PIN in Outs(taken, n);
    } else {
      var o :| HeldBy(nodes, target, n, o);
      AddRecordContents(Redirected(nodes, target, with), with, PIN);
      LiveInput(taken, o.id, o.idx);
      assert o in Outs(taken, n);
    }
  }

  // ---- the three merges ----

  /** From one stage to the next. */
  lemma StageFollows(nodes: Nodes, with: Id, target: Id, after: Nodes, order: seq<Id>, s: Stage, s': Stage)
    requires At(nodes, s) && with in nodes && target in nodes && with != target
    requires target != PHI3 && AllHeld(nodes, with, target)
    requires target in Taken(nodes, target, with) && Cascaded(Taken(nodes, target, with), after, target, order)
    requires s'.gone == s.gone + {target}
    requires forall n :: 0 < n < 10 && n !in s'.gone ==> Swung(Holds(s, n), target, with) == Holds(s', n)
    ensures At(after, s') && Pins(after, with) > 0
    ensures forall n :: n in after ==> n in nodes && Pins(after, n) >= Pins(nodes, n)
  {
    OnlyTargetDies(nodes, with, target, after, order);
    assert PHI3 in after && MergedAt(nodes, with, target, after, PHI3);
    forall n | n in after ensures after[n].content == Holds(s', n) && Pins(after, n) >= Pins(nodes, n) {
      assert MergedAt(nodes, with, target, after, n);
    }
  }

  lemma FirstHeld(nodes: Nodes)
    requires At(nodes, STAGE0)
    ensures AllHeld(nodes, WITH, TARGET)
  {
    assert HeldBy(nodes, TARGET, LOOP, Out(PHI, 0)) && HeldBy(nodes, TARGET, STEP, Out(SUM, 1));
    assert HeldBy(nodes, TARGET, PHI, Out(SUM, 0)) && HeldBy(nodes, TARGET, PHI2, Out(SUM2, 0));
    assert HeldBy(nodes, TARGET, SUM, Out(PHI, 2)) && HeldBy(nodes, TARGET, SUM2, Out(PHI3, 2));
  }

  lemma FirstContents(n: Id)
    requires 0 < n < 10 && n != TARGET
    ensures Swung(Holds(STAGE0, n), TARGET, WITH) == Holds(STAGE1, n)
  {
    SwungLeaf(n, TARGET, WITH);
    SwungPhi(TARGET, SUM, TARGET, WITH);
    SwungPhi(WITH, SUM, TARGET, WITH);
    SwungPhi(WITH, SUM2, TARGET, WITH);
    SwungSum(PHI, TARGET, WITH);
    SwungSum(PHI2, TARGET, WITH);
  }

  lemma SecondHeld(nodes: Nodes)
    requires At(nodes, STAGE1)
    ensures AllHeld(nodes, PHI2, PHI)
  {
    assert HeldBy(nodes, PHI, LOOP, Out(PHI2, 0)) && HeldBy(nodes, PHI, STEP, Out(SUM, 1));
    assert HeldBy(nodes, PHI, WITH, Out(PHI2, 1)) && HeldBy(nodes, PHI, SUM, Out(PHI2, 2));
    assert HeldBy(nodes, PHI, SUM2, Out(PHI3, 2));
  }

  lemma SecondContents(n: Id)
    requires 0 < n < 10 && n != TARGET && n != PHI
    ensures Swung(Holds(STAGE1, n), PHI, PHI2) == Holds(STAGE2, n)
  {
    SwungLeaf(n, PHI, PHI2);
    SwungPhi(WITH, SUM, PHI, PHI2);
    SwungPhi(WITH, SUM2, PHI, PHI2);
    SwungSum(PHI, PHI, PHI2);
    SwungSum(PHI2, PHI, PHI2);
  }

  lemma ThirdHeld(nodes: Nodes)
    requires At(nodes, STAGE2)
    ensures AllHeld(nodes, SUM2, SUM)
  {
    assert HeldBy(nodes, SUM, LOOP, Out(PHI2, 0)) && HeldBy(nodes, SUM, STEP, Out(SUM2, 1));
    assert HeldBy(nodes, SUM, WITH, Out(PHI2, 1)) && HeldBy(nodes, SUM, PHI2, Out(SUM2, 0));
  }

  lemma ThirdContents(n: Id)
    requires 0 < n < 10 && n != TARGET && n != PHI && n != SUM
    ensures Swung(Holds(STAGE2, n), SUM, SUM2) == Holds(STAGE3, n)
  {
    SwungLeaf(n, SUM, SUM2);
    SwungPhi(WITH, SUM, SUM, SUM2);
    SwungPhi(WITH, SUM2, SUM, SUM2);
    SwungSum(PHI2, SUM, SUM2);
  }

  /** Interning an unlisted node finds the one listed node of its content. */
  lemma PicksEqual(env: Env, nodes: Nodes, table: seq<Entry>, u: Id, e: Id)
    requires TableOk(env, nodes, table, Slack({u}, {})) && u in nodes && e in nodes && e != u && !Listed(table, u)
    requires nodes[e].content == nodes[u].content && Interned(env, nodes[u].content)
    ensures Intern(env, nodes, table, u) == (table, e)
  {
    var h := env.hash(nodes[u].content);
    var i :| 0 <= i < |table| && table[i].id == e;
    assert EntryOk(env, nodes, table[i]);
    assert Hit(nodes, table[i], u, h);
    var r := Find(nodes, table, u, h, 0);
    assert table[r].id != u;
  }

  // ---- the merges come round ----

  /** The record o is the only use of the target. */
  ghost predicate SoleUse(nodes: Nodes, target: Id, o: Out) {
    o != PIN && forall p :: Reads(nodes, IDLE, p, target) <==> p == o
  }

  lemma SoleUserLeft(env: Env, nodes: Nodes, after: Nodes, table: seq<Entry>, target: Id, o: Out)
    requires DefUse(nodes, IDLE) && target in nodes && SoleUse(nodes, target, o) && target !in after && 0 !in after
    requires TableOk(env, after, table, Slack({target} + UserIds(nodes[target].outs), {}))
    ensures TableOk(env, after, table, Slack({o.id}, {}))
  {
    var outs := nodes[target].outs;
    forall u | u in {target} + UserIds(outs) && u in after ensures u in {o.id} {
      if u != target {
        var p :| p in outs && p.id == u;
        RecordIsUse(nodes, target, p);
      }
    }
    OnlyLivePending(env, after, table, {target} + UserIds(outs), {o.id});
  }

  lemma SoleUseRecorded(nodes: Nodes, target: Id, o: Out)
    requires DefUse(nodes, IDLE) && target in nodes && SoleUse(nodes, target, o) && 0 !in nodes
    ensures o in nodes[target].outs && o.id in UserIds(nodes[target].outs) && o.id != 0
    ensures forall p :: p in nodes[target].outs && p != PIN ==> p == o
  {
    assert Reads(nodes, IDLE, o, target);
    LiveInput(nodes, o.id, o.idx);
    forall p | p in nodes[target].outs && p != PIN ensures p == o {
      RecordIsUse(nodes, target, p);
    }
  }

  lemma SoleKept(start: Nodes, nodes: Nodes, with: Id, target: Id, o: Out, kept: seq<Out>)
    requires DefUse(start, IDLE) && target in start && SoleUse(start, target, o) && 0 !in start
    requires DefUse(nodes, IDLE) && with in nodes && Reads(nodes, IDLE, o, with)
    requires Kept(kept, start[target].outs, nodes[with].outs)
    ensures |kept| > 0 && kept[|kept| - 1] == o
  {
    SoleUseRecorded(start, target, o);
    LiveInput(nodes, o.id, o.idx);
    assert o in kept;
    assert kept[|kept| - 1] in kept;
  }

  /** Between the stages s and s', with takes the place of target, whose one user o.id then equals e. */
  ghost predicate Takes(nodes: Nodes, with: Id, target: Id, o: Out, e: Id, s: Stage, s': Stage) {
    && At(nodes, s) && with in nodes && target in nodes && with != target && target != PHI3
    && AllHeld(nodes, with, target) && SoleUse(nodes, target, o)
    && s'.gone == s.gone + {target} && Becomes(with, target, s, s')
    && o.id in nodes && o.id != target && e in nodes && e != target && e != o.id
    && Holds(s', o.id) == Holds(s', e) && ReadsWith(Holds(s', e), o.idx, with)
  }

  predicate ReadsWith(c: Content, idx: nat, with: Id) {
    c.spec.rtype in {1, 2} && idx < |c.inputs| && c.inputs[idx] == with
  }

  ghost predicate Becomes(with: Id, target: Id, s: Stage, s': Stage) {
    forall n :: 0 < n < 10 && n !in s'.gone ==> Swung(Holds(s, n), target, with) == Holds(s', n)
  }

  /** The former user is out of the table and reads `with`; pins have not become fewer. */
  ghost predicate TookPlace(env: Env, start: Nodes, nodes: Nodes, table: seq<Entry>, with: Id, o: Out, s': Stage) {
    && At(nodes, s') && TableOk(env, nodes, table, Slack({o.id}, {})) && !Listed(table, o.id)
    && Pins(nodes, with) > 0 && forall n :: n in nodes ==> n in start && Pins(nodes, n) >= Pins(start, n)
  }

  lemma TakesFollows(env: Env, start: Nodes, nodes: Nodes, table: seq<Entry>, with: Id, target: Id, order: seq<Id>,
                     o: Out, e: Id, s: Stage, s': Stage)
    requires Takes(start, with, target, o, e, s, s')
    requires target in Taken(start, target, with) && Cascaded(Taken(start, target, with), nodes, target, order)
    requires TableOk(env, nodes, table, Slack({target} + UserIds(start[target].outs), {}))
    requires Unlisted(table, UserIds(start[target].outs))
    ensures TookPlace(env, start, nodes, table, with, o, s')
  {
    SoleUseRecorded(start, target, o);
    StageFollows(start, with, target, nodes, order, s, s');
    SoleUserLeft(env, start, nodes, table, target, o);
  }

  lemma FindsEqual(env: Env, start: Nodes, nodes: Nodes, table: seq<Entry>, with: Id, target: Id,
                   o: Out, e: Id, s: Stage, s': Stage)
    requires env.kinds == {1, 2} && Takes(start, with, target, o, e, s, s')
    requires TookPlace(env, start, nodes, table, with, o, s')
    ensures o.id in nodes && Intern(env, nodes, table, o.id) == (table, e)
    ensures Reads(nodes, IDLE, o, with) && with in nodes
  {
    assert o.id in nodes && e in nodes && nodes[o.id].content == nodes[e].content;
    PicksEqual(env, nodes, table, o.id, e);
  }

  /** The steps of replacing target by with, up to the search for the former user's equal. */
  method MergeOnce(g: Graph, with: Id, target: Id, ghost o: Out, ghost e: Id, ghost s: Stage, ghost s': Stage)
    returns (u: Id, id: Id)
    requires g.env.kinds == {1, 2} && TableOk(g.env, g.nodes, g.table, Slack({target}, {}))
    requires Takes(g.nodes, with, target, o, e, s, s')
    modifies g`nodes, g`table
    ensures TookPlace(g.env, old(g.nodes), g.nodes, g.table, with, o, s') && u == o.id && id == e
  {
    ghost var start := g.nodes;
    var outs := g.nodes[target].outs;
    DropAndTake(g, with, target, o, e, s, s');
    FindsEqual(g.env, start, g.nodes, g.table, with, target, o, e, s, s');
    var kept := g.StillRecorded(outs, with);
    SoleKept(start, g.nodes, with, target, o, kept);
    u := kept[|kept| - 1].id;
    id := g.InternNode(u);
  }

  method DropAndTake(g: Graph, with: Id, target: Id, ghost o: Out, ghost e: Id, ghost s: Stage, ghost s': Stage)
    requires TableOk(g.env, g.nodes, g.table, Slack({target}, {})) && Takes(g.nodes, with, target, o, e, s, s')
    modifies g`nodes, g`table
    ensures TookPlace(g.env, old(g.nodes), g.nodes, g.table, with, o, s')
  {
    ghost var start, listed, users := g.nodes, g.table, UserIds(g.nodes[target].outs);
    g.RedirectUses(with, target, {target});
    ghost var swung := g.table;
    ghost var order := g.DropTarget(with, target, start, listed, {target} + users);
    StillUnlisted(swung, g.table, users);
    TakesFollows(g.env, start, g.nodes, g.table, with, target, order, o, e, s, s');
  }

  lemma FirstTakes(nodes: Nodes)
    requires At(nodes, STAGE0)
    ensures Takes(nodes, WITH, TARGET, Out(PHI, 1), PHI2, STAGE0, STAGE1)
  {
    FirstHeld(nodes);
    forall n | 0 < n < 10 && n !in STAGE1.gone ensures Swung(Holds(STAGE0, n), TARGET, WITH) == Holds(STAGE1, n) {
      FirstContents(n);
    }
  }

  lemma SecondTakes(nodes: Nodes)
    requires At(nodes, STAGE1)
    ensures Takes(nodes, PHI2, PHI, Out(SUM, 0), SUM2, STAGE1, STAGE2)
  {
    SecondHeld(nodes);
    forall n | 0 < n < 10 && n !in STAGE2.gone ensures Swung(Holds(STAGE1, n), PHI, PHI2) == Holds(STAGE2, n) {
      SecondContents(n);
    }
  }

  lemma ThirdTakes(nodes: Nodes)
    requires At(nodes, STAGE2)
    ensures Takes(nodes, SUM2, SUM, Out(PHI2, 2), PHI3, STAGE2, STAGE3)
  {
    ThirdHeld(nodes);
    forall n | 0 < n < 10 && n !in STAGE3.gone ensures Swung(Holds(STAGE2, n), SUM, SUM2) == Holds(STAGE3, n) {
      ThirdContents(n);
    }
  }

  /** Replacing TARGET by WITH, step by step down the nested calls: PHI becomes equal to PHI2, so SUM becomes equal
      to SUM2, so PHI2, in whose name the second call is still under way, becomes equal to PHI3. `before` is the
      graph when the fourth call starts: the second call has pinned PHI2 and will unpin it,
      but the fourth removes it. */
  method MergesComeRound(g: Graph) returns (ghost before: Nodes)
    requires g.Valid() && g.env.kinds == {1, 2} && g.nodes == GRAPH && g.table == EntriesFor(g.env, GRAPH, INTERNED)
    modifies g`nodes, g`table
    ensures PHI2 in before && Pins(before, PHI2) > 0 && PHI2 !in g.nodes
  {
    StartsAt();
    FirstTakes(g.nodes);
    Loosen(g.env, g.nodes, g.table, {}, {TARGET});
    var user, equal := MergeOnce(g, WITH, TARGET, Out(PHI, 1), PHI2, STAGE0, STAGE1);
    SecondTakes(g.nodes);
    user, equal := MergeOnce(g, equal, user, Out(SUM, 0), SUM2, STAGE1, STAGE2);
    ThirdTakes(g.nodes);
    user, equal := MergeOnce(g, equal, user, Out(PHI2, 2), PHI3, STAGE2, STAGE3);
    before := g.nodes;
    RemoveLast(g, equal, user);
  }

  /** The last of the four replacements gets no further than removing its target. */
  method RemoveLast(g: Graph, with: Id, target: Id)
    requires DefUse(g.nodes, IDLE) && TableOk(g.env, g.nodes, g.table, Slack({target}, {}))
    requires with in g.nodes && target in g.nodes && with != target
    modifies g`nodes, g`table
    ensures target !in g.nodes
  {
    ghost var start, listed, users := g.nodes, g.table, UserIds(g.nodes[target].outs);
    g.RedirectUses(with, target, {target});
    ghost var order := g.DropTarget(with, target, start, listed, {target} + users);
    TargetGoneCarries(start, g.nodes, with, target, order, with);
  }
}
