/**
  The mutable graph: adding nodes and edges, replacing inputs, cascading deletion.
 */
module GraphStore {
  import opened GraphNodes
  import opened GraphEdits
  import opened Interning
  import opened Subsumption
  import opened Congruence

  /** The record of an input stands at that input only. */
  lemma InputRecordOnlyAt(now: Nodes, progress: Progress, id: Id, i: nat)
    requires DefUse(now, progress[id := i]) && id in now && i < |Inputs(now, id)| && Inputs(now, id)[i] in now
    ensures OnlyAt(now, Inputs(now, id)[i], Out(id, i))
  {
    var inp, p := Inputs(now, id)[i], progress[id := i];
    assert RecordsExact(now, p, inp) && Reads(now, p, Out(id, i), inp);
    forall n | n in now && n != inp ensures Records(now, n, Out(id, i)) == 0 {
      assert RecordsExact(now, p, n);
    }
  }

  lemma FewerLeft(before: Nodes, now: Nodes, progress: Progress, order: seq<Id>, id: Id, i: nat)
    requires LettingGo(before, now, order, id, i) && id !in progress
    ensures now.Keys - progress[id := i + 1].Keys < before.Keys - progress.Keys
  {
    assert id in before.Keys - progress.Keys;
  }

  lemma ReleasedKeeps(before: Nodes, now: Nodes, next: Nodes, progress: Progress, order: seq<Id>, died: seq<Id>, id: Id,
                      i: nat)
    requires LettingGo(before, now, order, id, i) && before[id].outs == []
    requires i < |Inputs(now, id)| && Inputs(now, id)[i] in now && Out(id, i) in now[Inputs(now, id)[i]].outs
    requires DefUse(WithoutRecord(now, Inputs(now, id)[i], Out(id, i)), progress[id := i + 1])
    requires OnlyAt(now, Inputs(now, id)[i], Out(id, i))
    requires Cascaded(WithoutRecord(now, Inputs(now, id)[i], Out(id, i)), next, Inputs(now, id)[i], died)
    ensures LettingGo(before, next, order + died, id, i + 1) && DefUse(next, progress[id := i + 1])
  {
    CascadeKeepsDefUse(WithoutRecord(now, Inputs(now, id)[i], Out(id, i)), next, Inputs(now, id)[i], died,
      progress[id := i + 1]);
    LetGoStep(before, now, next, order, died, id, i);
  }

  /** With stale entries about, the nodes at risk are closed under losing the last use. */
  ghost predicate RiskClosed(nodes: Nodes, slack: Slack) {
    slack.stale == {} || ClosedUnderLastUse(nodes, slack.risk)
  }

  /** What deleting `id`, if it has no outputs, removes is at risk. */
  ghost predicate AtRisk(nodes: Nodes, slack: Slack, id: Id)
    requires id in nodes
  {
    RiskClosed(nodes, slack) && (nodes[id].outs == [] ==> MayGo(slack, id))
  }

  lemma ReleasedAtRisk(now: Nodes, slack: Slack, id: Id, inp: Id, i: nat)
    requires inp in now && Out(id, i) in now[inp].outs && MayGo(slack, id) && RiskClosed(now, slack)
    ensures AtRisk(WithoutRecord(now, inp, Out(id, i)), slack, inp)
  {
    if slack.stale != {} { RecordKeepsClosed(now, inp, Out(id, i), slack.risk); }
  }

  lemma CascadeKeepsRisk(before: Nodes, after: Nodes, slack: Slack, id: Id, died: seq<Id>)
    requires id in before && Cascaded(before, after, id, died) && AtRisk(before, slack, id)
    ensures RiskClosed(after, slack)
  {
    if slack.stale != {} { CascadeKeepsClosed(before, after, id, died, slack.risk); }
  }

  /** The state of a deletion after `id` has let go of its first i inputs. */
  ghost predicate Releasing(env: Env, before: Nodes, now: Nodes, table0: seq<Entry>, table: seq<Entry>,
                            order: seq<Id>, id: Id, i: nat, progress: Progress, tidy: bool, slack: Slack) {
    && LettingGo(before, now, order, id, i) && DefUse(now, progress[id := i])
    && (tidy ==> TableOk(env, now, table, slack) && Purged(env, before, now, table0, table, slack.stale))
    && (tidy ==> MayGo(slack, id) && RiskClosed(now, slack))
  }

  lemma LettingGoShrinks(before: Nodes, now: Nodes, order: seq<Id>, id: Id, i: nat)
    requires LettingGo(before, now, order, id, i)
    ensures now.Keys <= before.Keys && forall n :: n in now ==> now[n].content == before[n].content
  {
    forall n | n in now ensures now[n].content == before[n].content {
      assert StillHolds(before, now, order, id, i, n);
    }
  }

  lemma StartReleasing(env: Env, nodes: Nodes, table: seq<Entry>, id: Id, progress: Progress, tidy: bool, slack: Slack)
    requires id in nodes && id !in progress && nodes[id].outs == []
    requires DefUse(nodes, progress) && (tidy ==> TableOk(env, nodes, table, slack) && AtRisk(nodes, slack, id))
    ensures Releasing(env, nodes, nodes, table, table, [id], id, 0, progress, tidy, slack)
  {
    StartLettingGo(nodes, progress, id);
  }

  lemma ReleasedNext(env: Env, before: Nodes, now: Nodes, next: Nodes, table0: seq<Entry>, table: seq<Entry>,
                     table': seq<Entry>,
                     order: seq<Id>, died: seq<Id>, id: Id, i: nat, progress: Progress, tidy: bool, slack: Slack)
    requires Releasing(env, before, now, table0, table, order, id, i, progress, tidy, slack) && before[id].outs == []
    requires i < |Inputs(now, id)| && Inputs(now, id)[i] in now && Out(id, i) in now[Inputs(now, id)[i]].outs
    requires DefUse(WithoutRecord(now, Inputs(now, id)[i], Out(id, i)), progress[id := i + 1])
    requires Cascaded(WithoutRecord(now, Inputs(now, id)[i], Out(id, i)), next, Inputs(now, id)[i], died)
    requires tidy ==> TableOk(env, next, table', slack) && Purged(env, now, next, table, table', slack.stale)
    ensures Releasing(env, before, next, table0, table', order + died, id, i + 1, progress, tidy, slack)
  {
    InputRecordOnlyAt(now, progress, id, i);
    ReleasedKeeps(before, now, next, progress, order, died, id, i);
    LettingGoShrinks(before, now, order, id, i);
    CascadeShrinks(WithoutRecord(now, Inputs(now, id)[i], Out(id, i)), next, Inputs(now, id)[i], died);
    if tidy {
      PurgedTrans(env, before, now, next, table0, table, table', slack.stale);
      ReleasedAtRisk(now, slack, id, Inputs(now, id)[i], i);
      CascadeKeepsRisk(WithoutRecord(now, Inputs(now, id)[i], Out(id, i)), next, slack, Inputs(now, id)[i], died);
    }
  }

  lemma FinishReleasing(env: Env, before: Nodes, now: Nodes, table0: seq<Entry>, table: seq<Entry>,
                        order: seq<Id>, id: Id, progress: Progress, tidy: bool, slack: Slack)
    requires id in before && before[id].outs == [] && DefUse(before, progress) && id !in progress
    requires Releasing(env, before, now, table0, table, order, id, |Inputs(now, id)|, progress, tidy, slack)
    ensures Cascaded(before, now - {id}, id, order)
    ensures tidy ==> TableOk(env, now - {id}, Uninterned(env, now, table, id), slack)
    ensures tidy ==> Purged(env, before, now - {id}, table0, Uninterned(env, now, table, id), slack.stale)
  {
    var t := Uninterned(env, now, table, id);
    LetGoDone(before, now, progress, order, id);
    LettingGoShrinks(before, now, order, id, |Inputs(now, id)|);
    if tidy {
      UninternDrops(env, now, table, slack, id);
      UninternPurges(env, now, table, slack, id);
      PurgedTrans(env, before, now, now - {id}, table0, table, t, slack.stale);
      TableSurvives(env, now, now - {id}, t, slack.(pending := slack.pending + {id}));
      PendingGone(env, now - {id}, t, slack, id);
    }
  }

  lemma InternedAlone(env: Env, nodes: Nodes, table: seq<Entry>, id: Id)
    requires TableOk(env, nodes, table, Slack({id}, {})) && id in nodes
    requires Intern(env, nodes, table, id).1 == id && !Listed(table, id)
    ensures Interned(env, nodes[id].content) ==> OnlyHere(nodes, id, nodes[id].content)
  {
    if Interned(env, nodes[id].content) {
      forall m | m in nodes && m != id ensures nodes[m].content != nodes[id].content {
        if nodes[m].content == nodes[id].content {
          var i :| 0 <= i < |table| && table[i].id == m;
          assert EntryOk(env, nodes, table[i]);
          assert Hit(nodes, table[i], id, env.hash(nodes[id].content));
        }
      }
    }
  }

  /** Interning a node allocated in a fresh slot. */
  lemma InternNew(env: Env, nodes: Nodes, table: seq<Entry>, id: Id, c: Content)
    requires TableOk(env, nodes, table, TIGHT) && id !in nodes && forall e :: e in table ==> e.id != id
    ensures var with := nodes[id := Node(c, [])];
      var (t, r) := Intern(env, with, table, id);
      r == id ==> TableOk(env, with, t, TIGHT) && (Interned(env, c) ==> OnlyHere(with, id, c))
  {
    var with := nodes[id := Node(c, [])];
    assert !Listed(table, id) by {
      forall i | 0 <= i < |table| ensures table[i].id != id { assert table[i] in table; }
    }
    NewNodePending(env, nodes, table, id, Node(c, []));
    InternKeeps(env, with, table, {id}, id);
    if Intern(env, with, table, id).1 == id { InternedAlone(env, with, table, id); }
  }

  /** Whatever the table, a search finds a live node of that content or nothing. */
  lemma InternFinds(env: Env, nodes: Nodes, table: seq<Entry>, id: Id, c: Content)
    requires id !in nodes && forall e :: e in table ==> e.id != id
    ensures var with := nodes[id := Node(c, [])];
      var (t, r) := Intern(env, with, table, id);
      && (r != id ==> r in nodes && nodes[r].content == c && Interned(env, c) && t == table)
      && (forall e :: e in t ==> e in table || e.id == id)
  {
    var with := nodes[id := Node(c, [])];
    InternMembers(env, with, table, id);
    var r := Find(with, table, id, env.hash(c), 0);
    assert r >= 0 ==> table[r] in table;
  }

  lemma StillAlone(env: Env, before: Nodes, after: Nodes, id: Id)
    requires id !in before && id in after && after.Keys == before.Keys + {id}
    requires forall m :: m in before ==> after[m].content == before[m].content
    requires Interned(env, after[id].content) ==> OnlyHere(before[id := after[id]], id, after[id].content)
    ensures Interned(env, after[id].content) ==> OnlyHere(after, id, after[id].content)
  {
    var with := before[id := after[id]];
    forall m | m in after && m != id ensures with[m].content == after[m].content {}
  }

  lemma EntriesStayLive(nodes: Nodes, nodes': Nodes, table: seq<Entry>, table': seq<Entry>, id: Id)
    requires forall e :: e in table' ==> e in table || e.id == id
    requires nodes.Keys <= nodes'.Keys && id in nodes'
    ensures AllLive(nodes, table) ==> AllLive(nodes', table')
  {
    forall i | AllLive(nodes, table) && 0 <= i < |table'| ensures table'[i].id in nodes' {
      assert table'[i] in table';
      if table'[i].id != id { var j :| 0 <= j < |table| && table[j] == table'[i]; }
    }
  }

  lemma SameContentsSameTable(env: Env, a: Nodes, b: Nodes, table: seq<Entry>)
    requires TableOk(env, a, table, TIGHT) && b.Keys == a.Keys && forall m :: m in a ==> b[m].content == a[m].content
    ensures TableOk(env, b, table, TIGHT)
  {
    TableSurvives(env, a, b, table, TIGHT);
  }

  lemma NewNodePending(env: Env, nodes: Nodes, table: seq<Entry>, id: Id, node: Node)
    requires TableOk(env, nodes, table, TIGHT) && id !in nodes && !Listed(table, id)
    ensures TableOk(env, nodes[id := node], table, Slack({id}, {}))
  {
    Loosen(env, nodes, table, {}, {id});
    TableSurvives(env, nodes, nodes[id := node], table, Slack({id}, {}));
  }

  lemma NewNodeRegistered(nodes: Nodes, id: Id, c: Content)
    requires DefUse(nodes, IDLE) && id !in nodes && id != 0
    requires forall k :: 0 <= k < |c.inputs| ==> c.inputs[k] == 0 || c.inputs[k] in nodes
    ensures var next := AddUses(nodes[id := Node(c, [])], id, |c.inputs|);
      && DefUse(next, IDLE)
      && next.Keys == nodes.Keys + {id} && next[id] == Node(c, [])
      && (forall m :: m in nodes ==> next[m].content == nodes[m].content && Pins(next, m) == Pins(nodes, m))
  {
    var with := nodes[id := Node(c, [])];
    var next := AddUses(with, id, |c.inputs|);
    NewNodeKeepsDefUse(nodes, id, c);
    AddUsesContents(with, id, |c.inputs|);
    NewNodeUnused(nodes, id, c);
    forall m | m in nodes ensures Pins(next, m) == Pins(nodes, m) {
      AddUsesCounts(with, id, |c.inputs|, m, PIN);
    }
  }

  /** A new node does not use itself, so it starts without outputs. */
  lemma NewNodeUnused(nodes: Nodes, id: Id, c: Content)
    requires id !in nodes && id != 0
    requires forall k :: 0 <= k < |c.inputs| ==> c.inputs[k] == 0 || c.inputs[k] in nodes
    ensures id in AddUses(nodes[id := Node(c, [])], id, |c.inputs|)
    ensures AddUses(nodes[id := Node(c, [])], id, |c.inputs|)[id].outs == []
  {
    var with := nodes[id := Node(c, [])];
    var next := AddUses(with, id, |c.inputs|);
    AddUsesContents(with, id, |c.inputs|);
    forall o ensures Records(next, id, o) == 0 {
      AddUsesCounts(with, id, |c.inputs|, id, o);
      assert Records(with, id, o) == 0 && Inputs(with, id) == c.inputs;
      assert o.idx < |c.inputs| ==> c.inputs[o.idx] != id;
    }
    NonEmptyHasElement(next[id].outs);
    assert forall o :: Records(next, id, o) == Count(next[id].outs, o);
  }

  // ---- what replacing an input does ----

  function NewContent(c: Content, idx: nat, value: Id): Content
    requires idx < |c.inputs|
  {
    c.(inputs := c.inputs[idx := value])
  }

  /** Deleted in the middle of the change, an interned node keeps its entry unless the hash happens to agree. */
  predicate StaysStale(env: Env, nodes: Nodes, id: Id, idx: nat, value: Id)
    requires id in nodes && idx < |nodes[id].content.inputs|
  {
    var c := nodes[id].content;
    Interned(env, c) && env.hash(c) != env.hash(NewContent(c, idx, value))
  }

  /** The graph after the change: the input switched, the record at the old value gone, and with it whatever
      that leaves without outputs. */
  ghost predicate Settled(before: Nodes, after: Nodes, id: Id, idx: nat, value: Id, died: seq<Id>)
    requires id in before && idx < |before[id].content.inputs|
  {
    var prev, switched := before[id].content.inputs[idx], Switched(before, id, idx, value);
    if prev == 0 then after == switched && died == []
    else
      && prev in switched && Out(id, idx) in switched[prev].outs
      && Cascaded(WithoutRecord(switched, prev, Out(id, idx)), after, prev, died)
  }

  /** n is among those that go when the node lets go of its old value. */
  ghost predicate GoesInChange(nodes: Nodes, id: Id, idx: nat, value: Id, n: Id)
    requires id in nodes && idx < |nodes[id].content.inputs|
  {
    var prev, switched := nodes[id].content.inputs[idx], Switched(nodes, id, idx, value);
    && prev != value && prev in switched && Out(id, idx) in switched[prev].outs
    && var dropped := WithoutRecord(switched, prev, Out(id, idx));
    dropped[prev].outs == [] && Doomed(dropped, prev, n)
  }

  /** The node itself is: it is part of a dying cycle. */
  ghost predicate DiesInChange(nodes: Nodes, id: Id, idx: nat, value: Id)
    requires id in nodes && idx < |nodes[id].content.inputs|
  {
    GoesInChange(nodes, id, idx, value, id)
  }

  ghost function Leaving(nodes: Nodes, id: Id, idx: nat, value: Id): set<Id>
    requires id in nodes && idx < |nodes[id].content.inputs|
  {
    set n | n in nodes && GoesInChange(nodes, id, idx, value, n)
  }

  /** The old and the new content hash differently, or the nodes that have the new content already outlast the change,
      and so does the node itself: then no search meets the entry of the one for the other. */
  ghost predicate ApartOrLasting(env: Env, nodes: Nodes, id: Id, idx: nat, value: Id)
    requires id in nodes && idx < |nodes[id].content.inputs|
  {
    var c := nodes[id].content;
    var c' := NewContent(c, idx, value);
    || env.hash(c) != env.hash(c')
    || (forall m :: m in nodes && m != id && nodes[m].content == c' ==>
          !GoesInChange(nodes, id, idx, value, m) && !DiesInChange(nodes, id, idx, value))
  }

  /** What goes is closed under losing the last use. */
  lemma LeavingIsClosed(nodes: Nodes, id: Id, idx: nat, value: Id)
    requires id in nodes && idx < |nodes[id].content.inputs|
    requires var prev, switched := nodes[id].content.inputs[idx], Switched(nodes, id, idx, value);
      prev != value && prev in switched && Out(id, idx) in switched[prev].outs
    ensures var prev, switched := nodes[id].content.inputs[idx], Switched(nodes, id, idx, value);
      var dropped := WithoutRecord(switched, prev, Out(id, idx));
      dropped[prev].outs == [] ==>
        ClosedUnderLastUse(dropped, Leaving(nodes, id, idx, value)) && prev in Leaving(nodes, id, idx, value)
  {
    var prev, switched := nodes[id].content.inputs[idx], Switched(nodes, id, idx, value);
    var dropped := WithoutRecord(switched, prev, Out(id, idx));
    SwitchedContents(nodes, id, idx, value);
    if dropped[prev].outs == [] {
      DoomedIsClosed(dropped, prev, Leaving(nodes, id, idx, value));
    }
  }

  lemma SettledDies(before: Nodes, after: Nodes, id: Id, idx: nat, value: Id, died: seq<Id>)
    requires id in before && idx < |before[id].content.inputs|
    requires before[id].content.inputs[idx] != value && 0 !in before
    requires Settled(before, after, id, idx, value, died)
    ensures SameContents(after, Remaining(before, id, idx, value))
    ensures id !in after <==> DiesInChange(before, id, idx, value)
  {
    var prev, switched := before[id].content.inputs[idx], Switched(before, id, idx, value);
    SwitchedContents(before, id, idx, value);
    if prev != 0 {
      var dropped := WithoutRecord(switched, prev, Out(id, idx));
      CascadeShrinks(dropped, after, prev, died);
      forall n | n in before ensures n in after <==> !GoesInChange(before, id, idx, value, n) {
        CascadeIsDoomed(dropped, after, prev, died, n);
      }
    }
  }

  lemma ChangedStaysExact(env: Env, nodes: Nodes, table: seq<Entry>, id: Id, c: Content)
    requires id in nodes && TableOk(env, nodes, table, TIGHT) && c.spec == nodes[id].content.spec
    requires Interned(env, c) ==> OnlyHere(nodes, id, c)
    ensures var after := SetContent(nodes, id, c);
      TableOk(env, after, Intern(env, after, Uninterned(env, nodes, table, id), id).0, TIGHT)
  {
    var after, out := SetContent(nodes, id, c), Uninterned(env, nodes, table, id);
    UninternDrops(env, nodes, table, TIGHT, id);
    PendingMayChange(env, nodes, out, {id}, id, Node(c, nodes[id].outs));
    assert after == nodes[id := Node(c, nodes[id].outs)];
    FindsItself(env, nodes, after, out, id, c);
    InternBack(env, after, out, id);
  }

  /** Interning a node of unique content gives that node. */
  lemma FindsItself(env: Env, nodes: Nodes, after: Nodes, table: seq<Entry>, id: Id, c: Content)
    requires id in nodes && after == SetContent(nodes, id, c) && (Interned(env, c) ==> OnlyHere(nodes, id, c))
    ensures id in after && Intern(env, after, table, id).1 == id
  {
  }

  lemma BoundsKept(before: Nodes, after: Nodes, listed: seq<Entry>, table: seq<Entry>, id: Id, next: nat)
    requires InBounds(before, listed, next) && id in before && after.Keys <= before.Keys
    requires forall e :: e in table ==> e in listed || e.id == id
    ensures InBounds(after, table, next)
  {
  }

  /** Nothing dies when an input is set to what it is. */
  lemma SameDies(nodes: Nodes, id: Id, idx: nat, value: Id)
    requires id in nodes && idx < |nodes[id].content.inputs| && nodes[id].content.inputs[idx] == value
    ensures !DiesInChange(nodes, id, idx, value)
  {
  }

  /** What the change leaves, up to outputs. */
  ghost function Remaining(nodes: Nodes, id: Id, idx: nat, value: Id): Nodes
    requires id in nodes && idx < |nodes[id].content.inputs|
  {
    map n | n in nodes && !GoesInChange(nodes, id, idx, value, n) ::
      if n == id then Node(NewContent(nodes[id].content, idx, value), nodes[id].outs) else nodes[n]
  }

  lemma SwitchAtRisk(nodes: Nodes, id: Id, idx: nat, value: Id)
    requires id in nodes && idx < |nodes[id].content.inputs|
    requires var prev, switched := nodes[id].content.inputs[idx], Switched(nodes, id, idx, value);
      prev != value && prev in switched && Out(id, idx) in switched[prev].outs
    ensures var prev, switched := nodes[id].content.inputs[idx], Switched(nodes, id, idx, value);
      AtRisk(WithoutRecord(switched, prev, Out(id, idx)), Slack({}, {id}, Leaving(nodes, id, idx, value)), prev)
  {
    var prev, switched := nodes[id].content.inputs[idx], Switched(nodes, id, idx, value);
    var dropped := WithoutRecord(switched, prev, Out(id, idx));
    LeavingIsClosed(nodes, id, idx, value);
    if dropped[prev].outs != [] {
      assert Leaving(nodes, id, idx, value) == {};
      forall n | n in dropped && Outs(dropped, n) != [] ensures exists o :: o in Outs(dropped, n) {
        assert Outs(dropped, n)[0] in Outs(dropped, n);
      }
    }
  }

  lemma PrepareSwitch(env: Env, nodes: Nodes, table: seq<Entry>, id: Id, idx: nat, value: Id, tidy: bool)
    requires DefUse(nodes, IDLE) && id in nodes
    requires idx < |nodes[id].content.inputs| && (value == 0 || value in nodes)
    requires nodes[id].content.inputs[idx] != value
    requires tidy ==> TableOk(env, nodes, table, TIGHT) && ApartOrLasting(env, nodes, id, idx, value)
    ensures var prev, switched := nodes[id].content.inputs[idx], Switched(nodes, id, idx, value);
      if prev == 0 then DefUse(switched, IDLE)
      else
        && prev in switched && Out(id, idx) in switched[prev].outs
        && DefUse(WithoutRecord(switched, prev, Out(id, idx)), IDLE)
    ensures tidy ==>
      TableOk(env, Switched(nodes, id, idx, value), table, Slack({}, {id}, Leaving(nodes, id, idx, value)))
  {
    SwitchKeepsDefUse(nodes, id, idx, value);
    SwitchedContents(nodes, id, idx, value);
    if tidy {
      ChangeMakesStale(env, nodes, Switched(nodes, id, idx, value), table, id, Leaving(nodes, id, idx, value));
    }
  }

  lemma SettledFacts(env: Env, before: Nodes, after: Nodes, table: seq<Entry>, table': seq<Entry>,
                     id: Id, idx: nat, value: Id, died: seq<Id>, tidy: bool)
    requires id in before && idx < |before[id].content.inputs| && Settled(before, after, id, idx, value, died)
    requires tidy ==>
      TableOk(env, before, table, TIGHT) && Purged(env, Switched(before, id, idx, value), after, table, table', {id})
    ensures after.Keys <= before.Keys
    ensures id in after ==> after[id].content == NewContent(before[id].content, idx, value)
    ensures forall m :: m in after && m != id ==> after[m].content == before[m].content
    ensures tidy ==> EntriesKept(after, table, table')
    ensures tidy && id !in after ==> (Listed(table', id) <==> StaysStale(env, before, id, idx, value))
    ensures tidy && AllLive(before, table) ==> LiveBut(after, table', id)
  {
    var prev, switched := before[id].content.inputs[idx], Switched(before, id, idx, value);
    SwitchedContents(before, id, idx, value);
    if prev != 0 {
      CascadeShrinks(WithoutRecord(switched, prev, Out(id, idx)), after, prev, died);
    }
    if tidy && id !in after {
      DeadEntry(env, before, after, table, table', id, idx, value);
    }
    if tidy && AllLive(before, table) {
      forall e | e in table' ensures e.id in after || e.id == id {
        assert e in table;
        var i :| 0 <= i < |table| && table[i] == e;
      }
    }
  }

  /** No new entries, and those of live nodes are still there. */
  ghost predicate EntriesKept(nodes: Nodes, table: seq<Entry>, table': seq<Entry>) {
    (forall e :: e in table' ==> e in table) && (forall e :: e in table && e.id in nodes ==> e in table')
  }

  /** Only `id` may have an entry without being alive. */
  ghost predicate LiveBut(nodes: Nodes, table: seq<Entry>, id: Id) {
    forall e :: e in table ==> e.id in nodes || e.id == id
  }

  /** An entry of a dead node harms no search, but it is there. */
  lemma DiedMidChange(env: Env, after: Nodes, table: seq<Entry>, id: Id)
    requires TableOk(env, after, table, Slack({}, {id})) && id !in after
    ensures TableOk(env, after, table, TIGHT)
    ensures LiveBut(after, table, id) ==> (AllLive(after, table) <==> !Listed(table, id))
  {
    forall i | 0 <= i < |table| ensures table[i] in table {}
  }

  lemma LivedThroughChange(after: Nodes, table: seq<Entry>, before: Nodes, table': seq<Entry>, id: Id)
    requires id in after && after.Keys <= before.Keys
    requires exists listed ::
      && EntriesKept(after, table, listed) && (forall e :: e in table' ==> e in listed || e.id == id)
      && (AllLive(before, table) ==> LiveBut(after, listed, id))
    ensures AllLive(before, table) ==> AllLive(after, table')
    ensures forall e :: e in table' ==> e in table || e.id == id
  {
    forall i | 0 <= i < |table'| ensures table'[i] in table' {}
  }

  /** Out of the table under the old content, and back in under the new one. */
  function Reinterned(env: Env, nodes: Nodes, table: seq<Entry>, id: Id, c: Content): (seq<Entry>, Id)
    requires id in nodes
  {
    Intern(env, nodes, Uninterned(env, SetContent(nodes, id, c), table, id), id)
  }

  lemma ReinternOk(env: Env, before: Nodes, nodes: Nodes, listed: seq<Entry>, table: seq<Entry>, id: Id, c: Content)
    requires id in nodes && nodes[id].content.spec == c.spec
    requires id in before && before[id].content == c && nodes.Keys <= before.Keys
    requires forall m :: m in nodes && m != id ==> nodes[m].content == before[m].content
    requires TableOk(env, before, listed, TIGHT) && TableOk(env, nodes, table, Slack({}, {id}))
    requires EntriesKept(nodes, listed, table)
    ensures var (t, r) := Reinterned(env, nodes, table, id, c);
      TableOk(env, nodes, t, if r == id then TIGHT else Slack({id}, {}))
  {
    Restored(env, before, nodes, listed, table, id, c);
    TakenOut(env, nodes, table, id, c);
    InternBack(env, nodes, Uninterned(env, SetContent(nodes, id, c), table, id), id);
  }

  lemma Restored(env: Env, before: Nodes, nodes: Nodes, listed: seq<Entry>, table: seq<Entry>, id: Id, c: Content)
    requires id in nodes && nodes[id].content.spec == c.spec
    requires id in before && before[id].content == c && nodes.Keys <= before.Keys
    requires forall m :: m in nodes && m != id ==> nodes[m].content == before[m].content
    requires TableOk(env, before, listed, TIGHT) && TableOk(env, nodes, table, Slack({}, {id}))
    requires EntriesKept(nodes, listed, table)
    ensures TableOk(env, SetContent(nodes, id, c), table, TIGHT)
  {
    RestoreMakesExact(env, before, nodes, listed, table, id);
  }

  lemma InternBack(env: Env, nodes: Nodes, table: seq<Entry>, id: Id)
    requires TableOk(env, nodes, table, Slack({id}, {})) && id in nodes
    ensures var (t, r) := Intern(env, nodes, table, id);
      TableOk(env, nodes, t, if r == id then TIGHT else Slack({id}, {}))
  {
    InternKeeps(env, nodes, table, {id}, id);
    assert {id} - {id} == {};
  }

  lemma TakenOut(env: Env, nodes: Nodes, table: seq<Entry>, id: Id, c: Content)
    requires id in nodes && TableOk(env, SetContent(nodes, id, c), table, TIGHT)
    ensures TableOk(env, nodes, Uninterned(env, SetContent(nodes, id, c), table, id), Slack({id}, {}))
  {
    var back := SetContent(nodes, id, c);
    UninternDrops(env, back, table, TIGHT, id);
    PendingMayChange(env, back, Uninterned(env, back, table, id), {id}, id, nodes[id]);
    assert back[id := nodes[id]] == nodes;
  }

  lemma ReinternMembers(env: Env, nodes: Nodes, table: seq<Entry>, id: Id, c: Content)
    requires id in nodes
    ensures var (t, r) := Reinterned(env, nodes, table, id, c);
      && (forall e :: e in t ==> e in table || e.id == id)
      && (r != id ==> Interned(env, nodes[id].content) && r in nodes && nodes[r].content == nodes[id].content)
  {
    var back := SetContent(nodes, id, c);
    UninternMembers(env, back, table, id);
    InternMembers(env, nodes, Uninterned(env, back, table, id), id);
  }

  lemma DeadEntry(env: Env, before: Nodes, after: Nodes, table: seq<Entry>, table': seq<Entry>, id: Id, idx: nat,
                  value: Id)
    requires id in before && idx < |before[id].content.inputs| && id !in after
    requires TableOk(env, before, table, TIGHT)
    requires Purged(env, Switched(before, id, idx, value), after, table, table', {id})
    ensures Listed(table', id) <==> StaysStale(env, before, id, idx, value)
  {
    var c := before[id].content;
    SwitchedContents(before, id, idx, value);
    if Listed(table', id) {
      var i :| 0 <= i < |table'| && table'[i].id == id;
      assert table'[i] in table;
      var j :| 0 <= j < |table| && table[j] == table'[i];
      assert EntryOk(env, before, table[j]);
    }
    if StaysStale(env, before, id, idx, value) {
      var j :| 0 <= j < |table| && table[j].id == id;
      assert EntryOk(env, before, table[j]) && table[j] in table;
      assert table[j] in table';
    }
  }

  /** Ids yet to be allocated are unused. */
  ghost predicate InBounds(nodes: Nodes, table: seq<Entry>, next: nat) {
    (forall n :: n in nodes ==> n < next) && forall e :: e in table ==> e.id < next
  }

  /** Any equal of the node may take its place. */
  ghost predicate MayMerge(env: Env, nodes: Nodes, id: Id) {
    forall e :: id in nodes && e in nodes && e != id && nodes[e].content == nodes[id].content ==>
      MayReplace(env, nodes, e, id)
  }

  lemma EqualsMeanTheSame(env: Env, nodes: Nodes, a: Id, b: Id)
    requires a in nodes && b in nodes && nodes[a].content == nodes[b].content && Interned(env, nodes[a].content)
    ensures forall m :: Consistent(env, nodes, m) ==> m.value(a) == m.value(b)
  {
    forall m | Consistent(env, nodes, m) ensures m.value(a) == m.value(b) {
      assert Means(m, nodes[a].content, m.value(a)) && Means(m, nodes[b].content, m.value(b));
    }
  }

  /** Pinned nodes that cannot become equal to another node survive. */
  ghost predicate PinnedStay(env: Env, before: Nodes, after: Nodes, with: Id, target: Id) {
    var m := Classes(env, before, with, target);
    forall n :: n in before && n != target && Pins(before, n) > 0 && !Mergeable(env, before, m, n) ==> n in after
  }

  lemma PinnedNotMerged(env: Env, before: Nodes, after: Nodes, with: Id, target: Id, sub: Renaming)
    requires OnlyLost(before, after, sub) && Merged(env, before, sub, target)
    requires KeepsValues(sub, Classes(env, before, with, target))
    ensures PinnedStay(env, before, after, with, target)
  {
    var m := Classes(env, before, with, target);
    forall n | n in before && n != target && Pins(before, n) > 0 && !Mergeable(env, before, m, n) ensures n in after {
      if n in sub {
        assert m.value(Apply(sub, n)) == m.value(n) && Alike(env, before, sub, n, sub[n]);
        assert Partners(env, before, m, n, sub[n]);
      }
    }
  }

  lemma ClassesKeepMeanings(env: Env, before: Nodes, after: Nodes, with: Id, target: Id, sub: Renaming)
    requires Replaced(env, before, after, with, target, sub)
    requires var c := Classes(env, before, with, target); forall x :: c.value(Apply(sub, x)) == c.value(x)
    ensures forall m :: Consistent(env, before, m) && m.value(with) == m.value(target) ==>
      KeepsMeaning(env, after, sub, m) && Bounded(before, after, m)
  {
    var c := Classes(env, before, with, target);
    forall m | Consistent(env, before, m) && m.value(with) == m.value(target)
      ensures KeepsMeaning(env, after, sub, m) && Bounded(before, after, m) {
      forall x ensures m.value(Apply(sub, x)) == m.value(x) {
        assert c.value(Apply(sub, x)) == c.value(x);
        SameRepresentative(env, before, with, target, Apply(sub, x), x);
        CongruentMeanTheSame(env, before, with, target, m, Apply(sub, x), x);
      }
      ReplacedKeepsMeaning(env, before, after, with, target, sub, m);
      OnlyLostIsBounded(before, after, sub, m);
    }
  }

  class Graph {
    const env: Env
    var nodes: Nodes
    var table: seq<Entry>
    /** Where the next node is allocated. */
    var next: nat

    /** Inputs and outputs mirror each other, and ids yet to be allocated are unused. */
    ghost predicate Sound()
      reads this
    {
      DefUse(nodes, IDLE) && next > 0 && InBounds(nodes, table, next)
    }

    /** The table lists exactly the interned nodes, one per content. */
    ghost predicate Exact()
      reads this
    {
      TableOk(env, nodes, table, TIGHT)
    }

    ghost predicate Valid()
      reads this
    {
      Sound() && Exact()
    }

    constructor (env: Env)
      ensures Valid() && nodes == map[] && this.env == env
    {
      this.env := env;
      nodes, table, next := map[], [], 1;
    }

    // ---- adding nodes and edges ----

    /** Returns the live node of that content if the kind is interned and there is one, and otherwise adds one. */
    method AddRaw(spec: Spec, extra: seq<nat>, inputs: seq<Id>) returns (id: Id)
      requires Sound() && forall k :: 0 <= k < |inputs| ==> inputs[k] == 0 || inputs[k] in nodes
      modifies this
      ensures Sound() && (old(Exact()) ==> Exact())
      ensures id in nodes && nodes[id].content == Content(spec, extra, inputs)
      ensures old(AllLive(nodes, table)) ==> AllLive(nodes, table)
      ensures id in old(nodes) ==> nodes == old(nodes) && table == old(table) && Interned(env, nodes[id].content)
      ensures id !in old(nodes) ==>
        && nodes.Keys == old(nodes).Keys + {id} && nodes[id].outs == []
        && (forall m :: m in old(nodes) ==>
              nodes[m].content == old(nodes)[m].content && Pins(nodes, m) == Pins(old(nodes), m))
        && (old(Exact()) && Interned(env, nodes[id].content) ==> OnlyHere(nodes, id, nodes[id].content))
    {
      var c := Content(spec, extra, inputs);
      var slot := next;
      ghost var tidy := Exact();
      id := Claim(c);
      if id != slot { return; }
      RegisterInputs(slot, old(nodes), c, tidy);
      EntriesStayLive(old(nodes), nodes, old(table), table, slot);
      next := next + 1;
    }

    /** Writes the node into the next slot and interns it; if an equal node exists, the slot is given back. */
    method Claim(c: Content) returns (id: Id)
      requires Sound()
      modifies this`nodes, this`table
      ensures id != next ==>
        nodes == old(nodes) && table == old(table) && id in nodes && nodes[id].content == c && Interned(env, c)
      ensures id == next ==> id !in old(nodes) && nodes == old(nodes)[id := Node(c, [])]
      ensures id == next ==> forall e :: e in table ==> e in old(table) || e.id == id
      ensures id == next && old(Exact()) ==> Exact() && (Interned(env, c) ==> OnlyHere(nodes, id, c))
    {
      InternFinds(env, nodes, table, next, c);
      if Exact() { InternNew(env, nodes, table, next, c); }
      nodes := nodes[next := Node(c, [])];
      id := InternNode(next);
      if id != next {
        nodes := nodes - {next};
        assert nodes == old(nodes);
      }
    }

    method RegisterInputs(id: Id, ghost before: Nodes, c: Content, ghost tidy: bool)
      requires DefUse(before, IDLE) && id !in before && id != 0 && nodes == before[id := Node(c, [])]
      requires forall k :: 0 <= k < |c.inputs| ==> c.inputs[k] == 0 || c.inputs[k] in before
      requires tidy ==> Exact() && (Interned(env, c) ==> OnlyHere(nodes, id, c))
      modifies this`nodes
      ensures DefUse(nodes, IDLE) && (tidy ==> Exact() && (Interned(env, c) ==> OnlyHere(nodes, id, c)))
      ensures nodes.Keys == before.Keys + {id} && nodes[id] == Node(c, [])
      ensures forall m :: m in before ==> nodes[m].content == before[m].content && Pins(nodes, m) == Pins(before, m)
    {
      ghost var base := nodes;
      for k := 0 to |c.inputs|
        invariant nodes == AddUses(base, id, k)
      {
        AddUsesContents(base, id, k);
        AddOutput(c.inputs[k], Out(id, k));
      }
      AddUsesContents(base, id, |c.inputs|);
      NewNodeRegistered(before, id, c);
      if tidy {
        SameContentsSameTable(env, base, nodes, table);
        StillAlone(env, before, nodes, id);
      }
    }

    method AddOutput(n: Id, o: Out)
      requires n == 0 || n in nodes
      modifies this`nodes
      ensures nodes == AddRecord(old(nodes), n, o)
    {
      if n in nodes {
        nodes := nodes[n := Node(nodes[n].content, nodes[n].outs + [o])];
      }
    }

    /** Appends an input; connecting nil to a node pins the node. Interned users must not become equal to another
        node. */
    method Connect(use: Id, def: Id) returns (idx: nat)
      requires Sound() && (use == 0 || use in nodes) && (def == 0 || def in nodes)
      requires use != 0 ==>
        var c := nodes[use].content; Interned(env, c) ==> OnlyHere(nodes, use, c.(inputs := c.inputs + [def]))
      modifies this`nodes, this`table
      ensures Sound() && (old(Exact()) ==> Exact()) && (old(AllLive(nodes, table)) ==> AllLive(nodes, table))
      ensures use == 0 ==> idx == 0 && nodes == AddRecord(old(nodes), def, PIN)
      ensures use != 0 ==> idx == |old(nodes)[use].content.inputs|
      ensures use != 0 ==> nodes == AddRecord(SetContent(old(nodes), use,
        old(nodes)[use].content.(inputs := old(nodes)[use].content.inputs + [def])), def, Out(use, idx))
    {
      if use == 0 {
        Pin(def);
        return 0;
      }
      var c := nodes[use].content;
      idx := |c.inputs|;
      ghost var tidy := Exact();
      ConnectKeepsDefUse(nodes, use, def);
      ChangeContent(use, c.(inputs := c.inputs + [def]), tidy);
      ghost var mid := nodes;
      AddOutput(def, Out(use, idx));
      if tidy { SameContentsSameTable(env, mid, nodes, table); }
      EntriesStayLive(old(nodes), nodes, old(table), table, use);
    }

    method Pin(n: Id)
      requires Sound() && (n == 0 || n in nodes)
      modifies this`nodes
      ensures Sound() && (old(Exact()) ==> Exact()) && nodes == AddRecord(old(nodes), n, PIN)
      ensures old(AllLive(nodes, table)) ==> AllLive(nodes, table)
    {
      if n in nodes {
        PinKeepsDefUse(nodes, IDLE, n);
        if Exact() { SameContentsSameTable(env, nodes, AddRecord(nodes, n, PIN), table); }
      }
      AddOutput(n, PIN);
    }

    /** Removes a pin, and the node with it if nothing else holds it. */
    method Unpin(n: Id) returns (ghost died: seq<Id>)
      requires Sound() && n in nodes && PIN in nodes[n].outs
      modifies this`nodes, this`table
      ensures Sound() && (old(Exact()) ==> Exact())
      ensures old(Exact()) && old(AllLive(nodes, table)) ==> AllLive(nodes, table)
      ensures Cascaded(WithoutRecord(old(nodes), n, PIN), nodes, n, died)
    {
      ghost var tidy := Exact();
      UnpinKeepsDefUse(nodes, n);
      died := RemoveOutput(n, PIN, IDLE, tidy, TIGHT);
      CascadeKeepsDefUse(WithoutRecord(old(nodes), n, PIN), nodes, n, died, IDLE);
      CascadeShrinks(WithoutRecord(old(nodes), n, PIN), nodes, n, died);
      if tidy && old(AllLive(nodes, table)) { PurgedLive(env, old(nodes), nodes, old(table), table); }
    }

    /** Deletes a node that nothing uses, when no other deletion is under way. */
    method Delete(id: Id) returns (ghost order: seq<Id>)
      requires Sound() && id in nodes
      modifies this`nodes, this`table
      ensures Sound() && (old(Exact()) ==> Exact())
      ensures old(Exact()) && old(AllLive(nodes, table)) ==> AllLive(nodes, table)
      ensures Cascaded(old(nodes), nodes, id, order)
    {
      ghost var tidy := Exact();
      order := DeleteNode(id, IDLE, tidy, TIGHT);
      CascadeKeepsDefUse(old(nodes), nodes, id, order, IDLE);
      CascadeShrinks(old(nodes), nodes, id, order);
      if tidy && old(AllLive(nodes, table)) { PurgedLive(env, old(nodes), nodes, old(table), table); }
    }

    /** Makes the node read `value` at input idx and lets go of what it read there, which may delete nodes, even
        the node itself when it is part of a dying cycle. Returns the node that stands for the new content. */
    method SetInput(id: Id, idx: nat, value: Id) returns (r: Id, ghost died: seq<Id>)
      requires Sound() && id in nodes && idx < |nodes[id].content.inputs| && (value == 0 || value in nodes)
      modifies this`nodes, this`table
      ensures Sound() && (id !in nodes <==> DiesInChange(old(nodes), id, idx, value))
      ensures id !in nodes ==> r == id
      ensures old(nodes)[id].content.inputs[idx] == value ==>
        r == id && died == [] && nodes == old(nodes) && table == old(table)
      ensures old(nodes)[id].content.inputs[idx] != value ==> Settled(old(nodes), nodes, id, idx, value, died)
      ensures id in nodes && r != id ==>
        r in nodes && nodes[r].content == nodes[id].content && Interned(env, nodes[id].content)
      ensures old(Exact()) && ApartOrLasting(env, old(nodes), id, idx, value) ==>
        TableOk(env, nodes, table, if id !in nodes || r == id then TIGHT else Slack({id}, {}))
      ensures old(Exact()) && ApartOrLasting(env, old(nodes), id, idx, value) && old(AllLive(nodes, table)) ==>
        (AllLive(nodes, table) <==>
          !(DiesInChange(old(nodes), id, idx, value) && StaysStale(env, old(nodes), id, idx, value)))
    {
      r, died := id, [];
      if nodes[id].content.inputs[idx] == value {
        SameDies(nodes, id, idx, value);
        return;
      }
      r, died := SetOther(id, idx, value, Exact() && ApartOrLasting(env, nodes, id, idx, value));
    }

    method SetOther(id: Id, idx: nat, value: Id, ghost tidy: bool) returns (r: Id, ghost died: seq<Id>)
      requires Sound() && id in nodes && idx < |nodes[id].content.inputs| && (value == 0 || value in nodes)
      requires nodes[id].content.inputs[idx] != value
      requires tidy ==> Exact() && ApartOrLasting(env, nodes, id, idx, value)
      modifies this`nodes, this`table
      ensures Sound() && (id !in nodes <==> DiesInChange(old(nodes), id, idx, value)) && (id !in nodes ==> r == id)
      ensures Settled(old(nodes), nodes, id, idx, value, died)
      ensures id in nodes && r != id ==>
        r in nodes && nodes[r].content == nodes[id].content && Interned(env, nodes[id].content)
      ensures tidy ==> TableOk(env, nodes, table, if id !in nodes || r == id then TIGHT else Slack({id}, {}))
      ensures tidy && old(AllLive(nodes, table)) ==>
        (AllLive(nodes, table) <==>
          !(DiesInChange(old(nodes), id, idx, value) && StaysStale(env, old(nodes), id, idx, value)))
    {
      r := id;
      var c := nodes[id].content;
      died := ChangeInput(id, idx, value, tidy);
      if id in nodes {
        r := PutBack(id, c, NewContent(c, idx, value), old(nodes), old(table), tidy);
      } else if tidy {
        DiedMidChange(env, nodes, table, id);
      }
      BoundsKept(old(nodes), nodes, old(table), table, id, next);
    }

    method PutBack(id: Id, c: Content, c': Content, ghost before: Nodes, ghost listed: seq<Entry>, ghost tidy: bool)
      returns (r: Id)
      requires id in nodes && nodes[id].content == c' && c'.spec == c.spec && DefUse(nodes, IDLE)
      requires id in before && before[id].content == c && nodes.Keys <= before.Keys
      requires forall m :: m in nodes && m != id ==> nodes[m].content == before[m].content
      requires tidy ==>
        TableOk(env, before, listed, TIGHT) && TableOk(env, nodes, table, Slack({}, {id}))
          && EntriesKept(nodes, listed, table)
      requires tidy && AllLive(before, listed) ==> LiveBut(nodes, table, id)
      modifies this`nodes, this`table
      ensures nodes == old(nodes)
      ensures r != id ==> Interned(env, c') && r in nodes && nodes[r].content == c'
      ensures tidy ==> TableOk(env, nodes, table, if r == id then TIGHT else Slack({id}, {}))
      ensures tidy && AllLive(before, listed) ==> AllLive(nodes, table)
      ensures forall e :: e in table ==> e in old(table) || e.id == id
    {
      r := Reintern(id, c, c', before, listed, tidy);
      if tidy { LivedThroughChange(nodes, listed, before, table, id); }
    }

    /** The node reads the new value and has let go of the old one; its entry is stale. */
    method ChangeInput(id: Id, idx: nat, value: Id, ghost tidy: bool) returns (ghost died: seq<Id>)
      requires Sound() && id in nodes && idx < |nodes[id].content.inputs| && (value == 0 || value in nodes)
      requires nodes[id].content.inputs[idx] != value
      requires tidy ==> Exact() && ApartOrLasting(env, nodes, id, idx, value)
      modifies this`nodes, this`table
      ensures DefUse(nodes, IDLE) && Settled(old(nodes), nodes, id, idx, value, died)
      ensures (id !in nodes <==> DiesInChange(old(nodes), id, idx, value)) && nodes.Keys <= old(nodes).Keys
      ensures id in nodes ==> nodes[id].content == NewContent(old(nodes)[id].content, idx, value)
      ensures forall m :: m in nodes && m != id ==> nodes[m].content == old(nodes)[m].content
      ensures forall e :: e in table ==> e in old(table)
      ensures tidy ==> TableOk(env, nodes, table, Slack({}, {id})) && EntriesKept(nodes, old(table), table)
      ensures tidy && id !in nodes ==> (Listed(table, id) <==> StaysStale(env, old(nodes), id, idx, value))
      ensures tidy && old(AllLive(nodes, table)) ==> LiveBut(nodes, table, id)
    {
      var prev := nodes[id].content.inputs[idx];
      PrepareSwitch(env, nodes, table, id, idx, value, tidy);
      SwitchInput(id, idx, value);
      if prev != 0 { SwitchAtRisk(old(nodes), id, idx, value); }
      died := LetGoOfPrevious(id, idx, prev, tidy, Leaving(old(nodes), id, idx, value));
      SettledFacts(env, old(nodes), nodes, old(table), table, id, idx, value, died, tidy);
      SettledDies(old(nodes), nodes, id, idx, value, died);
    }

    method SwitchInput(id: Id, idx: nat, value: Id)
      requires id in nodes && idx < |nodes[id].content.inputs| && (value == 0 || value in nodes)
      modifies this`nodes
      ensures nodes == Switched(old(nodes), id, idx, value)
    {
      var c := nodes[id].content;
      AddOutput(value, Out(id, idx));
      nodes := nodes[id := Node(c.(inputs := c.inputs[idx := value]), nodes[id].outs)];
    }

    /** Takes a node out of the table, changes it and puts it back. */
    method ChangeContent(id: Id, c: Content, ghost tidy: bool)
      requires id in nodes && (tidy ==> Exact()) && c.spec == nodes[id].content.spec
      requires Interned(env, c) ==> OnlyHere(nodes, id, c)
      modifies this`nodes, this`table
      ensures nodes == SetContent(old(nodes), id, c) && (tidy ==> Exact())
      ensures forall e :: e in table ==> e in old(table) || e.id == id
    {
      ghost var before := nodes;
      if tidy { ChangedStaysExact(env, nodes, table, id, c); }
      UninternMembers(env, nodes, table, id);
      Unintern(id);
      SetContentOf(id, c);
      InternMembers(env, nodes, table, id);
      FindsItself(env, before, nodes, table, id, c);
      var nid := InternNode(id);
      assert nid == id;
    }

    /** Rewrites the first matching record of n; nil has none. */
    method RetargetRecord(n: Id, from: Out, to: Out, ghost tidy: bool)
      requires tidy ==> Exact()
      modifies this`nodes
      ensures nodes == RetargetAt(old(nodes), n, from, to) && (tidy ==> Exact())
      ensures nodes.Keys == old(nodes).Keys && forall m :: m in nodes ==> nodes[m].content == old(nodes)[m].content
    {
      if n in nodes {
        if tidy { SameContentsSameTable(env, nodes, RetargetAt(nodes, n, from, to), table); }
        nodes := nodes[n := Node(nodes[n].content, Retarget(nodes[n].outs, from, to))];
      }
    }

    method SwapInputs(id: Id, i: nat, j: nat)
      requires Sound() && id in nodes && i < |nodes[id].content.inputs| && j < |nodes[id].content.inputs|
      requires var c := nodes[id].content; Interned(env, c) ==>
        OnlyHere(nodes, id, c.(inputs := SwapTwo(c.inputs, i, j)))
      modifies this`nodes, this`table
      ensures Sound() && (old(Exact()) ==> Exact()) && nodes == Swapped(old(nodes), id, i, j)
      ensures old(AllLive(nodes, table)) ==> AllLive(nodes, table)
    {
      var c := nodes[id].content;
      ghost var tidy := Exact();
      SwapKeepsDefUse(nodes, id, i, j);
      RetargetRecord(c.inputs[i], Out(id, i), Out(id, j), tidy);
      RetargetRecord(c.inputs[j], Out(id, j), Out(id, i), tidy);
      ChangeContent(id, c.(inputs := SwapTwo(c.inputs, i, j)), tidy);
      EntriesStayLive(old(nodes), nodes, old(table), table, id);
    }

    method Unintern(id: Id)
      requires id in nodes
      modifies this`table
      ensures table == Uninterned(env, nodes, old(table), id)
    {
      if !Interned(env, nodes[id].content) { return; }
      var idx := Find(nodes, table, id, env.hash(nodes[id].content), 0);
      if idx < 0 { return; }
      if table[idx].id != id { return; }
      var last := |table| - 1;
      table := table[idx := table[last]];
      table := table[..last];
    }

    method InternNode(id: Id) returns (r: Id)
      requires id in nodes
      modifies this`table
      ensures (table, r) == Intern(env, nodes, old(table), id)
    {
      if !Interned(env, nodes[id].content) { return id; }
      var hash := env.hash(nodes[id].content);
      var idx := Find(nodes, table, id, hash, 0);
      if idx >= 0 { return table[idx].id; }
      table := table + [Entry(hash, id)];
      return id;
    }

    /** Lets go of the value an input had before. */
    method LetGoOfPrevious(id: Id, idx: nat, prev: Id, ghost tidy: bool, ghost risk: set<Id>)
      returns (ghost died: seq<Id>)
      requires if prev == 0 then DefUse(nodes, IDLE)
        else prev in nodes && Out(id, idx) in nodes[prev].outs && DefUse(WithoutRecord(nodes, prev, Out(id, idx)), IDLE)
      requires tidy ==> TableOk(env, nodes, table, Slack({}, {id}, risk))
      requires tidy && prev != 0 ==> AtRisk(WithoutRecord(nodes, prev, Out(id, idx)), Slack({}, {id}, risk), prev)
      modifies this`nodes, this`table
      ensures DefUse(nodes, IDLE)
      ensures if prev == 0 then died == [] && nodes == old(nodes) && table == old(table)
        else Cascaded(WithoutRecord(old(nodes), prev, Out(id, idx)), nodes, prev, died)
      ensures forall e :: e in table ==> e in old(table)
      ensures tidy ==>
        TableOk(env, nodes, table, Slack({}, {id})) && Purged(env, old(nodes), nodes, old(table), table, {id})
    {
      died := [];
      if prev != 0 {
        died := RemoveOutput(prev, Out(id, idx), IDLE, tidy, Slack({}, {id}, risk));
        CascadeKeepsDefUse(WithoutRecord(old(nodes), prev, Out(id, idx)), nodes, prev, died, IDLE);
      }
    }

    /** The node goes back to its old content to be taken out of the table, then on to the new one. */
    method Reintern(id: Id, c: Content, c': Content, ghost before: Nodes, ghost listed: seq<Entry>, ghost tidy: bool)
      returns (r: Id)
      requires id in nodes && nodes[id].content == c' && c'.spec == c.spec && DefUse(nodes, IDLE)
      requires id in before && before[id].content == c && nodes.Keys <= before.Keys
      requires forall m :: m in nodes && m != id ==> nodes[m].content == before[m].content
      requires tidy ==> TableOk(env, before, listed, TIGHT) && TableOk(env, nodes, table, Slack({}, {id}))
      requires tidy ==> EntriesKept(nodes, listed, table)
      modifies this`nodes, this`table
      ensures nodes == old(nodes)
      ensures r != id ==> Interned(env, c') && r in nodes && nodes[r].content == c'
      ensures tidy ==> TableOk(env, nodes, table, if r == id then TIGHT else Slack({id}, {}))
      ensures forall e :: e in table ==> e in old(table) || e.id == id
    {
      if tidy { ReinternOk(env, before, nodes, listed, table, id, c); }
      ReinternMembers(env, nodes, table, id, c);
      SetContentOf(id, c);
      Unintern(id);
      SetContentOf(id, c');
      assert nodes == old(nodes);
      r := InternNode(id);
    }

    method SetContentOf(id: Id, c: Content)
      requires id in nodes
      modifies this`nodes
      ensures nodes == SetContent(old(nodes), id, c)
    {
      nodes := nodes[id := Node(c, nodes[id].outs)];
    }

    /** Removes one record from n and deletes n if that was its last. */
    method RemoveOutput(n: Id, o: Out, ghost progress: Progress, ghost tidy: bool, ghost slack: Slack)
      returns (ghost died: seq<Id>)
      requires n in nodes && o in nodes[n].outs && n !in progress
      requires DefUse(WithoutRecord(nodes, n, o), progress) && (tidy ==> TableOk(env, nodes, table, slack))
      requires tidy ==> AtRisk(WithoutRecord(nodes, n, o), slack, n)
      modifies this`nodes, this`table
      ensures Cascaded(WithoutRecord(old(nodes), n, o), nodes, n, died) && forall e :: e in table ==> e in old(table)
      ensures tidy ==>
        TableOk(env, nodes, table, slack) && Purged(env, old(nodes), nodes, old(table), table, slack.stale)
      decreases nodes.Keys - progress.Keys, 2
    {
      if tidy { TableSurvives(env, nodes, WithoutRecord(nodes, n, o), table, slack); }
      RemoveRecord(n, o);
      died := DeleteNode(n, progress, tidy, slack);
    }

    method RemoveRecord(n: Id, o: Out)
      requires n in nodes && o in nodes[n].outs
      modifies this`nodes
      ensures nodes == WithoutRecord(old(nodes), n, o)
    {
      nodes := WithoutRecord(nodes, n, o);
    }

    /** Removes a node that has let go of all its inputs. */
    method Forget(id: Id)
      requires id in nodes
      modifies this`nodes, this`table
      ensures table == Uninterned(env, old(nodes), old(table), id) && nodes == old(nodes) - {id}
    {
      Unintern(id);
      nodes := nodes - {id};
    }

    /** Deletes a node without outputs, then whatever that leaves without outputs. */
    method DeleteNode(id: Id, ghost progress: Progress, ghost tidy: bool, ghost slack: Slack)
      returns (ghost order: seq<Id>)
      requires id in nodes && id !in progress
      requires DefUse(nodes, progress) && (tidy ==> TableOk(env, nodes, table, slack) && AtRisk(nodes, slack, id))
      modifies this`nodes, this`table
      ensures Cascaded(old(nodes), nodes, id, order) && forall e :: e in table ==> e in old(table)
      ensures tidy ==>
        TableOk(env, nodes, table, slack) && Purged(env, old(nodes), nodes, old(table), table, slack.stale)
      decreases nodes.Keys - progress.Keys, 1
    {
      order := [];
      if nodes[id].outs != [] {
        forall n | n in nodes ensures SurvivesPruning(nodes, nodes, [], n) {}
        return;
      }
      ghost var before, listed := nodes, table;
      StartReleasing(env, nodes, table, id, progress, tidy, slack);
      order := [id];
      var inputs := nodes[id].content.inputs;
      for i := 0 to |inputs|
        invariant Releasing(env, before, nodes, listed, table, order, id, i, progress, tidy, slack)
        invariant forall e :: e in table ==> e in listed
      {
        ghost var died := ReleaseInput(id, i, before, listed, order, progress, tidy, slack);
        order := order + died;
      }
      FinishReleasing(env, before, nodes, listed, table, order, id, progress, tidy, slack);
      UninternMembers(env, nodes, table, id);
      Forget(id);
    }

    method ReleaseInput(id: Id, i: nat, ghost before: Nodes, ghost listed: seq<Entry>, ghost order: seq<Id>,
                        ghost progress: Progress, ghost tidy: bool, ghost slack: Slack)
      returns (ghost died: seq<Id>)
      requires id in before && before[id].outs == [] && DefUse(before, progress) && id !in progress
      requires Releasing(env, before, nodes, listed, table, order, id, i, progress, tidy, slack)
      requires i < |Inputs(nodes, id)|
      modifies this`nodes, this`table
      ensures Releasing(env, before, nodes, listed, table, order + died, id, i + 1, progress, tidy, slack)
      ensures forall e :: e in table ==> e in old(table)
      decreases before.Keys - progress.Keys, 0
    {
      var inp := nodes[id].content.inputs[i];
      ghost var now, entries := nodes, table;
      died := [];
      if inp == 0 {
        LetGoOfNil(before, nodes, progress, order, id, i);
        assert order + [] == order;
        return;
      }
      assert InputsLive(nodes, progress[id := i], id);
      LetGoOfInput(nodes, progress, id, i);
      FewerLeft(before, now, progress, order, id, i);
      if tidy { ReleasedAtRisk(now, slack, id, inp, i); }
      died := RemoveOutput(inp, Out(id, i), progress[id := i + 1], tidy, slack);
      ReleasedNext(env, before, now, nodes, listed, entries, table, order, died, id, i, progress, tidy, slack);
    }

    // ---- replacing a node ----

    /** Replaces a node. Unless merges come round to a node whose replacement is under way, every surviving use
        reads the replacement, users that become equal are merged, and all meanings that agree on the two are kept. */
    method Replace(with: Id, target: Id) returns (ok: bool, ghost sub: Renaming)
      requires Valid() && with in nodes && target in nodes && with != target
      modifies this`nodes, this`table
      ensures old(MayReplace(env, nodes, with, target)) ==> ok
      ensures ok ==> Valid() && (old(AllLive(nodes, table)) ==> AllLive(nodes, table))
      ensures ok ==> Replaced(env, old(nodes), nodes, with, target, sub)
      ensures ok ==> forall m :: Consistent(env, old(nodes), m) && m.value(with) == m.value(target) ==>
        KeepsMeaning(env, nodes, sub, m) && Bounded(old(nodes), nodes, m)
      ensures ok ==> PinnedStay(env, old(nodes), nodes, with, target)
    {
      ok, sub := ReplacePending(with, target, {});
    }

    /** set_input with subsume_on_intern: if the changed node has become equal to another one, that one replaces it. */
    method SetInputMerging(id: Id, idx: nat, value: Id)
      returns (ok: bool, r: Id, ghost mid: Nodes, ghost died: seq<Id>, ghost sub: Renaming)
      requires Valid() && id in nodes && idx < |nodes[id].content.inputs| && (value == 0 || value in nodes)
      requires ApartOrLasting(env, nodes, id, idx, value)
      modifies this`nodes, this`table
      ensures old(MayMerge(env, Remaining(nodes, id, idx, value), id)) ==> ok
      ensures ok ==> Valid()
      ensures old(nodes)[id].content.inputs[idx] == value ==>
        ok && r == id && nodes == old(nodes) && table == old(table)
      ensures old(nodes)[id].content.inputs[idx] != value ==> Settled(old(nodes), mid, id, idx, value, died)
      ensures r == id ==> ok && nodes == mid
      ensures r != id ==> id in mid && r in mid && mid[r].content == mid[id].content
      ensures r != id && ok ==> Replaced(env, mid, nodes, r, id, sub)
      ensures r != id && ok ==> forall m :: Consistent(env, mid, m) ==>
        KeepsMeaning(env, nodes, sub, m) && Bounded(mid, nodes, m)
      ensures ok && old(AllLive(nodes, table)) ==>
        (AllLive(nodes, table) <==>
          !(DiesInChange(old(nodes), id, idx, value) && StaysStale(env, old(nodes), id, idx, value)))
    {
      r, died := SetInput(id, idx, value);
      ok, mid, sub := true, nodes, map[];
      if r != id {
        SettledDies(old(nodes), nodes, id, idx, value, died);
        if old(MayMerge(env, Remaining(nodes, id, idx, value), id)) {
          MayReplaceByContents(env, Remaining(old(nodes), id, idx, value), nodes, r, id);
        }
        ok, sub := MergeAway(r, id);
      }
    }

    /** Replaces a node that is missing from the table by its equal. */
    method MergeAway(r: Id, id: Id) returns (ok: bool, ghost sub: Renaming)
      requires DefUse(nodes, IDLE) && TableOk(env, nodes, table, Slack({id}, {}))
      requires InBounds(nodes, table, next) && next > 0
      requires r in nodes && id in nodes && r != id
      requires nodes[r].content == nodes[id].content && Interned(env, nodes[id].content)
      modifies this`nodes, this`table
      ensures old(MayReplace(env, nodes, r, id)) ==> ok
      ensures ok ==> Valid() && Replaced(env, old(nodes), nodes, r, id, sub)
      ensures ok && old(AllLive(nodes, table)) ==> AllLive(nodes, table)
      ensures ok ==> forall m :: Consistent(env, old(nodes), m) ==>
        KeepsMeaning(env, nodes, sub, m) && Bounded(old(nodes), nodes, m)
    {
      EqualsMeanTheSame(env, nodes, r, id);
      ok, sub := ReplacePending(r, id, {id});
      if ok { PendingGone(env, nodes, table, TIGHT, id); }
    }

    /** The same while some nodes are missing from the table. */
    method ReplacePending(with: Id, target: Id, ghost pending: set<Id>) returns (ok: bool, ghost sub: Renaming)
      requires DefUse(nodes, IDLE) && TableOk(env, nodes, table, Slack(pending, {})) && InBounds(nodes, table, next)
      requires with in nodes && target in nodes && with != target
      modifies this`nodes, this`table
      ensures old(MayReplace(env, nodes, with, target)) ==> ok
      ensures ok ==>
        DefUse(nodes, IDLE) && TableOk(env, nodes, table, Slack(pending, {})) && InBounds(nodes, table, next)
      ensures ok ==> (old(AllLive(nodes, table)) ==> AllLive(nodes, table))
      ensures ok ==> Replaced(env, old(nodes), nodes, with, target, sub)
      ensures ok ==> forall m :: Consistent(env, old(nodes), m) && m.value(with) == m.value(target) ==>
        KeepsMeaning(env, nodes, sub, m) && Bounded(old(nodes), nodes, m)
      ensures ok ==> PinnedStay(env, old(nodes), nodes, with, target)
    {
      ghost var m := Classes(env, nodes, with, target);
      ghost var ranked := MayReplace(env, nodes, with, target);
      ghost var rank := Lifted(env, nodes, m, with, target);
      ClassesAreConsistent(env, nodes, with, target);
      if ranked { SeparableIsReplaceable(env, nodes, m, with, target); }
      ghost var rank';
      ok, rank', sub := Subsume(with, target, pending, ranked, rank, m);
      if ok {
        WentIsReplaced(env, old(nodes), old(table), nodes, table, sub, m, with, target, pending, next);
        ClassesKeepMeanings(env, old(nodes), nodes, with, target, sub);
        PinnedNotMerged(env, old(nodes), nodes, with, target, sub);
      }
    }

    /** Puts `with` in the place of `target`: every use of the target that survives reads `with` (or what `with`'s
        equals were merged into), and users that become equal to an existing node are replaced by it in turn. Gives up
        if merges come round to a node whose replacement is under way, which cannot happen where there are ranks. */
    method Subsume(with: Id, target: Id, ghost pending: set<Id>, ghost ranked: bool, ghost rank: Ranks,
                   ghost m: Meaning)
      returns (ok: bool, ghost rank': Ranks, ghost sub: Renaming)
      requires Begun(env, nodes, with, target, m) && TableOk(env, nodes, table, Slack(pending, {}))
      requires ranked ==> Ranked(env, nodes, m, rank) && Replaceable(env, nodes, with, target, rank, m)
      modifies this`nodes, this`table
      ensures ok ==> Went(env, old(nodes), old(table), nodes, table, pending, sub, m, target)
      ensures ok ==> target !in nodes && Apply(sub, target) == with
      ensures ranked ==> ok && Climbed(env, old(nodes), nodes, rank, rank', Rank(rank, target), m, target)
      decreases nodes.Keys, 0
    {
      var kept := TakeOver(with, target, pending, ranked, rank, m);
      ok, rank', sub := MergeUsers(kept, with, target, old(nodes), old(table), pending, ranked, rank, m);
      if ok { ok := Release(with, target, old(nodes), old(table), pending, ranked, rank, rank', sub, m); }
    }

    /** Gives up the pin on `with`, which may delete it; fails exactly if `with` was itself merged into another node. */
    method Release(with: Id, ghost target: Id, ghost start: Nodes, ghost listed: seq<Entry>, ghost pending: set<Id>,
                   ghost ranked: bool, ghost rank: Ranks, ghost rank': Ranks, ghost sub: Renaming, ghost m: Meaning)
      returns (ok: bool)
      requires DefUse(start, IDLE)
      requires Merging(env, start, listed, nodes, table, [], pending, ranked, rank, rank', sub, m, with, target)
      modifies this`nodes, this`table
      ensures ok <==> with !in sub
      ensures ok ==> Went(env, start, listed, nodes, table, pending, sub, m, target)
      ensures ok ==> target !in nodes && Apply(sub, target) == with
      ensures ranked ==> ok && Climbed(env, start, nodes, rank, rank', Rank(rank, target), m, target)
    {
      if with !in nodes { return false; }
      assert pending + UserIds([]) == pending;
      UnpinKeepsDefUse(nodes, with);
      ghost var died := RemoveOutput(with, PIN, IDLE, true, Slack(pending, {}));
      WentReleased(env, start, listed, old(nodes), old(table), nodes, table, pending, sub, m, target, with, died);
      if ranked {
        ClimbedReleased(env, start, old(nodes), nodes, rank, rank', sub, Rank(rank, target), m, target, with, died);
      }
      return true;
    }

    /** Removes the target and returns the records of its users that are left. */
    method TakeOver(with: Id, target: Id, ghost pending: set<Id>, ghost ranked: bool, ghost rank: Ranks,
                    ghost m: Meaning)
      returns (kept: seq<Out>)
      requires Begun(env, nodes, with, target, m) && TableOk(env, nodes, table, Slack(pending, {}))
      requires ranked ==> Ranked(env, nodes, m, rank) && Replaceable(env, nodes, with, target, rank, m)
      modifies this`nodes, this`table
      ensures Merging(env, old(nodes), old(table), nodes, table, kept, pending, ranked, rank, rank, map[target := with],
                      m, with, target)
      ensures nodes.Keys < old(nodes).Keys
      ensures forall o :: o in kept ==> o in old(nodes)[target].outs && o != PIN
    {
      var outs := nodes[target].outs;
      RemoveTarget(with, target, pending, ranked, rank, m);
      kept := StillRecorded(outs, with);
      KeptWent(env, old(nodes), old(table), nodes, table, with, target, m, pending, kept);
    }

    /** Redirects the uses, pins `with` and deletes the target. */
    method RemoveTarget(with: Id, target: Id, ghost pending: set<Id>, ghost ranked: bool, ghost rank: Ranks,
                        ghost m: Meaning)
      requires Begun(env, nodes, with, target, m) && TableOk(env, nodes, table, Slack(pending, {}))
      requires ranked ==> Ranked(env, nodes, m, rank) && Replaceable(env, nodes, with, target, rank, m)
      modifies this`nodes, this`table
      ensures Went(env, old(nodes), old(table), nodes, table, pending + UserIds(old(nodes)[target].outs),
                   map[target := with], m, target)
      ensures ranked ==> Climbed(env, old(nodes), nodes, rank, rank, Rank(rank, target), m, target)
      ensures target !in nodes && with in nodes
      ensures Pins(nodes, with) > Pins(old(nodes), with) && nodes.Keys < old(nodes).Keys
    {
      ghost var users := pending + UserIds(nodes[target].outs);
      RedirectUses(with, target, pending);
      ghost var order := DropTarget(with, target, old(nodes), old(table), users);
      TargetWent(env, old(nodes), old(table), nodes, table, users, with, target, order, m);
      if ranked { TargetClimbed(env, old(nodes), nodes, with, target, order, rank, m); }
    }

    method DropTarget(with: Id, target: Id, ghost start: Nodes, ghost listed: seq<Entry>, ghost users: set<Id>)
      returns (ghost order: seq<Id>)
      requires DefUse(start, IDLE) && with in start && target in start
      requires with != target && nodes == Redirected(start, target, with)
      requires TableOk(env, nodes, table, Slack(users, {})) && forall e :: e in table ==> e in listed
      modifies this`nodes, this`table
      ensures target in Taken(start, target, with) && Cascaded(Taken(start, target, with), nodes, target, order)
      ensures TableOk(env, nodes, table, Slack(users, {})) && EntriesFrom(start, listed, nodes, table)
      ensures forall e :: e in table ==> e in old(table)
    {
      TakenStaysOk(env, start, table, with, target, users);
      AddOutput(with, PIN);
      order := DeleteNode(target, IDLE, true, Slack(users, {}));
      EntriesAfterTakeOver(env, start, listed, old(nodes), old(table), nodes, table);
    }

    method RedirectUses(with: Id, target: Id, ghost pending: set<Id>)
      requires DefUse(nodes, IDLE) && TableOk(env, nodes, table, Slack(pending, {}))
      requires with in nodes && target in nodes && with != target
      modifies this`nodes, this`table
      ensures nodes == Redirected(old(nodes), target, with)
      ensures TableOk(env, nodes, table, Slack(pending + UserIds(old(nodes)[target].outs), {}))
      ensures Unlisted(table, UserIds(old(nodes)[target].outs)) && forall e :: e in table ==> e in old(table)
    {
      var outs := nodes[target].outs;
      ghost var start, listed := nodes, table;
      SwingBegins(env, start, listed, with, target, pending);
      MoveRecords(with, target);
      for i := 0 to |outs|
        invariant Swinging(env, start, listed, nodes, table, outs, i, with, target, pending)
      {
        RedirectUse(start, outs, i, with, target, pending);
        assert forall e :: e in table ==> e in listed;
      }
      assert outs[..|outs|] == outs;
      RedirectEnds(start, target, with);
    }

    method MoveRecords(with: Id, target: Id)
      requires with in nodes && target in nodes && with != target
      modifies this`nodes
      ensures nodes ==
        old(nodes)[with := Node(old(nodes)[with].content, old(nodes)[with].outs + old(nodes)[target].outs)]
                                 [target := Node(old(nodes)[target].content, [])]
    {
      var outs := nodes[target].outs;
      nodes := nodes[with := Node(nodes[with].content, nodes[with].outs + outs)];
      nodes := nodes[target := Node(nodes[target].content, [])];
    }

    /** Takes the user out of the table and makes it read `with`; pins have no user. */
    method RedirectUse(ghost start: Nodes, outs: seq<Out>, i: nat, with: Id, ghost target: Id, ghost pending: set<Id>)
      requires DefUse(start, IDLE) && with in start && target in start
      requires with != target && outs == start[target].outs && i < |outs|
      requires nodes == PartRedirected(start, target, with, outs[..i])
      requires TableOk(env, nodes, table, Slack(pending + UserIds(outs[..i]), {}))
      requires Unlisted(table, UserIds(outs[..i]))
      modifies this`nodes, this`table
      ensures nodes == PartRedirected(start, target, with, outs[..i + 1])
      ensures TableOk(env, nodes, table, Slack(pending + UserIds(outs[..i + 1]), {}))
      ensures Unlisted(table, UserIds(outs[..i + 1])) && forall e :: e in table ==> e in old(table)
    {
      var o := outs[i];
      ghost var done, users := UserIds(outs[..i]), UserIds(outs[..i + 1]);
      UserIdsLast(outs, i);
      assert outs[..i + 1] == outs[..i] + [o] && users == done + {o.id};
      if o == PIN {
        RedirectSkipsPin(start, target, with, outs[..i]);
        Loosen(env, nodes, table, pending + done, pending + users);
        return;
      }
      RecordIsUse(start, target, o);
      RedirectOne(start, target, with, outs[..i], o);
      var c := nodes[o.id].content;
      var swung := c.(inputs := c.inputs[o.idx := with]);
      assert pending + users == pending + done + {o.id};
      UserTakenOut(env, nodes, table, pending + done, done, o.id, swung);
      Unintern(o.id);
      SetContentOf(o.id, swung);
    }

    /** The records of the target that `with` still holds. */
    method StillRecorded(outs: seq<Out>, with: Id) returns (kept: seq<Out>)
      requires with in nodes
      ensures Kept(kept, outs, nodes[with].outs)
    {
      kept := [];
      var taken := nodes[with].outs;
      for i := 0 to |outs|
        invariant Kept(kept, outs[..i], taken)
      {
        ghost var before := kept;
        if outs[i] != PIN {
          for j := 0 to |taken|
            invariant forall o :: o in kept <==> o in before || (o == outs[i] && o in taken[..j])
          {
            if taken[j] == outs[i] { kept := kept + [outs[i]]; }
          }
          assert taken[..|taken|] == taken;
        }
      }
      assert outs[..|outs|] == outs;
    }

    /** Interns the former users again, last one first. */
    method MergeUsers(kept: seq<Out>, ghost with: Id, ghost target: Id, ghost start: Nodes, ghost listed: seq<Entry>,
                      ghost pending: set<Id>, ghost ranked: bool, ghost rank: Ranks, ghost m: Meaning)
      returns (ok: bool, ghost rank': Ranks, ghost sub: Renaming)
      requires Begun(env, start, with, target, m) && (ranked ==> Replaceable(env, start, with, target, rank, m))
      requires forall o :: o in kept ==> o in start[target].outs && o != PIN
      requires Merging(env, start, listed, nodes, table, kept, pending, ranked, rank, rank, map[target := with], m,
                       with, target)
      modifies this`nodes, this`table
      ensures ok ==> Merging(env, start, listed, nodes, table, [], pending, ranked, rank, rank', sub, m, with, target)
      ensures ranked ==> ok
      decreases nodes.Keys, 4
    {
      ok, rank', sub := true, rank, map[target := with];
      var i := |kept|;
      assert kept[..i] == kept;
      while i > 0
        invariant i <= |kept| && nodes.Keys <= old(nodes).Keys
        invariant Merging(env, start, listed, nodes, table, kept[..i], pending, ranked, rank, rank', sub, m,
                          with, target)
      {
        i := i - 1;
        ok, rank', sub := MergeLast(kept, i, with, target, start, listed, pending, ranked, rank, rank', sub, m);
        if !ok { return; }
      }
      ok := true;
    }

    method MergeLast(kept: seq<Out>, i: nat, ghost with: Id, ghost target: Id, ghost start: Nodes,
                     ghost listed: seq<Entry>, ghost pending: set<Id>, ghost ranked: bool, ghost rank: Ranks,
                     ghost rank0: Ranks, ghost sub0: Renaming, ghost m: Meaning)
      returns (ok: bool, ghost rank': Ranks, ghost sub: Renaming)
      requires Begun(env, start, with, target, m) && (ranked ==> Replaceable(env, start, with, target, rank, m))
      requires i < |kept| && kept[i] in start[target].outs && kept[i] != PIN
      requires Merging(env, start, listed, nodes, table, kept[..i + 1], pending, ranked, rank, rank0, sub0, m, with,
                       target)
      modifies this`nodes, this`table
      ensures ok ==>
        Merging(env, start, listed, nodes, table, kept[..i], pending, ranked, rank, rank', sub, m, with, target)
      ensures ok ==> nodes.Keys <= old(nodes).Keys
      ensures ranked ==> ok
      decreases nodes.Keys, 3
    {
      ghost var left := pending + UserIds(kept[..i]);
      UserIdsLast(kept, i);
      assert pending + UserIds(kept[..i + 1]) == left + {kept[i].id};
      ok, rank', sub := MergeUser(kept[i], with, target, start, listed, left, ranked, rank, rank0, sub0, m);
    }

    method MergeUser(o: Out, ghost with: Id, ghost target: Id, ghost start: Nodes, ghost listed: seq<Entry>,
                     ghost pending: set<Id>, ghost ranked: bool, ghost rank: Ranks, ghost rank0: Ranks,
                     ghost sub0: Renaming, ghost m: Meaning)
      returns (ok: bool, ghost rank': Ranks, ghost sub: Renaming)
      requires Begun(env, start, with, target, m) && (ranked ==> Replaceable(env, start, with, target, rank, m))
      requires o in start[target].outs && o != PIN
      requires Went(env, start, listed, nodes, table, pending + {o.id}, sub0, m, target)
      requires Keeping(env, start, nodes, ranked, rank, rank0, sub0, m, with, target)
      modifies this`nodes, this`table
      ensures ok ==> Went(env, start, listed, nodes, table, pending, sub, m, target)
      ensures ok ==> Keeping(env, start, nodes, ranked, rank, rank', sub, m, with, target)
      ensures ok ==> nodes.Keys <= old(nodes).Keys
      ensures ranked ==> ok
      decreases nodes.Keys, 2
    {
      ok, rank', sub := true, rank0, sub0;
      if o.id !in nodes {
        PendingGone(env, nodes, table, Slack(pending, {}), o.id);
        return;
      }
      InternKeeps(env, nodes, table, pending + {o.id}, o.id);
      InternMembers(env, nodes, table, o.id);
      var id := InternNode(o.id);
      if id == o.id {
        BackInTable(env, start, listed, nodes, old(table), table, pending, sub0, m, target, o.id);
        return;
      }
      ok, rank', sub := MergeInto(o, id, with, target, start, listed, pending, ranked, rank, rank0, sub0, m);
    }

    /** Replaces a former user by the node it has become equal to. */
    method MergeInto(o: Out, id: Id, ghost with: Id, ghost target: Id, ghost start: Nodes, ghost listed: seq<Entry>,
                     ghost pending: set<Id>, ghost ranked: bool, ghost rank: Ranks, ghost rank0: Ranks,
                     ghost sub0: Renaming, ghost m: Meaning)
      returns (ok: bool, ghost rank': Ranks, ghost sub: Renaming)
      requires Begun(env, start, with, target, m) && (ranked ==> Replaceable(env, start, with, target, rank, m))
      requires o in start[target].outs && o != PIN && o.id in nodes && id in nodes && id != o.id
      requires nodes[id].content == nodes[o.id].content && Interned(env, nodes[o.id].content)
      requires Went(env, start, listed, nodes, table, pending + {o.id}, sub0, m, target)
      requires Keeping(env, start, nodes, ranked, rank, rank0, sub0, m, with, target)
      modifies this`nodes, this`table
      ensures ok ==> Went(env, start, listed, nodes, table, pending, sub, m, target)
      ensures ok ==> Keeping(env, start, nodes, ranked, rank, rank', sub, m, with, target)
      ensures ok ==> nodes.Keys <= old(nodes).Keys
      ensures ranked ==> ok
      decreases nodes.Keys, 1
    {
      ghost var low, users := Lowered(rank0, id, o.id), pending + {o.id};
      ghost var mid, entries := nodes, table;
      EqualsMaybeReplaced(env, nodes, m, o.id, id);
      if ranked { EqualsAreReplaceable(env, nodes, rank0, m, o.id, id); }
      ghost var inner;
      ok, rank', inner := Subsume(id, o.id, users, ranked, low, m);
      sub := Compose(sub0, inner);
      if !ok { return; }
      WentNested(env, start, listed, mid, entries, nodes, table, users, sub0, inner, m, target, o.id, id);
      KeepsOn(env, start, mid, nodes, ranked, rank, rank0, rank', sub0, inner, m, with, target, o, id);
      CarriedShrinks(mid, nodes, inner);
      PendingGone(env, nodes, table, Slack(pending, {}), o.id);
    }
  }

  /** A pending node that is gone need not be pending. */
  lemma PendingGone(env: Env, nodes: Nodes, table: seq<Entry>, slack: Slack, id: Id)
    requires TableOk(env, nodes, table, slack.(pending := slack.pending + {id})) && id !in nodes
    ensures TableOk(env, nodes, table, slack)
  {
  }

  /** The users of `left` have yet to be interned again. */
  ghost predicate Merging(env: Env, start: Nodes, listed: seq<Entry>, nodes: Nodes, table: seq<Entry>, left: seq<Out>,
                          pending: set<Id>, ranked: bool, rank: Ranks, rank': Ranks, sub: Renaming, m: Meaning,
                          with: Id, target: Id) {
    && Went(env, start, listed, nodes, table, pending + UserIds(left), sub, m, target)
    && Keeping(env, start, nodes, ranked, rank, rank', sub, m, with, target)
  }

  /** The replacement is still pinned, or has been merged into another node; where there are ranks it has not. */
  ghost predicate Keeping(env: Env, start: Nodes, nodes: Nodes, ranked: bool, rank: Ranks, rank': Ranks, sub: Renaming,
                          m: Meaning, with: Id, target: Id) {
    && target !in nodes
    && (if with in nodes then Apply(sub, target) == with && Pins(nodes, with) > Pins(start, with) else with in sub)
    && (ranked ==> with in nodes && Climbed(env, start, nodes, rank, rank', Rank(rank, target), m, target))
  }

  /** Through a nested replacement of the user o by its equal. */
  lemma KeepsOn(env: Env, start: Nodes, mid: Nodes, nodes: Nodes, ranked: bool, rank: Ranks, rank0: Ranks, rank': Ranks,
                sub: Renaming, inner: Renaming, m: Meaning, with: Id, target: Id, o: Out, e: Id)
    requires DefUse(start, IDLE) && target in start && o in start[target].outs && o != PIN
    requires ranked ==> Replaceable(env, start, with, target, rank, m)
    requires AllCarried(start, mid, sub) && KeepsValues(sub, m)
    requires AllCarried(mid, nodes, inner) && KeepsValues(inner, m)
    requires OnlyLost(mid, nodes, inner) && Keeping(env, start, mid, ranked, rank, rank0, sub, m, with, target)
    requires ranked ==> Mergeable(env, mid, m, o.id) && o.id != e && m.value(e) == m.value(o.id)
    requires ranked ==> Climbed(env, mid, nodes, Lowered(rank0, e, o.id), rank', Rank(rank0, o.id), m, o.id)
    ensures Keeping(env, start, nodes, ranked, rank, rank', Compose(sub, inner), m, with, target)
  {
    CarriedShrinks(mid, nodes, inner);
    WithFollows(mid, nodes, sub, inner, with, target, Pins(start, with));
    if ranked {
      UserAboveBound(env, start, mid, rank, rank0, sub, m, target, o);
      WithStaysSafe(env, start, mid, with, target, rank, rank0, sub, m);
      ClimbedNested(env, start, mid, nodes, rank, rank0, rank', sub, inner, Rank(rank, target), m, target, o.id, e);
      WithSurvives(env, mid, nodes, rank, rank0, rank', inner, Rank(rank, target), m, o.id, e, with);
    }
  }

  /** The first i records of the target have been dealt with. */
  ghost predicate Swinging(env: Env, start: Nodes, listed: seq<Entry>, nodes: Nodes, table: seq<Entry>, outs: seq<Out>,
                           i: nat,
                           with: Id, target: Id, pending: set<Id>)
    requires with in start && target in start && i <= |outs|
  {
    && nodes == PartRedirected(start, target, with, outs[..i])
    && TableOk(env, nodes, table, Slack(pending + UserIds(outs[..i]), {}))
    && Unlisted(table, UserIds(outs[..i])) && forall e :: e in table ==> e in listed
  }

  lemma SwingBegins(env: Env, start: Nodes, listed: seq<Entry>, with: Id, target: Id, pending: set<Id>)
    requires with in start && target in start && with != target && TableOk(env, start, listed, Slack(pending, {}))
    ensures var moved := start[with := Node(start[with].content, start[with].outs + start[target].outs)]
                              [target := Node(start[target].content, [])];
      Swinging(env, start, listed, moved, listed, start[target].outs, 0, with, target, pending)
  {
    var moved := PartRedirected(start, target, with, []);
    RedirectStarts(start, target, with);
    TableSurvives(env, start, moved, listed, Slack(pending, {}));
    assert pending + UserIds([]) == pending;
    assert moved == start[with := Node(start[with].content, start[with].outs + start[target].outs)]
                         [target := Node(start[target].content, [])];
  }

  /** A user is taken out of the table and changed. */
  lemma UserTakenOut(env: Env, nodes: Nodes, table: seq<Entry>, pending: set<Id>, done: set<Id>, u: Id, c: Content)
    requires u in nodes && TableOk(env, nodes, table, Slack(pending, {})) && Unlisted(table, done)
    ensures var t := Uninterned(env, nodes, table, u);
      && TableOk(env, SetContent(nodes, u, c), t, Slack(pending + {u}, {})) && Unlisted(t, done + {u})
      && (forall e :: e in t ==> e in table)
  {
    var t := Uninterned(env, nodes, table, u);
    UninternDrops(env, nodes, table, Slack(pending, {}), u);
    UninternMembers(env, nodes, table, u);
    StillUnlisted(table, t, done);
    PendingMayChange(env, nodes, t, pending + {u}, u, Node(c, nodes[u].outs));
  }

  /** None of the users has an entry; 0 stands for pins. */
  ghost predicate Unlisted(table: seq<Entry>, users: set<Id>) {
    forall u :: u in users && u != 0 ==> !Listed(table, u)
  }

  lemma StillUnlisted(table: seq<Entry>, table': seq<Entry>, users: set<Id>)
    requires Unlisted(table, users) && forall e :: e in table' ==> e in table
    ensures Unlisted(table', users)
  {
    forall u | u in users && u != 0 ensures !Listed(table', u) {
      forall i | 0 <= i < |table'| ensures table'[i].id != u {
        assert table'[i] in table;
      }
    }
  }

  lemma TakenStaysOk(env: Env, start: Nodes, table: seq<Entry>, with: Id, target: Id, users: set<Id>)
    requires DefUse(start, IDLE) && with in start && target in start && with != target
    requires TableOk(env, Redirected(start, target, with), table, Slack(users, {}))
    ensures DefUse(Taken(start, target, with), IDLE)
    ensures TableOk(env, Taken(start, target, with), table, Slack(users, {}))
  {
    RedirectKeepsDefUse(start, target, with);
    PinKeepsDefUse(Redirected(start, target, with), IDLE, with);
    AddRecordContents(Redirected(start, target, with), with, PIN);
    TableSurvives(env, Redirected(start, target, with), Taken(start, target, with), table, Slack(users, {}));
  }

  lemma EntriesAfterTakeOver(env: Env, start: Nodes, listed: seq<Entry>, moved: Nodes, entries: seq<Entry>,
                             nodes: Nodes, table: seq<Entry>)
    requires moved.Keys == start.Keys && (forall e :: e in entries ==> e in listed)
    requires exists taken: Nodes :: taken.Keys == moved.Keys && Purged(env, taken, nodes, entries, table, {})
    ensures EntriesFrom(start, listed, nodes, table)
  {
    var taken: Nodes :| taken.Keys == moved.Keys && Purged(env, taken, nodes, entries, table, {});
    if AllLive(start, listed) {
      forall i | 0 <= i < |entries| ensures entries[i].id in taken {
        assert entries[i] in entries && entries[i] in listed;
      }
      PurgedLive(env, taken, nodes, entries, table);
    }
  }

  /** Only the users still recorded can be missing from the table. */
  lemma KeptPending(env: Env, start: Nodes, nodes: Nodes, table: seq<Entry>, with: Id, target: Id, pending: set<Id>,
                    kept: seq<Out>)
    requires DefUse(start, IDLE) && DefUse(nodes, IDLE) && target in start && with in nodes
    requires AllCarried(start, nodes, map[target := with]) && Kept(kept, start[target].outs, nodes[with].outs)
    requires TableOk(env, nodes, table, Slack(pending + UserIds(start[target].outs), {}))
    ensures TableOk(env, nodes, table, Slack(pending + UserIds(kept), {}))
  {
    forall u | u in UserIds(start[target].outs) && u in nodes ensures u in UserIds(kept) {
      LiveUsersKept(start, nodes, with, target, kept, u);
    }
    OnlyLivePending(env, nodes, table, pending + UserIds(start[target].outs), pending + UserIds(kept));
  }

  lemma KeptWent(env: Env, start: Nodes, listed: seq<Entry>, nodes: Nodes, table: seq<Entry>, with: Id, target: Id,
                 m: Meaning, pending: set<Id>, kept: seq<Out>)
    requires DefUse(start, IDLE) && target in start && with in nodes && Kept(kept, start[target].outs, nodes[with].outs)
    requires Went(env, start, listed, nodes, table, pending + UserIds(start[target].outs), map[target := with], m,
      target)
    ensures Went(env, start, listed, nodes, table, pending + UserIds(kept), map[target := with], m, target)
  {
    KeptPending(env, start, nodes, table, with, target, pending, kept);
  }

  /** The user stands for itself again. */
  lemma BackInTable(env: Env, start: Nodes, listed: seq<Entry>, nodes: Nodes, entries: seq<Entry>, table: seq<Entry>,
                    pending: set<Id>, sub: Renaming, m: Meaning, target: Id, u: Id)
    requires Went(env, start, listed, nodes, entries, pending + {u}, sub, m, target) && u in nodes
    requires TableOk(env, nodes, table, Slack(pending + {u} - {u}, {}))
    requires forall e :: e in table ==> e in entries || e.id == u
    ensures Went(env, start, listed, nodes, table, pending, sub, m, target)
  {
    Loosen(env, nodes, table, pending + {u} - {u}, pending);
    EntriesStayLive(nodes, nodes, entries, table, u);
    assert Carried(start, nodes, sub, u);
  }
}
