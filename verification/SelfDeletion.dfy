/**
  Setting an input can delete the node itself, and then its table entry may stay behind; and two contents that
  hash alike can hide an entry that should go.
 */
module SelfDeletion {
  import opened GraphNodes
  import opened GraphEdits
  import opened Interning
  import opened GraphStore

  // ---- a node that dies of its own change ----

  /** 1 and 2 are pinned leaves; 3 and 4 read each other, and nothing else reads them. */
  function ContentAt(n: Id): Content {
    if n == 3 then Content(Spec(1, 0), [], [1, 2, 4])
    else if n == 4 then Content(Spec(2, 0), [], [3, 2])
    else Content(Spec(0, 0), [n], [])
  }

  function OutsAt(n: Id): seq<Out> {
    if n == 1 then [PIN, Out(3, 0)]
    else if n == 2 then [PIN, Out(3, 1), Out(4, 1)]
    else if n == 3 then [Out(4, 0)]
    else [Out(3, 2)]
  }

  const LOOP: Nodes := map n: Id | 0 < n < 5 :: Node(ContentAt(n), OutsAt(n))

  function TableAt(env: Env): seq<Entry> { EntriesFor(env, LOOP, [3, 4]) }

  /** Tables that tell the old content of 3 from its new one; leaves are not interned. */
  predicate TellsApart(env: Env) {
    && env.kinds == {1, 2}
    && env.hash(ContentAt(3)) != env.hash(Content(Spec(1, 0), [], [1, 2, 2]))
  }

  lemma LoopIsGood(env: Env)
    requires TellsApart(env)
    ensures DefUse(LOOP, IDLE) && TableOk(env, LOOP, TableAt(env), TIGHT) && AllLive(LOOP, TableAt(env))
  {
    forall n | n in LOOP ensures UsesListed(LOOP, n) && InputsListed(LOOP, n) {
      LoopListed(n);
    }
    ListedIsDefUse(LOOP);
    ListedIsExact(env, LOOP, [3, 4]);
  }

  lemma LoopListed(n: Id)
    requires n in LOOP
    ensures UsesListed(LOOP, n) && InputsListed(LOOP, n)
  {
  }

  /** Making node 3 read 2 in the place of 4 kills both of them. */
  lemma LoopDies()
    ensures DiesInChange(LOOP, 3, 2, 2)
  {
    var switched := Switched(LOOP, 3, 2, 2);
    SwitchedContents(LOOP, 3, 2, 2);
    assert switched[4].outs == [Out(3, 2)];
    var dropped := WithoutRecord(switched, 4, Out(3, 2));
    assert dropped[4].outs == [];
    assert dropped[3].outs == [Out(4, 0)];
    forall doomed: set<Id> | 4 in doomed && ClosedUnderLastUse(dropped, doomed) ensures 3 in doomed {
      assert 3 in dropped && Outs(dropped, 3) == [Out(4, 0)];
    }
  }

  lemma ChangedContent()
    ensures NewContent(ContentAt(3), 2, 2) == Content(Spec(1, 0), [], [1, 2, 2])
  {
    assert [1, 2, 4][2 := 2] == [1, 2, 2];
  }

  /** From an exact table, the change leaves an entry of a dead node behind. */
  method LeavesStaleEntry(g: Graph)
    requires g.Valid() && g.nodes == LOOP && g.table == TableAt(g.env) && TellsApart(g.env)
    modifies g
    ensures old(AllLive(g.nodes, g.table)) && !AllLive(g.nodes, g.table) && 3 !in g.nodes
  {
    LoopIsGood(g.env);
    LoopDies();
    ChangedContent();
    assert ApartOrLasting(g.env, g.nodes, 3, 2, 2) && StaysStale(g.env, g.nodes, 3, 2, 2);
    var r, died := g.SetInput(3, 2, 2);
  }

  // ---- contents that hash alike ----

  /** Among live nodes of equal content the first entry with the hash answers, so another one's is not removed. */
  lemma HiddenEntryStays(env: Env, nodes: Nodes, table: seq<Entry>, id: Id, other: Id, i: nat)
    requires id in nodes && other in nodes && id != other && nodes[id].content == nodes[other].content
    requires i < |table| && table[i] == Entry(env.hash(nodes[other].content), other)
    requires forall j :: 0 <= j < i ==> table[j].id != id
    ensures Uninterned(env, nodes, table, id) == table
  {
  }

  /** 1 is a pinned leaf, 2 reads 1, 3 reads 2 and the pinned node 4 reads 3; 2 and 4 are of one kind. */
  function ChainAt(n: Id): Content {
    if n == 1 then Content(Spec(0, 0), [], [])
    else Content(Spec(if n == 3 then 2 else 1, 0), [], [if n == 0 then 0 else n - 1])
  }

  const CHAIN: Nodes := map n: Id | 0 < n < 5 :: Node(ChainAt(n), ChainOutsAt(n))

  function ChainOutsAt(n: Id): seq<Out> {
    if n == 1 then [PIN, Out(2, 0)] else if n == 4 then [PIN] else [Out(n + 1, 0)]
  }

  /** All contents hash to 1, and 4 has been interned before 2. */
  const ALIKE: Env := Env(c => 1, {1, 2})

  function ChainTable(): seq<Entry> { EntriesFor(ALIKE, CHAIN, [4, 2, 3]) }

  lemma ChainIsGood()
    ensures DefUse(CHAIN, IDLE) && TableOk(ALIKE, CHAIN, ChainTable(), TIGHT) && AllLive(CHAIN, ChainTable())
  {
    forall n | n in CHAIN ensures UsesListed(CHAIN, n) && InputsListed(CHAIN, n) {
      ChainListed(n);
    }
    ListedIsDefUse(CHAIN);
    ListedIsExact(ALIKE, CHAIN, [4, 2, 3]);
  }

  lemma ChainListed(n: Id)
    requires n in CHAIN
    ensures UsesListed(CHAIN, n) && InputsListed(CHAIN, n)
  {
  }

  /** Making node 4 read 1 kills 3 and with it 2. Node 4 already has the content of 2 by then, and its entry comes
      first: at any moment at which both are alive, taking 2 out of the table finds the entry of 4 and does nothing. */
  lemma CollisionLeavesEntry(now: Nodes)
    requires 2 in now && 4 in now && now[2].content == ChainAt(2) && now[4].content == NewContent(ChainAt(4), 0, 1)
    ensures !ApartOrLasting(ALIKE, CHAIN, 4, 0, 1) && Uninterned(ALIKE, now, ChainTable(), 2) == ChainTable()
  {
    ChainDies();
    assert [3][0 := 1] == [1];
    assert CHAIN[2].content == NewContent(CHAIN[4].content, 0, 1);
    HiddenEntryStays(ALIKE, now, ChainTable(), 2, 4, 0);
  }

  lemma ChainDies()
    ensures GoesInChange(CHAIN, 4, 0, 1, 2)
  {
    var switched := Switched(CHAIN, 4, 0, 1);
    SwitchedContents(CHAIN, 4, 0, 1);
    assert switched[3].outs == [Out(4, 0)];
    var dropped := WithoutRecord(switched, 3, Out(4, 0));
    assert dropped[3].outs == [] && dropped[2].outs == [Out(3, 0)];
    forall doomed: set<Id> | 3 in doomed && ClosedUnderLastUse(dropped, doomed) ensures 2 in doomed {
      assert 2 in dropped && Outs(dropped, 2) == [Out(3, 0)];
    }
  }

  lemma OtherEntriesStay(env: Env, nodes: Nodes, table: seq<Entry>, id: Id, e: Entry)
    requires id in nodes && e in table && e.id != id
    ensures e in Uninterned(env, nodes, table, id)
  {
    var t := Uninterned(env, nodes, table, id);
    if t != table {
      var r, last := Find(nodes, table, id, env.hash(nodes[id].content), 0), |table| - 1;
      var i :| 0 <= i < |table| && table[i] == e;
      assert t[if i == last then r else i] == e;
    }
  }

  /** The chain in the course of the change; only outputs change after 4 has been made to read 1. */
  ghost predicate InChange(nodes: Nodes, one: seq<Out>, two: seq<Out>, three: seq<Out>) {
    && nodes.Keys == CHAIN.Keys && nodes[4] == Node(NewContent(ChainAt(4), 0, 1), [PIN])
    && nodes[1] == Node(ChainAt(1), one) && nodes[2] == Node(ChainAt(2), two) && nodes[3] == Node(ChainAt(3), three)
  }

  /** 4 reads 1; 3 loses its record and with it its last use, then 2 does, and 1 still has others. */
  method CutLoose(g: Graph)
    requires g.nodes == CHAIN
    modifies g`nodes
    ensures InChange(g.nodes, [PIN, Out(4, 0)], [], [])
  {
    g.SwitchInput(4, 0, 1);
    assert InChange(g.nodes, [PIN, Out(2, 0), Out(4, 0)], [Out(3, 0)], [Out(4, 0)]);
    DropLast(g.nodes, 3, Out(4, 0));
    g.RemoveRecord(3, Out(4, 0));
    assert InChange(g.nodes, [PIN, Out(2, 0), Out(4, 0)], [Out(3, 0)], []);
    DropLast(g.nodes, 2, Out(3, 0));
    g.RemoveRecord(2, Out(3, 0));
    assert InChange(g.nodes, [PIN, Out(2, 0), Out(4, 0)], [], []);
    DropSecond();
    g.RemoveRecord(1, Out(2, 0));
  }

  lemma DropLast(nodes: Nodes, n: Id, o: Out)
    requires n in nodes && nodes[n].outs == [o]
    ensures WithoutRecord(nodes, n, o) == nodes[n := Node(nodes[n].content, [])]
  {
  }

  lemma DropSecond()
    ensures DropRecord([PIN, Out(2, 0), Out(4, 0)], Out(2, 0)) == [PIN, Out(4, 0)]
  {
    var outs := [PIN, Out(2, 0), Out(4, 0)];
    assert outs[1..][0] == Out(2, 0);
    assert FirstIndex(outs, Out(2, 0)) == 1;
  }

  /** 4 is taken out of the table under its old content and put back under the new one. */
  method BackIn(g: Graph, ghost e: Entry)
    requires g.env == ALIKE && 4 in g.nodes && e in g.table && e.id != 4
    modifies g`nodes, g`table
    ensures g.nodes.Keys == old(g.nodes).Keys && e in g.table
  {
    var c := g.nodes[4].content;
    g.SetContentOf(4, ChainAt(4));
    OtherEntriesStay(ALIKE, g.nodes, g.table, 4, e);
    g.Unintern(4);
    g.SetContentOf(4, c);
    InternKeepsEntries(ALIKE, g.nodes, g.table, 4);
    var r := g.InternNode(4);
  }

  lemma InternKeepsEntries(env: Env, nodes: Nodes, table: seq<Entry>, id: Id)
    requires id in nodes
    ensures forall e :: e in table ==> e in Intern(env, nodes, table, id).0
  {
  }

  /** The steps of that change: then 2 goes, 3 goes, and 4 is put back. The entry of 2 is left behind. */
  method LeavesHiddenEntry(g: Graph)
    requires g.Valid() && g.nodes == CHAIN && g.env == ALIKE && g.table == ChainTable()
    modifies g`nodes, g`table
    ensures old(AllLive(g.nodes, g.table)) && 2 !in g.nodes && 4 in g.nodes && !AllLive(g.nodes, g.table)
  {
    ChainIsGood();
    CutLoose(g);
    CollisionLeavesEntry(g.nodes);
    ghost var e := Entry(1, 2);
    assert e == ChainTable()[1];
    g.Forget(2);
    OtherEntriesStay(ALIKE, g.nodes, g.table, 3, e);
    g.Forget(3);
    BackIn(g, e);
    DeadEntryListed(g.nodes, g.table, e);
  }

  lemma DeadEntryListed(nodes: Nodes, table: seq<Entry>, e: Entry)
    requires e in table && e.id !in nodes
    ensures !AllLive(nodes, table)
  {
    var i :| 0 <= i < |table| && table[i] == e;
  }
}
