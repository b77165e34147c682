/**
  Hash-consing: the table of interned nodes, searched by an 8-bit hash and then by content.
 */
module Interning {
  import opened GraphNodes

  datatype Entry = Entry(hash: nat, id: Id)

  /** What the node tables fix: the hash of a content and which kinds are interned. */
  datatype Env = Env(hash: Content -> nat, kinds: set<nat>)

  predicate Interned(env: Env, c: Content) { c.spec.rtype in env.kinds }

  /** node_eq: the same node, or two live nodes of equal content. */
  predicate Same(nodes: Nodes, a: Id, b: Id) {
    a == b || (a in nodes && b in nodes && nodes[a].content == nodes[b].content)
  }

  predicate Hit(nodes: Nodes, e: Entry, id: Id, hash: nat) {
    e.hash == hash && Same(nodes, e.id, id)
  }

  /** First entry from position i on that matches, or -1. */
  function Find(nodes: Nodes, table: seq<Entry>, id: Id, hash: nat, i: nat): (r: int)
    requires i <= |table|
    ensures r == -1 || (i <= r < |table| && Hit(nodes, table[r], id, hash))
    ensures forall j :: i <= j < |table| && (r == -1 || j < r) ==> !Hit(nodes, table[j], id, hash)
    decreases |table| - i
  {
    if i == |table| then -1
    else if Hit(nodes, table[i], id, hash) then i
    else Find(nodes, table, id, hash, i + 1)
  }

  /** Removal puts the last entry in the place of the removed one. */
  function SwapRemove(table: seq<Entry>, i: nat): seq<Entry>
    requires i < |table|
  {
    table[i := table[|table| - 1]][..|table| - 1]
  }

  function Uninterned(env: Env, nodes: Nodes, table: seq<Entry>, id: Id): seq<Entry>
    requires id in nodes
  {
    if !Interned(env, nodes[id].content) then table
    else
      var r := Find(nodes, table, id, env.hash(nodes[id].content), 0);
      if r < 0 || table[r].id != id then table else SwapRemove(table, r)
  }

  /** The table after interning, and the node that now stands for id's content. */
  function Intern(env: Env, nodes: Nodes, table: seq<Entry>, id: Id): (seq<Entry>, Id)
    requires id in nodes
  {
    if !Interned(env, nodes[id].content) then (table, id)
    else
      var h := env.hash(nodes[id].content);
      var r := Find(nodes, table, id, h, 0);
      if r >= 0 then (table, table[r].id) else (table + [Entry(h, id)], id)
  }

  // ---- the invariant ----

  /** No entry outlives its node. */
  ghost predicate AllLive(nodes: Nodes, table: seq<Entry>) {
    forall i :: 0 <= i < |table| ==> table[i].id in nodes
  }

  ghost predicate EntryOk(env: Env, nodes: Nodes, e: Entry) {
    e.id in nodes && Interned(env, nodes[e.id].content) && e.hash == env.hash(nodes[e.id].content)
  }

  predicate Listed(table: seq<Entry>, id: Id) {
    exists i :: 0 <= i < |table| && table[i].id == id
  }

  /** Nodes that may be missing from the table, nodes whose entry no longer speaks for them, and, as long as there
      are such entries, the nodes that may be taken out of the table. */
  datatype Slack = Slack(pending: set<Id>, stale: set<Id>, risk: set<Id> := {})

  const TIGHT: Slack := Slack({}, {})

  /** A stale entry cannot be mistaken for another node's when either is taken out: its hash is out of date, or the
      live node it names has content of its own. */
  ghost predicate StaleApart(env: Env, nodes: Nodes, table: seq<Entry>, slack: Slack) {
    forall i, m |
      0 <= i < |table| && table[i].id in slack.stale && table[i].id in nodes && m in nodes && m != table[i].id ::
      (m in slack.risk || table[i].id in slack.risk) && nodes[m].content == nodes[table[i].id].content ==>
        table[i].hash != env.hash(nodes[m].content)
  }

  /** With stale entries about, only nodes at risk are taken out. */
  predicate MayGo(slack: Slack, id: Id) { slack.stale == {} || id in slack.risk }

  /** Up to stale entries, the entries of live nodes carry their hash and have pairwise different content; every
      live interned node is listed, up to pending and stale ones. An entry of a dead node answers no search. */
  ghost predicate TableOk(env: Env, nodes: Nodes, table: seq<Entry>, slack: Slack) {
    && (forall i :: 0 <= i < |table| && table[i].id !in slack.stale && table[i].id in nodes ==>
          EntryOk(env, nodes, table[i]))
    && (forall i, j | 0 <= i < j < |table| && table[i].id !in slack.stale && table[j].id !in slack.stale ::
          table[i].id in nodes && table[j].id in nodes ==> nodes[table[i].id].content != nodes[table[j].id].content)
    && (forall i, j :: 0 <= i < j < |table| ==> table[i].id != table[j].id)
    && (forall n :: n in nodes && Interned(env, nodes[n].content) && n !in slack.pending && n !in slack.stale ==>
          Listed(table, n))
    && StaleApart(env, nodes, table, slack)
  }

  /** An entry that a search for id hits is id's own, if id has an entry that would answer. */
  lemma HitIsOwn(env: Env, nodes: Nodes, table: seq<Entry>, slack: Slack, id: Id, r: nat, i: nat)
    requires TableOk(env, nodes, table, slack) && id in nodes && r < |table| && i < |table| && table[i].id == id
    requires table[i].hash == env.hash(nodes[id].content)
    requires Hit(nodes, table[r], id, env.hash(nodes[id].content)) && MayGo(slack, id)
    ensures table[r].id == id
  {
  }

  lemma UninternDrops(env: Env, nodes: Nodes, table: seq<Entry>, slack: Slack, id: Id)
    requires TableOk(env, nodes, table, slack) && id in nodes && MayGo(slack, id)
    ensures var t := Uninterned(env, nodes, table, id);
      && TableOk(env, nodes, t, slack.(pending := slack.pending + {id}))
      && (id !in slack.stale ==> !Listed(t, id))
  {
    var h := env.hash(nodes[id].content);
    if Interned(env, nodes[id].content) {
      var r := Find(nodes, table, id, h, 0);
      if r >= 0 && table[r].id == id {
        SwapRemoveDrops(env, nodes, table, slack, r);
      } else if Listed(table, id) && id !in slack.stale {
        var i :| 0 <= i < |table| && table[i].id == id;
        assert EntryOk(env, nodes, table[i]);
        assert Hit(nodes, table[i], id, h);
        HitIsOwn(env, nodes, table, slack, id, r, i);
      }
    }
  }

  lemma SwapRemoveDrops(env: Env, nodes: Nodes, table: seq<Entry>, slack: Slack, r: nat)
    requires TableOk(env, nodes, table, slack) && r < |table|
    ensures TableOk(env, nodes, SwapRemove(table, r), slack.(pending := slack.pending + {table[r].id}))
    ensures !Listed(SwapRemove(table, r), table[r].id)
  {
    var t, last := SwapRemove(table, r), |table| - 1;
    assert forall i :: 0 <= i < |t| ==> t[i] == table[if i == r then last else i];
    forall n | n != table[r].id && Listed(table, n) ensures Listed(t, n) {
      var i :| 0 <= i < |table| && table[i].id == n;
      assert t[if i == last then r else i].id == n;
    }
  }

  lemma InternKeeps(env: Env, nodes: Nodes, table: seq<Entry>, pending: set<Id>, id: Id)
    requires TableOk(env, nodes, table, Slack(pending, {})) && id in nodes
    ensures var (t, r) := Intern(env, nodes, table, id);
      && r in nodes && nodes[r].content == nodes[id].content
      && (r == id ==> TableOk(env, nodes, t, Slack(pending - {id}, {})))
      && (r != id ==> t == table && Interned(env, nodes[id].content) && Listed(table, r))
  {
    var h := env.hash(nodes[id].content);
    if Interned(env, nodes[id].content) {
      var r := Find(nodes, table, id, h, 0);
      if r >= 0 {
        assert EntryOk(env, nodes, table[r]);
      } else {
        InternAppends(env, nodes, table, pending, id, h);
      }
    }
  }

  lemma InternAppends(env: Env, nodes: Nodes, table: seq<Entry>, pending: set<Id>, id: Id, h: nat)
    requires TableOk(env, nodes, table, Slack(pending, {})) && id in nodes && Interned(env, nodes[id].content)
    requires h == env.hash(nodes[id].content) && forall j :: 0 <= j < |table| ==> !Hit(nodes, table[j], id, h)
    ensures TableOk(env, nodes, table + [Entry(h, id)], Slack(pending - {id}, {}))
  {
    var t := table + [Entry(h, id)];
    assert t[|table|].id == id;
    forall j | 0 <= j < |table| && table[j].id in nodes ensures nodes[table[j].id].content != nodes[id].content {
      assert EntryOk(env, nodes, table[j]);
    }
    assert forall j :: 0 <= j < |table| ==> table[j].id != id;
    forall n | n in nodes && Interned(env, nodes[n].content) && n !in pending - {id} ensures Listed(t, n) {
      if n != id {
        var i :| 0 <= i < |table| && table[i].id == n;
        assert t[i].id == n;
      }
    }
  }

  /** The table does not care about outputs, about unlisted pending nodes or about nodes going away. */
  lemma TableSurvives(env: Env, nodes: Nodes, nodes': Nodes, table: seq<Entry>, slack: Slack)
    requires TableOk(env, nodes, table, slack) && StaleApart(env, nodes', table, slack)
    requires forall n :: n in nodes' && n !in slack.stale && Listed(table, n) ==>
      n in nodes && nodes'[n].content == nodes[n].content
    requires forall n :: n in nodes' && n !in slack.pending && n !in slack.stale ==>
      n in nodes && nodes'[n].content == nodes[n].content
    ensures TableOk(env, nodes', table, slack)
  {
    forall i | 0 <= i < |table| && table[i].id !in slack.stale && table[i].id in nodes'
      ensures EntryOk(env, nodes', table[i]) && table[i].id in nodes
      ensures nodes'[table[i].id].content == nodes[table[i].id].content
    {
      assert Listed(table, table[i].id);
      assert EntryOk(env, nodes, table[i]);
    }
  }

  // ---- what deletion does to the table ----

  predicate Answers(env: Env, c: Content, e: Entry) {
    Interned(env, c) && e.hash == env.hash(c)
  }

  /** From `before` to `after` the entries of the nodes that died went away, and no others; but a stale entry of a
      dead node went away only if its hash was that of the content the node died with. */
  ghost predicate Purged(env: Env, before: Nodes, after: Nodes, table: seq<Entry>, table': seq<Entry>, stale: set<Id>) {
    && (forall e :: e in table' ==> e in table)
    && (forall e :: e in table && (e.id in after || e.id !in before) ==> e in table')
    && (forall e :: e in table && e.id in before && e.id !in after ==>
          (e in table' <==> e.id in stale && !Answers(env, before[e.id].content, e)))
  }

  lemma PurgedTrans(env: Env, a: Nodes, b: Nodes, c: Nodes, s: seq<Entry>, t: seq<Entry>, u: seq<Entry>, stale: set<Id>)
    requires Purged(env, a, b, s, t, stale) && Purged(env, b, c, t, u, stale)
    requires b.Keys <= a.Keys && c.Keys <= b.Keys && forall n :: n in b ==> b[n].content == a[n].content
    ensures Purged(env, a, c, s, u, stale)
  {
  }

  lemma UninternPurges(env: Env, nodes: Nodes, table: seq<Entry>, slack: Slack, id: Id)
    requires TableOk(env, nodes, table, slack) && id in nodes && MayGo(slack, id)
    ensures Purged(env, nodes, nodes - {id}, table, Uninterned(env, nodes, table, id), slack.stale)
  {
    var c, h := nodes[id].content, env.hash(nodes[id].content);
    var t := Uninterned(env, nodes, table, id);
    if Interned(env, c) {
      var r := Find(nodes, table, id, h, 0);
      if r >= 0 && table[r].id == id {
        SwapRemoveMembers(table, r);
      } else {
        forall i | 0 <= i < |table| && table[i].id == id ensures table[i].hash != h {
          assert Hit(nodes, table[i], id, h) <==> table[i].hash == h;
          if table[i].hash == h { HitIsOwn(env, nodes, table, slack, id, r, i); }
        }
      }
    }
  }

  lemma SwapRemoveMembers(table: seq<Entry>, r: nat)
    requires r < |table| && forall i, j :: 0 <= i < j < |table| ==> table[i].id != table[j].id
    ensures forall e :: e in SwapRemove(table, r) <==> e in table && e.id != table[r].id
  {
    var t, last := SwapRemove(table, r), |table| - 1;
    assert forall i :: 0 <= i < |t| ==> t[i] == table[if i == r then last else i];
    forall e | e in table && e.id != table[r].id ensures e in t {
      var i :| 0 <= i < |table| && table[i] == e;
      assert t[if i == last then r else i] == e;
    }
  }

  // ---- changing one node ----

  lemma Loosen(env: Env, nodes: Nodes, table: seq<Entry>, pending: set<Id>, more: set<Id>)
    requires TableOk(env, nodes, table, Slack(pending, {})) && pending <= more
    ensures TableOk(env, nodes, table, Slack(more, {}))
  {
  }

  /** An unlisted pending node may take any content. */
  lemma PendingMayChange(env: Env, nodes: Nodes, table: seq<Entry>, pending: set<Id>, id: Id, node: Node)
    requires TableOk(env, nodes, table, Slack(pending, {})) && id in pending && !Listed(table, id)
    ensures TableOk(env, nodes[id := node], table, Slack(pending, {}))
  {
    TableSurvives(env, nodes, nodes[id := node], table, Slack(pending, {}));
  }

  /** Equal contents of c exist only at id. */
  ghost predicate OnlyHere(nodes: Nodes, id: Id, c: Content) {
    forall m :: m in nodes && m != id ==> nodes[m].content != c
  }

  /** Changing the content of a listed node makes its entry stale. */
  lemma ChangeMakesStale(env: Env, nodes: Nodes, next: Nodes, table: seq<Entry>, id: Id, risk: set<Id>)
    requires TableOk(env, nodes, table, TIGHT) && id in nodes && next.Keys == nodes.Keys
    requires forall m :: m in nodes && m != id ==> next[m].content == nodes[m].content
    requires env.hash(nodes[id].content) != env.hash(next[id].content)
      || (forall m :: m in nodes && m != id && nodes[m].content == next[id].content ==> m !in risk && id !in risk)
    ensures TableOk(env, next, table, Slack({}, {id}, risk))
  {
    forall n | n in next && Interned(env, next[n].content) && n != id ensures Listed(table, n) {}
  }

  /** Restoring the content of a live node with a stale entry makes the table exact again. */
  lemma RestoreMakesExact(env: Env, nodes: Nodes, now: Nodes, table: seq<Entry>, table': seq<Entry>, id: Id)
    requires TableOk(env, nodes, table, TIGHT) && id in nodes && id in now && now.Keys <= nodes.Keys
    requires forall m :: m in now && m != id ==> now[m].content == nodes[m].content
    requires TableOk(env, now, table', Slack({}, {id}))
    requires forall e :: e in table' ==> e in table
    requires forall e :: e in table && e.id in now ==> e in table'
    ensures TableOk(env, now[id := Node(nodes[id].content, now[id].outs)], table', TIGHT)
  {
    var back := now[id := Node(nodes[id].content, now[id].outs)];
    forall i | 0 <= i < |table'| && table'[i].id in back
      ensures EntryOk(env, back, table'[i]) && EntryOk(env, nodes, table'[i]) {
      assert table'[i] in table;
      if table'[i].id != id { assert EntryOk(env, now, table'[i]); }
    }
    forall i, j | 0 <= i < j < |table'| && table'[i].id in back && table'[j].id in back
      ensures back[table'[i].id].content != back[table'[j].id].content
    {
      assert table'[i] in table && table'[j] in table && table'[i].id != table'[j].id;
      assert nodes[table'[i].id].content != nodes[table'[j].id].content;
    }
    forall n | n in back && Interned(env, back[n].content) ensures Listed(table', n) {
      assert Listed(table, n);
      var i :| 0 <= i < |table| && table[i].id == n;
      assert table[i] in table && table[i] in table';
    }
  }

  lemma UninternMembers(env: Env, nodes: Nodes, table: seq<Entry>, id: Id)
    requires id in nodes
    ensures forall e :: e in Uninterned(env, nodes, table, id) ==> e in table
  {
    var t := Uninterned(env, nodes, table, id);
    forall e | e in t ensures e in table {
      var i :| 0 <= i < |t| && t[i] == e;
      if t != table { assert e == table[i] || e == table[|table| - 1]; }
    }
  }

  lemma InternMembers(env: Env, nodes: Nodes, table: seq<Entry>, id: Id)
    requires id in nodes
    ensures forall e :: e in Intern(env, nodes, table, id).0 ==> e in table || e.id == id
  {
  }

  /** Ordinary deletion leaves no entry behind. */
  lemma PurgedLive(env: Env, before: Nodes, after: Nodes, table: seq<Entry>, table': seq<Entry>)
    requires Purged(env, before, after, table, table', {}) && AllLive(before, table)
    ensures AllLive(after, table')
  {
    forall i | 0 <= i < |table'| ensures table'[i].id in after {
      assert table'[i] in table' && table'[i] in table;
    }
  }

  // ---- tables written out ----

  function EntriesFor(env: Env, nodes: Nodes, ids: seq<Id>): seq<Entry>
    requires forall i :: 0 <= i < |ids| ==> ids[i] in nodes
  {
    seq(|ids|, i requires 0 <= i < |ids| => Entry(env.hash(nodes[ids[i]].content), ids[i]))
  }

  /** Listing the interned nodes, all different, once each. */
  lemma ListedIsExact(env: Env, nodes: Nodes, ids: seq<Id>)
    requires forall i :: 0 <= i < |ids| ==> ids[i] in nodes && Interned(env, nodes[ids[i]].content)
    requires forall i, j :: 0 <= i < j < |ids| ==> nodes[ids[i]].content != nodes[ids[j]].content
    requires forall n :: n in nodes && Interned(env, nodes[n].content) ==> n in ids
    ensures TableOk(env, nodes, EntriesFor(env, nodes, ids), TIGHT) && AllLive(nodes, EntriesFor(env, nodes, ids))
  {
    var table := EntriesFor(env, nodes, ids);
    forall n | n in nodes && Interned(env, nodes[n].content) ensures Listed(table, n) {
      var i :| 0 <= i < |ids| && ids[i] == n;
      assert table[i].id == n;
    }
  }
}
