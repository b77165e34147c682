/**
  Compacting a procedure: the reachable nodes are numbered breadth first, copied to a fresh arena
  in that order, and every reference is projected through the numbering.
 */
module Compaction {
  import opened Basics
  import opened GraphNodes
  import opened GraphEdits
  import opened Interning

  // ---- what is reachable ----

  /** a reads b, or b uses a; nil is no node. */
  predicate Linked(nodes: Nodes, a: Id, b: Id) {
    b != 0 && (b in Inputs(nodes, a) || exists o :: o in Outs(nodes, a) && o.id == b)
  }

  ghost predicate IsTrail(nodes: Nodes, p: seq<Id>) {
    |p| > 0 && forall i, j :: 0 <= i && j == i + 1 && j < |p| ==> Linked(nodes, p[i], p[j])
  }

  ghost predicate Reachable(nodes: Nodes, entry: Id, end: Id, n: Id) {
    exists p: seq<Id> :: IsTrail(nodes, p) && (p[0] == entry || p[0] == end) && p[|p| - 1] == n
  }

  lemma RootReachable(nodes: Nodes, entry: Id, end: Id, n: Id)
    requires n == entry || n == end
    ensures Reachable(nodes, entry, end, n)
  {
    assert IsTrail(nodes, [n]);
  }

  lemma RootFound(nodes: Nodes, entry: Id, end: Id, data: seq<Id>, data': seq<Id>, root: Id)
    requires FoundFrom(nodes, entry, end, data) && (root == entry || root == end) && root in nodes
    requires OnlyRoots(entry, end, data) && (data' == data || data' == data + [root])
    ensures FoundFrom(nodes, entry, end, data') && OnlyRoots(entry, end, data')
  {
    RootReachable(nodes, entry, end, root);
  }

  predicate OnlyRoots(entry: Id, end: Id, data: seq<Id>) {
    forall j :: 0 < j < |data| ==> data[j] == entry || data[j] == end
  }

  lemma LinkReachable(nodes: Nodes, entry: Id, end: Id, a: Id, b: Id)
    requires Reachable(nodes, entry, end, a) && Linked(nodes, a, b)
    ensures Reachable(nodes, entry, end, b)
  {
    var p: seq<Id> :| IsTrail(nodes, p) && (p[0] == entry || p[0] == end) && p[|p| - 1] == a;
    var q := p + [b];
    assert IsTrail(nodes, q) && q[0] == p[0] && q[|q| - 1] == b;
  }

  /** A set that holds the roots and everything linked to its members holds everything reachable. */
  lemma {:induction false} TrailStaysInside(nodes: Nodes, inside: set<Id>, p: seq<Id>)
    requires IsTrail(nodes, p) && p[0] in inside
    requires forall a, b :: a in inside && Linked(nodes, a, b) ==> b in inside
    ensures p[|p| - 1] in inside
  {
    if |p| > 1 {
      assert Linked(nodes, p[0], p[1]);
      TrailStaysInside(nodes, inside, p[1..]);
    }
  }

  // ---- numbering ----

  type Numbers = map<Id, nat>

  function NumberOf(gvn: Numbers, n: Id): nat {
    if n in gvn then gvn[n] else 0
  }

  /** Live nodes have numbers of their own, and nil has number 0. */
  ghost predicate Numbered(nodes: Nodes, gvn: Numbers) {
    && 0 !in gvn && nodes.Keys <= gvn.Keys
    && (forall n :: n in nodes ==> gvn[n] > 0)
    && (forall a, b {:trigger gvn[a], gvn[b]} :: a in nodes && b in nodes && a != b ==> gvn[a] != gvn[b])
  }

  /** Numbers run up to the count of nodes, in the order of their places, and nodes lie below pos. */
  ghost predicate Dense(nodes: Nodes, gvn: Numbers, pos: nat)
    requires nodes.Keys <= gvn.Keys
  {
    && (forall n :: n in nodes ==> 0 < gvn[n] <= |nodes| && n < pos)
    && (forall a, b {:trigger gvn[a], gvn[b]} :: a in nodes && b in nodes && a < b ==> gvn[a] < gvn[b])
  }

  ghost predicate Live(nodes: Nodes, n: Id) {
    n == 0 || n in nodes
  }

  /** What has been found so far: distinct live nodes, and the bits of their numbers. */
  ghost predicate Queue(nodes: Nodes, gvn: Numbers, data: seq<Id>, bits: set<nat>) {
    && Distinct(data) && (forall i :: 0 <= i < |data| ==> Live(nodes, data[i]))
    && (forall n :: Live(nodes, n) ==> (n in data <==> NumberOf(gvn, n) in bits))
  }

  ghost predicate FoundFrom(nodes: Nodes, entry: Id, end: Id, data: seq<Id>) {
    |data| > 0 && data[0] == 0 && forall i :: 0 < i < |data| ==> Reachable(nodes, entry, end, data[i])
  }

  /** The breadth-first list: nil, then every reachable node, each once. */
  ghost predicate Collected(nodes: Nodes, entry: Id, end: Id, data: seq<Id>) {
    && Distinct(data) && |data| > 0 && data[0] == 0 && (forall i :: 0 < i < |data| ==> data[i] in nodes)
    && (forall n :: n in data <==> n == 0 || Reachable(nodes, entry, end, n))
  }

  lemma {:induction false} DistinctIsShort(data: seq<Id>, within: set<Id>)
    requires Distinct(data) && forall i :: 0 <= i < |data| ==> data[i] in within
    ensures |data| <= |within|
  {
    if data != [] {
      var last := |data| - 1;
      var rest := within - {data[last]};
      assert forall i :: 0 <= i < last ==> data[i] in rest;
      DistinctIsShort(data[..last], rest);
    }
  }

  lemma QueueIsShort(nodes: Nodes, gvn: Numbers, data: seq<Id>, bits: set<nat>)
    requires Queue(nodes, gvn, data, bits)
    ensures |data| <= |nodes| + 1
  {
    var within := nodes.Keys + {0};
    assert |within| <= |nodes.Keys| + 1;
    DistinctIsShort(data, within);
  }

  /** The neighbours of the first i nodes of the list are on it. */
  ghost predicate Expanded(nodes: Nodes, data: seq<Id>, i: nat) {
    i <= |data| && forall j, b :: 0 < j < i && Linked(nodes, data[j], b) ==> b in data
  }

  lemma ExpandedOne(nodes: Nodes, seen: seq<Id>, data: seq<Id>, i: nat)
    requires Expanded(nodes, seen, i) && 0 < i < |seen| && seen <= data
    requires forall b :: Linked(nodes, seen[i], b) ==> b in data
    ensures Expanded(nodes, data, i + 1)
  {
    forall j, b | 0 < j < i + 1 && Linked(nodes, data[j], b) ensures b in data {
      assert data[j] == seen[j] && data == seen + data[|seen|..];
      assert j < i ==> b in seen;
    }
  }

  /** Node j of the list was there from the start, or one of the nodes before i leads to it. */
  ghost predicate FoundBefore(nodes: Nodes, entry: Id, end: Id, data: seq<Id>, j: nat, i: nat)
    requires j < |data|
  {
    data[j] == entry || data[j] == end || exists h :: 0 < h < i && h < |data| && Linked(nodes, data[h], data[j])
  }

  ghost predicate AllFound(nodes: Nodes, entry: Id, end: Id, data: seq<Id>, i: nat) {
    forall j :: 0 < j < |data| ==> FoundBefore(nodes, entry, end, data, j, i)
  }

  /** What has been added to the list, from leads to. */
  ghost predicate LinkedBehind(nodes: Nodes, start: seq<Id>, data: seq<Id>, from: Id) {
    start <= data && forall j :: |start| <= j < |data| ==> Linked(nodes, from, data[j])
  }

  /** If node h leads to node k, it or one before it leads to node j. */
  ghost predicate InOrder(nodes: Nodes, entry: Id, end: Id, data: seq<Id>, j: nat, k: nat, h: nat)
    requires j < |data| && k < |data| && h < |data|
  {
    Linked(nodes, data[h], data[k]) ==> FoundBefore(nodes, entry, end, data, j, h + 1)
  }

  /** Breadth first: what the first i nodes lead to is listed in the order of the nodes that lead to it. */
  ghost predicate BreadthFirst(nodes: Nodes, entry: Id, end: Id, data: seq<Id>, i: nat) {
    forall j, k, h :: 0 < j < k < |data| && 0 < h < i && h < |data| ==> InOrder(nodes, entry, end, data, j, k, h)
  }

  lemma RootsFound(nodes: Nodes, entry: Id, end: Id, data: seq<Id>)
    requires OnlyRoots(entry, end, data)
    ensures AllFound(nodes, entry, end, data, 1) && BreadthFirst(nodes, entry, end, data, 1)
  {
  }

  lemma BreadthStep(nodes: Nodes, entry: Id, end: Id, seen: seq<Id>, data: seq<Id>, i: nat)
    requires Expanded(nodes, seen, i) && AllFound(nodes, entry, end, seen, i)
    requires BreadthFirst(nodes, entry, end, seen, i)
    requires 0 < i < |seen| && seen <= data && Distinct(data)
    requires forall j :: |seen| <= j < |data| ==> Linked(nodes, data[i], data[j])
    ensures AllFound(nodes, entry, end, data, i + 1) && BreadthFirst(nodes, entry, end, data, i + 1)
  {
    assert forall j :: 0 <= j < |seen| ==> data[j] == seen[j];
    var next := i + 1;
    forall j | 0 < j < |data| ensures FoundBefore(nodes, entry, end, data, j, next) {
      if j < |seen| { FoundStays(nodes, entry, end, seen, data, j, i, next); }
    }
    forall j, k, h | 0 < j < k < |data| && 0 < h < next ensures InOrder(nodes, entry, end, data, j, k, h) {
      if h < i && Linked(nodes, data[h], data[k]) {
        assert Linked(nodes, seen[h], data[k]) && data[k] in seen;
        var k' :| 0 <= k' < |seen| && seen[k'] == data[k];
        assert data[k'] == data[k] && InOrder(nodes, entry, end, seen, j, k, h);
        FoundStays(nodes, entry, end, seen, data, j, h + 1, h + 1);
      }
    }
  }

  /** The first i nodes of the list have been expanded. */
  ghost predicate Collecting(nodes: Nodes, gvn: Numbers, entry: Id, end: Id, data: seq<Id>, bits: set<nat>, i: nat) {
    && 1 <= i <= |data| && Queue(nodes, gvn, data, bits) && FoundFrom(nodes, entry, end, data)
    && entry in data && end in data && Expanded(nodes, data, i)
    && AllFound(nodes, entry, end, data, i) && BreadthFirst(nodes, entry, end, data, i)
  }

  lemma CollectStep(nodes: Nodes, gvn: Numbers, entry: Id, end: Id, seen: seq<Id>, was: set<nat>, data: seq<Id>,
                    bits: set<nat>, i: nat)
    requires Collecting(nodes, gvn, entry, end, seen, was, i) && i < |seen|
    requires Queue(nodes, gvn, data, bits) && FoundFrom(nodes, entry, end, data)
    requires LinkedBehind(nodes, seen, data, seen[i]) && forall b :: Linked(nodes, seen[i], b) ==> b in data
    ensures Collecting(nodes, gvn, entry, end, data, bits, i + 1)
  {
    assert data == seen + data[|seen|..];
    ExpandedOne(nodes, seen, data, i);
    BreadthStep(nodes, entry, end, seen, data, i);
  }

  lemma FoundStays(nodes: Nodes, entry: Id, end: Id, seen: seq<Id>, data: seq<Id>, j: nat, i: nat, i': nat)
    requires seen <= data && j < |seen| && i <= i' && FoundBefore(nodes, entry, end, seen, j, i)
    ensures FoundBefore(nodes, entry, end, data, j, i')
  {
    assert data[j] == seen[j];
    if h :| 0 < h < i && h < |seen| && Linked(nodes, seen[h], seen[j]) { assert data[h] == seen[h]; }
  }

  lemma QueueIsCollected(nodes: Nodes, gvn: Numbers, entry: Id, end: Id, data: seq<Id>, bits: set<nat>)
    requires Numbered(nodes, gvn) && Queue(nodes, gvn, data, bits) && FoundFrom(nodes, entry, end, data)
    requires forall n :: n in data <==> n == 0 || Reachable(nodes, entry, end, n)
    ensures Collected(nodes, entry, end, data) && forall i :: 0 < i < |data| ==> data[i] in gvn
  {
    forall i | 0 < i < |data| ensures data[i] in nodes {
      assert Live(nodes, data[i]) && data[i] != data[0];
    }
  }

  lemma CollectedIsExact(nodes: Nodes, entry: Id, end: Id, data: seq<Id>)
    requires 0 !in nodes && FoundFrom(nodes, entry, end, data) && entry in data && end in data
    requires Expanded(nodes, data, |data|)
    ensures forall n :: n in data <==> n == 0 || Reachable(nodes, entry, end, n)
  {
    var inside := set n | n in data;
    forall a, b | a in inside && Linked(nodes, a, b) ensures b in inside {
      var i :| 0 <= i < |data| && data[i] == a;
    }
    forall n | Reachable(nodes, entry, end, n) ensures n in data {
      var p: seq<Id> :| IsTrail(nodes, p) && (p[0] == entry || p[0] == end) && p[|p| - 1] == n;
      TrailStaysInside(nodes, inside, p);
    }
  }

  // ---- the isomorphism ----

  /** Where each kept node went. */
  type Places = map<Id, Id>

  ghost predicate OneToOne(sub: Places) {
    forall a, b {:trigger sub[a], sub[b]} :: a in sub && b in sub && sub[a] == sub[b] ==> a == b
  }

  function MovedIds(ids: seq<Id>, sub: Places): seq<Id>
    requires forall k :: 0 <= k < |ids| ==> ids[k] in sub
  {
    seq(|ids|, k requires 0 <= k < |ids| => sub[ids[k]])
  }

  function MovedOuts(outs: seq<Out>, sub: Places): seq<Out>
    requires forall k :: 0 <= k < |outs| ==> outs[k].id in sub
  {
    seq(|outs|, k requires 0 <= k < |outs| => Out(sub[outs[k].id], outs[k].idx))
  }

  /** Everything the node mentions has a place. */
  ghost predicate Covered(node: Node, sub: Places) {
    && (forall k :: 0 <= k < |node.content.inputs| ==> node.content.inputs[k] in sub)
    && (forall k :: 0 <= k < |node.outs| ==> node.outs[k].id in sub)
  }

  ghost function MovedNode(node: Node, sub: Places): Node
    requires Covered(node, sub)
  {
    Node(node.content.(inputs := MovedIds(node.content.inputs, sub)), MovedOuts(node.outs, sub))
  }

  ghost predicate MovedTo(before: Nodes, after: Nodes, sub: Places, n: Id)
    requires n in sub
  {
    n in before && Covered(before[n], sub) && sub[n] in after && after[sub[n]] == MovedNode(before[n], sub)
  }

  /** `after` is the kept part of `before` with every node moved to its place and every reference along with it. */
  ghost predicate Isomorphic(before: Nodes, after: Nodes, sub: Places) {
    && OneToOne(sub) && 0 in sub && sub[0] == 0
    && (forall n {:trigger MovedTo(before, after, sub, n)} :: n in sub && n != 0 ==> MovedTo(before, after, sub, n))
    && (forall x :: x in after ==> exists n :: n in sub && n != 0 && sub[n] == x)
  }

  /** The copy of a node is of the same kind, with the same payload; its inputs and its records stand where they stood,
      and name the copies of what they named. */
  lemma CopyIsExact(before: Nodes, after: Nodes, sub: Places, n: Id)
    requires Isomorphic(before, after, sub) && n in sub && n != 0
    ensures n in before && sub[n] in after
    ensures var was, now := before[n], after[sub[n]];
      && now.content.spec == was.content.spec && now.content.extra == was.content.extra
      && |now.content.inputs| == |was.content.inputs| && |now.outs| == |was.outs|
      && (forall k :: 0 <= k < |was.content.inputs| ==>
            was.content.inputs[k] in sub && now.content.inputs[k] == sub[was.content.inputs[k]])
      && (forall k :: 0 <= k < |was.outs| ==>
            was.outs[k].id in sub && now.outs[k].id == sub[was.outs[k].id] && now.outs[k].idx == was.outs[k].idx)
  {
    assert MovedTo(before, after, sub, n);
  }

  lemma {:induction false} MovedCount(outs: seq<Out>, sub: Places, u: Id, k: nat)
    requires OneToOne(sub) && u in sub && forall i :: 0 <= i < |outs| ==> outs[i].id in sub
    ensures Count(MovedOuts(outs, sub), Out(sub[u], k)) == Count(outs, Out(u, k))
  {
    if outs != [] {
      var last := |outs| - 1;
      assert MovedOuts(outs, sub)[..last] == MovedOuts(outs[..last], sub);
      MovedCount(outs[..last], sub, u, k);
    }
  }

  lemma MovedReads(before: Nodes, after: Nodes, sub: Places, n: Id, u: Id, k: nat)
    requires Isomorphic(before, after, sub) && n in sub && n != 0 && u in sub && u != 0
    ensures Reads(after, IDLE, Out(sub[u], k), sub[n]) <==> Reads(before, IDLE, Out(u, k), n)
  {
    assert MovedTo(before, after, sub, u);
  }

  lemma MovedRecords(before: Nodes, after: Nodes, sub: Places, n: Id, o: Out)
    requires Isomorphic(before, after, sub) && RecordsExact(before, IDLE, n)
    requires 0 !in before && n in sub && n != 0 && o != PIN
    ensures Records(after, sub[n], o) == if Reads(after, IDLE, o, sub[n]) then 1 else 0
  {
    assert MovedTo(before, after, sub, n);
    if u :| u in sub && sub[u] == o.id {
      MovedCount(before[n].outs, sub, u, o.idx);
      if u != 0 {
        MovedReads(before, after, sub, n, u, o.idx);
      } else {
        assert Out(0, o.idx) != PIN && !Reads(before, IDLE, Out(0, o.idx), n);
        NilNotInImage(before, after, sub);
      }
    } else {
      NotMoved(before[n].outs, sub, o);
    }
  }

  lemma NilNotInImage(before: Nodes, after: Nodes, sub: Places)
    requires Isomorphic(before, after, sub)
    ensures 0 !in after
  {
  }

  lemma NotMoved(outs: seq<Out>, sub: Places, o: Out)
    requires (forall i :: 0 <= i < |outs| ==> outs[i].id in sub) && forall u :: u in sub ==> sub[u] != o.id
    ensures Count(MovedOuts(outs, sub), o) == 0
  {
    assert o !in MovedOuts(outs, sub);
  }

  /** Inputs and outputs still mirror each other. */
  lemma IsomorphicKeepsDefUse(before: Nodes, after: Nodes, sub: Places)
    requires DefUse(before, IDLE) && Isomorphic(before, after, sub)
    ensures DefUse(after, IDLE)
  {
    NilNotInImage(before, after, sub);
    forall x | x in after ensures RecordsExact(after, IDLE, x) {
      var n :| n in sub && n != 0 && sub[n] == x;
      assert MovedTo(before, after, sub, n);
      assert RecordsExact(before, IDLE, n);
      forall o | o != PIN ensures Records(after, x, o) == if Reads(after, IDLE, o, x) then 1 else 0 {
        MovedRecords(before, after, sub, n, o);
      }
    }
    forall x | x in after ensures InputsLive(after, IDLE, x) {
      MovedInputsLive(before, after, sub, x);
      InputsStayLive(after, x);
    }
  }

  lemma MovedInputsLive(before: Nodes, after: Nodes, sub: Places, x: Id)
    requires Isomorphic(before, after, sub) && x in after
    ensures forall k :: 0 <= k < |after[x].content.inputs| ==>
      after[x].content.inputs[k] == 0 || after[x].content.inputs[k] in after
  {
    var n :| n in sub && n != 0 && sub[n] == x;
    assert MovedTo(before, after, sub, n);
    forall k | 0 <= k < |after[x].content.inputs|
      ensures after[x].content.inputs[k] == 0 || after[x].content.inputs[k] in after {
      var y := before[n].content.inputs[k];
      if y != 0 { assert MovedTo(before, after, sub, y); }
    }
  }

  /** Different contents stay different. */
  lemma MovedContentsDiffer(before: Nodes, after: Nodes, sub: Places, a: Id, b: Id)
    requires Isomorphic(before, after, sub) && a in sub && b in sub && a != 0 && b != 0
    ensures a in before && b in before && sub[a] in after && sub[b] in after
    ensures after[sub[a]].content == after[sub[b]].content ==> before[a].content == before[b].content
    ensures after[sub[a]].content.spec == before[a].content.spec
  {
    assert MovedTo(before, after, sub, a) && MovedTo(before, after, sub, b);
    var p, q := before[a].content.inputs, before[b].content.inputs;
    if after[sub[a]].content == after[sub[b]].content {
      assert |MovedIds(p, sub)| == |MovedIds(q, sub)|;
      forall k | 0 <= k < |p| ensures p[k] == q[k] {
        assert MovedIds(p, sub)[k] == MovedIds(q, sub)[k];
      }
    }
  }

  /** The table lists the interned nodes, each once, with their hashes. */
  ghost predicate ListsMoved(env: Env, after: Nodes, table: seq<Entry>) {
    && (forall e :: e in table ==>
          e.id in after && Interned(env, after[e.id].content) && e.hash == env.hash(after[e.id].content))
    && (forall i, j :: 0 <= i < j < |table| ==> table[i].id != table[j].id)
    && (forall x :: x in after && Interned(env, after[x].content) ==> Listed(table, x))
  }

  lemma IsomorphicKeepsTable(env: Env, before: Nodes, after: Nodes, sub: Places, table: seq<Entry>, table': seq<Entry>)
    requires TableOk(env, before, table, TIGHT) && Isomorphic(before, after, sub) && ListsMoved(env, after, table')
    ensures TableOk(env, after, table', TIGHT) && AllLive(after, table')
  {
    forall i | 0 <= i < |table'| ensures EntryOk(env, after, table'[i]) {
      assert table'[i] in table';
    }
    forall i, j | 0 <= i < j < |table'| ensures after[table'[i].id].content != after[table'[j].id].content {
      assert table'[i] in table' && table'[j] in table';
      EntriesDiffer(env, before, after, sub, table, table'[i].id, table'[j].id);
    }
  }

  lemma EntriesDiffer(env: Env, before: Nodes, after: Nodes, sub: Places, table: seq<Entry>, x: Id, y: Id)
    requires TableOk(env, before, table, TIGHT) && Isomorphic(before, after, sub) && x in after && y in after && x != y
    requires Interned(env, after[x].content)
    ensures after[x].content != after[y].content
  {
    var a :| a in sub && a != 0 && sub[a] == x;
    var b :| b in sub && b != 0 && sub[b] == y;
    MovedContentsDiffer(before, after, sub, a, b);
  }

  // ---- from numbers to places ----

  /** Entry i of the list went to places[i]. */
  ghost function PlacesOf(data: seq<Id>, places: seq<Id>): Places
    requires |places| == |data| && Distinct(data)
  {
    map n | n in data :: places[PositionOf(data, n)]
  }

  ghost function PositionOf(data: seq<Id>, n: Id): (i: nat)
    requires n in data
    ensures i < |data| && data[i] == n
  {
    var i :| 0 <= i < |data| && data[i] == n;
    i
  }

  predicate Ascending(places: seq<Id>) {
    forall i, j :: 0 <= i < j < |places| ==> places[i] < places[j]
  }

  lemma SamePlace(places: seq<Id>, i: nat, j: nat)
    requires Ascending(places) && i < |places| && j < |places| && places[i] == places[j]
    ensures i == j
  {
  }

  /** The number of a listed node is its position. */
  ghost predicate NumbersAre(gvn: Numbers, data: seq<Id>) {
    0 !in gvn && forall i :: 0 < i < |data| ==> data[i] in gvn && gvn[data[i]] == i
  }

  function Project(gvn: Numbers, places: seq<Id>, n: Id): Id
    requires NumberOf(gvn, n) < |places|
  {
    places[NumberOf(gvn, n)]
  }

  lemma ProjectIsPlace(gvn: Numbers, data: seq<Id>, places: seq<Id>, n: Id)
    requires |places| == |data| > 0 && Distinct(data) && data[0] == 0 && NumbersAre(gvn, data) && n in data
    ensures NumberOf(gvn, n) < |places| && n in PlacesOf(data, places)
    ensures Project(gvn, places, n) == PlacesOf(data, places)[n]
  {
    var i := PositionOf(data, n);
  }

  lemma PlacesOneToOne(data: seq<Id>, places: seq<Id>)
    requires |places| == |data| > 0 && Distinct(data) && data[0] == 0 && Ascending(places) && places[0] == 0
    ensures OneToOne(PlacesOf(data, places)) && 0 in PlacesOf(data, places) && PlacesOf(data, places)[0] == 0
  {
    var sub := PlacesOf(data, places);
    forall a, b | a in sub && b in sub && sub[a] == sub[b] ensures a == b {
      SamePlace(places, PositionOf(data, a), PositionOf(data, b));
    }
    assert PositionOf(data, 0) == 0;
  }

  lemma CollectedCovers(nodes: Nodes, entry: Id, end: Id, data: seq<Id>, sub: Places, i: nat)
    requires Collected(nodes, entry, end, data) && sub.Keys == (set n | n in data) && 0 < i < |data|
    ensures Covered(nodes[data[i]], sub)
  {
    var node := nodes[data[i]];
    assert data[i] in data;
    forall x | x == 0 || Linked(nodes, data[i], x) ensures x in sub {
      if x == 0 { assert data[0] in data; } else { LinkReachable(nodes, entry, end, data[i], x); }
    }
    forall k | 0 <= k < |node.content.inputs| ensures node.content.inputs[k] in sub {
      assert node.content.inputs[k] in Inputs(nodes, data[i]);
    }
    forall k | 0 <= k < |node.outs| ensures node.outs[k].id in sub {
      assert node.outs[k] in Outs(nodes, data[i]);
    }
  }

  // ---- no gaps ----

  /** How much room a node takes in the arena besides its first word. */
  type Room = Node -> nat

  /** Where the next node goes, behind the copy of n. */
  function Behind(room: Room, nodes: Nodes, n: Id, place: Id): Id
    requires n in nodes
  {
    place + 1 + room(nodes[n])
  }

  /** What follows the place of node j of the list. */
  predicate PackedAt(room: Room, nodes: Nodes, data: seq<Id>, places: seq<Id>, pos: nat, j: nat)
    requires j < |places| <= |data|
  {
    data[j] in nodes && Behind(room, nodes, data[j], places[j]) == if j + 1 < |places| then places[j + 1] else pos
  }

  /** The nodes of the list lie one right behind the other. */
  ghost predicate Packed(room: Room, nodes: Nodes, data: seq<Id>, places: seq<Id>, pos: nat) {
    && 0 < |places| <= |data| && (if |places| == 1 then pos == 1 else places[1] == 1)
    && (forall j {:trigger PackedAt(room, nodes, data, places, pos, j)} :: 0 < j < |places| ==>
          PackedAt(room, nodes, data, places, pos, j))
  }

  lemma PackOne(room: Room, nodes: Nodes, data: seq<Id>, places: seq<Id>, pos: nat)
    requires Packed(room, nodes, data, places, pos) && |places| < |data| && data[|places|] in nodes
    ensures Packed(room, nodes, data, places + [pos], Behind(room, nodes, data[|places|], pos))
  {
    var next, pos' := places + [pos], Behind(room, nodes, data[|places|], pos);
    forall j | 0 < j < |next| ensures PackedAt(room, nodes, data, next, pos', j) {
      if j < |places| { assert PackedAt(room, nodes, data, places, pos, j); }
    }
  }

  /** The copies fill the arena: the first stands at its start, and each but the last is followed by another. */
  ghost predicate Gapless(room: Room, before: Nodes, after: Nodes, sub: Places, pos: nat) {
    && (after != map[] ==> 1 in after)
    && (forall n {:trigger Followed(room, before, after, sub, pos, n)} :: n in sub && n in before ==>
          Followed(room, before, after, sub, pos, n))
  }

  ghost predicate Followed(room: Room, before: Nodes, after: Nodes, sub: Places, pos: nat, n: Id)
    requires n in sub && n in before
  {
    Behind(room, before, n, sub[n]) in after || Behind(room, before, n, sub[n]) == pos
  }

  /** The nodes went to their places in the order of the list, breadth first. */
  ghost predicate InListOrder(nodes: Nodes, entry: Id, end: Id, data: seq<Id>, sub: Places) {
    && Collected(nodes, entry, end, data) && BreadthFirst(nodes, entry, end, data, |data|)
    && (forall i :: 0 <= i < |data| ==> data[i] in sub)
    && (forall i, j :: 0 <= i < j < |data| ==> sub[data[i]] < sub[data[j]])
  }

  lemma PlacesInOrder(nodes: Nodes, entry: Id, end: Id, data: seq<Id>, places: seq<Id>, sub: Places)
    requires Collected(nodes, entry, end, data) && BreadthFirst(nodes, entry, end, data, |data|)
    requires |places| == |data| && Ascending(places) && sub == PlacesOf(data, places)
    ensures InListOrder(nodes, entry, end, data, sub)
  {
    forall i | 0 <= i < |data| ensures data[i] in sub && sub[data[i]] == places[i] {
      assert data[i] in data;
    }
  }

  lemma PackedIsGapless(room: Room, nodes: Nodes, data: seq<Id>, places: seq<Id>, pos: nat, copies: Nodes, sub: Places)
    requires Packed(room, nodes, data, places, pos) && |places| == |data| && Distinct(data)
    requires sub == PlacesOf(data, places) && Domain(copies, places) && data[0] !in nodes
    ensures Gapless(room, nodes, copies, sub, pos)
  {
    forall n | n in sub && n in nodes ensures Followed(room, nodes, copies, sub, pos, n) {
      var j := PositionOf(data, n);
      assert places[j] == sub[n] && PackedAt(room, nodes, data, places, pos, j);
      if j + 1 < |places| { assert IsPlace(places, places[j + 1]); }
    }
    if |places| > 1 { assert IsPlace(places, places[1]); }
  }

  /** Outputs, table and numbers are right, and the pinned nodes are there. */
  ghost predicate Intact(env: Env, nodes: Nodes, table: seq<Entry>, gvn: Numbers, entry: Id, end: Id, pos: nat) {
    && DefUse(nodes, IDLE) && TableOk(env, nodes, table, TIGHT) && AllLive(nodes, table)
    && Numbered(nodes, gvn) && Dense(nodes, gvn, pos) && entry in nodes && end in nodes
  }

  /** The reachable nodes have gone, in the order of the list, to places without gaps, the pinned nodes with them. */
  ghost predicate Moved(room: Room, before: Nodes, entry: Id, end: Id, after: Nodes, entry': Id, end': Id, sub: Places,
                        data: seq<Id>, pos: nat) {
    && Isomorphic(before, after, sub) && (forall n :: n in sub <==> n == 0 || Reachable(before, entry, end, n))
    && entry in sub && entry' == sub[entry] && end in sub && end' == sub[end]
    && Gapless(room, before, after, sub, pos) && InListOrder(before, entry, end, data, sub)
  }

  // ---- the procedure ----

  class Procedure {
    const env: Env
    const room: Room
    var nodes: Nodes
    var table: seq<Entry>
    var gvn: Numbers
    var entry: Id
    var end: Id
    var pos: nat

    ghost predicate Valid()
      reads this
    {
      DefUse(nodes, IDLE) && TableOk(env, nodes, table, TIGHT) && Numbered(nodes, gvn) && entry in nodes && end in nodes
    }

    /** Queues a live node unless the bit of its number is set. */
    method Enqueue(data: seq<Id>, bits: set<nat>, id: Id) returns (data': seq<Id>, bits': set<nat>)
      requires Numbered(nodes, gvn) && 0 !in nodes && Queue(nodes, gvn, data, bits)
      ensures Queue(nodes, gvn, data', bits') && (data' == data || data' == data + [id])
      ensures Live(nodes, id) ==> id in data'
    {
      data', bits' := data, bits;
      if id != 0 && id !in nodes { return; }
      var number := NumberOf(gvn, id);
      if number in bits { return; }
      bits' := bits + {number};
      data' := data + [id];
    }

    method CollectNodes() returns (data: seq<Id>)
      requires Valid()
      modifies this`gvn
      ensures Collected(nodes, entry, end, data) && NumbersAre(gvn, data) && gvn.Keys == old(gvn).Keys
      ensures BreadthFirst(nodes, entry, end, data, |data|)
    {
      var bits: set<nat>;
      data, bits := StartQueue();
      RootsFound(nodes, entry, end, data);
      var i := 1;
      while i < |data|
        invariant Collecting(nodes, gvn, entry, end, data, bits, i) && gvn == old(gvn)
        decreases |nodes| + 1 - i
      {
        QueueIsShort(nodes, gvn, data, bits);
        ghost var seen, was := data, bits;
        data, bits := Expand(data, bits, i);
        CollectStep(nodes, gvn, entry, end, seen, was, data, bits, i);
        i := i + 1;
      }
      CollectedIsExact(nodes, entry, end, data);
      QueueIsCollected(nodes, gvn, entry, end, data, bits);
      Renumber(data);
    }

    /** Nil first, then the two pinned nodes. */
    method StartQueue() returns (data: seq<Id>, bits: set<nat>)
      requires Valid()
      ensures Queue(nodes, gvn, data, bits) && FoundFrom(nodes, entry, end, data) && entry in data && end in data
      ensures OnlyRoots(entry, end, data)
    {
      data, bits := Enqueue([], {}, 0);
      assert data == [0];
      ghost var nil := data;
      data, bits := Enqueue(data, bits, entry);
      RootFound(nodes, entry, end, nil, data, entry);
      ghost var first := data;
      data, bits := Enqueue(data, bits, end);
      RootFound(nodes, entry, end, first, data, end);
    }

    /** Queues the neighbours of node i of the list. */
    method Expand(data: seq<Id>, bits: set<nat>, i: nat) returns (data': seq<Id>, bits': set<nat>)
      requires Valid() && 0 < i < |data| && Queue(nodes, gvn, data, bits) && FoundFrom(nodes, entry, end, data)
      ensures Queue(nodes, gvn, data', bits') && FoundFrom(nodes, entry, end, data') && data <= data'
      ensures forall b :: Linked(nodes, data[i], b) ==> b in data'
      ensures LinkedBehind(nodes, data, data', data[i])
    {
      data', bits' := data, bits;
      var node := nodes[data[i]];
      for k := 0 to |node.content.inputs|
        invariant Queue(nodes, gvn, data', bits') && FoundFrom(nodes, entry, end, data') && data <= data'
        invariant LinkedBehind(nodes, data, data', data[i])
        invariant forall j :: 0 <= j < k ==> node.content.inputs[j] in data'
      {
        data', bits' := Reach(data', bits', data[i], node.content.inputs[k]);
      }
      for k := 0 to |node.outs|
        invariant Queue(nodes, gvn, data', bits') && FoundFrom(nodes, entry, end, data') && data <= data'
        invariant LinkedBehind(nodes, data, data', data[i])
        invariant forall j :: 0 <= j < |node.content.inputs| ==> node.content.inputs[j] in data'
        invariant forall j :: 0 <= j < k ==> node.outs[j].id in data'
      {
        data', bits' := Reach(data', bits', data[i], node.outs[k].id);
      }
    }

    method Reach(data: seq<Id>, bits: set<nat>, ghost from: Id, id: Id) returns (data': seq<Id>, bits': set<nat>)
      requires Valid() && Queue(nodes, gvn, data, bits) && FoundFrom(nodes, entry, end, data)
      requires Reachable(nodes, entry, end, from) && (id == 0 || Linked(nodes, from, id))
      ensures Queue(nodes, gvn, data', bits') && FoundFrom(nodes, entry, end, data') && data <= data' && id in data'
      ensures forall start :: LinkedBehind(nodes, start, data, from) ==> LinkedBehind(nodes, start, data', from)
    {
      NeighbourLives(nodes, from, id);
      data', bits' := Enqueue(data, bits, id);
      if id != 0 { LinkReachable(nodes, entry, end, from, id); }
    }

    method Renumber(data: seq<Id>)
      requires Distinct(data) && |data| > 0 && data[0] == 0 && 0 !in gvn
      requires forall i :: 0 < i < |data| ==> data[i] in gvn
      modifies this`gvn
      ensures NumbersAre(gvn, data) && gvn.Keys == old(gvn).Keys
    {
      for i := 1 to |data|
        invariant gvn.Keys == old(gvn).Keys && forall j :: 0 < j < i ==> gvn[data[j]] == j
      {
        gvn := gvn[data[i] := i];
      }
    }

    /** Copies the listed nodes one behind the other into a fresh arena; they still refer to the old one. */
    method CloneNodes(data: seq<Id>) returns (places: seq<Id>, copies: Nodes)
      requires |data| > 0 && forall i :: 0 < i < |data| ==> data[i] in nodes
      modifies this`pos
      ensures Cloned(nodes, data, places, copies) && |places| == |data| && forall x :: x in copies ==> x < pos
      ensures Packed(room, nodes, data, places, pos)
    {
      places, copies := [0], map[];
      pos := 1;
      for i := 1 to |data|
        invariant |places| == i && Cloning(room, nodes, data, places, copies, pos)
      {
        CloneStep(room, nodes, data, places, copies, pos);
        copies := copies[pos := nodes[data[i]]];
        places := places + [pos];
        pos := pos + 1 + room(nodes[data[i]]);
      }
    }

    method ProjectInputs(inputs: seq<Id>, data: seq<Id>, places: seq<Id>, ghost sub: Places) returns (r: seq<Id>)
      requires |places| == |data| > 0 && Distinct(data) && data[0] == 0
      requires NumbersAre(gvn, data) && sub == PlacesOf(data, places)
      requires forall k :: 0 <= k < |inputs| ==> inputs[k] in sub
      ensures r == MovedIds(inputs, sub)
    {
      r := inputs;
      for k := 0 to |inputs|
        invariant |r| == |inputs| && r[k..] == inputs[k..] && forall j :: 0 <= j < k ==> r[j] == sub[inputs[j]]
      {
        ProjectIsPlace(gvn, data, places, inputs[k]);
        r := r[k := Project(gvn, places, inputs[k])];
      }
    }

    method ProjectOuts(outs: seq<Out>, data: seq<Id>, places: seq<Id>, ghost sub: Places) returns (r: seq<Out>)
      requires |places| == |data| > 0 && Distinct(data) && data[0] == 0
      requires NumbersAre(gvn, data) && sub == PlacesOf(data, places)
      requires forall k :: 0 <= k < |outs| ==> outs[k].id in sub
      ensures r == MovedOuts(outs, sub)
    {
      r := outs;
      for k := 0 to |outs|
        invariant |r| == |outs| && r[k..] == outs[k..]
        invariant forall j :: 0 <= j < k ==> r[j] == Out(sub[outs[j].id], outs[j].idx)
      {
        ProjectIsPlace(gvn, data, places, outs[k].id);
        r := r[k := Out(Project(gvn, places, outs[k].id), outs[k].idx)];
      }
    }

    /** Projects the references of copy i and lists the copy if it is interned. */
    method RelinkNode(data: seq<Id>, places: seq<Id>, copies: Nodes, entries: seq<Entry>, i: nat, ghost sub: Places)
      returns (copies': Nodes, entries': seq<Entry>)
      requires |places| == |data| && 0 < i < |data| && Distinct(data) && data[0] == 0
      requires NumbersAre(gvn, data) && sub == PlacesOf(data, places)
      requires data[i] in nodes && Covered(nodes[data[i]], sub)
      requires Relinked(nodes, data, places, copies, sub, i) && Entered(env, places, copies, entries, i)
      ensures Relinked(nodes, data, places, copies', sub, i + 1) && Entered(env, places, copies', entries', i + 1)
    {
      assert RelinkedAt(nodes, data, places, copies, sub, i, i);
      var node := copies[places[i]];
      var inputs := ProjectInputs(node.content.inputs, data, places, sub);
      var outs := ProjectOuts(node.outs, data, places, sub);
      var moved := Node(node.content.(inputs := inputs), outs);
      copies' := copies[places[i] := moved];
      entries' := EntriesWith(env, entries, places[i], moved.content);
      RelinkOne(nodes, data, places, copies, copies', sub, i);
      EnterOne(env, places, copies, copies', entries, i);
    }

    /** Projects all copies. */
    method Relink(data: seq<Id>, places: seq<Id>, clones: Nodes, ghost sub: Places)
      returns (copies: Nodes, entries: seq<Entry>)
      requires |places| == |data| && Collected(nodes, entry, end, data)
      requires NumbersAre(gvn, data) && sub == PlacesOf(data, places)
      requires Cloned(nodes, data, places, clones) && DefUse(nodes, IDLE) && TableOk(env, nodes, table, TIGHT)
      ensures Isomorphic(nodes, copies, sub) && Domain(copies, places)
      ensures DefUse(copies, IDLE) && TableOk(env, copies, entries, TIGHT) && AllLive(copies, entries)
    {
      copies, entries := clones, [];
      ClonedIsUnlinked(nodes, data, places, copies, sub);
      for i := 1 to |data|
        invariant Relinked(nodes, data, places, copies, sub, i) && Entered(env, places, copies, entries, i)
      {
        CollectedCovers(nodes, entry, end, data, sub, i);
        copies, entries := RelinkNode(data, places, copies, entries, i, sub);
      }
      CompactedOk(env, nodes, table, entry, end, data, places, copies, entries, sub);
    }

    /** Keeps the reachable nodes only, moved to consecutive places. */
    method Compact() returns (ghost sub: Places, ghost data: seq<Id>)
      requires Valid()
      modifies this
      ensures Intact(env, nodes, table, gvn, entry, end, pos)
      ensures Moved(room, old(nodes), old(entry), old(end), nodes, entry, end, sub, data, pos)
    {
      var copies, entries, numbers, entry', end';
      copies, entries, numbers, entry', end', sub, data := CopyAll();
      Adopt(copies, entries, numbers, entry', end');
    }

    method Adopt(copies: Nodes, entries: seq<Entry>, numbers: Numbers, entry': Id, end': Id)
      modifies this`nodes, this`table, this`gvn, this`entry, this`end
      ensures nodes == copies && table == entries && gvn == numbers && entry == entry' && end == end'
    {
      nodes, table, gvn, entry, end := copies, entries, numbers, entry', end';
    }

    method CopyAll()
      returns (copies: Nodes, entries: seq<Entry>, numbers: Numbers, entry': Id, end': Id, ghost sub: Places,
        ghost data: seq<Id>)
      requires Valid()
      modifies this`pos, this`gvn
      ensures Intact(env, copies, entries, numbers, entry', end', pos)
      ensures Moved(room, nodes, entry, end, copies, entry', end', sub, data, pos)
    {
      var list := CollectNodes();
      data := list;
      var places;
      copies, entries, places, sub := CopyNodes(list);
      entry', end' := ProjectPinned(list, places, copies, sub);
      numbers := NumberCopies(places, copies);
      PlacesInOrder(nodes, entry, end, list, places, sub);
    }

    method CopyNodes(data: seq<Id>) returns (copies: Nodes, entries: seq<Entry>, places: seq<Id>, ghost sub: Places)
      requires Collected(nodes, entry, end, data) && NumbersAre(gvn, data)
      requires DefUse(nodes, IDLE) && TableOk(env, nodes, table, TIGHT)
      modifies this`pos
      ensures |places| == |data| && sub == PlacesOf(data, places) && places[0] == 0 && Ascending(places)
      ensures Isomorphic(nodes, copies, sub) && Domain(copies, places) && forall n :: n in copies ==> n < pos
      ensures Gapless(room, nodes, copies, sub, pos)
      ensures DefUse(copies, IDLE) && TableOk(env, copies, entries, TIGHT) && AllLive(copies, entries)
    {
      var clones;
      places, clones := CloneNodes(data);
      sub := PlacesOf(data, places);
      copies, entries := Relink(data, places, clones, sub);
      PackedIsGapless(room, nodes, data, places, pos, copies, sub);
    }

    method ProjectPinned(data: seq<Id>, places: seq<Id>, ghost copies: Nodes, ghost sub: Places)
      returns (entry': Id, end': Id)
      requires |places| == |data| && Collected(nodes, entry, end, data)
      requires NumbersAre(gvn, data) && sub == PlacesOf(data, places)
      requires Isomorphic(nodes, copies, sub) && entry != 0 && end != 0
      ensures entry in sub && entry' == sub[entry] && entry' in copies
      ensures end in sub && end' == sub[end] && end' in copies
      ensures forall n :: n in sub <==> n == 0 || Reachable(nodes, entry, end, n)
    {
      PinnedPlaces(nodes, entry, end, gvn, data, places, copies, sub);
      entry', end' := Project(gvn, places, entry), Project(gvn, places, end);
    }

    method NumberCopies(places: seq<Id>, ghost copies: Nodes) returns (numbers: Numbers)
      requires |places| > 0 && places[0] == 0 && Ascending(places) && Domain(copies, places)
      ensures Numbered(copies, numbers) && forall n :: n in copies ==> 0 < numbers[n] <= |copies|
      ensures forall a, b {:trigger numbers[a], numbers[b]} ::
        a in copies && b in copies && a < b ==> numbers[a] < numbers[b]
    {
      numbers := map[];
      for i := 1 to |places|
        invariant numbers.Keys == (set j | 0 < j < i :: places[j]) && forall j :: 0 < j < i ==> numbers[places[j]] == j
      {
        numbers := numbers[places[i] := i];
      }
      FreshNumbers(copies, places, numbers);
    }
  }

  lemma PinnedPlaces(nodes: Nodes, entry: Id, end: Id, gvn: Numbers, data: seq<Id>, places: seq<Id>, copies: Nodes,
                     sub: Places)
    requires |places| == |data| && Collected(nodes, entry, end, data)
    requires NumbersAre(gvn, data) && sub == PlacesOf(data, places)
    requires Isomorphic(nodes, copies, sub) && entry != 0 && end != 0
    ensures NumberOf(gvn, entry) < |places| && NumberOf(gvn, end) < |places|
    ensures entry in sub && Project(gvn, places, entry) == sub[entry] && sub[entry] in copies
    ensures end in sub && Project(gvn, places, end) == sub[end] && sub[end] in copies
  {
    RootReachable(nodes, entry, end, entry);
    RootReachable(nodes, entry, end, end);
    ProjectIsPlace(gvn, data, places, entry);
    ProjectIsPlace(gvn, data, places, end);
    assert MovedTo(nodes, copies, sub, entry) && MovedTo(nodes, copies, sub, end);
  }

  // ---- lemmas about copying ----

  ghost predicate IsPlace(places: seq<Id>, x: Id) {
    exists j :: 0 < j < |places| && places[j] == x
  }

  ghost predicate Domain(copies: Nodes, places: seq<Id>) {
    forall x :: x in copies <==> IsPlace(places, x)
  }

  ghost predicate Cloned(nodes: Nodes, data: seq<Id>, places: seq<Id>, copies: Nodes) {
    && 0 < |places| <= |data| && places[0] == 0 && Ascending(places) && Domain(copies, places)
    && (forall j {:trigger places[j]} :: 0 < j < |places| && places[j] in copies ==>
          data[j] in nodes && copies[places[j]] == nodes[data[j]])
  }

  /** In the course of copying. */
  ghost predicate Cloning(room: Room, nodes: Nodes, data: seq<Id>, places: seq<Id>, copies: Nodes, pos: nat) {
    && Cloned(nodes, data, places, copies) && Packed(room, nodes, data, places, pos) && pos > 0
    && (forall x :: x in places ==> x < pos) && (forall x :: x in copies ==> x < pos)
  }

  lemma CloneStep(room: Room, nodes: Nodes, data: seq<Id>, places: seq<Id>, copies: Nodes, pos: nat)
    requires Cloning(room, nodes, data, places, copies, pos) && |places| < |data| && data[|places|] in nodes
    ensures Cloning(room, nodes, data, places + [pos], copies[pos := nodes[data[|places|]]],
      Behind(room, nodes, data[|places|], pos))
  {
    CloneOne(nodes, data, places, copies, pos);
    PackOne(room, nodes, data, places, pos);
  }

  lemma CloneOne(nodes: Nodes, data: seq<Id>, places: seq<Id>, copies: Nodes, pos: nat)
    requires |places| < |data| && data[|places|] in nodes
    requires Cloned(nodes, data, places, copies) && forall x :: x in places ==> x < pos
    ensures Cloned(nodes, data, places + [pos], copies[pos := nodes[data[|places|]]])
  {
    var next, copies' := places + [pos], copies[pos := nodes[data[|places|]]];
    forall x ensures x in copies' <==> IsPlace(next, x) {
      PlaceAdded(places, pos, x);
    }
    AscendingGrows(places, pos);
    forall j | 0 < j < |next| && next[j] in copies' ensures data[j] in nodes && copies'[next[j]] == nodes[data[j]] {
      if j < |places| { assert next[j] == places[j] && places[j] in places; }
    }
  }

  lemma AscendingGrows(places: seq<Id>, pos: nat)
    requires Ascending(places) && forall x :: x in places ==> x < pos
    ensures Ascending(places + [pos])
  {
    assert forall j :: 0 <= j < |places| ==> places[j] in places && (places + [pos])[j] == places[j];
  }

  lemma PlaceAdded(places: seq<Id>, pos: nat, x: Id)
    requires |places| > 0
    ensures IsPlace(places + [pos], x) <==> IsPlace(places, x) || x == pos
  {
    var next := places + [pos];
    assert forall j :: 0 <= j < |places| ==> next[j] == places[j];
    assert next[|places|] == pos;
    if IsPlace(places, x) {
      var j :| 0 < j < |places| && places[j] == x;
      assert next[j] == x;
    }
  }

  /** The first i copies refer to the new places, the others still to the old ones. */
  ghost predicate Relinked(nodes: Nodes, data: seq<Id>, places: seq<Id>, copies: Nodes, sub: Places, i: nat) {
    && |places| == |data| && 0 < i <= |data| && places[0] == 0 && Ascending(places) && Domain(copies, places)
    && (forall j {:trigger RelinkedAt(nodes, data, places, copies, sub, i, j)} ::
          0 < j < |data| ==> RelinkedAt(nodes, data, places, copies, sub, i, j))
  }

  ghost predicate RelinkedAt(nodes: Nodes, data: seq<Id>, places: seq<Id>, copies: Nodes, sub: Places, i: nat, j: nat)
    requires |places| == |data| && 0 < j < |data|
  {
    && data[j] in nodes && places[j] in copies
    && if j < i then Covered(nodes[data[j]], sub) && copies[places[j]] == MovedNode(nodes[data[j]], sub)
       else copies[places[j]] == nodes[data[j]]
  }

  lemma ClonedIsUnlinked(nodes: Nodes, data: seq<Id>, places: seq<Id>, copies: Nodes, sub: Places)
    requires Cloned(nodes, data, places, copies) && |places| == |data|
    ensures Relinked(nodes, data, places, copies, sub, 1)
  {
    forall j | 0 < j < |data| ensures RelinkedAt(nodes, data, places, copies, sub, 1, j) {
      assert IsPlace(places, places[j]);
    }
  }

  lemma RelinkOne(nodes: Nodes, data: seq<Id>, places: seq<Id>, copies: Nodes, copies': Nodes, sub: Places, i: nat)
    requires Relinked(nodes, data, places, copies, sub, i) && 0 < i < |data|
    requires data[i] in nodes && Covered(nodes[data[i]], sub)
    requires copies' == copies[places[i] := MovedNode(nodes[data[i]], sub)]
    ensures Relinked(nodes, data, places, copies', sub, i + 1)
  {
    assert RelinkedAt(nodes, data, places, copies, sub, i, i);
    var next := i + 1;
    forall j | 0 < j < |data| ensures RelinkedAt(nodes, data, places, copies', sub, next, j) {
      assert RelinkedAt(nodes, data, places, copies, sub, i, j);
      assert j != i ==> places[j] != places[i];
    }
  }

  /** The table lists the interned ones among the first i copies, in order. */
  ghost predicate Entered(env: Env, places: seq<Id>, copies: Nodes, entries: seq<Entry>, i: nat) {
    && 0 < i <= |places| && Ascending(places)
    && (forall a :: 0 <= a < |entries| ==> EntryAmong(env, places, copies, entries[a], i))
    && (forall a, b :: 0 <= a < b < |entries| ==> entries[a].id < entries[b].id)
    && (forall j {:trigger places[j]} ::
          0 < j < i && places[j] in copies && Interned(env, copies[places[j]].content) ==> Listed(entries, places[j]))
  }

  ghost predicate EntryAmong(env: Env, places: seq<Id>, copies: Nodes, e: Entry, i: nat) {
    && EntryOk(env, copies, e) && exists j :: 0 < j < i && j < |places| && places[j] == e.id
  }

  lemma EntryStays(env: Env, places: seq<Id>, copies: Nodes, copies': Nodes, e: Entry, i: nat)
    requires EntryAmong(env, places, copies, e, i) && i < |places| && Ascending(places) && places[i] in copies'
    requires copies' == copies[places[i] := copies'[places[i]]]
    ensures e.id < places[i] && EntryAmong(env, places, copies', e, i + 1)
  {
    var j :| 0 < j < i && j < |places| && places[j] == e.id;
    assert places[j] < places[i];
  }

  function EntriesWith(env: Env, entries: seq<Entry>, x: Id, c: Content): seq<Entry> {
    if Interned(env, c) then entries + [Entry(env.hash(c), x)] else entries
  }

  lemma EnterOne(env: Env, places: seq<Id>, copies: Nodes, copies': Nodes, entries: seq<Entry>, i: nat)
    requires Entered(env, places, copies, entries, i) && i < |places| && places[i] in copies'
    requires copies' == copies[places[i] := copies'[places[i]]]
    ensures Entered(env, places, copies', EntriesWith(env, entries, places[i], copies'[places[i]].content), i + 1)
  {
    var next := EntriesWith(env, entries, places[i], copies'[places[i]].content);
    forall a | 0 <= a < |entries|
      ensures entries[a].id < places[i] && EntryAmong(env, places, copies', entries[a], i + 1) {
      EntryStays(env, places, copies, copies', entries[a], i);
    }
    forall a | 0 <= a < |next| ensures EntryAmong(env, places, copies', next[a], i + 1) {
      if a < |entries| { assert next[a] == entries[a]; } else { assert places[i] == next[a].id; }
    }
    forall j | 0 < j < i + 1 && places[j] in copies' && Interned(env, copies'[places[j]].content)
      ensures Listed(next, places[j]) {
      EntersListed(env, places, copies, copies', entries, i, j);
    }
  }

  lemma EntersListed(env: Env, places: seq<Id>, copies: Nodes, copies': Nodes, entries: seq<Entry>, i: nat, j: nat)
    requires Entered(env, places, copies, entries, i) && 0 < j <= i < |places|
    requires places[i] in copies' && places[j] in copies'
    requires copies' == copies[places[i] := copies'[places[i]]] && Interned(env, copies'[places[j]].content)
    ensures Listed(EntriesWith(env, entries, places[i], copies'[places[i]].content), places[j])
  {
    var next := EntriesWith(env, entries, places[i], copies'[places[i]].content);
    if j < i {
      assert places[j] < places[i] && Listed(entries, places[j]);
      var a :| 0 <= a < |entries| && entries[a].id == places[j];
      assert next[a].id == places[j];
    } else {
      assert next[|entries|].id == places[i];
    }
  }

  lemma RelinkedIsIsomorphic(nodes: Nodes, entry: Id, end: Id, data: seq<Id>, places: seq<Id>, copies: Nodes,
                             sub: Places)
    requires Collected(nodes, entry, end, data) && |places| == |data| && sub == PlacesOf(data, places)
    requires Relinked(nodes, data, places, copies, sub, |data|)
    requires OneToOne(sub) && 0 in sub && sub[0] == 0
    ensures Isomorphic(nodes, copies, sub)
  {
    forall n | n in sub && n != 0 ensures MovedTo(nodes, copies, sub, n) {
      var j := PositionOf(data, n);
      assert RelinkedAt(nodes, data, places, copies, sub, |data|, j);
    }
    forall x | x in copies ensures exists n :: n in sub && n != 0 && sub[n] == x {
      assert IsPlace(places, x);
      var j :| 0 < j < |places| && places[j] == x;
      assert data[j] in data && PositionOf(data, data[j]) == j;
      assert data[j] in sub && data[j] != 0 && sub[data[j]] == x;
    }
  }

  lemma EnteredListsAll(env: Env, places: seq<Id>, copies: Nodes, entries: seq<Entry>)
    requires Domain(copies, places) && Entered(env, places, copies, entries, |places|)
    ensures ListsMoved(env, copies, entries)
  {
    forall e | e in entries ensures EntryOk(env, copies, e) {
      var a :| 0 <= a < |entries| && entries[a] == e;
      assert EntryAmong(env, places, copies, entries[a], |places|);
    }
    forall x | x in copies && Interned(env, copies[x].content) ensures Listed(entries, x) {
      assert IsPlace(places, x);
      var j :| 0 < j < |places| && places[j] == x;
    }
  }

  lemma CompactedOk(env: Env, nodes: Nodes, table: seq<Entry>, entry: Id, end: Id, data: seq<Id>, places: seq<Id>,
                    copies: Nodes, entries: seq<Entry>, sub: Places)
    requires DefUse(nodes, IDLE) && TableOk(env, nodes, table, TIGHT) && Collected(nodes, entry, end, data)
    requires |places| == |data| && sub == PlacesOf(data, places)
    requires Relinked(nodes, data, places, copies, sub, |data|) && Entered(env, places, copies, entries, |data|)
    ensures Isomorphic(nodes, copies, sub) && DefUse(copies, IDLE)
    ensures TableOk(env, copies, entries, TIGHT) && AllLive(copies, entries)
    ensures forall n :: n in sub <==> n == 0 || Reachable(nodes, entry, end, n)
  {
    PlacesOneToOne(data, places);
    RelinkedIsIsomorphic(nodes, entry, end, data, places, copies, sub);
    IsomorphicKeepsDefUse(nodes, copies, sub);
    EnteredListsAll(env, places, copies, entries);
    IsomorphicKeepsTable(env, nodes, copies, sub, table, entries);
  }

  lemma FreshNumbers(copies: Nodes, places: seq<Id>, gvn: Numbers)
    requires |places| > 0 && places[0] == 0 && Ascending(places) && Domain(copies, places)
    requires gvn.Keys == (set j | 0 < j < |places| :: places[j]) && forall j :: 0 < j < |places| ==> gvn[places[j]] == j
    ensures Numbered(copies, gvn) && forall n :: n in copies ==> 0 < gvn[n] <= |copies|
    ensures forall a, b {:trigger gvn[a], gvn[b]} :: a in copies && b in copies && a < b ==> gvn[a] < gvn[b]
  {
    forall i | 0 < i < |places| ensures places[i] in copies && places[i] > 0 {
      assert IsPlace(places, places[i]);
    }
    DistinctIsShort(places[1..], copies.Keys);
  }

  lemma NeighbourLives(nodes: Nodes, from: Id, id: Id)
    requires DefUse(nodes, IDLE) && (id == 0 || Linked(nodes, from, id))
    ensures Live(nodes, id)
  {
    if id != 0 {
      if id in Inputs(nodes, from) {
        var k :| 0 <= k < |Inputs(nodes, from)| && Inputs(nodes, from)[k] == id;
        LiveInput(nodes, from, k);
      } else {
        var o :| o in Outs(nodes, from) && o.id == id;
        assert RecordsExact(nodes, IDLE, from) && Records(nodes, from, o) > 0;
      }
    }
  }
}
