/**
  Nodes of the sea-of-nodes graph and the symmetry between their inputs and outputs.

  A live node is a key of the node map; a deleted one is absent. Id 0 is the nil node, which
  keeps no outputs. An output record names a user and the input it reads through; the record
  (0, 0) is a pin, which keeps a node alive without a user.
 */
module GraphNodes {
  import opened Basics

  type Id = nat

  datatype Spec = Spec(rtype: nat, meta: nat)

  datatype Content = Content(spec: Spec, extra: seq<nat>, inputs: seq<Id>)

  datatype Out = Out(id: Id, idx: nat)

  datatype Node = Node(content: Content, outs: seq<Out>)

  type Nodes = map<Id, Node>

  const PIN: Out := Out(0, 0)

  function Inputs(nodes: Nodes, n: Id): seq<Id> {
    if n in nodes then nodes[n].content.inputs else []
  }

  function Outs(nodes: Nodes, n: Id): seq<Out> {
    if n in nodes then nodes[n].outs else []
  }

  /** How often the record o stands in the outputs of n. */
  function Records(nodes: Nodes, n: Id, o: Out): nat {
    Count(Outs(nodes, n), o)
  }

  function Count(outs: seq<Out>, o: Out): (c: nat)
    ensures c > 0 <==> o in outs
  {
    if outs == [] then 0
    else
      var last := |outs| - 1;
      assert outs == outs[..last] + [outs[last]];
      Count(outs[..last], o) + if outs[last] == o then 1 else 0
  }

  function Pins(nodes: Nodes, n: Id): nat {
    Records(nodes, n, PIN)
  }

  /** Nodes being deleted, with the number of their inputs that they have already let go. */
  type Progress = map<Id, nat>

  function Released(progress: Progress, n: Id): nat {
    if n in progress then progress[n] else 0
  }

  /** o is a use of n: the user o.id reads n as its input o.idx, and has not let it go. */
  predicate Reads(nodes: Nodes, progress: Progress, o: Out, n: Id) {
    && o.id in nodes && Released(progress, o.id) <= o.idx < |nodes[o.id].content.inputs|
    && nodes[o.id].content.inputs[o.idx] == n
  }

  /** The records of n are exactly its uses, once each, besides pins. */
  ghost predicate RecordsExact(nodes: Nodes, progress: Progress, n: Id) {
    forall o :: o != PIN ==> Records(nodes, n, o) == if Reads(nodes, progress, o, n) then 1 else 0
  }

  /** Inputs not let go yet are live. */
  ghost predicate InputsLive(nodes: Nodes, progress: Progress, u: Id) {
    forall k :: Released(progress, u) <= k < |Inputs(nodes, u)| && Inputs(nodes, u)[k] != 0 ==>
      Inputs(nodes, u)[k] in nodes
  }

  ghost predicate DefUse(nodes: Nodes, progress: Progress) {
    && 0 !in nodes
    && (forall n {:trigger RecordsExact(nodes, progress, n)} :: n in nodes ==> RecordsExact(nodes, progress, n))
    && (forall u {:trigger InputsLive(nodes, progress, u)} :: u in nodes ==> InputsLive(nodes, progress, u))
    && (forall b :: b in progress && b in nodes ==> nodes[b].outs == [])
  }

  // ---- removing nodes ----

  /** Each node of `order` loses its last use to nodes earlier in it: all its records come from those, and
      apart from the first it has one. */
  ghost predicate KillOrder(nodes: Nodes, order: seq<Id>) {
    && Distinct(order) && (forall j :: 0 <= j < |order| ==> order[j] in nodes)
    && (forall j :: 0 < j < |order| ==> Outs(nodes, order[j]) != [])
    && (forall j, o :: 0 <= j < |order| && o in Outs(nodes, order[j]) ==> o.id in order[..j])
  }

  /** `after` is `before` without the nodes of `order` and without their records. */
  ghost predicate Pruned(before: Nodes, after: Nodes, order: seq<Id>) {
    && (forall n :: n in after <==> n in before && n !in order)
    && (forall n {:trigger SurvivesPruning(before, after, order, n)} :: n in after ==>
          SurvivesPruning(before, after, order, n))
  }

  ghost predicate SurvivesPruning(before: Nodes, after: Nodes, order: seq<Id>, n: Id)
    requires n in after
  {
    && n in before && after[n].content == before[n].content
    && (forall o :: Records(after, n, o) == if o.id in order then 0 else Records(before, n, o))
  }

  /** Every node the cascade deletes belongs to any set that holds the first one and every unpinned node
      all of whose uses, at least one, lie in the set. */
  ghost predicate ClosedUnderLastUse(nodes: Nodes, doomed: set<Id>) {
    forall n :: n in nodes && Outs(nodes, n) != [] && (forall o :: o in Outs(nodes, n) ==> o.id in doomed) ==>
      n in doomed
  }

  lemma {:induction false} CascadeIsLeast(nodes: Nodes, order: seq<Id>, doomed: set<Id>, j: nat)
    requires KillOrder(nodes, order) && ClosedUnderLastUse(nodes, doomed) && j < |order| && order[0] in doomed
    ensures order[j] in doomed
  {
    if j > 0 {
      forall o | o in Outs(nodes, order[j]) ensures o.id in doomed {
        assert o.id in order[..j];
        var i :| 0 <= i < j && order[i] == o.id;
        CascadeIsLeast(nodes, order, doomed, i);
      }
    }
  }

  /** ... and the deleted set is itself closed: whoever loses all uses to it is in it. */
  lemma CascadeIsClosed(before: Nodes, after: Nodes, order: seq<Id>, n: Id)
    requires Pruned(before, after, order) && n in before && Outs(before, n) != []
    requires forall o :: o in Outs(before, n) ==> o.id in order
    requires forall m :: m in after ==> Outs(before, m) == [] || Outs(after, m) != []
    ensures n in order
  {
    if n !in order {
      SurvivorKeepsUse(before, after, order, n);
    }
  }

  lemma SurvivorKeepsUse(before: Nodes, after: Nodes, order: seq<Id>, n: Id)
    requires Pruned(before, after, order) && n in after && Outs(after, n) != []
    ensures exists o :: o in Outs(before, n) && o.id !in order
  {
    assert SurvivesPruning(before, after, order, n);
    var o := Outs(after, n)[0];
    assert Records(after, n, o) > 0 && Records(before, n, o) > 0;
  }

  lemma PruningKeepsDefUse(before: Nodes, after: Nodes, order: seq<Id>, progress: Progress)
    requires DefUse(before, progress) && Pruned(before, after, order) && KillOrder(before, order)
    requires forall j :: 0 <= j < |order| ==> order[j] != 0
    ensures DefUse(after, progress)
  {
    forall n | n in after ensures RecordsExact(after, progress, n) {
      PrunedRecords(before, after, order, progress, n);
    }
    forall u | u in after ensures InputsLive(after, progress, u) {
      PrunedInputs(before, after, order, progress, u);
    }
    forall b | b in progress && b in after ensures after[b].outs == [] {
      assert SurvivesPruning(before, after, order, b);
      NonEmptyHasElement(after[b].outs);
    }
  }

  lemma PrunedRecords(before: Nodes, after: Nodes, order: seq<Id>, progress: Progress, n: Id)
    requires DefUse(before, progress) && Pruned(before, after, order) && n in after
    requires forall j :: 0 <= j < |order| ==> order[j] != 0
    ensures RecordsExact(after, progress, n)
  {
    assert SurvivesPruning(before, after, order, n) && RecordsExact(before, progress, n);
    forall o | o != PIN ensures Records(after, n, o) == if Reads(after, progress, o, n) then 1 else 0 {
      if o.id in after {
        assert SurvivesPruning(before, after, order, o.id);
      }
    }
  }

  lemma PrunedInputs(before: Nodes, after: Nodes, order: seq<Id>, progress: Progress, u: Id)
    requires DefUse(before, progress) && Pruned(before, after, order) && KillOrder(before, order) && u in after
    ensures InputsLive(after, progress, u)
  {
    assert SurvivesPruning(before, after, order, u) && InputsLive(before, progress, u);
    assert Inputs(after, u) == Inputs(before, u);
    forall k | Released(progress, u) <= k < |Inputs(after, u)| && Inputs(after, u)[k] != 0
      ensures Inputs(after, u)[k] in after
    {
      assert Inputs(before, u)[k] in before;
      ReadNodeOutlives(before, order, progress, u, k);
    }
  }

  /** A node read by a node outside the order is outside it too. */
  lemma ReadNodeOutlives(nodes: Nodes, order: seq<Id>, progress: Progress, u: Id, k: nat)
    requires DefUse(nodes, progress) && KillOrder(nodes, order) && u in nodes && u !in order
    requires Released(progress, u) <= k < |Inputs(nodes, u)| && Inputs(nodes, u)[k] in nodes
    ensures Inputs(nodes, u)[k] !in order
  {
    var n, o := Inputs(nodes, u)[k], Out(u, k);
    assert RecordsExact(nodes, progress, n) && Reads(nodes, progress, o, n) && o != PIN;
    forall j | 0 <= j < |order| ensures order[j] != n {
      assert o in Outs(nodes, n);
    }
  }

  // ---- letting go of inputs one by one ----

  /** Removes one record: the last record takes the place of its first occurrence. */
  function DropRecord(outs: seq<Out>, o: Out): (r: seq<Out>)
    requires o in outs
    ensures |r| == |outs| - 1
  {
    var last := |outs| - 1;
    outs[FirstIndex(outs, o) := outs[last]][..last]
  }

  function FirstIndex(outs: seq<Out>, o: Out): (i: nat)
    requires o in outs
    ensures i < |outs| && outs[i] == o && o !in outs[..i]
  {
    if outs[0] == o then 0
    else
      var j := FirstIndex(outs[1..], o);
      assert outs[..j + 1] == [outs[0]] + outs[1..][..j];
      1 + j
  }

  lemma {:induction false} CountUpdate(outs: seq<Out>, i: nat, z: Out, x: Out)
    requires i < |outs|
    ensures Count(outs[i := z], x) == Count(outs, x) - (if outs[i] == x then 1 else 0) + (if z == x then 1 else 0)
  {
    var last := |outs| - 1;
    if i < last {
      assert outs[i := z][..last] == outs[..last][i := z];
      CountUpdate(outs[..last], i, z, x);
    } else {
      assert outs[i := z][..last] == outs[..last];
    }
  }

  lemma DropCounts(outs: seq<Out>, o: Out, x: Out)
    requires o in outs
    ensures Count(DropRecord(outs, o), x) == Count(outs, x) - (if x == o then 1 else 0)
  {
    var i, last := FirstIndex(outs, o), |outs| - 1;
    if i < last {
      assert DropRecord(outs, o) == outs[..last][i := outs[last]];
      CountUpdate(outs[..last], i, outs[last], x);
    } else {
      assert DropRecord(outs, o) == outs[..last];
    }
  }

  /** While `id` is being deleted: it has let go of its first i inputs, and `order` lists it followed by
      what died of that. */
  ghost predicate LettingGo(before: Nodes, now: Nodes, order: seq<Id>, id: Id, i: nat) {
    && KillOrder(before, order) && |order| > 0 && order[0] == id && id in now && now[id] == before[id]
    && (forall n :: n in now <==> n in before && (n == id || n !in order))
    && (forall n {:trigger StillHolds(before, now, order, id, i, n)} :: n in now ==>
          StillHolds(before, now, order, id, i, n))
  }

  /** The record o has been removed from wherever it stood. */
  predicate Gone(order: seq<Id>, id: Id, i: nat, o: Out) {
    if o.id == id then o.idx < i else o.id in order
  }

  ghost predicate StillHolds(before: Nodes, now: Nodes, order: seq<Id>, id: Id, i: nat, n: Id)
    requires n in now
  {
    && n in before && now[n].content == before[n].content
    && (forall o :: Records(now, n, o) == if Gone(order, id, i, o) then 0 else Records(before, n, o))
    && (now[n].outs == [] ==> before[n].outs == [])
  }

  lemma StartLettingGo(nodes: Nodes, progress: Progress, id: Id)
    requires DefUse(nodes, progress) && id in nodes && id !in progress && nodes[id].outs == []
    ensures LettingGo(nodes, nodes, [id], id, 0) && DefUse(nodes, progress[id := 0])
  {
    forall n | n in nodes ensures StillHolds(nodes, nodes, [id], id, 0, n) {}
    forall n | n in nodes ensures RecordsExact(nodes, progress[id := 0], n) {
      assert RecordsExact(nodes, progress, n);
    }
    forall n | n in nodes ensures InputsLive(nodes, progress[id := 0], n) {
      assert InputsLive(nodes, progress, n);
    }
  }

  /** Letting go of a nil input changes nothing. */
  lemma LetGoOfNil(before: Nodes, now: Nodes, progress: Progress, order: seq<Id>, id: Id, i: nat)
    requires LettingGo(before, now, order, id, i) && DefUse(before, progress) && DefUse(now, progress[id := i])
    requires i < |Inputs(now, id)| && Inputs(now, id)[i] == 0 && id !in progress
    ensures LettingGo(before, now, order, id, i + 1) && DefUse(now, progress[id := i + 1])
  {
    forall n | n in now
      ensures StillHolds(before, now, order, id, i + 1, n) && RecordsExact(now, progress[id := i + 1], n) {
      assert StillHolds(before, now, order, id, i, n);
      assert RecordsExact(now, progress[id := i], n);
      NilIsNotRead(now, progress[id := i], progress[id := i + 1], id, i, n);
      assert Records(now, n, Out(id, i)) == 0;
    }
    forall n | n in now ensures InputsLive(now, progress[id := i + 1], n) {
      assert InputsLive(now, progress[id := i], n);
    }
  }

  lemma NilIsNotRead(now: Nodes, p: Progress, q: Progress, id: Id, i: nat, n: Id)
    requires 0 !in now && id in now && n in now && i < |Inputs(now, id)| && Inputs(now, id)[i] == 0
    requires id in p && p[id] == i && q == p[id := i + 1]
    ensures Out(id, i) != PIN && !Reads(now, p, Out(id, i), n)
    ensures forall o :: Reads(now, q, o, n) <==> Reads(now, p, o, n)
  {
  }

  /** Dropping the record of input i. */
  lemma LetGoOfInput(now: Nodes, progress: Progress, id: Id, i: nat)
    requires DefUse(now, progress[id := i]) && id in now && i < |Inputs(now, id)| && Inputs(now, id)[i] in now
    ensures Out(id, i) in now[Inputs(now, id)[i]].outs && Inputs(now, id)[i] !in progress[id := i + 1]
    ensures DefUse(WithoutRecord(now, Inputs(now, id)[i], Out(id, i)), progress[id := i + 1])
  {
    var inp := Inputs(now, id)[i];
    var p, q := progress[id := i], progress[id := i + 1];
    assert RecordsExact(now, p, inp) && Reads(now, p, Out(id, i), inp) && id != 0;
    assert Records(now, inp, Out(id, i)) == 1;
    var next := WithoutRecord(now, inp, Out(id, i));
    forall n | n in next ensures RecordsExact(next, q, n) {
      RecordsWithout(now, progress, id, i, n);
    }
    forall n | n in next ensures InputsLive(next, q, n) {
      assert InputsLive(now, p, n) && Inputs(next, n) == Inputs(now, n);
    }
  }

  function WithoutRecord(nodes: Nodes, n: Id, o: Out): Nodes
    requires n in nodes && o in nodes[n].outs
  {
    nodes[n := Node(nodes[n].content, DropRecord(nodes[n].outs, o))]
  }

  lemma RecordsWithout(now: Nodes, progress: Progress, id: Id, i: nat, n: Id)
    requires DefUse(now, progress[id := i]) && id in now && i < |Inputs(now, id)| && n in now
    requires Inputs(now, id)[i] in now && Out(id, i) in now[Inputs(now, id)[i]].outs
    ensures RecordsExact(WithoutRecord(now, Inputs(now, id)[i], Out(id, i)), progress[id := i + 1], n)
  {
    var inp, o' := Inputs(now, id)[i], Out(id, i);
    var p, q := progress[id := i], progress[id := i + 1];
    var next := WithoutRecord(now, inp, o');
    assert RecordsExact(now, p, n);
    forall o | o != PIN ensures Records(next, n, o) == if Reads(next, q, o, n) then 1 else 0 {
      ReadsWithout(now, next, p, q, id, i, n, o);
      RecordsLessOne(now, inp, o', n, o);
    }
  }

  lemma ReadsWithout(now: Nodes, next: Nodes, p: Progress, q: Progress, id: Id, i: nat, n: Id, o: Out)
    requires id in p && p[id] == i && q == p[id := i + 1] && id in now && i < |Inputs(now, id)|
    requires next.Keys == now.Keys && forall m :: m in now ==> next[m].content == now[m].content
    ensures Reads(next, q, o, n) <==> Reads(now, p, o, n) && !(n == Inputs(now, id)[i] && o == Out(id, i))
  {
  }

  lemma RecordsLessOne(nodes: Nodes, m: Id, r: Out, n: Id, o: Out)
    requires m in nodes && r in nodes[m].outs && n in nodes
    ensures Records(WithoutRecord(nodes, m, r), n, o) == Records(nodes, n, o) - (if n == m && o == r then 1 else 0)
  {
    DropCounts(nodes[m].outs, r, o);
  }

  /** `next` results from dropping the record of input i and then deleting what that leaves without outputs. */
  ghost predicate InputReleased(now: Nodes, next: Nodes, died: seq<Id>, id: Id, i: nat) {
    && id in now && i < |Inputs(now, id)| && Inputs(now, id)[i] in now && Out(id, i) in now[Inputs(now, id)[i]].outs
    && var inp, dropped := Inputs(now, id)[i], WithoutRecord(now, Inputs(now, id)[i], Out(id, i));
    && Pruned(dropped, next, died) && KillOrder(dropped, died)
    && (if dropped[inp].outs == [] then |died| > 0 && died[0] == inp else died == [])
    && (forall m :: m in next && next[m].outs == [] ==> dropped[m].outs == [])
  }

  /** Among live nodes, only the input itself holds the record of input i. */
  ghost predicate OnlyAt(now: Nodes, inp: Id, o: Out) {
    Records(now, inp, o) == 1 && forall n :: n in now && n != inp ==> Records(now, n, o) == 0
  }

  lemma DiedIsNew(now: Nodes, next: Nodes, died: seq<Id>, id: Id, i: nat)
    requires InputReleased(now, next, died, id, i) && now[id].outs == []
    ensures id !in died && id != Inputs(now, id)[i]
  {
    var dropped := WithoutRecord(now, Inputs(now, id)[i], Out(id, i));
    assert Outs(dropped, id) == [];
    forall j | 0 <= j < |died| ensures died[j] != id {
      if j > 0 { assert Outs(dropped, died[j]) != []; }
    }
  }

  /** One input let go, and what died of it removed. */
  lemma LetGoStep(before: Nodes, now: Nodes, next: Nodes, order: seq<Id>, died: seq<Id>, id: Id, i: nat)
    requires LettingGo(before, now, order, id, i) && before[id].outs == [] && InputReleased(now, next, died, id, i)
    requires OnlyAt(now, Inputs(now, id)[i], Out(id, i))
    ensures LettingGo(before, next, order + died, id, i + 1)
  {
    DiedIsNew(now, next, died, id, i);
    LetGoKillOrder(before, now, next, order, died, id, i);
    forall n | n in next ensures StillHolds(before, next, order + died, id, i + 1, n) {
      LetGoHolds(before, now, next, order, died, id, i, n);
    }
    LetGoKeepsSelf(now, next, died, id, i);
  }

  lemma LetGoKeepsSelf(now: Nodes, next: Nodes, died: seq<Id>, id: Id, i: nat)
    requires InputReleased(now, next, died, id, i) && now[id].outs == [] && id !in died && id != Inputs(now, id)[i]
    ensures id in next && next[id] == now[id]
  {
    var dropped := WithoutRecord(now, Inputs(now, id)[i], Out(id, i));
    assert SurvivesPruning(dropped, next, died, id);
    NonEmptyHasElement(next[id].outs);
  }

  lemma NonEmptyHasElement(outs: seq<Out>)
    ensures outs != [] ==> exists o :: o in outs && Count(outs, o) > 0
  {
    if outs != [] { assert outs[0] in outs; }
  }

  lemma LetGoHolds(before: Nodes, now: Nodes, next: Nodes, order: seq<Id>, died: seq<Id>, id: Id, i: nat, n: Id)
    requires LettingGo(before, now, order, id, i) && InputReleased(now, next, died, id, i)
    requires id !in died && n in next && OnlyAt(now, Inputs(now, id)[i], Out(id, i))
    ensures StillHolds(before, next, order + died, id, i + 1, n)
  {
    var inp, o := Inputs(now, id)[i], Out(id, i);
    var dropped := WithoutRecord(now, inp, o);
    assert SurvivesPruning(dropped, next, died, n) && StillHolds(before, now, order, id, i, n);
    forall r ensures Records(next, n, r) == if Gone(order + died, id, i + 1, r) then 0 else Records(before, n, r) {
      RecordsLessOne(now, inp, o, n, r);
      LetGoCount(order, died, id, i, r, Records(before, n, r), Records(now, n, r), Records(dropped, n, r),
        Records(next, n, r));
    }
    if next[n].outs == [] {
      assert dropped[n].outs == [];
      assert n != inp;
    }
  }

  /** How the count of one record evolves when input i is let go and `died` goes away. */
  lemma LetGoCount(order: seq<Id>, died: seq<Id>, id: Id, i: nat, r: Out, before: nat, now: nat, dropped: int,
                   next: nat)
    requires id !in died && now == (if Gone(order, id, i, r) then 0 else before)
    requires if r == Out(id, i) then dropped == 0 else dropped == now
    requires next == if r.id in died then 0 else dropped
    ensures next == if Gone(order + died, id, i + 1, r) then 0 else before
  {
  }

  lemma LetGoKillOrder(before: Nodes, now: Nodes, next: Nodes, order: seq<Id>, died: seq<Id>, id: Id, i: nat)
    requires LettingGo(before, now, order, id, i) && InputReleased(now, next, died, id, i) && id !in died
    ensures KillOrder(before, order + died)
  {
    var inp, o := Inputs(now, id)[i], Out(id, i);
    var dropped := WithoutRecord(now, inp, o);
    var all := order + died;
    forall j | 0 <= j < |died| ensures died[j] in before && died[j] !in order && Outs(before, died[j]) != [] {
      assert died[j] in now && StillHolds(before, now, order, id, i, died[j]);
      assert j > 0 ==> Outs(dropped, died[j]) != [];
      assert Outs(now, died[j]) != [];
      assert Records(now, died[j], Outs(now, died[j])[0]) > 0;
      assert Records(before, died[j], Outs(now, died[j])[0]) > 0;
    }
    forall j, r | 0 <= j < |all| && r in Outs(before, all[j]) ensures r.id in all[..j] {
      if j < |order| {
        assert all[..j] == order[..j];
      } else {
        var d := died[j - |order|];
        assert all[..j] == order + died[..j - |order|];
        assert StillHolds(before, now, order, id, i, d);
        assert Records(before, d, r) > 0;
        if !Gone(order, id, i, r) {
          RecordsLessOne(now, inp, o, d, r);
          assert r == o || Records(dropped, d, r) > 0;
        }
      }
    }
  }

  /** All inputs let go: dropping the node itself completes the pruning. */
  lemma LetGoDone(before: Nodes, now: Nodes, progress: Progress, order: seq<Id>, id: Id)
    requires LettingGo(before, now, order, id, |Inputs(now, id)|) && DefUse(before, progress) && id !in progress
    ensures Pruned(before, now - {id}, order)
    ensures forall m :: m in now - {id} && now[m].outs == [] ==> before[m].outs == []
  {
    var after := now - {id};
    forall n | n in after ensures SurvivesPruning(before, after, order, n) {
      LetGoDoneFor(before, now, progress, order, id, n);
    }
    forall m | m in after && now[m].outs == [] ensures before[m].outs == [] {
      assert StillHolds(before, now, order, id, |Inputs(now, id)|, m);
    }
  }

  lemma LetGoDoneFor(before: Nodes, now: Nodes, progress: Progress, order: seq<Id>, id: Id, n: Id)
    requires LettingGo(before, now, order, id, |Inputs(now, id)|) && DefUse(before, progress)
    requires n in now && n != id
    ensures SurvivesPruning(before, now - {id}, order, n)
  {
    var after := now - {id};
    assert StillHolds(before, now, order, id, |Inputs(now, id)|, n);
    assert RecordsExact(before, progress, n);
    forall o ensures Records(after, n, o) == if o.id in order then 0 else Records(before, n, o) {
      assert Records(after, n, o) == Records(now, n, o);
      if o.id == id {
        assert o != PIN && order[0] in order;
        assert o.idx >= |Inputs(now, id)| ==> !Reads(before, progress, o, n);
      }
    }
  }

  // ---- the whole cascade ----

  /** What deleting `id` leaves behind, `order` being the nodes that died, in the order their deletion began. */
  ghost predicate Cascaded(before: Nodes, after: Nodes, id: Id, order: seq<Id>)
    requires id in before
  {
    && KillOrder(before, order) && Pruned(before, after, order)
    && (if before[id].outs == [] then |order| > 0 && order[0] == id else order == [] && after == before)
    && (forall m :: m in after && after[m].outs == [] ==> before[m].outs == [])
  }

  /** n belongs to every set that holds the first node and whoever loses its last use to the set. */
  ghost predicate Doomed(nodes: Nodes, first: Id, n: Id) {
    forall doomed: set<Id> {:trigger ClosedUnderLastUse(nodes, doomed)} ::
      first in doomed && ClosedUnderLastUse(nodes, doomed) ==> n in doomed
  }

  /** Exactly the doomed nodes die. */
  lemma CascadeIsDoomed(before: Nodes, after: Nodes, id: Id, order: seq<Id>, n: Id)
    requires id in before && Cascaded(before, after, id, order) && n in before
    ensures n !in after <==> before[id].outs == [] && Doomed(before, id, n)
  {
    if before[id].outs == [] {
      if n !in after {
        var j :| 0 <= j < |order| && order[j] == n;
        forall doomed: set<Id> | id in doomed && ClosedUnderLastUse(before, doomed) ensures n in doomed {
          CascadeIsLeast(before, order, doomed, j);
        }
      }
      var died := set m | m in order;
      forall m | m in before && Outs(before, m) != [] && (forall o :: o in Outs(before, m) ==> o.id in died)
        ensures m in died {
        CascadeIsClosed(before, after, order, m);
      }
      assert ClosedUnderLastUse(before, died) && id in died;
    }
  }

  lemma CascadeKeepsDefUse(before: Nodes, after: Nodes, id: Id, order: seq<Id>, progress: Progress)
    requires DefUse(before, progress) && id in before && Cascaded(before, after, id, order)
    ensures DefUse(after, progress)
  {
    PruningKeepsDefUse(before, after, order, progress);
  }

  lemma CascadeShrinks(before: Nodes, after: Nodes, id: Id, order: seq<Id>)
    requires id in before && Cascaded(before, after, id, order)
    ensures after.Keys <= before.Keys && forall n :: n in after ==> after[n].content == before[n].content
  {
    forall n | n in after ensures after[n].content == before[n].content {
      assert SurvivesPruning(before, after, order, n);
    }
  }

  // ---- closed sets while nodes go ----

  /** The doomed nodes themselves are such a set. */
  lemma DoomedIsClosed(nodes: Nodes, first: Id, doomed: set<Id>)
    requires forall n :: n in doomed <==> n in nodes && Doomed(nodes, first, n)
    ensures ClosedUnderLastUse(nodes, doomed) && (first in nodes ==> first in doomed)
  {
    forall n | n in nodes && Outs(nodes, n) != [] && (forall o :: o in Outs(nodes, n) ==> o.id in doomed)
      ensures n in doomed {
      forall other: set<Id> | first in other && ClosedUnderLastUse(nodes, other) ensures n in other {
        assert forall m :: m in doomed ==> Doomed(nodes, first, m);
      }
    }
  }

  /** A record of one of them goes: the set stays closed, and who has lost the last use is in it. */
  lemma RecordKeepsClosed(now: Nodes, n: Id, o: Out, doomed: set<Id>)
    requires n in now && o in now[n].outs && ClosedUnderLastUse(now, doomed) && o.id in doomed
    ensures ClosedUnderLastUse(WithoutRecord(now, n, o), doomed)
    ensures WithoutRecord(now, n, o)[n].outs == [] ==> n in doomed
  {
    var dropped := WithoutRecord(now, n, o);
    forall x | x in now[n].outs && x != o ensures x in dropped[n].outs {
      DropCounts(now[n].outs, o, x);
    }
    forall m | m in dropped && m != n ensures Outs(dropped, m) == Outs(now, m) {}
    assert Outs(now, n) == now[n].outs && Outs(dropped, n) == dropped[n].outs;
  }

  lemma CascadeKeepsClosed(before: Nodes, after: Nodes, id: Id, order: seq<Id>, doomed: set<Id>)
    requires id in before && Cascaded(before, after, id, order)
    requires ClosedUnderLastUse(before, doomed) && (before[id].outs == [] ==> id in doomed)
    ensures ClosedUnderLastUse(after, doomed)
  {
    forall j | 0 <= j < |order| ensures order[j] in doomed {
      CascadeIsLeast(before, order, doomed, j);
    }
    forall n | n in after && Outs(after, n) != [] && (forall o :: o in Outs(after, n) ==> o.id in doomed)
      ensures n in doomed {
      assert SurvivesPruning(before, after, order, n);
      NonEmptyHasElement(Outs(after, n));
      forall o | o in Outs(before, n) ensures o.id in doomed {
        assert Records(after, n, o) == if o.id in order then 0 else Records(before, n, o);
      }
      assert exists o :: o in Outs(after, n);
      var o :| o in Outs(after, n);
      assert Records(after, n, o) > 0 && Records(before, n, o) > 0;
    }
  }
}
