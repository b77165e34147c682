/**
  What single edits of the graph do to the symmetry between inputs and outputs.
 */
module GraphEdits {
  import opened GraphNodes

  /** No node is being deleted. */
  const IDLE: Progress := map[]

  lemma LiveInput(nodes: Nodes, u: Id, k: nat)
    requires DefUse(nodes, IDLE) && u in nodes && k < |nodes[u].content.inputs|
    ensures var n := nodes[u].content.inputs[k];
      n == 0 || (n in nodes && Records(nodes, n, Out(u, k)) == 1 && Out(u, k) != PIN)
  {
    assert InputsLive(nodes, IDLE, u);
    assert Inputs(nodes, u)[k] != 0 ==> Inputs(nodes, u)[k] in nodes;
    var n := nodes[u].content.inputs[k];
    if n != 0 {
      assert RecordsExact(nodes, IDLE, n) && Reads(nodes, IDLE, Out(u, k), n);
    }
  }

  /** Liveness of inputs, input by input. */
  lemma InputsStayLive(nodes: Nodes, u: Id)
    requires u in nodes
    requires forall k :: 0 <= k < |nodes[u].content.inputs| ==>
      nodes[u].content.inputs[k] == 0 || nodes[u].content.inputs[k] in nodes
    ensures InputsLive(nodes, IDLE, u)
  {
    forall k | 0 <= k < |Inputs(nodes, u)| && Inputs(nodes, u)[k] != 0 ensures Inputs(nodes, u)[k] in nodes {
      assert nodes[u].content.inputs[k] in nodes;
    }
  }

  /** Nil takes no records. */
  function AddRecord(nodes: Nodes, n: Id, o: Out): Nodes {
    if n in nodes then nodes[n := Node(nodes[n].content, nodes[n].outs + [o])] else nodes
  }

  lemma AddRecordCounts(nodes: Nodes, n: Id, o: Out, m: Id, x: Out)
    ensures Records(AddRecord(nodes, n, o), m, x) ==
      Records(nodes, m, x) + (if m == n && n in nodes && x == o then 1 else 0)
  {
    if m == n && n in nodes {
      var outs := nodes[n].outs + [o];
      assert outs[..|outs| - 1] == nodes[n].outs;
    }
  }

  lemma AddRecordContents(nodes: Nodes, n: Id, o: Out)
    ensures AddRecord(nodes, n, o).Keys == nodes.Keys
    ensures forall m :: m in nodes ==> AddRecord(nodes, n, o)[m].content == nodes[m].content
  {
  }

  function SetContent(nodes: Nodes, n: Id, c: Content): Nodes
    requires n in nodes
  {
    nodes[n := Node(c, nodes[n].outs)]
  }

  lemma PinKeepsDefUse(nodes: Nodes, progress: Progress, n: Id)
    requires DefUse(nodes, progress) && n in nodes && n !in progress
    ensures DefUse(AddRecord(nodes, n, PIN), progress)
  {
    var next := AddRecord(nodes, n, PIN);
    forall m | m in next ensures RecordsExact(next, progress, m) && InputsLive(next, progress, m) {
      assert RecordsExact(nodes, progress, m) && InputsLive(nodes, progress, m) && Inputs(next, m) == Inputs(nodes, m);
      forall o | o != PIN ensures Records(next, m, o) == if Reads(next, progress, o, m) then 1 else 0 {
        AddRecordCounts(nodes, n, PIN, m, o);
        assert Reads(next, progress, o, m) <==> Reads(nodes, progress, o, m);
      }
    }
  }

  /** Dropping a pin of a pinned node. */
  lemma UnpinKeepsDefUse(nodes: Nodes, n: Id)
    requires DefUse(nodes, IDLE) && n in nodes && PIN in nodes[n].outs
    ensures DefUse(WithoutRecord(nodes, n, PIN), IDLE)
  {
    var next := WithoutRecord(nodes, n, PIN);
    forall m | m in next ensures RecordsExact(next, IDLE, m) && InputsLive(next, IDLE, m) {
      assert RecordsExact(nodes, IDLE, m) && InputsLive(nodes, IDLE, m) && Inputs(next, m) == Inputs(nodes, m);
      forall o | o != PIN ensures Records(next, m, o) == if Reads(next, IDLE, o, m) then 1 else 0 {
        RecordsLessOne(nodes, n, PIN, m, o);
        assert Reads(next, IDLE, o, m) <==> Reads(nodes, IDLE, o, m);
      }
    }
  }

  // ---- graphs written out ----

  /** Records that differ pairwise count once. */
  lemma {:induction false} CountDistinct(outs: seq<Out>, o: Out)
    requires forall i, j :: 0 <= i < j < |outs| ==> outs[i] != outs[j]
    ensures Count(outs, o) == if o in outs then 1 else 0
  {
    if outs != [] {
      var last := |outs| - 1;
      assert outs == outs[..last] + [outs[last]];
      CountDistinct(outs[..last], o);
    }
  }

  /** The outputs of n, listed without repetition, are its uses. */
  ghost predicate UsesListed(nodes: Nodes, n: Id)
    requires n in nodes
  {
    && (forall i, j :: 0 <= i < j < |nodes[n].outs| ==> nodes[n].outs[i] != nodes[n].outs[j])
    && (forall o {:trigger Reads(nodes, IDLE, o, n)} :: o != PIN ==> (o in nodes[n].outs <==> Reads(nodes, IDLE, o, n)))
  }

  ghost predicate InputsListed(nodes: Nodes, n: Id)
    requires n in nodes
  {
    forall k :: 0 <= k < |nodes[n].content.inputs| ==>
      nodes[n].content.inputs[k] == 0 || nodes[n].content.inputs[k] in nodes
  }

  lemma ListedIsDefUse(nodes: Nodes)
    requires 0 !in nodes && forall n :: n in nodes ==> UsesListed(nodes, n) && InputsListed(nodes, n)
    ensures DefUse(nodes, IDLE)
  {
    forall n | n in nodes ensures RecordsExact(nodes, IDLE, n) && InputsLive(nodes, IDLE, n) {
      forall o | o != PIN ensures Records(nodes, n, o) == if Reads(nodes, IDLE, o, n) then 1 else 0 {
        CountDistinct(nodes[n].outs, o);
      }
      InputsStayLive(nodes, n);
    }
  }

  // ---- a new node ----

  /** Registers the first k inputs of `id` with the nodes they read. */
  function AddUses(nodes: Nodes, id: Id, k: nat): Nodes
    requires k <= |Inputs(nodes, id)|
  {
    if k == 0 then nodes
    else AddRecord(AddUses(nodes, id, k - 1), Inputs(nodes, id)[k - 1], Out(id, k - 1))
  }

  lemma {:induction false} AddUsesContents(nodes: Nodes, id: Id, k: nat)
    requires k <= |Inputs(nodes, id)|
    ensures AddUses(nodes, id, k).Keys == nodes.Keys
    ensures forall m :: m in nodes ==> AddUses(nodes, id, k)[m].content == nodes[m].content
  {
    if k > 0 { AddUsesContents(nodes, id, k - 1); }
  }

  lemma {:induction false} AddUsesCounts(nodes: Nodes, id: Id, k: nat, m: Id, x: Out)
    requires k <= |Inputs(nodes, id)|
    ensures Records(AddUses(nodes, id, k), m, x) ==
      Records(nodes, m, x) + (if m in nodes && x.id == id && x.idx < k && Inputs(nodes, id)[x.idx] == m then 1 else 0)
  {
    if k > 0 {
      AddUsesCounts(nodes, id, k - 1, m, x);
      AddUsesLast(nodes, id, k, m, x);
    }
  }

  lemma AddUsesLast(nodes: Nodes, id: Id, k: nat, m: Id, x: Out)
    requires 0 < k <= |Inputs(nodes, id)|
    ensures Records(AddUses(nodes, id, k), m, x) == Records(AddUses(nodes, id, k - 1), m, x)
      + (if m in nodes && x.id == id && x.idx == k - 1 && Inputs(nodes, id)[k - 1] == m then 1 else 0)
  {
    AddUsesContents(nodes, id, k - 1);
    AddRecordCounts(AddUses(nodes, id, k - 1), Inputs(nodes, id)[k - 1], Out(id, k - 1), m, x);
  }

  lemma NewNodeKeepsDefUse(nodes: Nodes, id: Id, c: Content)
    requires DefUse(nodes, IDLE) && id !in nodes && id != 0
    requires forall k :: 0 <= k < |c.inputs| ==> c.inputs[k] == 0 || c.inputs[k] in nodes
    ensures DefUse(AddUses(nodes[id := Node(c, [])], id, |c.inputs|), IDLE)
  {
    var with := nodes[id := Node(c, [])];
    var next := AddUses(with, id, |c.inputs|);
    AddUsesContents(with, id, |c.inputs|);
    forall m | m in next ensures RecordsExact(next, IDLE, m) {
      NewNodeRecords(nodes, id, c, m);
    }
    forall u | u in next ensures InputsLive(next, IDLE, u) {
      forall k | 0 <= k < |next[u].content.inputs|
        ensures next[u].content.inputs[k] == 0 || next[u].content.inputs[k] in next {
        if u != id { LiveInput(nodes, u, k); }
      }
      InputsStayLive(next, u);
    }
  }

  lemma NewNodeRecords(nodes: Nodes, id: Id, c: Content, m: Id)
    requires DefUse(nodes, IDLE) && id !in nodes && id != 0 && (m in nodes || m == id)
    requires forall k :: 0 <= k < |c.inputs| ==> c.inputs[k] == 0 || c.inputs[k] in nodes
    ensures RecordsExact(AddUses(nodes[id := Node(c, [])], id, |c.inputs|), IDLE, m)
  {
    var with := nodes[id := Node(c, [])];
    var next := AddUses(with, id, |c.inputs|);
    AddUsesContents(with, id, |c.inputs|);
    forall o | o != PIN ensures Records(next, m, o) == if Reads(next, IDLE, o, m) then 1 else 0 {
      AddUsesCounts(with, id, |c.inputs|, m, o);
      if m == id {
        assert Records(with, id, o) == 0;
        assert o.id == id && o.idx < |c.inputs| ==> c.inputs[o.idx] != id;
        if o.id in nodes && o.idx < |nodes[o.id].content.inputs| { LiveInput(nodes, o.id, o.idx); }
      } else {
        assert RecordsExact(nodes, IDLE, m) && Records(with, m, o) == Records(nodes, m, o);
        if o.id != id {
          assert Reads(next, IDLE, o, m) <==> Reads(nodes, IDLE, o, m);
        } else {
          assert Reads(next, IDLE, o, m) <==> o.idx < |c.inputs| && c.inputs[o.idx] == m;
        }
      }
    }
  }

  // ---- one more input ----

  function Connected(nodes: Nodes, use: Id, def: Id): Nodes
    requires use in nodes
  {
    var c := nodes[use].content;
    AddRecord(SetContent(nodes, use, c.(inputs := c.inputs + [def])), def, Out(use, |c.inputs|))
  }

  lemma ConnectCounts(nodes: Nodes, use: Id, def: Id, m: Id, o: Out)
    requires use in nodes
    ensures Records(Connected(nodes, use, def), m, o) == Records(nodes, m, o)
      + (if m == def && def in nodes && o == Out(use, |nodes[use].content.inputs|) then 1 else 0)
  {
    var c := nodes[use].content;
    var mid := SetContent(nodes, use, c.(inputs := c.inputs + [def]));
    AddRecordCounts(mid, def, Out(use, |c.inputs|), m, o);
    assert Outs(mid, m) == Outs(nodes, m);
  }

  lemma ConnectReads(nodes: Nodes, use: Id, def: Id, m: Id, o: Out)
    requires use in nodes
    ensures Reads(Connected(nodes, use, def), IDLE, o, m) <==>
      Reads(nodes, IDLE, o, m) || (o == Out(use, |nodes[use].content.inputs|) && m == def)
  {
  }

  lemma ConnectKeepsDefUse(nodes: Nodes, use: Id, def: Id)
    requires DefUse(nodes, IDLE) && use in nodes && (def == 0 || def in nodes)
    ensures DefUse(Connected(nodes, use, def), IDLE)
  {
    var next := Connected(nodes, use, def);
    forall m | m in next ensures RecordsExact(next, IDLE, m) {
      assert RecordsExact(nodes, IDLE, m);
      forall o | o != PIN ensures Records(next, m, o) == if Reads(next, IDLE, o, m) then 1 else 0 {
        ConnectCounts(nodes, use, def, m, o);
        ConnectReads(nodes, use, def, m, o);
      }
    }
    forall u | u in next ensures InputsLive(next, IDLE, u) {
      forall k | 0 <= k < |next[u].content.inputs|
        ensures next[u].content.inputs[k] == 0 || next[u].content.inputs[k] in next {
        if k < |nodes[u].content.inputs| { LiveInput(nodes, u, k); }
      }
      InputsStayLive(next, u);
    }
  }

  // ---- another value for one input ----

  /** The input is switched and the new value knows of it; the old value does too, still. */
  function Switched(nodes: Nodes, id: Id, idx: nat, value: Id): Nodes
    requires id in nodes && idx < |nodes[id].content.inputs|
  {
    var c := nodes[id].content;
    SetContent(AddRecord(nodes, value, Out(id, idx)), id, c.(inputs := c.inputs[idx := value]))
  }

  lemma SwitchedContents(nodes: Nodes, id: Id, idx: nat, value: Id)
    requires id in nodes && idx < |nodes[id].content.inputs|
    ensures var next := Switched(nodes, id, idx, value);
      && next.Keys == nodes.Keys
      && next[id].content == nodes[id].content.(inputs := nodes[id].content.inputs[idx := value])
      && (forall m :: m in nodes && m != id ==> next[m].content == nodes[m].content)
      && (forall m, o ::
            Records(next, m, o) ==
              Records(nodes, m, o) + (if m == value && m in nodes && o == Out(id, idx) then 1 else 0))
  {
    var next := Switched(nodes, id, idx, value);
    forall m, o
      ensures Records(next, m, o) ==
        Records(nodes, m, o) + (if m == value && m in nodes && o == Out(id, idx) then 1 else 0) {
      AddRecordCounts(nodes, value, Out(id, idx), m, o);
      assert Outs(next, m) == Outs(AddRecord(nodes, value, Out(id, idx)), m);
    }
  }

  lemma SwitchKeepsDefUse(nodes: Nodes, id: Id, idx: nat, value: Id)
    requires DefUse(nodes, IDLE) && id in nodes && idx < |nodes[id].content.inputs| && (value == 0 || value in nodes)
    requires nodes[id].content.inputs[idx] != value
    ensures var prev, next := nodes[id].content.inputs[idx], Switched(nodes, id, idx, value);
      if prev == 0 then DefUse(next, IDLE)
      else prev in next && Out(id, idx) in next[prev].outs && DefUse(WithoutRecord(next, prev, Out(id, idx)), IDLE)
  {
    var prev, next, r := nodes[id].content.inputs[idx], Switched(nodes, id, idx, value), Out(id, idx);
    SwitchedContents(nodes, id, idx, value);
    LiveInput(nodes, id, idx);
    if prev != 0 { assert Records(next, prev, r) > 0; }
    var after := if prev == 0 then next else WithoutRecord(next, prev, r);
    forall m | m in after ensures RecordsExact(after, IDLE, m) {
      SwitchRecords(nodes, id, idx, value, m);
    }
    forall u | u in after ensures InputsLive(after, IDLE, u) {
      forall k | 0 <= k < |after[u].content.inputs|
        ensures after[u].content.inputs[k] == 0 || after[u].content.inputs[k] in after {
        LiveInput(nodes, u, k);
      }
      InputsStayLive(after, u);
    }
  }

  lemma SwitchRecords(nodes: Nodes, id: Id, idx: nat, value: Id, m: Id)
    requires DefUse(nodes, IDLE) && id in nodes && idx < |nodes[id].content.inputs| && (value == 0 || value in nodes)
    requires nodes[id].content.inputs[idx] != value && m in nodes
    requires var prev := nodes[id].content.inputs[idx];
      prev != 0 ==> prev in nodes && Out(id, idx) in Switched(nodes, id, idx, value)[prev].outs
    ensures var prev, next := nodes[id].content.inputs[idx], Switched(nodes, id, idx, value);
      RecordsExact(if prev == 0 then next else WithoutRecord(next, prev, Out(id, idx)), IDLE, m)
  {
    var prev, next, r := nodes[id].content.inputs[idx], Switched(nodes, id, idx, value), Out(id, idx);
    var after := if prev == 0 then next else WithoutRecord(next, prev, r);
    SwitchedContents(nodes, id, idx, value);
    assert RecordsExact(nodes, IDLE, m);
    forall o | o != PIN ensures Records(after, m, o) == if Reads(after, IDLE, o, m) then 1 else 0 {
      if prev != 0 { RecordsLessOne(next, prev, r, m, o); }
      SwitchReads(nodes, after, id, idx, value, o, m);
    }
  }

  lemma SwitchReads(nodes: Nodes, after: Nodes, id: Id, idx: nat, value: Id, o: Out, m: Id)
    requires id in nodes && idx < |nodes[id].content.inputs| && after.Keys == nodes.Keys
    requires after[id].content == nodes[id].content.(inputs := nodes[id].content.inputs[idx := value])
    requires forall n :: n in nodes && n != id ==> after[n].content == nodes[n].content
    ensures Reads(after, IDLE, o, m) <==> if o == Out(id, idx) then m == value else Reads(nodes, IDLE, o, m)
    ensures Reads(nodes, IDLE, Out(id, idx), m) <==> m == nodes[id].content.inputs[idx]
  {
  }

  // ---- swapping two inputs ----

  /** Rewrites the first occurrence of a record, if there is one. */
  function Retarget(outs: seq<Out>, from: Out, to: Out): seq<Out> {
    if from in outs then outs[FirstIndex(outs, from) := to] else outs
  }

  function RetargetAt(nodes: Nodes, n: Id, from: Out, to: Out): Nodes {
    if n in nodes then nodes[n := Node(nodes[n].content, Retarget(nodes[n].outs, from, to))] else nodes
  }

  lemma RetargetCounts(nodes: Nodes, n: Id, from: Out, to: Out, m: Id, x: Out)
    requires n in nodes ==> from in nodes[n].outs
    ensures Records(RetargetAt(nodes, n, from, to), m, x) == Records(nodes, m, x) +
      (if m == n && n in nodes then (if x == to then 1 else 0) - (if x == from then 1 else 0) else 0)
  {
    if m == n && n in nodes {
      CountUpdate(nodes[n].outs, FirstIndex(nodes[n].outs, from), to, x);
    }
  }

  function SwapTwo(q: seq<Id>, i: nat, j: nat): seq<Id>
    requires i < |q| && j < |q|
  {
    q[i := q[j]][j := q[i]]
  }

  /** Both records are rewritten one after the other, then the inputs change places. */
  function Swapped(nodes: Nodes, id: Id, i: nat, j: nat): Nodes
    requires id in nodes && i < |nodes[id].content.inputs| && j < |nodes[id].content.inputs|
  {
    var c := nodes[id].content;
    var one := RetargetAt(nodes, c.inputs[i], Out(id, i), Out(id, j));
    var two := RetargetAt(one, c.inputs[j], Out(id, j), Out(id, i));
    SetContent(two, id, c.(inputs := SwapTwo(c.inputs, i, j)))
  }

  /** The first rewriting leaves the second record in place, or puts it there. */
  lemma SecondIsRecorded(nodes: Nodes, id: Id, i: nat, j: nat)
    requires DefUse(nodes, IDLE) && id in nodes && i < |nodes[id].content.inputs| && j < |nodes[id].content.inputs|
    ensures var a, b := nodes[id].content.inputs[i], nodes[id].content.inputs[j];
      var one := RetargetAt(nodes, a, Out(id, i), Out(id, j));
      b in one ==> Out(id, j) in one[b].outs
  {
    var a, b := nodes[id].content.inputs[i], nodes[id].content.inputs[j];
    var one := RetargetAt(nodes, a, Out(id, i), Out(id, j));
    LiveInput(nodes, id, i);
    LiveInput(nodes, id, j);
    RetargetCounts(nodes, a, Out(id, i), Out(id, j), b, Out(id, j));
    assert b in one ==> Records(one, b, Out(id, j)) > 0;
  }

  lemma SwapCounts(nodes: Nodes, id: Id, i: nat, j: nat, m: Id, x: Out)
    requires DefUse(nodes, IDLE) && id in nodes && i < |nodes[id].content.inputs| && j < |nodes[id].content.inputs|
    ensures var a, b := nodes[id].content.inputs[i], nodes[id].content.inputs[j];
      Records(Swapped(nodes, id, i, j), m, x) == Records(nodes, m, x)
        + (if m == a && a in nodes then (if x == Out(id, j) then 1 else 0) - (if x == Out(id, i) then 1 else 0) else 0)
        + (if m == b && b in nodes then (if x == Out(id, i) then 1 else 0) - (if x == Out(id, j) then 1 else 0) else 0)
  {
    var a, b := nodes[id].content.inputs[i], nodes[id].content.inputs[j];
    var one := RetargetAt(nodes, a, Out(id, i), Out(id, j));
    SecondIsRecorded(nodes, id, i, j);
    LiveInput(nodes, id, i);
    RetargetCounts(nodes, a, Out(id, i), Out(id, j), m, x);
    RetargetCounts(one, b, Out(id, j), Out(id, i), m, x);
    assert Outs(Swapped(nodes, id, i, j), m) == Outs(RetargetAt(one, b, Out(id, j), Out(id, i)), m);
  }

  lemma SwapReads(nodes: Nodes, next: Nodes, id: Id, i: nat, j: nat, o: Out, m: Id)
    requires id in nodes && i < |nodes[id].content.inputs| && j < |nodes[id].content.inputs| && next.Keys == nodes.Keys
    requires next[id].content.inputs == SwapTwo(nodes[id].content.inputs, i, j)
    requires forall n :: n in nodes && n != id ==> next[n].content == nodes[n].content
    ensures Reads(next, IDLE, o, m) <==>
      Reads(nodes, IDLE, if o == Out(id, i) then Out(id, j) else if o == Out(id, j) then Out(id, i) else o, m)
  {
  }

  lemma SwapKeepsDefUse(nodes: Nodes, id: Id, i: nat, j: nat)
    requires DefUse(nodes, IDLE) && id in nodes && i < |nodes[id].content.inputs| && j < |nodes[id].content.inputs|
    ensures DefUse(Swapped(nodes, id, i, j), IDLE)
  {
    var next := Swapped(nodes, id, i, j);
    forall m | m in next ensures RecordsExact(next, IDLE, m) {
      SwapRecords(nodes, id, i, j, m);
    }
    SwappedContents(nodes, id, i, j);
    forall u | u in next ensures InputsLive(next, IDLE, u) {
      SwapInputsLive(nodes, next, id, i, j, u);
    }
  }

  lemma SwapInputsLive(nodes: Nodes, next: Nodes, id: Id, i: nat, j: nat, u: Id)
    requires DefUse(nodes, IDLE) && id in nodes && i < |nodes[id].content.inputs|
    requires j < |nodes[id].content.inputs| && u in next
    requires next.Keys == nodes.Keys && next[id].content.inputs == SwapTwo(nodes[id].content.inputs, i, j)
    requires forall n :: n in nodes && n != id ==> next[n].content == nodes[n].content
    ensures InputsLive(next, IDLE, u)
  {
    forall k | 0 <= k < |next[u].content.inputs|
      ensures next[u].content.inputs[k] == 0 || next[u].content.inputs[k] in next {
      LiveInput(nodes, u, if u != id then k else if k == i then j else if k == j then i else k);
    }
    InputsStayLive(next, u);
  }

  lemma SwapRecords(nodes: Nodes, id: Id, i: nat, j: nat, m: Id)
    requires DefUse(nodes, IDLE) && id in nodes && i < |nodes[id].content.inputs|
    requires j < |nodes[id].content.inputs| && m in nodes
    ensures RecordsExact(Swapped(nodes, id, i, j), IDLE, m)
  {
    var next := Swapped(nodes, id, i, j);
    SwappedContents(nodes, id, i, j);
    forall o | o != PIN ensures Records(next, m, o) == if Reads(next, IDLE, o, m) then 1 else 0 {
      SwapCounts(nodes, id, i, j, m, o);
      SwapReads(nodes, next, id, i, j, o, m);
      SwapRecord(nodes, id, i, j, m, o);
    }
  }

  lemma SwappedContents(nodes: Nodes, id: Id, i: nat, j: nat)
    requires id in nodes && i < |nodes[id].content.inputs| && j < |nodes[id].content.inputs|
    ensures var next := Swapped(nodes, id, i, j);
      && next.Keys == nodes.Keys
      && next[id].content == nodes[id].content.(inputs := SwapTwo(nodes[id].content.inputs, i, j))
      && (forall n :: n in nodes && n != id ==> next[n].content == nodes[n].content)
  {
  }

  /** The record o after the swap counts as the record it came from did before. */
  lemma SwapRecord(nodes: Nodes, id: Id, i: nat, j: nat, m: Id, o: Out)
    requires DefUse(nodes, IDLE) && id in nodes && i < |nodes[id].content.inputs|
    requires j < |nodes[id].content.inputs| && m in nodes
    requires o != PIN
    ensures var a, b := nodes[id].content.inputs[i], nodes[id].content.inputs[j];
      var o' := if o == Out(id, i) then Out(id, j) else if o == Out(id, j) then Out(id, i) else o;
      (if Reads(nodes, IDLE, o', m) then 1 else 0) == Records(nodes, m, o)
        + (if m == a then (if o == Out(id, j) then 1 else 0) - (if o == Out(id, i) then 1 else 0) else 0)
        + (if m == b then (if o == Out(id, i) then 1 else 0) - (if o == Out(id, j) then 1 else 0) else 0)
  {
    var a, b := nodes[id].content.inputs[i], nodes[id].content.inputs[j];
    assert RecordsExact(nodes, IDLE, m);
    assert Reads(nodes, IDLE, Out(id, i), m) <==> m == a;
    assert Reads(nodes, IDLE, Out(id, j), m) <==> m == b;
  }
}
