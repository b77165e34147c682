/**
  Propagating lattice values over the graph with a worklist until nothing changes.
 */
module Propagation {
  import opened Lattices

  type Value = v: Lattice | Normal(v) witness TOP

  /** The graph as far as propagation sees it: what each node reads, who reads it, and how its value follows from
      the values of what it reads. */
  datatype RawFlow = RawFlow(inputs: seq<seq<nat>>, outs: seq<seq<nat>>, transfer: (nat, seq<Value>) -> Value)

  ghost predicate AllAbove(xs: seq<Value>, ys: seq<Value>) {
    |xs| == |ys| && forall k :: 0 <= k < |xs| ==> Isa(xs[k], ys[k])
  }

  /** More general inputs give a more general value. */
  ghost predicate MonotoneAt(f: RawFlow, n: nat, xs: seq<Value>, ys: seq<Value>) {
    AllAbove(xs, ys) ==> Isa(f.transfer(n, xs), f.transfer(n, ys))
  }

  ghost predicate WellFormed(f: RawFlow) {
    && |f.outs| == |f.inputs|
    && (forall n, k :: 0 <= n < |f.inputs| && 0 <= k < |f.inputs[n]| ==> f.inputs[n][k] < |f.inputs|)
    && (forall n, k :: 0 <= n < |f.inputs| && 0 <= k < |f.outs[n]| ==> f.outs[n][k] < |f.inputs|)
    && (forall n, m :: 0 <= n < |f.inputs| && 0 <= m < |f.inputs| && n in f.inputs[m] ==> m in f.outs[n])
    && (forall n: nat, xs: seq<Value>, ys: seq<Value> {:trigger MonotoneAt(f, n, xs, ys)} :: MonotoneAt(f, n, xs, ys))
  }

  type Flow = f: RawFlow | WellFormed(f) ghost witness RawFlow([], [], (n: nat, xs: seq<Value>) => BOT)

  function Size(f: Flow): nat { |f.inputs| }

  /** The values of all nodes. */
  type Assignment = seq<Value>

  predicate Fits(f: Flow, s: Assignment) { |s| == Size(f) }

  function Args(f: Flow, s: Assignment, n: nat): seq<Value>
    requires Fits(f, s) && n < Size(f)
  {
    seq(|f.inputs[n]|, k requires 0 <= k < |f.inputs[n]| => s[f.inputs[n][k]])
  }

  function Compute(f: Flow, s: Assignment, n: nat): Value
    requires Fits(f, s) && n < Size(f)
  {
    f.transfer(n, Args(f, s, n))
  }

  ghost predicate SettledAt(f: Flow, s: Assignment, n: nat)
    requires Fits(f, s) && n < Size(f)
  {
    s[n] == Compute(f, s, n)
  }

  ghost predicate Fixpoint(f: Flow, s: Assignment) {
    Fits(f, s) && forall n :: 0 <= n < Size(f) ==> SettledAt(f, s, n)
  }

  ghost predicate FallsAt(f: Flow, s: Assignment, n: nat)
    requires Fits(f, s) && n < Size(f)
  {
    Isa(s[n], Compute(f, s, n))
  }

  /** No node's value is below what it computes to. */
  ghost predicate Falling(f: Flow, s: Assignment) {
    Fits(f, s) && forall n :: 0 <= n < Size(f) ==> FallsAt(f, s, n)
  }

  lemma ComputeIsMonotone(f: Flow, s: Assignment, t: Assignment, n: nat)
    requires Fits(f, s) && AllAbove(s, t) && n < Size(f)
    ensures Isa(Compute(f, s, n), Compute(f, t, n))
  {
    assert AllAbove(Args(f, s, n), Args(f, t, n));
    assert MonotoneAt(f, n, Args(f, s, n), Args(f, t, n));
  }

  /** A node that does not read m does not notice its change. */
  lemma ComputeIsLocal(f: Flow, s: Assignment, n: nat, m: nat, v: Value)
    requires Fits(f, s) && n < Size(f) && m < Size(f) && n !in f.outs[m]
    ensures Compute(f, s[m := v], n) == Compute(f, s, n)
  {
    assert forall k :: 0 <= k < |f.inputs[n]| ==> f.inputs[n][k] in f.inputs[n];
    assert Args(f, s[m := v], n) == Args(f, s, n);
  }

  // ---- one update ----

  lemma UpdateFalls(f: Flow, s: Assignment, n: nat)
    requires Falling(f, s) && n < Size(f)
    ensures AllAbove(s, s[n := Compute(f, s, n)]) && Falling(f, s[n := Compute(f, s, n)])
  {
    var v := Compute(f, s, n);
    var t := s[n := v];
    assert FallsAt(f, s, n);
    forall k | 0 <= k < |s| ensures Isa(s[k], t[k]) { IsaIsPartialOrder(s[k], s[k], s[k]); }
    forall k | 0 <= k < Size(f) ensures FallsAt(f, t, k) {
      assert FallsAt(f, s, k);
      ComputeIsMonotone(f, s, t, k);
      if k != n { IsaIsPartialOrder(s[k], Compute(f, s, k), Compute(f, t, k)); }
    }
  }

  /** A fixpoint that was below stays below. */
  lemma UpdateStaysAbove(f: Flow, s: Assignment, n: nat, g: Assignment)
    requires Fits(f, s) && n < Size(f) && Fixpoint(f, g) && AllAbove(s, g)
    ensures AllAbove(s[n := Compute(f, s, n)], g)
  {
    ComputeIsMonotone(f, s, g, n);
    assert SettledAt(f, g, n);
  }

  /** Every fixpoint below the start is below the current values. */
  ghost predicate AboveFixpoints(f: Flow, start: Assignment, s: Assignment) {
    forall g {:trigger Fixpoint(f, g)} :: Fixpoint(f, g) && AllAbove(start, g) ==> AllAbove(s, g)
  }

  function Total(s: Assignment): nat {
    if s == [] then 0 else Total(s[..|s| - 1]) + Height(s[|s| - 1])
  }

  lemma {:induction false} TotalDrops(s: Assignment, n: nat, v: Value)
    requires n < |s| && Height(v) < Height(s[n])
    ensures Total(s[n := v]) < Total(s)
  {
    var last := |s| - 1;
    if n < last {
      assert s[n := v][..last] == s[..last][n := v];
      TotalDrops(s[..last], n, v);
    } else {
      assert s[n := v][..last] == s[..last];
    }
  }

  // ---- the queue ----

  /** Nodes not waiting are settled, except those still to be queued. */
  ghost predicate Waiting(f: Flow, s: Assignment, queue: seq<nat>, bits: set<nat>, owed: set<nat>) {
    && Fits(f, s) && (forall n :: n in queue <==> n in bits) && (forall i :: 0 <= i < |queue| ==> queue[i] < Size(f))
    && (forall n :: 0 <= n < Size(f) && n !in queue && n !in owed ==> SettledAt(f, s, n))
    && (forall i, j :: 0 <= i < j < |queue| ==> queue[i] != queue[j])
  }

  ghost predicate Progressing(f: Flow, start: Assignment, s: Assignment) {
    Falling(f, s) && AllAbove(start, s) && AboveFixpoints(f, start, s)
  }

  lemma ProgressUpdate(f: Flow, start: Assignment, s: Assignment, n: nat)
    requires Progressing(f, start, s) && n < Size(f) && s[n] != Compute(f, s, n)
    ensures Progressing(f, start, s[n := Compute(f, s, n)]) && Total(s[n := Compute(f, s, n)]) < Total(s)
  {
    var t := s[n := Compute(f, s, n)];
    UpdateFalls(f, s, n);
    assert FallsAt(f, s, n);
    FallingLowersHeight(s[n], Compute(f, s, n));
    TotalDrops(s, n, Compute(f, s, n));
    forall k | 0 <= k < |start| ensures Isa(start[k], t[k]) {
      IsaIsPartialOrder(start[k], s[k], t[k]);
    }
    forall g | Fixpoint(f, g) && AllAbove(start, g) ensures AllAbove(t, g) {
      UpdateStaysAbove(f, s, n, g);
    }
  }

  /** After the update, all but the node and its readers are settled as before. */
  lemma UnreadStaySettled(f: Flow, s: Assignment, n: nat, k: nat)
    requires Fits(f, s) && n < Size(f) && k < Size(f) && k != n && k !in f.outs[n] && SettledAt(f, s, k)
    ensures SettledAt(f, s[n := Compute(f, s, n)], k)
  {
    ComputeIsLocal(f, s, k, n, Compute(f, s, n));
  }

  /** A node that does not read itself is settled by its own update. */
  lemma UpdatedIsSettled(f: Flow, s: Assignment, n: nat)
    requires Fits(f, s) && n < Size(f) && n !in f.outs[n]
    ensures SettledAt(f, s[n := Compute(f, s, n)], n)
  {
    ComputeIsLocal(f, s, n, n, Compute(f, s, n));
  }

  class Solver {
    const flow: Flow
    var lattices: Assignment
    var queue: seq<nat>
    var bits: set<nat>

    constructor (flow: Flow, start: Assignment)
      requires Fits(flow, start)
      ensures this.flow == flow && lattices == start && queue == [] && bits == {}
    {
      this.flow := flow;
      lattices, queue, bits := start, [], {};
    }

    /** Queues a node unless it is queued. */
    method Enqueue(n: nat, ghost owed: set<nat>)
      requires n < Size(flow) && Waiting(flow, lattices, queue, bits, owed)
      modifies this`queue, this`bits
      ensures Waiting(flow, lattices, queue, bits, owed - {n})
    {
      if n in bits { return; }
      bits := bits + {n};
      queue := queue + [n];
    }

    /** Ends in the greatest fixpoint below the start. */
    method Solve()
      requires Fits(flow, lattices) && Falling(flow, lattices)
      modifies this
      ensures Fixpoint(flow, lattices) && AllAbove(old(lattices), lattices)
      ensures forall g {:trigger Fixpoint(flow, g)} :: Fixpoint(flow, g) && AllAbove(old(lattices), g) ==>
        AllAbove(lattices, g)
    {
      ghost var start := lattices;
      QueueAll();
      StartProgress(flow, start);
      while queue != []
        invariant Waiting(flow, lattices, queue, bits, {}) && Progressing(flow, start, lattices)
        decreases Total(lattices), |queue|
      {
        Step(start);
      }
    }

    /** All nodes, the last one first. */
    method QueueAll()
      requires Fits(flow, lattices)
      modifies this`queue, this`bits
      ensures Waiting(flow, lattices, queue, bits, {})
    {
      queue := seq(Size(flow), k requires 0 <= k < Size(flow) => Size(flow) - 1 - k);
      bits := set n | n in queue;
      forall n | 0 <= n < Size(flow) ensures n in queue {
        assert queue[Size(flow) - 1 - n] == n;
      }
    }

    /** Takes the next node, computes its value, and queues its readers if that changed. */
    method Step(ghost start: Assignment)
      requires Waiting(flow, lattices, queue, bits, {}) && Progressing(flow, start, lattices) && queue != []
      modifies this
      ensures Waiting(flow, lattices, queue, bits, {}) && Progressing(flow, start, lattices)
      ensures Total(lattices) < old(Total(lattices)) || (lattices == old(lattices) && |queue| < |old(queue)|)
    {
      var n := queue[0];
      var lat := Compute(flow, lattices, n);
      assert FallsAt(flow, lattices, n);
      if lat.sort != Top && lattices[n] != lat {
        Update(n, lat, start);
      } else {
        TopFallsFromTop(lattices[n], lat);
        DropSettled(n);
      }
    }

    /** The node is settled; it only leaves the queue. */
    method DropSettled(n: nat)
      requires Waiting(flow, lattices, queue, bits, {}) && queue != [] && n == queue[0] && SettledAt(flow, lattices, n)
      modifies this`queue, this`bits
      ensures Waiting(flow, lattices, queue, bits, {}) && |queue| < |old(queue)|
    {
      assert queue == [n] + queue[1..];
      queue := queue[1..];
      bits := bits - {n};
    }

    method Update(n: nat, lat: Value, ghost start: Assignment)
      requires Waiting(flow, lattices, queue, bits, {})
      requires Progressing(flow, start, lattices) && queue != [] && n == queue[0]
      requires lat == Compute(flow, lattices, n) && lattices[n] != lat
      modifies this
      ensures Waiting(flow, lattices, queue, bits, {}) && Progressing(flow, start, lattices)
      ensures Total(lattices) < old(Total(lattices))
    {
      ProgressUpdate(flow, start, lattices, n);
      ghost var was := lattices;
      Store(n, lat);
      OwedAreReaders(flow, was, old(queue), old(bits), n);
      QueueReaders(n);
    }

    method QueueReaders(n: nat)
      requires n < Size(flow) && Waiting(flow, lattices, queue, bits, Elements(flow.outs[n]))
      modifies this`queue, this`bits
      ensures Waiting(flow, lattices, queue, bits, {})
    {
      var outs := flow.outs[n];
      for k := 0 to |outs|
        invariant Waiting(flow, lattices, queue, bits, Elements(outs[k..]))
      {
        Enqueue(outs[k], Elements(outs[k..]));
        OwedShrinks(flow, lattices, queue, bits, outs, k);
      }
    }

    method Store(n: nat, lat: Value)
      requires n < |lattices| && queue != [] && n == queue[0]
      modifies this
      ensures lattices == old(lattices)[n := lat] && queue == old(queue)[1..] && bits == old(bits) - {n}
    {
      queue := queue[1..];
      bits := bits - {n};
      lattices := lattices[n := lat];
    }
  }

  function Elements(q: seq<nat>): set<nat> { set x | x in q }

  lemma OwedShrinks(f: Flow, s: Assignment, queue: seq<nat>, bits: set<nat>, outs: seq<nat>, k: nat)
    requires k < |outs| && Waiting(f, s, queue, bits, Elements(outs[k..]) - {outs[k]})
    ensures Waiting(f, s, queue, bits, Elements(outs[k + 1..]))
  {
    assert outs[k..] == [outs[k]] + outs[k + 1..];
  }

  lemma OwedAreReaders(f: Flow, s: Assignment, queue: seq<nat>, bits: set<nat>, n: nat)
    requires Waiting(f, s, queue, bits, {}) && queue != [] && n == queue[0]
    ensures Waiting(f, s[n := Compute(f, s, n)], queue[1..], bits - {n}, Elements(f.outs[n]))
  {
    var t := s[n := Compute(f, s, n)];
    assert queue == [n] + queue[1..];
    forall k | 0 <= k < Size(f) && k !in queue[1..] && k !in Elements(f.outs[n]) ensures SettledAt(f, t, k) {
      if k == n { UpdatedIsSettled(f, s, n); } else { UnreadStaySettled(f, s, n, k); }
    }
  }

  lemma StartProgress(f: Flow, start: Assignment)
    requires Falling(f, start)
    ensures Progressing(f, start, start)
  {
    forall k | 0 <= k < |start| ensures Isa(start[k], start[k]) { IsaIsPartialOrder(start[k], start[k], start[k]); }
  }

  /** Only Top falls to Top. */
  lemma TopFallsFromTop(a: Value, b: Value)
    ensures Isa(a, b) && b.sort == Top ==> a == b
  {
  }

  // ---- the whole pass ----

  /** Nothing is known yet; node 0 is nil, which is dead control. */
  function StartValues(f: Flow): Assignment
    requires Size(f) > 0
  {
    seq(Size(f), n requires 0 <= n < Size(f) => if n == 0 then CtlrOf(true) else TOP)
  }

  /** Nil computes to dead control whatever the other values are. */
  ghost predicate NilIsDead(f: Flow) {
    Size(f) > 0 && forall s {:trigger Fits(f, s)} :: Fits(f, s) ==> Compute(f, s, 0) == CtlrOf(true)
  }

  lemma StartIsAbove(f: Flow, g: Assignment)
    requires NilIsDead(f) && Fixpoint(f, g)
    ensures AllAbove(StartValues(f), g)
  {
    assert Fits(f, g) && SettledAt(f, g, 0);
  }

  lemma StartFalls(f: Flow)
    requires NilIsDead(f)
    ensures Falling(f, StartValues(f))
  {
    assert Fits(f, StartValues(f));
    forall n | 0 <= n < Size(f) ensures FallsAt(f, StartValues(f), n) {}
  }

  /** The pass returns the greatest of all fixpoints. */
  method ComputeLattices(flow: Flow) returns (lattices: Assignment)
    requires NilIsDead(flow)
    ensures Fixpoint(flow, lattices)
    ensures forall g {:trigger Fixpoint(flow, g)} :: Fixpoint(flow, g) ==> AllAbove(lattices, g)
  {
    StartFalls(flow);
    var solver := new Solver(flow, StartValues(flow));
    solver.Solve();
    lattices := solver.lattices;
    forall g | Fixpoint(flow, g) ensures AllAbove(lattices, g) {
      StartIsAbove(flow, g);
    }
  }
}
