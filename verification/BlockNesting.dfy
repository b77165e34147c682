/**
  Turning forward and back edges of a linear block order into properly nested intervals.

  An interval runs from the basic block where it opens to the one where it closes. A sweep from the
  last basic block to the first keeps the open intervals on a stack; intervals that close at the
  same place are chained behind the widest of them.
 */
module BlockNesting {
  import opened Basics

  datatype Block = Block(isLoop: bool, start: nat, end: nat, worse: nat, origin: nat)

  const NIL_BLOCK: Block := Block(false, 0, 0, 0, 0)

  predicate SameShape(a: Block, b: Block) {
    a.isLoop == b.isLoop && a.end == b.end && a.origin == b.origin
  }

  /** What the edges provide: slot 0 is unused, intervals are sorted by where they close, forward ones are not
      empty, and at most one loop closes at a place. */
  predicate WellFormed(blocks: seq<Block>, n: nat) {
    && |blocks| > 0 && blocks[0] == NIL_BLOCK
    && (forall j :: 0 < j < |blocks| ==> EdgeOk(blocks[j], n))
    && (forall a, b :: 0 < a < b < |blocks| ==> blocks[a].end >= blocks[b].end)
    && (forall a, b :: 0 < a < b < |blocks| && blocks[a].isLoop && blocks[b].isLoop ==> blocks[a].end != blocks[b].end)
  }

  predicate EdgeOk(b: Block, n: nat) {
    b.end < n && b.worse == 0 && if b.isLoop then b.start <= b.end else b.start < b.end
  }

  // ---- nesting ----

  predicate Inside(a: Block, b: Block) { b.start <= a.start && a.end <= b.end }

  /** a opens only where b has closed. */
  predicate After(a: Block, b: Block) { a.start >= b.end }

  predicate Nested(a: Block, b: Block) { Inside(a, b) || After(a, b) }

  /** Closed intervals, in the order they were finished, together with the stack of open ones. */
  datatype Sweep = Sweep(blocks: seq<Block>, stack: seq<nat>, order: seq<nat>)

  predicate Slot(s: Sweep, j: nat) { 0 < j < |s.blocks| }

  ghost predicate Placed(s: Sweep) {
    && (forall p :: 0 <= p < |s.stack| ==> Slot(s, s.stack[p]))
    && (forall p :: 0 <= p < |s.order| ==> Slot(s, s.order[p]))
    && (forall p, q :: 0 <= p < q < |s.stack| ==> s.stack[p] != s.stack[q])
    && (forall p, q :: 0 <= p < q < |s.order| ==> s.order[p] != s.order[q])
    && (forall p, q :: 0 <= p < |s.order| && 0 <= q < |s.stack| ==> s.order[p] != s.stack[q])
  }

  /** Finished intervals lie inside or after every later one; open ones close no later than those below; and the
      finished ones will turn out to lie inside or after the open ones. */
  ghost predicate Laminar(s: Sweep)
    requires Placed(s)
  {
    && (forall p, q :: 0 <= p < q < |s.order| ==> Nested(s.blocks[s.order[p]], s.blocks[s.order[q]]))
    && (forall p, q :: 0 <= p < q < |s.stack| ==> s.blocks[s.stack[q]].end <= s.blocks[s.stack[p]].end)
    && (forall p, q :: 0 <= p < |s.order| && 0 <= q < |s.stack| ==> Fits(s.blocks[s.order[p]], s.blocks[s.stack[q]]))
  }

  predicate Fits(closed: Block, open: Block) { closed.end <= open.end || After(closed, open) }

  /** Open intervals close at lo or later; finished ones open at hi or later. */
  ghost predicate Swept(s: Sweep, lo: nat, hi: nat)
    requires Placed(s)
  {
    && (forall q :: 0 <= q < |s.stack| ==> s.blocks[s.stack[q]].end >= lo)
    && (forall p :: 0 <= p < |s.order| ==> s.blocks[s.order[p]].start >= hi)
  }

  /** Only openings of finished intervals have moved, and only towards the front. */
  ghost predicate Moved(given: seq<Block>, s: Sweep) {
    && |s.blocks| == |given| && (forall j :: 0 <= j < |given| ==> MovedAt(given[j], s.blocks[j]))
    && (forall j :: 0 <= j < |given| && j !in s.order ==> s.blocks[j].start == given[j].start)
  }

  predicate MovedAt(was: Block, now: Block) { SameShape(was, now) && now.start <= was.start }

  ghost predicate Good(given: seq<Block>, s: Sweep, lo: nat, hi: nat) {
    Placed(s) && Laminar(s) && Swept(s, lo, hi) && Moved(given, s)
  }

  function Popped(s: Sweep, i: nat): Sweep
    requires |s.stack| > 0 && s.stack[|s.stack| - 1] < |s.blocks|
  {
    var top := s.stack[|s.stack| - 1];
    Sweep(s.blocks[top := s.blocks[top].(start := i)], s.stack[..|s.stack| - 1], s.order + [top])
  }

  lemma PopKeepsGood(given: seq<Block>, s: Sweep, lo: nat, i: nat)
    requires Good(given, s, lo, i) && |s.stack| > 0 && s.blocks[s.stack[|s.stack| - 1]].start >= i
    ensures Good(given, Popped(s, i), lo, i)
  {
    var t, last := Popped(s, i), |s.stack| - 1;
    var top := s.stack[last];
    forall j | 0 <= j < |given| && j !in t.order ensures t.blocks[j].start == given[j].start {
      assert t.order[|s.order|] == top;
    }
    PopPlaced(s, i);
    forall p | 0 <= p < |s.order| ensures Nested(t.blocks[t.order[p]], t.blocks[top]) {
      assert Fits(s.blocks[s.order[p]], s.blocks[s.stack[last]]);
    }
  }

  lemma PopPlaced(s: Sweep, i: nat)
    requires Placed(s) && |s.stack| > 0
    ensures Placed(Popped(s, i))
  {
  }

  function Pushed(s: Sweep, b: nat): Sweep { s.(stack := s.stack + [b]) }

  function Finished(s: Sweep, b: nat): Sweep { s.(order := s.order + [b]) }

  /** b stands nowhere yet. */
  predicate New(s: Sweep, b: nat) { Slot(s, b) && b !in s.stack && b !in s.order }

  lemma PushPlaced(s: Sweep, b: nat)
    requires Placed(s) && New(s, b)
    ensures Placed(Pushed(s, b))
  {
    assert forall p :: 0 <= p < |s.stack| ==> s.stack[p] in s.stack;
    assert forall p :: 0 <= p < |s.order| ==> s.order[p] in s.order;
  }

  lemma FinishPlaced(s: Sweep, b: nat)
    requires Placed(s) && New(s, b)
    ensures Placed(Finished(s, b))
  {
    assert forall p :: 0 <= p < |s.stack| ==> s.stack[p] in s.stack;
    assert forall p :: 0 <= p < |s.order| ==> s.order[p] in s.order;
  }

  lemma PushKeepsGood(given: seq<Block>, s: Sweep, i: nat, b: nat)
    requires Good(given, s, i, i) && New(s, b) && s.blocks[b].end == i
    ensures Good(given, Pushed(s, b), i, i)
  {
    PushPlaced(s, b);
    PushLaminar(s, i, b);
  }

  lemma PushLaminar(s: Sweep, i: nat, b: nat)
    requires Placed(s) && Laminar(s) && Swept(s, i, i) && Slot(s, b) && s.blocks[b].end == i && Placed(Pushed(s, b))
    ensures Laminar(Pushed(s, b))
  {
    var t := Pushed(s, b);
    forall p, q | 0 <= p < |t.order| && 0 <= q < |t.stack| ensures Fits(t.blocks[t.order[p]], t.blocks[t.stack[q]]) {
      if q < |s.stack| { assert Fits(s.blocks[s.order[p]], s.blocks[s.stack[q]]); }
    }
  }

  lemma FinishKeepsGood(given: seq<Block>, s: Sweep, i: nat, b: nat)
    requires Good(given, s, i, i) && New(s, b) && s.blocks[b].start == i && s.blocks[b].end == i
    ensures Good(given, Finished(s, b), i, i)
  {
    FinishPlaced(s, b);
    FinishLaminar(s, i, b);
    assert forall j :: j in s.order ==> j in Finished(s, b).order;
  }

  lemma FinishLaminar(s: Sweep, i: nat, b: nat)
    requires Placed(s) && Laminar(s) && Swept(s, i, i) && Slot(s, b) && s.blocks[b].end == i && Placed(Finished(s, b))
    ensures Laminar(Finished(s, b))
  {
    var t := Finished(s, b);
    forall p, q | 0 <= p < q < |t.order| ensures Nested(t.blocks[t.order[p]], t.blocks[t.order[q]]) {
      if q < |s.order| { assert Nested(s.blocks[s.order[p]], s.blocks[s.order[q]]); }
    }
  }

  // ---- no interval opens earlier than it has to ----

  /** Disjoint, or one inside the other. */
  predicate Apart(a: Block, b: Block) {
    a.start >= b.end || b.start >= a.end || Inside(a, b) || Inside(b, a)
  }

  predicate Kept(s: Sweep, j: nat) { Slot(s, j) && (j in s.stack || j in s.order) }

  function Opening(given: seq<Block>, starts: seq<nat>, j: nat): Block
    requires j < |given| && j < |starts|
  {
    given[j].(start := starts[j])
  }

  /** Another choice of openings, none behind the given one, under which the kept intervals nest. */
  ghost predicate Choice(given: seq<Block>, s: Sweep, starts: seq<nat>) {
    && |starts| == |given| == |s.blocks| && (forall j: nat :: Kept(s, j) ==> starts[j] <= given[j].start)
    && (forall a: nat, b: nat :: Kept(s, a) && Kept(s, b) ==>
          Apart(Opening(given, starts, a), Opening(given, starts, b)))
  }

  /** The choice opens open intervals before i, each of them before those above it on the stack close, and opens no
      finished interval later. */
  ghost predicate NoLater(given: seq<Block>, s: Sweep, starts: seq<nat>, i: nat)
    requires Placed(s) && |starts| == |given| == |s.blocks|
  {
    && (forall p :: 0 <= p < |s.stack| ==> starts[s.stack[p]] < i)
    && (forall p, q :: 0 <= p < q < |s.stack| ==> starts[s.stack[p]] < given[s.stack[q]].end)
    && (forall p :: 0 <= p < |s.order| ==> starts[s.order[p]] <= s.blocks[s.order[p]].start)
  }

  /** Of open intervals that close at the same place the wider one lies below. */
  ghost predicate WiderFirst(given: seq<Block>, s: Sweep)
    requires Placed(s) && |given| == |s.blocks|
  {
    forall p, q :: 0 <= p < q < |s.stack| && given[s.stack[p]].end == given[s.stack[q]].end ==>
      given[s.stack[p]].start <= given[s.stack[q]].start
  }

  ghost predicate Tight(given: seq<Block>, s: Sweep, i: nat) {
    && Placed(s) && |given| == |s.blocks| && WiderFirst(given, s)
    && forall starts :: Choice(given, s, starts) ==> NoLater(given, s, starts, i)
  }

  /** A choice for more kept intervals is one for fewer. */
  lemma ChoiceRestricts(given: seq<Block>, s: Sweep, t: Sweep, starts: seq<nat>)
    requires Choice(given, t, starts) && |s.blocks| == |t.blocks| && forall j: nat :: Kept(s, j) ==> Kept(t, j)
    ensures Choice(given, s, starts)
  {
  }

  lemma KeptIn(s: Sweep)
    requires Placed(s)
    ensures forall p :: 0 <= p < |s.stack| ==> Kept(s, s.stack[p])
    ensures forall p :: 0 <= p < |s.order| ==> Kept(s, s.order[p])
  {
  }

  lemma PopKeepsTight(given: seq<Block>, s: Sweep, i: nat)
    requires Tight(given, s, i + 1) && |s.stack| > 0
    ensures Tight(given, Popped(s, i), i + 1)
  {
    var t, top := Popped(s, i), s.stack[|s.stack| - 1];
    PopPlaced(s, i);
    assert s.stack == t.stack + [top] && t.order == s.order + [top];
    forall starts | Choice(given, t, starts) ensures NoLater(given, t, starts, i + 1) {
      ChoiceRestricts(given, s, t, starts);
      forall p | 0 <= p < |t.order| ensures starts[t.order[p]] <= t.blocks[t.order[p]].start {
        if p < |s.order| { assert t.order[p] != top; }
      }
    }
  }

  /** Once the top opens before i, all open intervals have to. */
  lemma CloseKeepsTight(given: seq<Block>, s: Sweep, i: nat)
    requires Tight(given, s, i + 1) && Moved(given, s) && Laminar(s)
    requires s.stack != [] ==> s.blocks[s.stack[|s.stack| - 1]].start < i
    ensures Tight(given, s, i)
  {
    KeptIn(s);
    forall starts | Choice(given, s, starts) ensures NoLater(given, s, starts, i) {
      forall p | 0 <= p < |s.stack| ensures starts[s.stack[p]] < i {
        OpensBefore(given, s, starts, i, p);
      }
    }
  }

  lemma OpensBefore(given: seq<Block>, s: Sweep, starts: seq<nat>, i: nat, p: nat)
    requires Tight(given, s, i + 1) && Moved(given, s) && Laminar(s) && Choice(given, s, starts) && p < |s.stack|
    requires s.blocks[s.stack[|s.stack| - 1]].start < i
    ensures starts[s.stack[p]] < i
  {
    var j, top := s.stack[p], s.stack[|s.stack| - 1];
    KeptIn(s);
    assert Kept(s, j) && Kept(s, top);
    assert s.blocks[top].start == given[top].start by {
      assert top !in s.order;
    }
    if p < |s.stack| - 1 {
      assert s.blocks[top].end <= s.blocks[j].end;
      assert MovedAt(given[j], s.blocks[j]) && MovedAt(given[top], s.blocks[top]);
      assert Apart(Opening(given, starts, top), Opening(given, starts, j));
      assert starts[j] < given[top].end;
    }
  }

  lemma PushKeepsTight(given: seq<Block>, s: Sweep, i: nat, b: nat)
    requires Tight(given, s, i) && New(s, b) && given[b].end == i && given[b].start < i
    requires forall p :: 0 <= p < |s.stack| && given[s.stack[p]].end == i ==> given[s.stack[p]].start <= given[b].start
    ensures Tight(given, Pushed(s, b), i)
  {
    var t := Pushed(s, b);
    PushPlaced(s, b);
    KeptIn(t);
    assert forall j: nat :: Kept(s, j) ==> Kept(t, j);
    forall starts | Choice(given, t, starts) ensures NoLater(given, t, starts, i) {
      ChoiceRestricts(given, s, t, starts);
      assert Kept(t, b) by { assert t.stack[|s.stack|] == b; }
    }
  }

  lemma FinishKeepsTight(given: seq<Block>, s: Sweep, i: nat, b: nat)
    requires Tight(given, s, i) && New(s, b) && given[b].start <= s.blocks[b].start
    ensures Tight(given, Finished(s, b), i)
  {
    var t := Finished(s, b);
    FinishPlaced(s, b);
    KeptIn(t);
    assert forall j: nat :: Kept(s, j) ==> Kept(t, j);
    forall starts | Choice(given, t, starts) ensures NoLater(given, t, starts, i) {
      ChoiceRestricts(given, s, t, starts);
      assert Kept(t, b) by { assert t.order[|s.order|] == b; }
    }
  }

  lemma TightIgnoresLinks(given: seq<Block>, s: Sweep, blocks: seq<Block>, i: nat)
    requires Tight(given, s, i) && |blocks| == |s.blocks|
    requires forall j :: 0 <= j < |blocks| ==> blocks[j].start == s.blocks[j].start
    ensures Tight(given, s.(blocks := blocks), i)
  {
    var t := s.(blocks := blocks);
    forall starts | Choice(given, t, starts) ensures NoLater(given, t, starts, i) {
      ChoiceRestricts(given, s, t, starts);
    }
  }

  function Starts(blocks: seq<Block>): seq<nat> { seq(|blocks|, j requires 0 <= j < |blocks| => blocks[j].start) }

  /** The openings are such a choice, and no other opens any kept interval later. */
  ghost predicate LatestChoice(given: seq<Block>, s: Sweep) {
    && Choice(given, s, Starts(s.blocks))
    && forall starts :: Choice(given, s, starts) ==> forall j: nat :: Kept(s, j) ==> starts[j] <= s.blocks[j].start
  }

  lemma FinalIsLatest(given: seq<Block>, s: Sweep)
    requires Good(given, s, 0, 0) && Tight(given, s, 0) && s.stack == []
    ensures LatestChoice(given, s)
  {
    var starts := Starts(s.blocks);
    forall a: nat, b: nat | Kept(s, a) && Kept(s, b)
      ensures Apart(Opening(given, starts, a), Opening(given, starts, b))
    {
      var p :| 0 <= p < |s.order| && s.order[p] == a;
      var q :| 0 <= q < |s.order| && s.order[q] == b;
      assert MovedAt(given[a], s.blocks[a]) && MovedAt(given[b], s.blocks[b]);
      assert p < q ==> Nested(s.blocks[s.order[p]], s.blocks[s.order[q]]);
      assert q < p ==> Nested(s.blocks[s.order[q]], s.blocks[s.order[p]]);
    }
    forall j: nat | Kept(s, j) ensures starts[j] <= given[j].start { assert MovedAt(given[j], s.blocks[j]); }
    forall other, j: nat | Choice(given, s, other) && Kept(s, j) ensures other[j] <= s.blocks[j].start {
      assert NoLater(given, s, other, 0);
      var p :| 0 <= p < |s.order| && s.order[p] == j;
    }
  }

  /** a opens before b does and closes within it. */
  predicate Crosses(a: Block, b: Block) { a.start < b.start < a.end < b.end }

  /** Intervals that lie in j are put back inside it, and j opens where it was given to. */
  function Reopened(given: seq<Block>, s: Sweep, j: nat): (starts: seq<nat>)
    requires j < |given| == |s.blocks|
    ensures |starts| == |given|
  {
    seq(|given|, k requires 0 <= k < |given| =>
      if given[k].end <= given[j].end && given[k].start >= given[j].start && s.blocks[k].start < given[j].start
      then given[j].start else s.blocks[k].start)
  }

  lemma ReopenedApart(given: seq<Block>, s: Sweep, j: nat, a: nat, b: nat)
    requires |given| == |s.blocks| && Choice(given, s, Starts(s.blocks)) && Kept(s, j) && Kept(s, a) && Kept(s, b)
    requires given[a].end < given[b].end && !Crosses(given[a], given[j])
    requires given[a].start <= given[a].end && given[b].start <= given[b].end
    ensures Apart(Opening(given, Reopened(given, s, j), a), Opening(given, Reopened(given, s, j), b))
  {
    var starts := Starts(s.blocks);
    assert Apart(Opening(given, starts, a), Opening(given, starts, b));
  }

  /** A kept interval that no kept interval crosses opens where it was given to. */
  lemma UncrossedStays(given: seq<Block>, s: Sweep, n: nat, j: nat)
    requires WellFormed(given, n) && LatestChoice(given, s) && Kept(s, j)
    requires forall k: nat :: Kept(s, k) ==> !Crosses(given[k], given[j])
    ensures s.blocks[j].start == given[j].start
  {
    var starts := Reopened(given, s, j);
    assert Starts(s.blocks)[j] <= given[j].start;
    forall k: nat | Kept(s, k) ensures EdgeOk(given[k], n) && starts[k] <= given[k].start {
      assert Starts(s.blocks)[k] <= given[k].start;
    }
    forall a: nat, b: nat | Kept(s, a) && Kept(s, b)
      ensures Apart(Opening(given, starts, a), Opening(given, starts, b))
    {
      assert EdgeOk(given[a], n) && EdgeOk(given[b], n);
      if given[a].end < given[b].end { ReopenedApart(given, s, j, a, b); }
      if given[b].end < given[a].end { ReopenedApart(given, s, j, b, a); }
    }
    assert Choice(given, s, starts);
  }

  // ---- chains of intervals that close at the same place ----

  /** Following `worse` from the first member visits the members in turn. */
  ghost predicate Chain(blocks: seq<Block>, chain: seq<nat>) {
    && Distinct(chain) && (forall k :: 0 <= k < |chain| ==> 0 < chain[k] < |blocks|)
    && (forall k {:trigger NextIn(chain, k)} :: 0 <= k < |chain| ==> blocks[chain[k]].worse == NextIn(chain, k))
  }

  function NextIn(chain: seq<nat>, k: nat): nat {
    if k + 1 < |chain| then chain[k + 1] else 0
  }

  /** The chain holds the forward intervals of the range, the widest first. */
  ghost predicate Group(blocks: seq<Block>, from: nat, to: nat, chain: seq<nat>) {
    && 0 < from <= to <= |blocks| && Chain(blocks, chain)
    && (forall j :: j in chain <==> from <= j < to && !blocks[j].isLoop)
    && (forall k :: 0 <= k < |chain| ==> blocks[chain[0]].start <= blocks[chain[k]].start)
  }

  function Linked(blocks: seq<Block>, j: nat, worse: nat): seq<Block>
    requires j < |blocks|
  {
    blocks[j := blocks[j].(worse := worse)]
  }

  lemma GroupSkipsLoop(blocks: seq<Block>, from: nat, c: nat, chain: seq<nat>)
    requires Group(blocks, from, c, chain) && c < |blocks| && blocks[c].isLoop
    ensures Group(blocks, from, c + 1, chain)
  {
  }

  lemma ChainHead(blocks: seq<Block>, from: nat, c: nat, chain: seq<nat>)
    requires Group(blocks, from, c, chain) && c < |blocks|
    ensures c !in chain && forall k :: 0 <= k < |chain| ==> chain[k] != c
  {
    assert forall k :: 0 <= k < |chain| ==> chain[k] in chain;
  }

  /** The new interval is at least as wide as the widest: it goes in front. */
  lemma GroupPrepends(blocks: seq<Block>, from: nat, c: nat, chain: seq<nat>)
    requires Group(blocks, from, c, chain) && c < |blocks| && !blocks[c].isLoop
    requires chain != [] ==> blocks[c].start <= blocks[chain[0]].start
    ensures Group(Linked(blocks, c, if chain == [] then 0 else chain[0]), from, c + 1, [c] + chain)
  {
    ChainHead(blocks, from, c, chain);
    ChainPrepends(blocks, c, chain);
    var next, after := [c] + chain, Linked(blocks, c, if chain == [] then 0 else chain[0]);
    assert forall j :: 0 <= j < |blocks| ==> after[j].start == blocks[j].start && after[j].isLoop == blocks[j].isLoop;
    assert forall j :: j in next <==> j == c || j in chain;
    forall k | 0 <= k < |next| ensures after[next[0]].start <= after[next[k]].start {
      if k > 0 { assert blocks[chain[0]].start <= blocks[chain[k - 1]].start; }
    }
  }

  lemma ChainPrepends(blocks: seq<Block>, c: nat, chain: seq<nat>)
    requires Chain(blocks, chain) && 0 < c < |blocks| && forall k :: 0 <= k < |chain| ==> chain[k] != c
    ensures Chain(Linked(blocks, c, if chain == [] then 0 else chain[0]), [c] + chain)
  {
    var next, after := [c] + chain, Linked(blocks, c, if chain == [] then 0 else chain[0]);
    assert forall k :: 0 < k < |next| ==> next[k] == chain[k - 1];
    forall k | 0 <= k < |next| ensures after[next[k]].worse == NextIn(next, k) {
      if k > 0 { assert blocks[chain[k - 1]].worse == NextIn(chain, k - 1); }
    }
  }

  /** Otherwise it goes behind the widest. */
  lemma GroupInserts(blocks: seq<Block>, from: nat, c: nat, chain: seq<nat>)
    requires Group(blocks, from, c, chain) && c < |blocks| && !blocks[c].isLoop && chain != []
    requires blocks[c].start >= blocks[chain[0]].start
    ensures Group(Linked(Linked(blocks, c, blocks[chain[0]].worse), chain[0], c), from, c + 1, Spliced(chain, c))
  {
    ChainHead(blocks, from, c, chain);
    ChainInserts(blocks, c, chain);
    var next := Spliced(chain, c);
    var after := Linked(Linked(blocks, c, blocks[chain[0]].worse), chain[0], c);
    assert forall j :: 0 <= j < |blocks| ==> after[j].start == blocks[j].start && after[j].isLoop == blocks[j].isLoop;
    assert forall j :: j in next <==> j == c || j in chain by {
      assert chain == [chain[0]] + chain[1..];
    }
    assert forall k :: 0 <= k < |next| ==> next[k] in next;
    forall k | 0 <= k < |next| ensures after[next[0]].start <= after[next[k]].start {
      if next[k] != c {
        var m :| 0 <= m < |chain| && chain[m] == next[k];
      }
    }
  }

  function Spliced(chain: seq<nat>, c: nat): (next: seq<nat>)
    requires chain != []
    ensures |next| == |chain| + 1
    ensures forall k :: 0 <= k < |next| ==> next[k] == if k == 0 then chain[0] else if k == 1 then c else chain[k - 1]
  {
    [chain[0], c] + chain[1..]
  }

  lemma SplicedDistinct(chain: seq<nat>, c: nat)
    requires Distinct(chain) && chain != [] && c !in chain
    ensures Distinct(Spliced(chain, c))
  {
    assert forall k :: 0 <= k < |chain| ==> chain[k] in chain;
  }

  lemma ChainInserts(blocks: seq<Block>, c: nat, chain: seq<nat>)
    requires Chain(blocks, chain) && chain != [] && 0 < c < |blocks| && c !in chain
    ensures Chain(Linked(Linked(blocks, c, blocks[chain[0]].worse), chain[0], c), Spliced(chain, c))
  {
    var next := Spliced(chain, c);
    SplicedDistinct(chain, c);
    forall k | 0 <= k < |next|
      ensures Linked(Linked(blocks, c, blocks[chain[0]].worse), chain[0], c)[next[k]].worse == NextIn(next, k) {
      SplicedLink(blocks, c, chain, next, k);
    }
  }

  lemma SplicedLink(blocks: seq<Block>, c: nat, chain: seq<nat>, next: seq<nat>, k: nat)
    requires Chain(blocks, chain) && chain != [] && 0 < c < |blocks|
    requires c !in chain && next == Spliced(chain, c) && k < |next|
    ensures next[k] < |blocks|
    ensures Linked(Linked(blocks, c, blocks[chain[0]].worse), chain[0], c)[next[k]].worse == NextIn(next, k)
  {
    var j := if k == 0 then 0 else k - 1;
    assert chain[j] in chain && blocks[chain[j]].worse == NextIn(chain, j);
    assert j > 0 ==> chain[j] != chain[0];
  }

  /** The chain for each closing place met so far: all forward intervals that close there, the widest first. */
  type Chains = map<nat, seq<nat>>

  ghost predicate ChainFor(given: seq<Block>, blocks: seq<Block>, chain: seq<nat>, end: nat) {
    && |chain| > 0 && |given| == |blocks| && Chain(blocks, chain)
    && (forall j :: j in chain <==> 0 < j < |given| && !given[j].isLoop && given[j].end == end)
    && (forall k :: 0 <= k < |chain| ==> given[chain[0]].start <= given[chain[k]].start)
  }

  ghost predicate ChainsOk(given: seq<Block>, blocks: seq<Block>, chains: Chains, cursor: nat) {
    && (forall e {:trigger ChainFor(given, blocks, chains[e], e)} :: e in chains ==>
          ChainFor(given, blocks, chains[e], e))
    && (forall j :: 0 < j < |given| && !given[j].isLoop ==> (j < cursor <==> given[j].end in chains))
  }

  /** The interval stands for its closing place: it is a loop or heads a chain. */
  ghost predicate Heads(given: seq<Block>, chains: Chains, j: nat)
    requires j < |given|
  {
    given[j].isLoop || (given[j].end in chains && |chains[given[j].end]| > 0 && chains[given[j].end][0] == j)
  }

  ghost predicate KeptAre(given: seq<Block>, s: Sweep, chains: Chains, cursor: nat) {
    forall j :: j in s.stack || j in s.order <==> 0 < j < cursor && j < |given| && Heads(given, chains, j)
  }

  /** Links change in the group only, so the chains of other groups stay. */
  lemma ChainSurvives(given: seq<Block>, blocks: seq<Block>, blocks': seq<Block>, chain: seq<nat>, end: nat)
    requires ChainFor(given, blocks, chain, end) && |blocks'| == |blocks|
    requires forall j :: 0 < j < |given| && given[j].end == end ==> blocks'[j].worse == blocks[j].worse
    ensures ChainFor(given, blocks', chain, end)
  {
    forall k | 0 <= k < |chain| ensures blocks'[chain[k]].worse == NextIn(chain, k) {
      assert chain[k] in chain;
    }
  }

  /** Between two groups: everything before the cursor closes at i or later, everything else earlier. */
  predicate SplitAt(given: seq<Block>, cursor: nat, i: nat) {
    && 0 < cursor <= |given| && (forall j :: 0 < j < cursor ==> given[j].end >= i)
    && (forall j :: cursor <= j < |given| ==> given[j].end < i)
  }

  lemma SplitAtFront(given: seq<Block>, cursor: nat)
    requires SplitAt(given, cursor, 0)
    ensures cursor == |given|
  {
    assert cursor < |given| ==> given[cursor].end < 0;
  }

  lemma GroupIsChain(given: seq<Block>, before: seq<Block>, blocks: seq<Block>, s: Sweep, chains: Chains, from: nat,
                     to: nat, i: nat, chain: seq<nat>)
    requires |before| == |given| == |blocks| && Moved(given, Sweep(blocks, s.stack, s.order))
    requires SplitAt(given, from, i + 1) && SplitAt(given, to, i) && from <= to
    requires ChainsOk(given, before, chains, from) && Group(blocks, from, to, chain)
    requires forall j :: 0 < j < from ==> blocks[j].worse == before[j].worse
    requires forall j :: from <= j < |given| ==> j !in s.order
    ensures ChainsOk(given, blocks, if chain == [] then chains else chains[i := chain], to)
  {
    var all := if chain == [] then chains else chains[i := chain];
    forall j | from <= j < to
      ensures blocks[j].isLoop == given[j].isLoop && blocks[j].end == given[j].end == i
      ensures blocks[j].start == given[j].start {
      assert MovedAt(given[j], blocks[j]);
    }
    assert forall k :: 0 <= k < |chain| ==> chain[k] in chain;
    forall e | e in chains ensures e > i && ChainFor(given, blocks, chains[e], e) {
      assert ChainFor(given, before, chains[e], e);
      assert chains[e][0] in chains[e];
      ChainSurvives(given, before, blocks, chains[e], e);
    }
    forall e | e in all ensures ChainFor(given, blocks, all[e], e) {}
    forall j | from <= j < to && !given[j].isLoop ensures i in all {
      assert j in chain;
    }
  }

  // ---- one place of the sweep ----

  /** Only the links differ. */
  predicate SameButLinks(a: seq<Block>, b: seq<Block>) {
    |a| == |b| && forall j :: 0 <= j < |a| ==> b[j] == a[j].(worse := b[j].worse)
  }

  lemma LaminarIgnoresLinks(s: Sweep, blocks: seq<Block>)
    requires Placed(s) && Laminar(s) && SameButLinks(s.blocks, blocks)
    ensures Placed(s.(blocks := blocks)) && Laminar(s.(blocks := blocks))
  {
    forall p | 0 <= p < |s.order|
      ensures blocks[s.order[p]] == s.blocks[s.order[p]].(worse := blocks[s.order[p]].worse) {}
    forall p | 0 <= p < |s.stack|
      ensures blocks[s.stack[p]] == s.blocks[s.stack[p]].(worse := blocks[s.stack[p]].worse) {}
  }

  /** Links do not matter to nesting. */
  lemma GoodIgnoresLinks(given: seq<Block>, s: Sweep, blocks: seq<Block>, lo: nat, hi: nat)
    requires Good(given, s, lo, hi) && SameButLinks(s.blocks, blocks)
    ensures Good(given, s.(blocks := blocks), lo, hi)
  {
    LaminarIgnoresLinks(s, blocks);
  }

  lemma GoodLower(given: seq<Block>, s: Sweep, lo: nat, hi: nat, lo': nat, hi': nat)
    requires Good(given, s, lo, hi) && lo' <= lo && hi' <= hi
    ensures Good(given, s, lo', hi')
  {
  }

  /** The loop that closes in the range, or 0. */
  ghost predicate LoopIn(blocks: seq<Block>, from: nat, to: nat, loop: nat) {
    && from <= to <= |blocks| && (loop != 0 ==> from <= loop < to && blocks[loop].isLoop)
    && (forall j :: from <= j < to && blocks[j].isLoop ==> j == loop)
  }

  /** Only the links of the range have changed. */
  ghost predicate OnlyLinks(before: seq<Block>, after: seq<Block>, from: nat, to: nat) {
    && |after| == |before| && (forall j :: 0 <= j < |after| ==> after[j] == before[j].(worse := after[j].worse))
    && (forall j :: 0 <= j < |after| && !(from <= j < to) ==> after[j] == before[j])
  }

  function FirstOf(chain: seq<nat>): nat {
    if chain == [] then 0 else chain[0]
  }

  function Extended(chains: Chains, i: nat, chain: seq<nat>): Chains {
    if chain == [] then chains else chains[i := chain]
  }

  lemma KeptGrows(given: seq<Block>, s: Sweep, s': Sweep, chains: Chains, from: nat, to: nat, i: nat, chain: seq<nat>,
                  loop: nat)
    requires KeptAre(given, s, chains, from) && SplitAt(given, from, i + 1) && SplitAt(given, to, i) && from <= to
    requires LoopIn(given, from, to, loop)
    requires (forall j :: j in chain ==> from <= j < to && !given[j].isLoop) && i !in chains
    requires forall j :: j in s'.stack || j in s'.order <==>
      j in s.stack || j in s.order || (j != 0 && (j == FirstOf(chain) || j == loop))
    ensures KeptAre(given, s', Extended(chains, i, chain), to)
  {
    var all := Extended(chains, i, chain);
    assert chain != [] ==> chain[0] in chain;
    forall j | 0 < j < |given| ensures j < from ==> (Heads(given, all, j) <==> Heads(given, chains, j)) {}
    forall j | from <= j < to
      ensures given[j].end == i && (Heads(given, all, j) <==> j == loop || (chain != [] && j == chain[0])) {}
  }

  /** Every interval before the cursor leaves through the head of its chain, a loop through itself; when jumps share
      an origin, one of them speaks for all. */
  ghost predicate Marked(given: seq<Block>, chains: Chains, breaks: map<nat, nat>, cursor: nat) {
    MarkedOn(given, chains, breaks, SweptBefore(cursor))
  }

  predicate PassedBy(cursor: nat, j: nat) { 0 < j < cursor }

  function SweptBefore(cursor: nat): set<nat> { set j | 0 < j < cursor && PassedBy(cursor, j) }

  ghost predicate MarkedOn(given: seq<Block>, chains: Chains, breaks: map<nat, nat>, part: set<nat>) {
    && (forall j {:trigger MarkedIn(given, chains, breaks, part, j)} :: j in part && j < |given| ==>
          MarkedIn(given, chains, breaks, part, j))
    && (forall o :: o in breaks ==> OriginOf(given, part, o))
  }

  ghost predicate MarkedIn(given: seq<Block>, chains: Chains, breaks: map<nat, nat>, part: set<nat>, j: nat) {
    exists k :: k in part && MarkedAs(given, chains, breaks, j, k)
  }

  /** j leaves as k with the same origin does. */
  ghost predicate MarkedAs(given: seq<Block>, chains: Chains, breaks: map<nat, nat>, j: nat, k: nat) {
    && j < |given| && k < |given| && given[k].origin == given[j].origin
    && given[j].origin in breaks && breaks[given[j].origin] == HeadOf(given, chains, k)
  }

  ghost function HeadOf(given: seq<Block>, chains: Chains, j: nat): nat
    requires j < |given|
  {
    if given[j].isLoop then j else if given[j].end in chains then FirstOf(chains[given[j].end]) else 0
  }

  ghost predicate MarksFor(given: seq<Block>, breaks: map<nat, nat>, breaks': map<nat, nat>, members: set<nat>,
                           b: nat) {
    && (forall o :: o in breaks && (forall j :: j in members && j < |given| ==> given[j].origin != o) ==>
          o in breaks' && breaks'[o] == breaks[o])
    && (forall j :: j in members && j < |given| ==> given[j].origin in breaks' && breaks'[given[j].origin] == b)
    && (forall o :: o in breaks' && o !in breaks ==> OriginOf(given, members, o))
  }

  /** Some of the jumps starts at o. */
  ghost predicate OriginOf(given: seq<Block>, part: set<nat>, o: nat) {
    exists j :: j in part && j < |given| && given[j].origin == o
  }

  /** Directing some intervals to their head takes over the origins they share with others. */
  lemma MarksGrow(given: seq<Block>, chains: Chains, breaks: map<nat, nat>, breaks': map<nat, nat>, part: set<nat>,
                  members: set<nat>, b: nat)
    requires MarkedOn(given, chains, breaks, part) && MarksFor(given, breaks, breaks', members, b)
    requires forall j :: j in members && j < |given| ==> HeadOf(given, chains, j) == b
    ensures MarkedOn(given, chains, breaks', part + members)
  {
    forall j | j in part + members && j < |given| ensures MarkedIn(given, chains, breaks', part + members, j) {
      if m :| m in members && m < |given| && given[m].origin == given[j].origin {
        assert MarkedAs(given, chains, breaks', j, m);
      } else {
        assert MarkedIn(given, chains, breaks, part, j);
        var k :| k in part && MarkedAs(given, chains, breaks, j, k);
        assert MarkedAs(given, chains, breaks', j, k);
      }
    }
    forall o | o in breaks' ensures OriginOf(given, part + members, o) {
      if o in breaks {
        var j :| j in part && j < |given| && given[j].origin == o;
      }
    }
  }

  /** A new chain does not concern the intervals that close later. */
  lemma MarkedKeeps(given: seq<Block>, chains: Chains, i: nat, chain: seq<nat>, from: nat, breaks: map<nat, nat>)
    requires Marked(given, chains, breaks, from) && i !in chains && SplitAt(given, from, i + 1)
    ensures Marked(given, Extended(chains, i, chain), breaks, from)
  {
    var all, part := Extended(chains, i, chain), SweptBefore(from);
    forall j | j in part && j < |given| ensures MarkedIn(given, all, breaks, part, j) {
      assert MarkedIn(given, chains, breaks, part, j);
      var k :| k in part && MarkedAs(given, chains, breaks, j, k);
      assert HeadOf(given, all, k) == HeadOf(given, chains, k);
      assert MarkedAs(given, all, breaks, j, k);
    }
  }

  function Members(chain: seq<nat>): set<nat> { set j | j in chain }

  // ---- the sweep ----

  /** Between two places of the sweep. */
  ghost predicate Between(given: seq<Block>, s: Sweep, chains: Chains, cursor: nat, i: nat) {
    && Good(given, s, i, i) && Tight(given, s, i) && SplitAt(given, cursor, i)
    && ChainsOk(given, s.blocks, chains, cursor) && KeptAre(given, s, chains, cursor)
    && (forall j :: cursor <= j < |given| ==> s.blocks[j] == given[j])
  }

  /** The open intervals that open here are finished. */
  ghost predicate ClosedAt(given: seq<Block>, s: Sweep, chains: Chains, cursor: nat, i: nat) {
    && Good(given, s, i, i) && Tight(given, s, i)
    && ChainsOk(given, s.blocks, chains, cursor) && KeptAre(given, s, chains, cursor)
    && (forall j :: cursor <= j < |given| ==> s.blocks[j] == given[j])
  }

  /** While intervals are being finished at i. */
  ghost predicate Closing(given: seq<Block>, s: Sweep, chains: Chains, cursor: nat, i: nat) {
    && Good(given, s, i + 1, i) && Tight(given, s, i + 1)
    && ChainsOk(given, s.blocks, chains, cursor) && KeptAre(given, s, chains, cursor)
    && (forall j :: cursor <= j < |given| ==> s.blocks[j] == given[j])
  }

  lemma StartClosing(given: seq<Block>, s: Sweep, chains: Chains, cursor: nat, i: nat)
    requires Between(given, s, chains, cursor, i + 1)
    ensures Closing(given, s, chains, cursor, i)
  {
    GoodLower(given, s, i + 1, i + 1, i + 1, i);
  }

  lemma EndClosing(given: seq<Block>, s: Sweep, chains: Chains, cursor: nat, i: nat)
    requires Closing(given, s, chains, cursor, i)
    requires s.stack != [] ==> s.blocks[s.stack[|s.stack| - 1]].start < i
    ensures ClosedAt(given, s, chains, cursor, i)
  {
    CloseKeepsTight(given, s, i);
    GoodLower(given, s, i + 1, i, i, i);
  }

  lemma PopKeepsClosing(given: seq<Block>, s: Sweep, chains: Chains, cursor: nat, i: nat)
    requires Closing(given, s, chains, cursor, i) && |s.stack| > 0 && s.blocks[s.stack[|s.stack| - 1]].start >= i
    ensures Closing(given, Popped(s, i), chains, cursor, i)
  {
    PopKeepsGood(given, s, i + 1, i);
    PopKeepsTight(given, s, i);
    PopKeepsRest(given, s, chains, cursor, i);
  }

  class Nesting {
    /** How many basic blocks there are. */
    const n: nat
    var blocks: seq<Block>
    var stack: seq<nat>
    var order: seq<nat>
    var cursor: nat
    /** For each basic block, the interval that its jump leaves. */
    var breaks: map<nat, nat>

    ghost function State(): Sweep
      reads this
    {
      Sweep(blocks, stack, order)
    }

    constructor (n: nat, blocks: seq<Block>)
      ensures this.n == n && this.blocks == blocks && stack == [] && order == [] && cursor == 1 && breaks == map[]
    {
      this.n, this.blocks := n, blocks;
      stack, order, cursor, breaks := [], [], 1, map[];
    }

    /** Nests all intervals. */
    method Nest() returns (ghost chains: Chains)
      requires WellFormed(blocks, n) && stack == [] && order == [] && cursor == 1 && breaks == map[]
      modifies this
      ensures stack == [] && Placed(State()) && Moved(old(blocks), State())
      ensures forall p, q :: 0 <= p < q < |order| ==> Nested(blocks[order[p]], blocks[order[q]])
      ensures ChainsOk(old(blocks), blocks, chains, |blocks|) && KeptAre(old(blocks), State(), chains, |blocks|)
      ensures Marked(old(blocks), chains, breaks, |blocks|) && LatestChoice(old(blocks), State())
    {
      chains := map[];
      ghost var given := blocks;
      for i := n downto 0
        invariant Between(given, State(), chains, cursor, i) && (i == 0 ==> stack == [])
        invariant Marked(given, chains, breaks, cursor)
      {
        chains := SweepPlace(i, given, chains);
      }
      SplitAtFront(given, cursor);
      FinalIsLatest(given, State());
    }

    method SweepPlace(i: nat, ghost given: seq<Block>, ghost chains: Chains) returns (ghost chains': Chains)
      requires WellFormed(given, n) && Between(given, State(), chains, cursor, i + 1)
      requires Marked(given, chains, breaks, cursor)
      modifies this
      ensures Between(given, State(), chains', cursor, i) && (i == 0 ==> stack == [])
      ensures Marked(given, chains', breaks, cursor)
    {
      CloseOpen(i, given, chains);
      chains' := SweepGroup(i, given, chains);
    }

    method SweepGroup(i: nat, ghost given: seq<Block>, ghost chains: Chains) returns (ghost chains': Chains)
      requires WellFormed(given, n) && ClosedAt(given, State(), chains, cursor, i) && SplitAt(given, cursor, i + 1)
      requires Marked(given, chains, breaks, cursor) && (i == 0 ==> stack == [])
      modifies this
      ensures Between(given, State(), chains', cursor, i) && (i == 0 ==> stack == [])
      ensures Marked(given, chains', breaks, cursor)
    {
      ghost var closed, from := State(), cursor;
      ghost var chain;
      var best, loop;
      best, loop, chain := GatherGroup(i, given, chains);
      ghost var gathered := State();
      PlaceGroup(i, best, loop, given, closed, chains, chain, from);
      chains' := Extended(chains, i, chain);
      SweptOne(given, closed, gathered, State(), chains, from, cursor, i, chain, best, loop, old(breaks), breaks);
    }

    /** Finishes the open intervals on top of the stack that open here or later. */
    method CloseOpen(i: nat, ghost given: seq<Block>, ghost chains: Chains)
      requires Between(given, State(), chains, cursor, i + 1)
      modifies this`blocks, this`stack, this`order
      ensures ClosedAt(given, State(), chains, cursor, i) && (i == 0 ==> stack == [])
    {
      StartClosing(given, State(), chains, cursor, i);
      while |stack| > 0 && blocks[stack[|stack| - 1]].start >= i
        invariant Closing(given, State(), chains, cursor, i)
        decreases |stack|
      {
        Pop(i, given, chains);
      }
      EndClosing(given, State(), chains, cursor, i);
    }

    method Pop(i: nat, ghost given: seq<Block>, ghost chains: Chains)
      requires Closing(given, State(), chains, cursor, i)
      requires |stack| > 0 && blocks[stack[|stack| - 1]].start >= i
      modifies this`blocks, this`stack, this`order
      ensures Closing(given, State(), chains, cursor, i) && |stack| < |old(stack)|
    {
      PopKeepsClosing(given, State(), chains, cursor, i);
      FinishTop(i);
    }

    method FinishTop(i: nat)
      requires |stack| > 0 && stack[|stack| - 1] < |blocks|
      modifies this`blocks, this`stack, this`order
      ensures State() == Popped(old(State()), i) && |stack| < |old(stack)|
    {
      var idx := stack[|stack| - 1];
      stack := stack[..|stack| - 1];
      blocks := blocks[idx := blocks[idx].(start := i)];
      order := order + [idx];
    }

    /** Chains the forward intervals that close here, and finds the loop that does. */
    method GatherGroup(i: nat, ghost given: seq<Block>, ghost chains: Chains)
      returns (best: nat, loop: nat, ghost chain: seq<nat>)
      requires WellFormed(given, n) && SplitAt(given, cursor, i + 1)
      requires Good(given, State(), i, i) && Tight(given, State(), i)
      requires forall j :: cursor <= j < |given| ==> blocks[j] == given[j]
      modifies this`blocks, this`cursor
      ensures Grouped(given, old(State()), State(), old(cursor), cursor, i, chain, best, loop)
    {
      ghost var before, from := blocks, cursor;
      var bestStart := n;
      best, loop, chain := 0, 0, [];
      while cursor < |blocks| && blocks[cursor].end == i
        invariant Gathered(given, before, blocks, from, cursor, i, chain, best, loop)
        invariant bestStart == if chain == [] then n else blocks[best].start
        decreases |blocks| - cursor
      {
        best, bestStart, loop, chain := GatherOne(i, best, bestStart, loop, given, before, from, chain);
      }
      GatheredAll(given, before, blocks, n, from, cursor, i, chain, best, loop);
      GroupFound(given, old(State()), blocks, from, cursor, i, chain, best, loop);
    }

    method GatherOne(i: nat, best: nat, bestStart: nat, loop: nat, ghost given: seq<Block>, ghost before: seq<Block>,
                     ghost from: nat, ghost chain: seq<nat>)
      returns (best': nat, bestStart': nat, loop': nat, ghost chain': seq<nat>)
      requires WellFormed(given, n) && Gathered(given, before, blocks, from, cursor, i, chain, best, loop)
      requires bestStart == if chain == [] then n else blocks[best].start
      requires cursor < |blocks| && blocks[cursor].end == i
      modifies this`blocks, this`cursor
      ensures Gathered(given, before, blocks, from, cursor, i, chain', best', loop')
      ensures bestStart' == (if chain' == [] then n else blocks[best'].start) && cursor == old(cursor) + 1
    {
      best', bestStart', loop', chain' := best, bestStart, loop, chain;
      if blocks[cursor].isLoop {
        GatherLoop(given, before, blocks, n, from, cursor, i, chain, best, loop);
        loop' := cursor;
      } else if blocks[cursor].start <= bestStart {
        GatherWider(given, before, blocks, n, from, cursor, i, chain, best, loop);
        Link(cursor, best);
        chain' := [cursor] + chain;
        best' := cursor;
        bestStart' := blocks[cursor].start;
      } else {
        GatherNarrower(given, before, blocks, n, from, cursor, i, chain, best, loop);
        Link(cursor, blocks[best].worse);
        Link(best, cursor);
        chain' := Spliced(chain, cursor);
      }
      cursor := cursor + 1;
    }

    method Link(j: nat, worse: nat)
      requires j < |blocks|
      modifies this`blocks
      ensures blocks == Linked(old(blocks), j, worse)
    {
      blocks := blocks[j := blocks[j].(worse := worse)];
    }

    /** Opens the group's intervals, the wider one first, and directs the jumps of their members to them. */
    method PlaceGroup(i: nat, best: nat, loop: nat, ghost given: seq<Block>, ghost closed: Sweep, ghost chains: Chains,
                      ghost chain: seq<nat>, ghost from: nat)
      requires WellFormed(given, n) && Grouped(given, closed, State(), from, cursor, i, chain, best, loop)
      requires KeptAre(given, closed, chains, from) && (i == 0 ==> stack == [])
      modifies this`stack, this`order, this`breaks
      ensures Opened(given, old(State()), State(), i, best, loop) && (i == 0 ==> stack == [])
      ensures exists mid :: MarkedBoth(given, old(breaks), mid, breaks, chain, loop)
    {
      GroupIsReady(given, closed, State(), chains, n, from, cursor, i, chain, best, loop);
      ghost var mid;
      if blocks[best].start >= blocks[loop].start {
        mid := PlaceBoth(i, loop, best, given, LoopMembers(loop), chain);
      } else {
        mid := PlaceBoth(i, best, loop, given, chain, LoopMembers(loop));
      }
      assert MarkedBoth(given, old(breaks), mid, breaks, chain, loop);
    }

    /** Opens one after the other and directs the jumps of their chains to them. */
    method PlaceBoth(i: nat, first: nat, second: nat, ghost given: seq<Block>, ghost c1: seq<nat>, ghost c2: seq<nat>)
      returns (ghost mid: map<nat, nat>)
      requires Good(given, State(), i, i) && Tight(given, State(), i) && ReadyPair(given, State(), i, first, second)
      requires Chain(blocks, c1) && first == FirstOf(c1) && Chain(blocks, c2) && second == FirstOf(c2)
      requires i == 0 ==> stack == []
      modifies this`stack, this`order, this`breaks
      ensures Good(given, State(), i, i) && Tight(given, State(), i) && (i == 0 ==> stack == [])
      ensures forall j :: j in stack || j in order <==>
        j in old(stack) || j in old(order) || (j != 0 && (j == first || j == second))
      ensures MarkedInTurn(given, old(breaks), mid, breaks, c1, first, c2, second)
    {
      Place(i, first, given);
      Direct(first, c1, given);
      SecondIsReady(given, old(State()), State(), i, first, second);
      mid := breaks;
      Place(i, second, given);
      Direct(second, c2, given);
    }

    /** Follows the chain from b and directs the jump of each member to b. */
    method Direct(b: nat, ghost chain: seq<nat>, ghost given: seq<Block>)
      requires Chain(blocks, chain) && b == FirstOf(chain) && |given| == |blocks|
      requires forall j :: 0 <= j < |given| ==> SameShape(given[j], blocks[j])
      modifies this`breaks
      ensures MarksFor(given, old(breaks), breaks, Members(chain), b)
    {
      var w := b;
      ghost var k := 0;
      while w != 0
        invariant 0 <= k <= |chain| && w == NextFrom(chain, k)
        invariant MarksFor(blocks, old(breaks), breaks, Members(chain[..k]), b)
        decreases |chain| - k
      {
        assert blocks[chain[k]].worse == NextIn(chain, k);
        MarkOne(blocks, old(breaks), breaks, chain, k, b);
        breaks := breaks[blocks[w].origin := b];
        w := blocks[w].worse;
        k := k + 1;
      }
      assert chain[..|chain|] == chain;
      MarksTransfer(given, blocks, old(breaks), breaks, Members(chain), b);
    }

    method Place(i: nat, b: nat, ghost given: seq<Block>)
      requires Good(given, State(), i, i) && Tight(given, State(), i) && Admits(given, State(), i, b)
      requires i == 0 ==> stack == []
      modifies this`stack, this`order
      ensures Good(given, State(), i, i) && Tight(given, State(), i) && (i == 0 ==> stack == [])
      ensures forall j :: j in stack || j in order <==> j in old(stack) || j in old(order) || (j == b && b != 0)
      ensures stack == old(stack) || stack == old(stack) + [b]
    {
      if b == 0 { return; }
      if blocks[b].start == i {
        FinishKeepsGood(given, State(), i, b);
        FinishKeepsTight(given, State(), i, b);
        order := order + [b];
      } else {
        PushKeepsGood(given, State(), i, b);
        PushKeepsTight(given, State(), i, b);
        stack := stack + [b];
      }
    }
  }

  /** b may be opened at i: it stands nowhere yet, and what closes there too and is open is at least as wide. */
  ghost predicate Admits(given: seq<Block>, s: Sweep, i: nat, b: nat)
    requires Placed(s) && |given| == |s.blocks|
  {
    b != 0 ==>
      && New(s, b) && s.blocks[b].end == i == given[b].end && s.blocks[b].start == given[b].start <= i
      && forall p :: 0 <= p < |s.stack| && given[s.stack[p]].end == i ==> given[s.stack[p]].start <= given[b].start
  }

  /** Both may be opened at i, in this order. */
  ghost predicate ReadyPair(given: seq<Block>, s: Sweep, i: nat, first: nat, second: nat)
    requires Placed(s) && |given| == |s.blocks|
  {
    && Admits(given, s, i, first) && Admits(given, s, i, second)
    && (first != 0 && second != 0 ==> first != second && given[first].start <= given[second].start)
  }

  lemma SecondIsReady(given: seq<Block>, was: Sweep, s: Sweep, i: nat, first: nat, second: nat)
    requires Placed(was) && |given| == |was.blocks| && ReadyPair(given, was, i, first, second)
    requires Placed(s) && s.blocks == was.blocks && (s.stack == was.stack || s.stack == was.stack + [first])
    requires forall j :: j in s.stack || j in s.order <==>
      j in was.stack || j in was.order || (j == first && first != 0)
    ensures Admits(given, s, i, second)
  {
    if second != 0 {
      forall p | 0 <= p < |s.stack| && given[s.stack[p]].end == i
        ensures given[s.stack[p]].start <= given[second].start
      {
        if p < |was.stack| { assert s.stack[p] == was.stack[p]; } else { assert s.stack[p] == first && first != 0; }
      }
    }
  }

  /** What is open already closes later than the group. */
  lemma GroupIsReady(given: seq<Block>, closed: Sweep, s: Sweep, chains: Chains, n: nat, from: nat, to: nat, i: nat,
                     chain: seq<nat>, best: nat, loop: nat)
    requires WellFormed(given, n) && Grouped(given, closed, s, from, to, i, chain, best, loop)
    requires KeptAre(given, closed, chains, from)
    ensures best < |s.blocks| && loop < |s.blocks|
    ensures s.blocks[best].start >= s.blocks[loop].start ==> ReadyPair(given, s, i, loop, best)
    ensures s.blocks[best].start < s.blocks[loop].start ==> ReadyPair(given, s, i, best, loop)
    ensures Chain(s.blocks, LoopMembers(loop)) && FirstOf(LoopMembers(loop)) == loop
    ensures Chain(s.blocks, chain) && FirstOf(chain) == best
  {
    GroupIsNew(given, closed.blocks, s, chains, from, to, i, chain, best, loop);
    LoopChain(given, closed.blocks, s.blocks, n, from, to, i, chain, best, loop);
    forall p | 0 <= p < |s.stack| ensures given[s.stack[p]].end > i {
      assert s.stack[p] in closed.stack;
    }
    assert best != 0 ==> MovedAt(given[best], s.blocks[best]) && given[best].end == i;
    assert loop != 0 ==> MovedAt(given[loop], s.blocks[loop]) && given[loop].end == i;
  }

  /** In the course of gathering: the group so far, and the loop. */
  ghost predicate Gathered(given: seq<Block>, before: seq<Block>, blocks: seq<Block>, from: nat, cursor: nat, i: nat,
                           chain: seq<nat>, best: nat, loop: nat) {
    && |blocks| == |given| && OnlyLinks(before, blocks, from, cursor) && Group(blocks, from, cursor, chain)
    && best == FirstOf(chain) && LoopIn(given, from, cursor, loop)
    && (forall j :: from <= j < |given| ==> blocks[j] == given[j].(worse := blocks[j].worse))
    && (forall j :: from <= j < cursor ==> given[j].end == i && (given[j].isLoop ==> blocks[j].worse == 0))
    && (forall j :: cursor <= j < |given| ==> blocks[j].worse == 0)
  }

  /** The group is complete; nothing has been opened yet. */
  ghost predicate Grouped(given: seq<Block>, closed: Sweep, gathered: Sweep, from: nat, to: nat, i: nat,
                          chain: seq<nat>, best: nat, loop: nat) {
    && Good(given, gathered, i, i) && Tight(given, gathered, i) && SplitAt(given, from, i + 1) && SplitAt(given, to, i)
    && gathered.stack == closed.stack && gathered.order == closed.order
    && Gathered(given, closed.blocks, gathered.blocks, from, to, i, chain, best, loop)
  }

  lemma GroupFound(given: seq<Block>, closed: Sweep, blocks: seq<Block>, from: nat, to: nat, i: nat, chain: seq<nat>,
                   best: nat, loop: nat)
    requires Good(given, closed, i, i) && Tight(given, closed, i)
    requires SplitAt(given, from, i + 1) && SplitAt(given, to, i)
    requires Gathered(given, closed.blocks, blocks, from, to, i, chain, best, loop)
    ensures Grouped(given, closed, closed.(blocks := blocks), from, to, i, chain, best, loop)
  {
    GoodIgnoresLinks(given, closed, blocks, i, i);
    TightIgnoresLinks(given, closed, blocks, i);
  }

  /** The first of the group and the loop have been opened, and nothing else. */
  ghost predicate Opened(given: seq<Block>, gathered: Sweep, s: Sweep, i: nat, best: nat, loop: nat) {
    && Good(given, s, i, i) && Tight(given, s, i) && s.blocks == gathered.blocks
    && forall j :: j in s.stack || j in s.order <==>
         j in gathered.stack || j in gathered.order || (j != 0 && (j == best || j == loop))
  }

  lemma GatherLoop(given: seq<Block>, before: seq<Block>, blocks: seq<Block>, n: nat, from: nat, c: nat, i: nat,
                   chain: seq<nat>, best: nat, loop: nat)
    requires WellFormed(given, n) && Gathered(given, before, blocks, from, c, i, chain, best, loop)
    requires c < |blocks| && blocks[c].end == i && blocks[c].isLoop
    ensures Gathered(given, before, blocks, from, c + 1, i, chain, best, c)
  {
    GroupSkipsLoop(blocks, from, c, chain);
  }

  /** Links have changed in the range up to c, which the chain now covers. */
  lemma GatherMore(given: seq<Block>, before: seq<Block>, blocks: seq<Block>, next: seq<Block>, from: nat, c: nat,
                   i: nat, chain: seq<nat>, chain': seq<nat>, best: nat, loop: nat)
    requires Gathered(given, before, blocks, from, c, i, chain, best, loop)
    requires c < |blocks| && given[c].end == i && !given[c].isLoop
    requires OnlyLinks(blocks, next, from, c + 1) && Group(next, from, c + 1, chain')
    requires forall j :: from <= j < c && given[j].isLoop ==> next[j] == blocks[j]
    ensures Gathered(given, before, next, from, c + 1, i, chain', FirstOf(chain'), loop)
  {
    forall j | 0 <= j < |next| && !(from <= j < c + 1) ensures next[j] == before[j] {
      assert next[j] == blocks[j];
    }
  }

  lemma GatherWider(given: seq<Block>, before: seq<Block>, blocks: seq<Block>, n: nat, from: nat, c: nat, i: nat,
                    chain: seq<nat>, best: nat, loop: nat)
    requires WellFormed(given, n) && Gathered(given, before, blocks, from, c, i, chain, best, loop)
    requires c < |blocks| && blocks[c].end == i && !blocks[c].isLoop
    requires chain != [] ==> blocks[c].start <= blocks[best].start
    ensures Gathered(given, before, Linked(blocks, c, best), from, c + 1, i, [c] + chain, c, loop)
  {
    GroupPrepends(blocks, from, c, chain);
    GatherMore(given, before, blocks, Linked(blocks, c, best), from, c, i, chain, [c] + chain, best, loop);
  }

  lemma GatherNarrower(given: seq<Block>, before: seq<Block>, blocks: seq<Block>, n: nat, from: nat, c: nat, i: nat,
                       chain: seq<nat>, best: nat, loop: nat)
    requires WellFormed(given, n) && Gathered(given, before, blocks, from, c, i, chain, best, loop)
    requires c < |blocks| && blocks[c].end == i && !blocks[c].isLoop
    requires blocks[c].start > if chain == [] then n else blocks[best].start
    ensures chain != [] && best < |blocks| && best != c
    ensures Gathered(given, before, Linked(Linked(blocks, c, blocks[best].worse), best, c), from, c + 1, i,
      Spliced(chain, c), best, loop)
  {
    assert EdgeOk(given[c], n);
    ChainHead(blocks, from, c, chain);
    assert chain[0] in chain;
    GroupInserts(blocks, from, c, chain);
    var next := Linked(Linked(blocks, c, blocks[best].worse), best, c);
    GatherMore(given, before, blocks, next, from, c, i, chain, Spliced(chain, c), best, loop);
  }

  lemma GatheredAll(given: seq<Block>, before: seq<Block>, blocks: seq<Block>, n: nat, from: nat, c: nat, i: nat,
                    chain: seq<nat>, best: nat, loop: nat)
    requires WellFormed(given, n) && Gathered(given, before, blocks, from, c, i, chain, best, loop)
    requires SplitAt(given, from, i + 1)
    requires c == |given| || given[c].end != i
    ensures SplitAt(given, c, i)
  {
    if c < |given| {
      assert given[c].end < i + 1;
    }
  }

  /** What the sweep has placed so far closes later than this group. */
  lemma GroupIsNew(given: seq<Block>, before: seq<Block>, s: Sweep, chains: Chains, from: nat, to: nat, i: nat,
                   chain: seq<nat>, best: nat, loop: nat)
    requires Gathered(given, before, s.blocks, from, to, i, chain, best, loop)
    requires KeptAre(given, s, chains, from) && from > 0
    ensures best != 0 ==> New(s, best) && s.blocks[best].end == i && from <= best < to && !given[best].isLoop
    ensures loop != 0 ==> New(s, loop) && s.blocks[loop].end == i && given[loop].isLoop
  {
    assert chain != [] ==> chain[0] in chain;
  }

  function LoopMembers(loop: nat): seq<nat> { if loop == 0 then [] else [loop] }

  lemma LoopChain(given: seq<Block>, before: seq<Block>, blocks: seq<Block>, n: nat, from: nat, to: nat, i: nat,
                  chain: seq<nat>, best: nat, loop: nat)
    requires WellFormed(given, n) && Gathered(given, before, blocks, from, to, i, chain, best, loop) && from > 0
    ensures Chain(blocks, LoopMembers(loop)) && FirstOf(LoopMembers(loop)) == loop && best < |blocks| && loop < |blocks|
    ensures (best != 0 ==> blocks[best].start <= i) && (loop != 0 ==> blocks[loop].start <= i)
  {
    assert chain != [] ==> chain[0] in chain;
    assert best != 0 ==> EdgeOk(given[best], n);
    assert loop != 0 ==> EdgeOk(given[loop], n);
  }

  ghost predicate MarkedBoth(blocks: seq<Block>, b0: map<nat, nat>, b1: map<nat, nat>, b2: map<nat, nat>,
                             chain: seq<nat>, loop: nat) {
    || MarkedInTurn(blocks, b0, b1, b2, chain, FirstOf(chain), LoopMembers(loop), loop)
    || MarkedInTurn(blocks, b0, b1, b2, LoopMembers(loop), loop, chain, FirstOf(chain))
  }

  ghost predicate MarkedInTurn(blocks: seq<Block>, b0: map<nat, nat>, b1: map<nat, nat>, b2: map<nat, nat>,
                               c1: seq<nat>, first: nat, c2: seq<nat>, second: nat) {
    MarksFor(blocks, b0, b1, Members(c1), first) && MarksFor(blocks, b1, b2, Members(c2), second)
  }

  function NextFrom(chain: seq<nat>, k: nat): nat {
    if k < |chain| then chain[k] else 0
  }

  lemma MarkOne(blocks: seq<Block>, breaks: map<nat, nat>, breaks': map<nat, nat>, chain: seq<nat>, k: nat, b: nat)
    requires Chain(blocks, chain) && k < |chain| && MarksFor(blocks, breaks, breaks', Members(chain[..k]), b)
    ensures MarksFor(blocks, breaks, breaks'[blocks[chain[k]].origin := b], Members(chain[..k + 1]), b)
  {
    assert chain[..k + 1] == chain[..k] + [chain[k]];
    assert Members(chain[..k + 1]) == Members(chain[..k]) + {chain[k]};
    MarkMember(blocks, breaks, breaks', Members(chain[..k]), chain[k], b);
  }

  lemma MarkMember(blocks: seq<Block>, breaks: map<nat, nat>, breaks': map<nat, nat>, members: set<nat>, m: nat, b: nat)
    requires MarksFor(blocks, breaks, breaks', members, b) && m < |blocks|
    ensures MarksFor(blocks, breaks, breaks'[blocks[m].origin := b], members + {m}, b)
  {
    var all := members + {m};
    assert m in all;
    forall o | OriginOf(blocks, members, o) ensures OriginOf(blocks, all, o) {
      var j :| j in members && j < |blocks| && blocks[j].origin == o;
      assert j in all;
    }
  }

  lemma PlaceSwept(given: seq<Block>, closed: Sweep, gathered: Sweep, s: Sweep, chains: Chains, from: nat, to: nat,
                   i: nat, chain: seq<nat>, loop: nat)
    requires Good(given, s, i, i) && Tight(given, s, i) && s.blocks == gathered.blocks
    requires SplitAt(given, from, i + 1) && SplitAt(given, to, i)
    requires gathered.stack == closed.stack && gathered.order == closed.order
    requires Gathered(given, closed.blocks, gathered.blocks, from, to, i, chain, FirstOf(chain), loop)
    requires ChainsOk(given, closed.blocks, chains, from) && KeptAre(given, closed, chains, from)
    requires forall j :: j in s.stack || j in s.order <==>
      j in closed.stack || j in closed.order || (j != 0 && (j == FirstOf(chain) || j == loop))
    requires Good(given, gathered, i, i) && forall j :: to <= j < |given| ==> gathered.blocks[j] == given[j]
    ensures Between(given, s, Extended(chains, i, chain), to, i)
  {
    ChainsEndLater(given, closed.blocks, chains, from, i);
    GroupIsChain(given, closed.blocks, s.blocks, gathered, chains, from, to, i, chain);
    KeptGrows(given, closed, s, chains, from, to, i, chain, loop);
  }

  lemma ChainsEndLater(given: seq<Block>, blocks: seq<Block>, chains: Chains, from: nat, i: nat)
    requires ChainsOk(given, blocks, chains, from) && SplitAt(given, from, i + 1)
    ensures forall e :: e in chains ==> e > i
  {
    forall e | e in chains ensures e > i {
      assert ChainFor(given, blocks, chains[e], e);
      assert chains[e][0] in chains[e];
    }
  }

  /** The new chain and the loop have the heads that their members are directed to. */
  lemma GroupHeads(given: seq<Block>, chains: Chains, i: nat, chain: seq<nat>, loop: nat, from: nat, to: nat)
    requires SplitAt(given, from, i + 1) && LoopIn(given, from, to, loop) && i !in chains
    requires forall j :: j in chain <==> from <= j < to && !given[j].isLoop
    requires forall j :: from <= j < to ==> given[j].end == i
    ensures var all := Extended(chains, i, chain);
      && (forall j :: j in Members(chain) && j < |given| ==> HeadOf(given, all, j) == FirstOf(chain))
      && (forall j :: j in Members(LoopMembers(loop)) && j < |given| ==> HeadOf(given, all, j) == loop)
    ensures SweptBefore(from) + Members(chain) + Members(LoopMembers(loop)) == SweptBefore(to)
    ensures SweptBefore(from) + Members(LoopMembers(loop)) + Members(chain) == SweptBefore(to)
  {
    assert forall j :: j in Members(chain) ==> chain != [];
    assert forall j :: j in Members(LoopMembers(loop)) <==> j == loop && loop != 0;
  }

  lemma MarksSwept(given: seq<Block>, chains: Chains, i: nat, chain: seq<nat>, loop: nat, from: nat, to: nat,
                   b0: map<nat, nat>, b2: map<nat, nat>)
    requires SplitAt(given, from, i + 1) && SplitAt(given, to, i) && from <= to && i !in chains
    requires LoopIn(given, from, to, loop) && (forall j :: j in chain <==> from <= j < to && !given[j].isLoop)
    requires (exists mid :: MarkedBoth(given, b0, mid, b2, chain, loop)) && Marked(given, chains, b0, from)
    ensures Marked(given, Extended(chains, i, chain), b2, to)
  {
    var mid :| MarkedBoth(given, b0, mid, b2, chain, loop);
    var all, part, some, own :=
      Extended(chains, i, chain), SweptBefore(from), Members(chain), Members(LoopMembers(loop));
    MarkedKeeps(given, chains, i, chain, from, b0);
    GroupHeads(given, chains, i, chain, loop, from, to);
    if MarksFor(given, b0, mid, some, FirstOf(chain)) && MarksFor(given, mid, b2, own, loop) {
      MarksGrow(given, all, b0, mid, part, some, FirstOf(chain));
      MarksGrow(given, all, mid, b2, part + some, own, loop);
    } else {
      MarksGrow(given, all, b0, mid, part, own, loop);
      MarksGrow(given, all, mid, b2, part + own, some, FirstOf(chain));
    }
  }

  /** Which jumps are directed where depends on origins only. */
  lemma MarksTransfer(given: seq<Block>, blocks: seq<Block>, b: map<nat, nat>, b': map<nat, nat>, members: set<nat>,
                      head: nat)
    requires |blocks| == |given| && forall j :: 0 <= j < |given| ==> SameShape(given[j], blocks[j])
    requires MarksFor(blocks, b, b', members, head)
    ensures MarksFor(given, b, b', members, head)
  {
    forall o | OriginOf(blocks, members, o) ensures OriginOf(given, members, o) {
      var j :| j in members && j < |blocks| && blocks[j].origin == o;
    }
  }

  lemma SweptOne(given: seq<Block>, closed: Sweep, gathered: Sweep, s: Sweep, chains: Chains, from: nat, to: nat,
                 i: nat,
                 chain: seq<nat>, best: nat, loop: nat, b0: map<nat, nat>, b2: map<nat, nat>)
    requires ClosedAt(given, closed, chains, from, i)
    requires Grouped(given, closed, gathered, from, to, i, chain, best, loop)
    requires Opened(given, gathered, s, i, best, loop) && Marked(given, chains, b0, from)
    requires exists mid :: MarkedBoth(given, b0, mid, b2, chain, loop)
    ensures Between(given, s, Extended(chains, i, chain), to, i)
    ensures Marked(given, Extended(chains, i, chain), b2, to)
  {
    PlaceSwept(given, closed, gathered, s, chains, from, to, i, chain, loop);
    ChainsEndLater(given, closed.blocks, chains, from, i);
    MarksSwept(given, chains, i, chain, loop, from, to, b0, b2);
  }

  lemma PopKeepsRest(given: seq<Block>, s: Sweep, chains: Chains, cursor: nat, i: nat)
    requires Placed(s) && |s.stack| > 0 && |s.blocks| == |given|
    requires ChainsOk(given, s.blocks, chains, cursor) && KeptAre(given, s, chains, cursor)
    ensures ChainsOk(given, Popped(s, i).blocks, chains, cursor) && KeptAre(given, Popped(s, i), chains, cursor)
    ensures s.stack[|s.stack| - 1] < cursor
  {
    var t, top := Popped(s, i), s.stack[|s.stack| - 1];
    assert s.stack == s.stack[..|s.stack| - 1] + [top];
    assert top in s.stack;
    forall e | e in chains ensures ChainFor(given, t.blocks, chains[e], e) {
      assert ChainFor(given, s.blocks, chains[e], e);
      ChainSurvives(given, s.blocks, t.blocks, chains[e], e);
    }
    forall j ensures j in t.stack || j in t.order <==> j in s.stack || j in s.order {}
  }

  // ---- what the result means ----

  /** Any two kept intervals are disjoint or nested, and the kept intervals open in the reverse of their order. */
  lemma KeptAreLaminar(s: Sweep, a: nat, b: nat)
    requires Placed(s) && (forall p, q :: 0 <= p < q < |s.order| ==> Nested(s.blocks[s.order[p]], s.blocks[s.order[q]]))
    requires a < b < |s.order|
    ensures var x, y := s.blocks[s.order[a]], s.blocks[s.order[b]];
      && (x.start >= y.end || y.start >= x.end || (x.start >= y.start && y.end >= x.end)
            || (x.start <= y.start && y.end <= x.end))
      && (y.start <= y.end ==> y.start <= x.start)
  {
    assert Nested(s.blocks[s.order[a]], s.blocks[s.order[b]]);
  }

  /** The jump of every interval leaves a kept interval of its kind that closes where the jump goes and that opens
      no later than the jump; of jumps with one origin this can be said of one. */
  lemma JumpLeavesEnclosing(given: seq<Block>, s: Sweep, chains: Chains, breaks: map<nat, nat>, j: nat) returns (k: nat)
    requires Moved(given, s) && ChainsOk(given, s.blocks, chains, |given|) && KeptAre(given, s, chains, |given|)
    requires Marked(given, chains, breaks, |given|) && 0 < j < |given|
    ensures 0 < k < |given| && given[k].origin == given[j].origin && given[j].origin in breaks
    ensures (forall i :: 0 < i < |given| && given[i].origin == given[j].origin ==> i == j) ==> k == j
    ensures var b := breaks[given[j].origin];
      b in s.order + s.stack && b < |s.blocks| && s.blocks[b].isLoop == given[k].isLoop
      && s.blocks[b].end == given[k].end && s.blocks[b].start <= given[k].start
  {
    assert MarkedIn(given, chains, breaks, SweptBefore(|given|), j);
    k :| k in SweptBefore(|given|) && MarkedAs(given, chains, breaks, j, k);
    HeadEncloses(given, s, chains, k);
  }

  lemma HeadEncloses(given: seq<Block>, s: Sweep, chains: Chains, k: nat)
    requires Moved(given, s) && ChainsOk(given, s.blocks, chains, |given|)
    requires KeptAre(given, s, chains, |given|) && 0 < k < |given|
    ensures var b := HeadOf(given, chains, k);
      b in s.order + s.stack && b < |s.blocks| && s.blocks[b].isLoop == given[k].isLoop
      && s.blocks[b].end == given[k].end && s.blocks[b].start <= given[k].start
  {
    var b := HeadOf(given, chains, k);
    if !given[k].isLoop {
      var chain := chains[given[k].end];
      assert ChainFor(given, s.blocks, chain, given[k].end);
      assert k in chain && chain[0] in chain;
      var i :| 0 <= i < |chain| && chain[i] == k;
    }
    assert Heads(given, chains, b) && MovedAt(given[b], s.blocks[b]);
  }
}
