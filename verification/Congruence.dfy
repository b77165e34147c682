/**
  When may a node be replaced? The least congruence that identifies the replacement with the target says
  which nodes can become equal; it is the weakest of the meanings under which the question can be asked.
 */
module Congruence {
  import opened GraphNodes
  import opened Interning
  import opened Subsumption

  // ---- the least congruence ----

  type Relation = (Id, Id) -> bool

  /** Interned nodes of the same kind with related inputs. */
  ghost predicate RelatedContents(env: Env, nodes: Nodes, r: Relation, a: Id, b: Id) {
    && a in nodes && b in nodes && Interned(env, nodes[a].content) && Interned(env, nodes[b].content)
    && nodes[a].content.spec == nodes[b].content.spec && nodes[a].content.extra == nodes[b].content.extra
    && |nodes[a].content.inputs| == |nodes[b].content.inputs|
    && (forall k :: 0 <= k < |nodes[a].content.inputs| ==> r(nodes[a].content.inputs[k], nodes[b].content.inputs[k]))
  }

  /** An equivalence that identifies the two nodes and whatever interning identifies then. */
  ghost predicate IsCongruence(env: Env, nodes: Nodes, with: Id, target: Id, r: Relation) {
    && (forall x :: r(x, x)) && (forall x, y :: r(x, y) ==> r(y, x))
    && (forall x, y, z :: r(x, y) && r(y, z) ==> r(x, z)) && r(with, target)
    && (forall a, b {:trigger RelatedContents(env, nodes, r, a, b)} :: RelatedContents(env, nodes, r, a, b) ==> r(a, b))
  }

  /** x and y are identified whenever `with` and the target are. */
  ghost predicate Congruent(env: Env, nodes: Nodes, with: Id, target: Id, x: Id, y: Id) {
    forall r: Relation {:trigger IsCongruence(env, nodes, with, target, r)} ::
      IsCongruence(env, nodes, with, target, r) ==> r(x, y)
  }

  lemma CongruentIsEquivalence(env: Env, nodes: Nodes, with: Id, target: Id, x: Id, y: Id, z: Id)
    ensures Congruent(env, nodes, with, target, x, x) && Congruent(env, nodes, with, target, with, target)
    ensures Congruent(env, nodes, with, target, x, y) ==> Congruent(env, nodes, with, target, y, x)
    ensures Congruent(env, nodes, with, target, x, y) && Congruent(env, nodes, with, target, y, z) ==>
      Congruent(env, nodes, with, target, x, z)
  {
  }

  /** Interned nodes of the same kind with congruent inputs are congruent. */
  lemma CongruentContents(env: Env, nodes: Nodes, with: Id, target: Id, a: Id, b: Id)
    requires a in nodes && b in nodes && Interned(env, nodes[a].content) && Interned(env, nodes[b].content)
    requires nodes[a].content.spec == nodes[b].content.spec && nodes[a].content.extra == nodes[b].content.extra
    requires |nodes[a].content.inputs| == |nodes[b].content.inputs|
    requires forall k :: 0 <= k < |nodes[a].content.inputs| ==>
      Congruent(env, nodes, with, target, nodes[a].content.inputs[k], nodes[b].content.inputs[k])
    ensures Congruent(env, nodes, with, target, a, b)
  {
    forall r: Relation | IsCongruence(env, nodes, with, target, r) ensures r(a, b) {
      assert RelatedContents(env, nodes, r, a, b);
    }
  }

  // ---- its classes as a meaning ----

  /** The least id from k on that is congruent to x. */
  ghost function LeastFrom(env: Env, nodes: Nodes, with: Id, target: Id, x: Id, k: nat): (r: Id)
    requires k <= x && forall j :: 0 <= j < k ==> !Congruent(env, nodes, with, target, x, j)
    ensures Congruent(env, nodes, with, target, x, r)
    ensures forall j :: 0 <= j < r ==> !Congruent(env, nodes, with, target, x, j)
    decreases x - k
  {
    CongruentIsEquivalence(env, nodes, with, target, x, x, x);
    if k == x || Congruent(env, nodes, with, target, x, k) then k else LeastFrom(env, nodes, with, target, x, k + 1)
  }

  ghost function Representative(env: Env, nodes: Nodes, with: Id, target: Id, x: Id): Id {
    LeastFrom(env, nodes, with, target, x, 0)
  }

  lemma SameRepresentative(env: Env, nodes: Nodes, with: Id, target: Id, x: Id, y: Id)
    ensures Representative(env, nodes, with, target, x) == Representative(env, nodes, with, target, y)
      <==> Congruent(env, nodes, with, target, x, y)
  {
    var a, b := Representative(env, nodes, with, target, x), Representative(env, nodes, with, target, y);
    CongruentIsEquivalence(env, nodes, with, target, y, a, x);
    CongruentIsEquivalence(env, nodes, with, target, x, a, y);
    CongruentIsEquivalence(env, nodes, with, target, x, y, b);
    CongruentIsEquivalence(env, nodes, with, target, y, x, a);
    CongruentIsEquivalence(env, nodes, with, target, x, y, x);
    CongruentIsEquivalence(env, nodes, with, target, y, b, x);
  }

  ghost predicate Computes(env: Env, nodes: Nodes, with: Id, target: Id, spec: Spec, extra: seq<nat>, args: seq<int>,
                           n: Id) {
    && n in nodes && Interned(env, nodes[n].content) && nodes[n].content.spec == spec && nodes[n].content.extra == extra
    && |nodes[n].content.inputs| == |args|
    && (forall k :: 0 <= k < |args| ==> Representative(env, nodes, with, target, nodes[n].content.inputs[k]) == args[k])
  }

  ghost function ClassOf(env: Env, nodes: Nodes, with: Id, target: Id, spec: Spec, extra: seq<nat>,
                         args: seq<int>): int {
    if n :| Computes(env, nodes, with, target, spec, extra, args, n) then Representative(env, nodes, with, target, n)
      else 0
  }

  /** Each node means its class. */
  ghost function Classes(env: Env, nodes: Nodes, with: Id, target: Id): Meaning {
    Meaning((x: Id) => Representative(env, nodes, with, target, x) as int,
            (spec: Spec, extra: seq<nat>, args: seq<int>) => ClassOf(env, nodes, with, target, spec, extra, args))
  }

  lemma ClassesAreConsistent(env: Env, nodes: Nodes, with: Id, target: Id)
    ensures var m := Classes(env, nodes, with, target); Consistent(env, nodes, m) && m.value(with) == m.value(target)
  {
    var m := Classes(env, nodes, with, target);
    forall n | n in nodes && Interned(env, nodes[n].content) ensures Means(m, nodes[n].content, m.value(n)) {
      ClassIsComputed(env, nodes, with, target, n);
    }
    CongruentIsEquivalence(env, nodes, with, target, with, with, with);
    SameRepresentative(env, nodes, with, target, with, target);
  }

  lemma ClassIsComputed(env: Env, nodes: Nodes, with: Id, target: Id, n: Id)
    requires n in nodes && Interned(env, nodes[n].content)
    ensures var c, m := nodes[n].content, Classes(env, nodes, with, target);
      ClassOf(env, nodes, with, target, c.spec, c.extra, Values(m, c.inputs)) ==
        Representative(env, nodes, with, target, n)
  {
    var c, m := nodes[n].content, Classes(env, nodes, with, target);
    var args := Values(m, c.inputs);
    assert Computes(env, nodes, with, target, c.spec, c.extra, args, n);
    forall q | Computes(env, nodes, with, target, c.spec, c.extra, args, q)
      ensures Representative(env, nodes, with, target, q) == Representative(env, nodes, with, target, n)
    {
      forall k | 0 <= k < |c.inputs|
        ensures Congruent(env, nodes, with, target, nodes[q].content.inputs[k], c.inputs[k]) {
        SameRepresentative(env, nodes, with, target, nodes[q].content.inputs[k], c.inputs[k]);
      }
      CongruentContents(env, nodes, with, target, q, n);
      SameRepresentative(env, nodes, with, target, q, n);
    }
  }

  /** Congruent nodes mean the same under every meaning that gives `with` and the target the same value. */
  lemma CongruentMeanTheSame(env: Env, nodes: Nodes, with: Id, target: Id, m: Meaning, x: Id, y: Id)
    requires Consistent(env, nodes, m) && m.value(with) == m.value(target) && Congruent(env, nodes, with, target, x, y)
    ensures m.value(x) == m.value(y)
  {
    var r: Relation := (a: Id, b: Id) => m.value(a) == m.value(b);
    forall a, b | RelatedContents(env, nodes, r, a, b) ensures r(a, b) {
      assert Means(m, nodes[a].content, m.value(a)) && Means(m, nodes[b].content, m.value(b));
      assert Values(m, nodes[a].content.inputs) == Values(m, nodes[b].content.inputs);
    }
    assert IsCongruence(env, nodes, with, target, r);
  }

  // ---- what is never merged ----

  /** Nodes that are not interned are congruent to themselves only, but for the two. */
  lemma UninternedIsAlone(env: Env, nodes: Nodes, with: Id, target: Id, n: Id)
    requires n in nodes && !Interned(env, nodes[n].content) && n != with && n != target
    ensures !Shares(nodes, Classes(env, nodes, with, target), n)
  {
    var r: Relation := (a: Id, b: Id) => a == b || (a != n && b != n);
    assert IsCongruence(env, nodes, with, target, r);
    forall y | y != n ensures Classes(env, nodes, with, target).value(y) != Classes(env, nodes, with, target).value(n) {
      assert !r(y, n);
      SameRepresentative(env, nodes, with, target, y, n);
    }
  }

  /** A node that is not interned, nor one of the two, outlives a replacement if it is pinned or not used at all. */
  lemma UninternedOutlives(env: Env, before: Nodes, after: Nodes, with: Id, target: Id, n: Id)
    requires Bounded(before, after, Classes(env, before, with, target))
    requires n in before && !Interned(env, before[n].content) && n != with && n != target
    requires Pins(before, n) > 0 || Outs(before, n) == []
    ensures n in after
  {
    UninternedIsAlone(env, before, with, target, n);
    if Outs(before, n) == [] {
      var others := before.Keys - {n};
      assert ClosedUnderLastUse(before, others);
      assert HoldsShared(before, Classes(env, before, with, target), others);
    }
  }

  /** And what goes lies in every set that holds the two and the interned nodes and is closed under losing the
      last use. */
  lemma GoneLiesWithin(env: Env, before: Nodes, after: Nodes, with: Id, target: Id, s: set<Id>)
    requires Bounded(before, after, Classes(env, before, with, target)) && ClosedUnderLastUse(before, s)
    requires with in s && target in s && forall n :: n in before && Interned(env, before[n].content) ==> n in s
    ensures LostWithin(before, after, s)
  {
    var m := Classes(env, before, with, target);
    forall n | n in before && Shares(before, m, n) ensures n in s {
      if n !in s { UninternedIsAlone(env, before, with, target, n); }
    }
    assert HoldsShared(before, m, s);
  }

  // ---- conditions a caller can check ----

  /** With nodes identified by the least congruence, the replacement does not depend on the target, and no node that
      has a partner to spare depends on itself. */
  ghost predicate MayReplace(env: Env, nodes: Nodes, with: Id, target: Id) {
    Separable(env, nodes, Classes(env, nodes, with, target), with, target)
  }

  /** Meanings that tell more nodes apart make fewer mergeable. */
  ghost predicate Finer(m: Meaning, n: Meaning) {
    forall x, y {:trigger m.value(x), m.value(y)} :: m.value(x) == m.value(y) ==> n.value(x) == n.value(y)
  }

  lemma FinerMergesLess(env: Env, nodes: Nodes, m: Meaning, n: Meaning, with: Id, target: Id, x: Id)
    requires Finer(m, n)
    ensures Mergeable(env, nodes, m, x) ==> Mergeable(env, nodes, n, x)
    ensures Critical(env, nodes, m, with, target, x) ==> Critical(env, nodes, n, with, target, x)
  {
    forall a, b | Partners(env, nodes, m, a, b) ensures Partners(env, nodes, n, a, b) {}
  }

  lemma FinerDependsLess(env: Env, nodes: Nodes, m: Meaning, n: Meaning, a: Id, b: Id)
    requires Finer(m, n) && DependsOn(env, nodes, m, a, b)
    ensures DependsOn(env, nodes, n, a, b)
  {
    var p: seq<Id> :| DependencePath(env, nodes, m, p) && p[0] == a && p[|p| - 1] == b;
    forall i, j | 0 <= i && j == i + 1 && j < |p| ensures LeadsTo(env, nodes, n, p[i], p[j]) {
      assert LeadsTo(env, nodes, m, p[i], p[j]);
      FinerMergesLess(env, nodes, m, n, a, b, p[i]);
    }
    assert DependencePath(env, nodes, n, p);
  }

  /** Any meaning that gives both nodes the same value and keeps them separable will do: the least congruence asks for
      no more than it. */
  lemma AnyMeaningSuffices(env: Env, nodes: Nodes, m: Meaning, with: Id, target: Id)
    requires Consistent(env, nodes, m) && m.value(with) == m.value(target) && Separable(env, nodes, m, with, target)
    ensures MayReplace(env, nodes, with, target)
  {
    var c := Classes(env, nodes, with, target);
    forall x, y | c.value(x) == c.value(y) ensures m.value(x) == m.value(y) {
      SameRepresentative(env, nodes, with, target, x, y);
      CongruentMeanTheSame(env, nodes, with, target, m, x, y);
    }
    if DependsOn(env, nodes, c, with, target) { FinerDependsLess(env, nodes, c, m, with, target); }
    forall x | Critical(env, nodes, c, with, target, x) ensures !OnCycle(env, nodes, c, x) {
      FinerMergesLess(env, nodes, c, m, with, target, x);
      if y :| y in Inputs(nodes, x) && DependsOn(env, nodes, c, y, x) {
        FinerDependsLess(env, nodes, c, m, y, x);
        assert OnCycle(env, nodes, m, x);
      }
    }
  }

  // ---- outputs do not matter ----

  ghost predicate SameContents(a: Nodes, b: Nodes) {
    a.Keys == b.Keys && forall n :: n in a ==> a[n].content == b[n].content
  }

  lemma SameDependence(env: Env, a: Nodes, b: Nodes, m: Meaning, x: Id, y: Id)
    requires SameContents(a, b) && DependsOn(env, a, m, x, y)
    ensures DependsOn(env, b, m, x, y)
  {
    var p: seq<Id> :| DependencePath(env, a, m, p) && p[0] == x && p[|p| - 1] == y;
    forall i, j | 0 <= i && j == i + 1 && j < |p| ensures LeadsTo(env, b, m, p[i], p[j]) {
      assert LeadsTo(env, a, m, p[i], p[j]);
      SameMerging(env, a, b, m, p[i]);
    }
    assert DependencePath(env, b, m, p);
  }

  lemma SameMerging(env: Env, a: Nodes, b: Nodes, m: Meaning, x: Id)
    requires SameContents(a, b)
    ensures Mergeable(env, a, m, x) <==> Mergeable(env, b, m, x)
    ensures Crowded(env, a, m, x) <==> Crowded(env, b, m, x)
    ensures forall target :: HasOther(env, a, m, x, target) <==> HasOther(env, b, m, x, target)
  {
    forall x, y ensures Partners(env, a, m, x, y) <==> Partners(env, b, m, x, y) {}
  }

  lemma MayReplaceByContents(env: Env, a: Nodes, b: Nodes, with: Id, target: Id)
    requires SameContents(a, b) && MayReplace(env, a, with, target)
    ensures MayReplace(env, b, with, target)
  {
    var m := Classes(env, a, with, target);
    ClassesAreConsistent(env, a, with, target);
    if DependsOn(env, b, m, with, target) { SameDependence(env, b, a, m, with, target); }
    forall x | Critical(env, b, m, with, target, x) ensures !OnCycle(env, b, m, x) {
      SameMerging(env, a, b, m, x);
      SameMerging(env, a, b, m, with);
      assert Critical(env, a, m, with, target, x) && Inputs(a, x) == Inputs(b, x);
      if y :| y in Inputs(b, x) && DependsOn(env, b, m, y, x) {
        SameDependence(env, b, a, m, y, x);
        assert OnCycle(env, a, m, x);
      }
    }
    AnyMeaningSuffices(env, b, m, with, target);
  }

  // ---- graphs without interned cycles ----

  predicate InternedReads(env: Env, nodes: Nodes, a: Id, b: Id) {
    a in nodes && Interned(env, nodes[a].content) && b in nodes[a].content.inputs
  }

  /** From a, interned nodes lead down to b. */
  ghost predicate InternedReaches(env: Env, nodes: Nodes, a: Id, b: Id) {
    exists p: seq<Id> :: InternedPath(env, nodes, p) && p[0] == a && p[|p| - 1] == b
  }

  ghost predicate InternedPath(env: Env, nodes: Nodes, p: seq<Id>) {
    |p| > 0 && forall i, j :: 0 <= i && j == i + 1 && j < |p| ==> InternedReads(env, nodes, p[i], p[j])
  }

  lemma DependenceIsInterned(env: Env, nodes: Nodes, m: Meaning, a: Id, b: Id)
    requires DependsOn(env, nodes, m, a, b)
    ensures InternedReaches(env, nodes, a, b)
  {
    var p: seq<Id> :| DependencePath(env, nodes, m, p) && p[0] == a && p[|p| - 1] == b;
    forall i, j | 0 <= i && j == i + 1 && j < |p| ensures InternedReads(env, nodes, p[i], p[j]) {
      assert LeadsTo(env, nodes, m, p[i], p[j]);
    }
    assert InternedPath(env, nodes, p);
  }

  /** If interned nodes form no cycle, it is enough that they do not lead from the replacement down to the target. */
  lemma AcyclicSuffices(env: Env, nodes: Nodes, with: Id, target: Id)
    requires forall x, y :: InternedReads(env, nodes, x, y) ==> !InternedReaches(env, nodes, y, x)
    requires !InternedReaches(env, nodes, with, target)
    ensures MayReplace(env, nodes, with, target)
  {
    var m := Classes(env, nodes, with, target);
    if DependsOn(env, nodes, m, with, target) { DependenceIsInterned(env, nodes, m, with, target); }
    forall x | Critical(env, nodes, m, with, target, x) ensures !OnCycle(env, nodes, m, x) {
      if y :| y in Inputs(nodes, x) && DependsOn(env, nodes, m, y, x) {
        DependenceIsInterned(env, nodes, m, y, x);
        assert InternedReads(env, nodes, x, y);
      }
    }
  }

  /** If every interned node has at most one partner and the replacement has none but the target, cycles do no harm:
      this is the case of two loop values that turn out equal. */
  lemma PairsSuffice(env: Env, nodes: Nodes, m: Meaning, with: Id, target: Id)
    requires Consistent(env, nodes, m) && m.value(with) == m.value(target)
    requires forall x {:trigger Crowded(env, nodes, m, x)} :: !Crowded(env, nodes, m, x)
    requires !HasOther(env, nodes, m, with, target) && !DependsOn(env, nodes, m, with, target)
    ensures MayReplace(env, nodes, with, target)
  {
    AnyMeaningSuffices(env, nodes, m, with, target);
  }
}
