/** The call graph of a program: procedure i calls each procedure listed in calls[i]. */
module CallGraph {
  predicate Closed(g: seq<seq<nat>>) {
    forall a, i :: 0 <= a < |g| && 0 <= i < |g[a]| ==> g[a][i] < |g|
  }

  type Calls = g: seq<seq<nat>> | Closed(g) witness []

  predicate Edge(g: Calls, a: nat, b: nat) {
    a < |g| && b in g[a]
  }

  ghost predicate IsPath(g: Calls, p: seq<nat>, a: nat, b: nat) {
    && |p| > 0 && p[0] == a && p[|p| - 1] == b
    && (forall i :: 0 < i < |p| ==> Edge(g, p[i - 1], p[i]))
  }

  /** b can be reached from a through calls, a itself included. */
  ghost predicate Reach(g: Calls, a: nat, b: nat) {
    exists p :: IsPath(g, p, a, b)
  }

  ghost predicate Mutual(g: Calls, a: nat, b: nat) {
    Reach(g, a, b) && Reach(g, b, a)
  }

  lemma ReachSelf(g: Calls, a: nat)
    ensures Reach(g, a, a)
  {
    assert IsPath(g, [a], a, a);
  }

  lemma ReachEdge(g: Calls, a: nat, b: nat)
    requires Edge(g, a, b)
    ensures Reach(g, a, b)
  {
    assert IsPath(g, [a, b], a, b);
  }

  lemma ReachTrans(g: Calls, a: nat, b: nat, c: nat)
    requires Reach(g, a, b) && Reach(g, b, c)
    ensures Reach(g, a, c)
  {
    var p :| IsPath(g, p, a, b);
    var q :| IsPath(g, q, b, c);
    var r := p + q[1..];
    forall i | 0 < i < |r| ensures Edge(g, r[i - 1], r[i]) {
      if i >= |p| {
        assert r[i] == q[i - |p| + 1] && r[i - 1] == q[i - |p|];
      }
    }
    assert IsPath(g, r, a, c);
  }

  /** A set that calls never leave cannot be left along a path. */
  lemma {:induction false} PathStaysInside(g: Calls, inside: set<nat>, p: seq<nat>, a: nat, b: nat)
    requires forall x, y :: x in inside && Edge(g, x, y) ==> y in inside
    requires IsPath(g, p, a, b) && a in inside
    ensures b in inside
    decreases |p|
  {
    if |p| > 1 {
      assert Edge(g, p[0], p[1]);
      assert IsPath(g, p[1..], p[1], b);
      PathStaysInside(g, inside, p[1..], p[1], b);
    }
  }
}
