/** Finite directed graphs as the program stores them: a dictionary from a name to
    the list of names it points at.  A name that is not a key has no successors. */
module Graphs {
  type Node = string
  type Adjacency = map<Node, seq<Node>>

  function Succ(adj: Adjacency, n: Node): seq<Node> {
    if n in adj then adj[n] else []
  }

  /** An edge is an entry of the dictionary. */
  lemma EdgeIs(adj: Adjacency, x: Node, y: Node)
    ensures y in Succ(adj, x) <==> x in adj && y in adj[x]
  {
  }

  ghost predicate IsPath(adj: Adjacency, p: seq<Node>) {
    |p| > 0 && forall i | 0 <= i < |p| - 1 :: p[i + 1] in Succ(adj, p[i])
  }

  /** A path with exactly `k` edges. */
  ghost predicate ReachIn(adj: Adjacency, x: Node, y: Node, k: nat) {
    exists p :: IsPath(adj, p) && |p| == k + 1 && p[0] == x && p[k] == y
  }

  ghost predicate Reach(adj: Adjacency, x: Node, y: Node) {
    exists k: nat :: ReachIn(adj, x, y, k)
  }

  ghost predicate Mutual(adj: Adjacency, x: Node, y: Node) {
    Reach(adj, x, y) && Reach(adj, y, x)
  }

  ghost predicate Closed(adj: Adjacency, s: set<Node>) {
    forall n, v | n in s && v in Succ(adj, n) :: v in s
  }

  lemma ReachInSelf(adj: Adjacency, x: Node)
    ensures ReachIn(adj, x, x, 0) && Reach(adj, x, x)
  {
    assert IsPath(adj, [x]);
  }

  lemma ReachInStep(adj: Adjacency, x: Node, y: Node, z: Node, k: nat)
    requires ReachIn(adj, x, y, k) && z in Succ(adj, y)
    ensures ReachIn(adj, x, z, k + 1)
  {
    var p :| IsPath(adj, p) && |p| == k + 1 && p[0] == x && p[k] == y;
    assert IsPath(adj, p + [z]);
  }

  /** Every path of positive length has a last edge. */
  lemma ReachInLast(adj: Adjacency, x: Node, z: Node, k: nat) returns (y: Node)
    requires ReachIn(adj, x, z, k + 1)
    ensures ReachIn(adj, x, y, k) && z in Succ(adj, y)
  {
    var p :| IsPath(adj, p) && |p| == k + 2 && p[0] == x && p[k + 1] == z;
    y := p[k];
    assert IsPath(adj, p[..k + 1]);
  }

  lemma {:induction false} ReachInTransitive(adj: Adjacency, x: Node, y: Node, z: Node, j: nat, k: nat)
    requires ReachIn(adj, x, y, j) && ReachIn(adj, y, z, k)
    ensures ReachIn(adj, x, z, j + k)
    decreases k
  {
    if k == 0 {
    } else {
      var w := ReachInLast(adj, y, z, k - 1);
      ReachInTransitive(adj, x, y, w, j, k - 1);
      ReachInStep(adj, x, w, z, j + k - 1);
    }
  }

  lemma ReachTransitive(adj: Adjacency, x: Node, y: Node, z: Node)
    requires Reach(adj, x, y) && Reach(adj, y, z)
    ensures Reach(adj, x, z)
  {
    var j: nat :| ReachIn(adj, x, y, j);
    var k: nat :| ReachIn(adj, y, z, k);
    ReachInTransitive(adj, x, y, z, j, k);
  }

  lemma ReachStep(adj: Adjacency, x: Node, y: Node, z: Node)
    requires Reach(adj, x, y) && z in Succ(adj, y)
    ensures Reach(adj, x, z)
  {
    var k: nat :| ReachIn(adj, x, y, k);
    ReachInStep(adj, x, y, z, k);
  }

  /** Nothing outside a closed set can be reached from inside it. */
  lemma {:induction false} ClosedTraps(adj: Adjacency, s: set<Node>, x: Node, y: Node, k: nat)
    requires Closed(adj, s) && x in s && ReachIn(adj, x, y, k)
    ensures y in s
    decreases k
  {
    if k == 0 {
    } else {
      var w := ReachInLast(adj, x, y, k - 1);
      ClosedTraps(adj, s, x, w, k - 1);
    }
  }

  lemma ClosedTrapsReach(adj: Adjacency, s: set<Node>, x: Node, y: Node)
    requires Closed(adj, s) && x in s && Reach(adj, x, y)
    ensures y in s
  {
    var k: nat :| ReachIn(adj, x, y, k);
    ClosedTraps(adj, s, x, y, k);
  }

  /** A node that reaches a different node is a key of the dictionary. */
  lemma ReachesOtherIsKey(adj: Adjacency, x: Node, y: Node)
    requires x != y && Reach(adj, x, y)
    ensures x in adj
  {
    if x !in adj { ClosedTrapsReach(adj, {x}, x, y); }
  }
}
