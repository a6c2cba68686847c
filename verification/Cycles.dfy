/** What an import-cycle report must say, and that the graph determines it
    (src/limpiador/tools/ast_tools.py, `_strongly_connected`). */
module Cycles {
  import opened Graphs
  import opened Sorting

  // ---- what a cycle report must say ------------------------------------------

  /** `c` lists one strongly connected component: everything mutually reachable
      with any of its members, and nothing else. */
  ghost predicate IsComponent(adj: Adjacency, c: seq<Node>) {
    forall x, y | x in c :: y in c <==> Mutual(adj, x, y)
  }

  ghost predicate Cycle(adj: Adjacency, c: seq<Node>) {
    |c| > 1 && Ascending(c) && IsComponent(adj, c)
  }

  ghost predicate Listed(cs: seq<seq<Node>>, x: Node) {
    exists i :: 0 <= i < |cs| && x in cs[i]
  }

  /** No component reaches a component reported after it. */
  ghost predicate SinksFirst(adj: Adjacency, cs: seq<seq<Node>>) {
    forall i, j, x, y | 0 <= i < j < |cs| && x in cs[i] && y in cs[j] :: !Reach(adj, x, y)
  }

  /** The report `cs` is right about every node of `s`. */
  ghost predicate ReportFor(adj: Adjacency, s: set<Node>, cs: seq<seq<Node>>) {
    && (forall c | c in cs :: Cycle(adj, c) && forall x | x in c :: x in s)
    && (forall x, y | x in s && x != y && Mutual(adj, x, y) :: Listed(cs, x))
    && SinksFirst(adj, cs)
  }

  /** Exactly the components with more than one node, dependencies first. */
  ghost predicate CycleReport(adj: Adjacency, cs: seq<seq<Node>>) {
    && (forall c | c in cs :: Cycle(adj, c))
    && (forall x, y | x != y && Mutual(adj, x, y) :: Listed(cs, x))
    && SinksFirst(adj, cs)
  }

  // ---- the report is determined by the graph -----------------------------------

  /** Two nodes share a reported component exactly when they are on a common cycle. */
  lemma ReportSeparates(adj: Adjacency, cs: seq<seq<Node>>, x: Node, y: Node)
    requires CycleReport(adj, cs) && x != y
    ensures Mutual(adj, x, y) <==> exists i :: 0 <= i < |cs| && x in cs[i] && y in cs[i]
  {
    if Mutual(adj, x, y) {
      assert Listed(cs, x);
      var i :| 0 <= i < |cs| && x in cs[i];
      assert Cycle(adj, cs[i]);
    }
    if i :| 0 <= i < |cs| && x in cs[i] && y in cs[i] {
      assert Cycle(adj, cs[i]);
    }
  }

  /** No node is reported twice. */
  lemma ReportedOnce(adj: Adjacency, cs: seq<seq<Node>>, i: nat, j: nat, x: Node)
    requires CycleReport(adj, cs) && i < |cs| && j < |cs| && x in cs[i] && x in cs[j]
    ensures i == j
  {
    ReachInSelf(adj, x);
  }

  lemma SameMembersSameComponent(adj: Adjacency, c: seq<Node>, d: seq<Node>, x: Node)
    requires Cycle(adj, c) && Cycle(adj, d) && x in c && x in d
    ensures c == d
  {
    hide StringLe, Ascending;
    StringLeOrder();
    AscendingIs(c);
    AscendingIs(d);
    forall y ensures y in c <==> y in d {
      assert y in c <==> Mutual(adj, x, y);
      assert y in d <==> Mutual(adj, x, y);
    }
    DistinctCounts(c);
    DistinctCounts(d);
    forall y ensures multiset(c)[y] == multiset(d)[y] {
      assert y in c <==> y in multiset(c);
      assert y in d <==> y in multiset(d);
    }
    assert multiset(c) == multiset(d);
    SortedUnique(c, d, StringLe);
  }

  /** Whatever order the dictionary was walked in, the same cycles are reported. */
  lemma ReportUnique(adj: Adjacency, cs: seq<seq<Node>>, ds: seq<seq<Node>>)
    requires CycleReport(adj, cs) && CycleReport(adj, ds)
    ensures multiset(cs) == multiset(ds)
  {
    ReportsAgree(adj, cs, ds);
    ReportsAgree(adj, ds, cs);
    ReportDistinct(adj, cs);
    ReportDistinct(adj, ds);
    DistinctCounts(cs);
    DistinctCounts(ds);
    forall c ensures multiset(cs)[c] == multiset(ds)[c] {
      assert c in cs <==> c in multiset(cs);
      assert c in ds <==> c in multiset(ds);
    }
  }

  lemma ReportDistinct(adj: Adjacency, cs: seq<seq<Node>>)
    requires CycleReport(adj, cs)
    ensures Distinct(cs)
  {
    forall i, j | 0 <= i < j < |cs| ensures cs[i] != cs[j] {
      assert Cycle(adj, cs[i]);
      var x := cs[i][0];
      if x in cs[j] { ReportedOnce(adj, cs, i, j, x); }
    }
  }

  lemma ReportsAgree(adj: Adjacency, cs: seq<seq<Node>>, ds: seq<seq<Node>>)
    requires CycleReport(adj, cs) && CycleReport(adj, ds)
    ensures forall c | c in cs :: c in ds
  {
    forall c | c in cs ensures c in ds {
      assert Cycle(adj, c);
      AscendingIs(c);
      var x, y := c[0], c[1];
      assert x != y && Mutual(adj, x, y);
      assert Listed(ds, x);
      var i :| 0 <= i < |ds| && x in ds[i];
      SameMembersSameComponent(adj, c, ds[i], x);
    }
  }
}
