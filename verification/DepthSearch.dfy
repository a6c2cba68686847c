/** The depth-bounded breadth-first search behind the call graph and the dependency
    tree (src/limpiador/tools/ast_tools.py, `AstCallGraphTool.run` and
    `AstDependencyTreeTool.run`). */
module DepthSearch {
  import opened Graphs
  import opened Sorting

  datatype Edge = Edge(source: Node, target: Node)

  /** All edges out of one node, in the order its successors are listed. */
  function Pairs(source: Node, targets: seq<Node>): seq<Edge> {
    seq(|targets|, k requires 0 <= k < |targets| => Edge(source, targets[k]))
  }

  function EdgesFrom(adj: Adjacency, n: Node): (r: seq<Edge>)
    ensures |r| == |Succ(adj, n)|
  {
    Pairs(n, Succ(adj, n))
  }

  function EdgesOf(adj: Adjacency, ns: seq<Node>): seq<Edge> {
    if ns == [] then [] else EdgesOf(adj, ns[..|ns| - 1]) + EdgesFrom(adj, ns[|ns| - 1])
  }

  ghost predicate Within(adj: Adjacency, root: Node, n: Node, depth: nat) {
    n in adj && exists k: nat :: k < depth && ReachIn(adj, root, n, k)
  }

  /** `k` is the length of a shortest path. */
  ghost predicate Distance(adj: Adjacency, root: Node, n: Node, k: nat) {
    ReachIn(adj, root, n, k) && forall j: nat | ReachIn(adj, root, n, j) :: k <= j
  }

  /** `visits` is a breadth-first listing of exactly the indexed nodes whose
      distance from the root is below the bound. */
  ghost predicate Exact(adj: Adjacency, root: Node, depth: nat, visits: seq<Node>) {
    && Distinct(visits)
    && (forall n :: n in visits <==> Within(adj, root, n, depth))
    && (forall i, j, d: nat, e: nat | 0 <= i < j < |visits| && Distance(adj, root, visits[i], d)
         && Distance(adj, root, visits[j], e) :: d <= e)
  }

  function Targets(edges: seq<Edge>): (r: seq<Node>)
    ensures |r| == |edges| && forall i | 0 <= i < |r| :: r[i] == edges[i].target
  {
    seq(|edges|, i requires 0 <= i < |edges| => edges[i].target)
  }

  /** All that was ever queued once `visits` are expanded: the root and their successors. */
  function Queue(adj: Adjacency, root: Node, visits: seq<Node>): seq<Node> {
    [root] + Targets(EdgesOf(adj, visits))
  }

  /** `a` stands in the queue before any `b`. */
  ghost predicate QueuedBefore(queue: seq<Node>, a: Node, b: Node) {
    exists k :: 0 <= k < |queue| && queue[k] == a && b !in queue[..k + 1]
  }

  /** The nodes are visited in the order in which they were first queued. */
  ghost predicate InQueueOrder(adj: Adjacency, root: Node, visits: seq<Node>) {
    && (forall i | 0 <= i < |visits| :: visits[i] in Queue(adj, root, visits[..i]))
    && (forall i, j | 0 <= i < j < |visits| :: QueuedBefore(Queue(adj, root, visits), visits[i], visits[j]))
  }

  /** The reported edges are the full successor lists of those nodes, node by node, in the
      order in which the nodes were first queued. */
  ghost predicate ExactEdges(adj: Adjacency, root: Node, depth: nat, edges: seq<Edge>) {
    exists visits :: Exact(adj, root, depth, visits) && InQueueOrder(adj, root, visits) && edges == EdgesOf(adj, visits)
  }

  // ---- the invariant of the queue --------------------------------------------

  datatype Entry = Entry(node: Node, depth: nat)

  /** Depths in the queue never decrease and differ by at most one. */
  ghost predicate Fifo(frontier: seq<Entry>) {
    && (forall i, j | 0 <= i < j < |frontier| :: frontier[i].depth <= frontier[j].depth)
    && (forall i | 0 <= i < |frontier| :: frontier[i].depth <= frontier[0].depth + 1)
  }

  /** The node need not be visited again: it is queued or expanded early enough,
      or it is beyond the bound or not in the index. */
  ghost predicate Handled(adj: Adjacency, bound: nat, at: map<Node, nat>, frontier: seq<Entry>, n: Node, d: nat) {
    || Entry(n, d) in frontier
    || (n in at && at[n] <= d)
    || n !in adj
    || d >= bound
  }

  ghost predicate Queued(adj: Adjacency, root: Node, frontier: seq<Entry>) {
    forall e | e in frontier :: ReachIn(adj, root, e.node, e.depth)
  }

  ghost predicate Expanded(adj: Adjacency, root: Node, bound: nat, at: map<Node, nat>) {
    forall n | n in at :: n in adj && at[n] < bound && ReachIn(adj, root, n, at[n])
  }

  ghost predicate Covered(adj: Adjacency, root: Node, bound: nat, at: map<Node, nat>, frontier: seq<Entry>) {
    && Handled(adj, bound, at, frontier, root, 0)
    && (forall n, v | n in at && v in Succ(adj, n) :: Handled(adj, bound, at, frontier, v, at[n] + 1))
  }

  ghost predicate InOrder(at: map<Node, nat>, visits: seq<Node>, frontier: seq<Entry>) {
    && Distinct(visits)
    && (forall n :: n in visits <==> n in at)
    && (forall i, j | 0 <= i < j < |visits| :: at[visits[i]] <= at[visits[j]])
    && (frontier != [] ==> forall n | n in at :: at[n] <= frontier[0].depth)
  }

  /** `at` gives each node of `visits` the depth it was expanded at. */
  ghost predicate Invariant(adj: Adjacency, root: Node, bound: nat, at: map<Node, nat>, visits: seq<Node>,
                            frontier: seq<Entry>) {
    && Fifo(frontier)
    && Queued(adj, root, frontier)
    && Expanded(adj, root, bound, at)
    && Covered(adj, root, bound, at, frontier)
    && InOrder(at, visits, frontier)
  }

  function Entries(nodes: seq<Node>, depth: nat): seq<Entry> {
    seq(|nodes|, k requires 0 <= k < |nodes| => Entry(nodes[k], depth))
  }

  function Children(adj: Adjacency, n: Node, depth: nat): (r: seq<Entry>)
    ensures |r| == |Succ(adj, n)|
  {
    Entries(Succ(adj, n), depth)
  }

  lemma Start(adj: Adjacency, root: Node, bound: nat)
    ensures Invariant(adj, root, bound, map[], [], [Entry(root, 0)])
  {
    ReachInSelf(adj, root);
  }

  /** Dropping the head of the queue when it needs no expansion. */
  lemma SkipKeeps(adj: Adjacency, root: Node, bound: nat, at: map<Node, nat>, visits: seq<Node>, frontier: seq<Entry>)
    requires Invariant(adj, root, bound, at, visits, frontier) && frontier != []
    requires var e := frontier[0]; e.node in at || e.depth >= bound || e.node !in adj
    ensures Invariant(adj, root, bound, at, visits, frontier[1..])
  {
    var rest := frontier[1..];
    assert forall e | e in frontier :: e in rest || e == frontier[0];
    assert Handled(adj, bound, at, rest, root, 0) by {
      assert Handled(adj, bound, at, frontier, root, 0);
    }
    forall n, v | n in at && v in Succ(adj, n) ensures Handled(adj, bound, at, rest, v, at[n] + 1) {
      assert Handled(adj, bound, at, frontier, v, at[n] + 1);
    }
  }

  /** Expanding the head of the queue and queueing its successors one level down. */
  lemma ExpandKeeps(adj: Adjacency, root: Node, bound: nat, at: map<Node, nat>, visits: seq<Node>, frontier: seq<Entry>)
    requires Invariant(adj, root, bound, at, visits, frontier) && frontier != []
    requires var e := frontier[0]; e.node !in at && e.depth < bound && e.node in adj
    ensures var e := frontier[0];
      Invariant(adj, root, bound, at[e.node := e.depth], visits + [e.node],
        frontier[1..] + Children(adj, e.node, e.depth + 1))
  {
    var Entry(x, d) := frontier[0];
    var kids := Children(adj, x, d + 1);
    var at', visits', frontier' := at[x := d], visits + [x], frontier[1..] + kids;
    assert Entry(x, d) in frontier;
    ExpandQueue(adj, root, frontier);
    ExpandCovers(adj, root, bound, at, frontier);
    ExpandOrder(at, visits, frontier, kids, x, d);
  }

  lemma ExpandOrder(at: map<Node, nat>, visits: seq<Node>, frontier: seq<Entry>, kids: seq<Entry>, x: Node, d: nat)
    requires InOrder(at, visits, frontier) && Fifo(frontier) && frontier != [] && frontier[0].depth == d
    requires x !in at && forall i | 0 <= i < |kids| :: kids[i].depth == d + 1
    ensures InOrder(at[x := d], visits + [x], frontier[1..] + kids)
  {
    var t := frontier[1..] + kids;
    assert t != [] ==> t[0] == (if |frontier| > 1 then frontier[1] else kids[0]);
    assert forall n :: n in visits + [x] <==> n in visits || n == x;
  }

  lemma ExpandQueue(adj: Adjacency, root: Node, frontier: seq<Entry>)
    requires Fifo(frontier) && Queued(adj, root, frontier) && frontier != []
    ensures var frontier' := frontier[1..] + Children(adj, frontier[0].node, frontier[0].depth + 1);
      Fifo(frontier') && Queued(adj, root, frontier')
  {
    var Entry(x, d) := frontier[0];
    FifoAppend(frontier, Children(adj, x, d + 1), d);
    QueuedChildren(adj, root, frontier);
  }

  lemma FifoAppend(frontier: seq<Entry>, kids: seq<Entry>, d: nat)
    requires Fifo(frontier) && frontier != [] && frontier[0].depth == d
    requires forall i | 0 <= i < |kids| :: kids[i].depth == d + 1
    ensures Fifo(frontier[1..] + kids)
  {
    var t := frontier[1..] + kids;
    forall i | 0 <= i < |t| ensures d <= t[i].depth <= d + 1 && (i >= |frontier| - 1 ==> t[i].depth == d + 1) {
      if i < |frontier| - 1 {
        assert t[i] == frontier[i + 1];
        assert frontier[0].depth <= frontier[i + 1].depth;
      }
    }
    forall i, j | 0 <= i < j < |t| ensures t[i].depth <= t[j].depth {
      if j < |frontier| - 1 { assert t[i] == frontier[i + 1] && t[j] == frontier[j + 1]; }
    }
  }

  lemma QueuedChildren(adj: Adjacency, root: Node, frontier: seq<Entry>)
    requires Queued(adj, root, frontier) && frontier != []
    ensures Queued(adj, root, frontier[1..] + Children(adj, frontier[0].node, frontier[0].depth + 1))
  {
    var Entry(x, d) := frontier[0];
    var kids := Children(adj, x, d + 1);
    assert Entry(x, d) in frontier;
    forall i | 0 <= i < |kids| ensures ReachIn(adj, root, kids[i].node, kids[i].depth) {
      ReachInStep(adj, root, x, kids[i].node, d);
    }
  }

  lemma ExpandCovers(adj: Adjacency, root: Node, bound: nat, at: map<Node, nat>, frontier: seq<Entry>)
    requires frontier != [] && Covered(adj, root, bound, at, frontier) && frontier[0].node !in at
    ensures var e := frontier[0];
      Covered(adj, root, bound, at[e.node := e.depth], frontier[1..] + Children(adj, e.node, e.depth + 1))
  {
    var Entry(x, d) := frontier[0];
    var kids := Children(adj, x, d + 1);
    var at', frontier' := at[x := d], frontier[1..] + kids;
    assert forall e | e in frontier :: e in frontier' || e == frontier[0];
    assert Handled(adj, bound, at', frontier', root, 0) by {
      assert Handled(adj, bound, at, frontier, root, 0);
    }
    forall n, v | n in at' && v in Succ(adj, n) ensures Handled(adj, bound, at', frontier', v, at'[n] + 1) {
      if n == x {
        var i :| 0 <= i < |Succ(adj, x)| && Succ(adj, x)[i] == v;
        assert kids[i] == Entry(v, d + 1);
        assert Entry(v, d + 1) in frontier';
      } else {
        assert Handled(adj, bound, at, frontier, v, at[n] + 1);
      }
    }
  }

  // ---- the order of the visits -----------------------------------------------------

  /** A node taken from the queue that needs no visit any more. */
  ghost predicate Passed(adj: Adjacency, bound: nat, visits: seq<Node>, frontier: seq<Entry>, n: Node) {
    n in visits || n !in adj || forall e | e in frontier :: e.depth >= bound
  }

  /** The frontier is what is left of the queue behind the `p` nodes taken from it. */
  ghost predicate Taken(adj: Adjacency, root: Node, bound: nat, visits: seq<Node>, frontier: seq<Entry>, p: nat) {
    var queue := Queue(adj, root, visits);
    && p + |frontier| == |queue| && (forall i | 0 <= i < |frontier| :: frontier[i].node == queue[p + i])
    && (forall q | 0 <= q < p :: Passed(adj, bound, visits, frontier, queue[q]))
    && (forall n | n in visits :: n in queue[..p])
    && InQueueOrder(adj, root, visits)
  }

  lemma NothingTaken(adj: Adjacency, root: Node, bound: nat)
    ensures Taken(adj, root, bound, [], [Entry(root, 0)], 0)
  {
  }

  lemma SkipTaken(adj: Adjacency, root: Node, bound: nat, visits: seq<Node>, frontier: seq<Entry>, p: nat)
    requires Taken(adj, root, bound, visits, frontier, p) && Fifo(frontier) && frontier != []
    requires var e := frontier[0]; e.node in visits || e.depth >= bound || e.node !in adj
    ensures Taken(adj, root, bound, visits, frontier[1..], p + 1)
  {
    hide Queue, InQueueOrder;
    var queue, rest := Queue(adj, root, visits), frontier[1..];
    assert forall e | e in rest :: e in frontier;
    forall q | 0 <= q < p + 1 ensures Passed(adj, bound, visits, rest, queue[q]) {
      if q < p {
        assert Passed(adj, bound, visits, frontier, queue[q]);
      } else {
        assert queue[p] == frontier[0].node;
      }
    }
    assert queue[..p] <= queue[..p + 1];
  }

  lemma QueueGrows(adj: Adjacency, root: Node, visits: seq<Node>, x: Node)
    ensures Queue(adj, root, visits + [x]) == Queue(adj, root, visits) + Succ(adj, x)
  {
    EdgesOfOneMore(adj, visits, x);
  }

  lemma StillBefore(queue: seq<Node>, more: seq<Node>, a: Node, b: Node)
    requires QueuedBefore(queue, a, b)
    ensures QueuedBefore(queue + more, a, b)
  {
    var k :| 0 <= k < |queue| && queue[k] == a && b !in queue[..k + 1];
    assert (queue + more)[..k + 1] == queue[..k + 1];
  }

  lemma ExpandTaken(adj: Adjacency, root: Node, bound: nat, visits: seq<Node>, frontier: seq<Entry>, p: nat)
    requires Taken(adj, root, bound, visits, frontier, p) && frontier != []
    requires var e := frontier[0]; e.node !in visits && e.depth < bound && e.node in adj
    ensures var e := frontier[0];
      Taken(adj, root, bound, visits + [e.node], frontier[1..] + Children(adj, e.node, e.depth + 1), p + 1)
  {
    hide Queue, InQueueOrder;
    var Entry(x, d) := frontier[0];
    var queue, visits', frontier' := Queue(adj, root, visits), visits + [x], frontier[1..] + Children(adj, x, d + 1);
    QueueGrows(adj, root, visits, x);
    var queue' := Queue(adj, root, visits');
    assert frontier[0] in frontier && queue[p] == x;
    assert queue'[..p + 1] == queue[..p] + [x];
    NotTakenBefore(adj, root, bound, visits, frontier, p);
    ExpandOrdered(adj, root, visits, x, p);
    forall q | 0 <= q < p + 1 ensures Passed(adj, bound, visits', frontier', queue'[q]) {
      if q < p { assert Passed(adj, bound, visits, frontier, queue[q]); }
    }
  }

  lemma NotTakenBefore(adj: Adjacency, root: Node, bound: nat, visits: seq<Node>, frontier: seq<Entry>, p: nat)
    requires Taken(adj, root, bound, visits, frontier, p) && frontier != []
    requires var e := frontier[0]; e.node !in visits && e.depth < bound && e.node in adj
    ensures frontier[0].node !in Queue(adj, root, visits)[..p]
  {
    hide Queue, InQueueOrder;
    var queue := Queue(adj, root, visits);
    forall q | 0 <= q < p ensures queue[q] != frontier[0].node {
      assert Passed(adj, bound, visits, frontier, queue[q]) && frontier[0] in frontier;
    }
  }

  lemma ExpandOrdered(adj: Adjacency, root: Node, visits: seq<Node>, x: Node, p: nat)
    requires InQueueOrder(adj, root, visits) && p < |Queue(adj, root, visits)| && Queue(adj, root, visits)[p] == x
    requires (forall n | n in visits :: n in Queue(adj, root, visits)[..p]) && x !in Queue(adj, root, visits)[..p]
    ensures InQueueOrder(adj, root, visits + [x])
  {
    hide Queue, QueuedBefore;
    var queue, later := Queue(adj, root, visits), visits + [x];
    QueueGrows(adj, root, visits, x);
    forall i | 0 <= i < |later| ensures later[i] in Queue(adj, root, later[..i]) {
      assert later[..i] == visits[..i];
      assert visits[..|visits|] == visits;
    }
    forall i, j | 0 <= i < j < |later| ensures QueuedBefore(Queue(adj, root, later), later[i], later[j]) {
      if j == |visits| { FirstTime(queue, p, visits[i], x); }
      StillBefore(queue, Succ(adj, x), later[i], later[j]);
    }
  }

  lemma FirstTime(queue: seq<Node>, p: nat, a: Node, x: Node)
    requires p < |queue| && a in queue[..p] && x !in queue[..p]
    ensures QueuedBefore(queue, a, x)
  {
    var k :| 0 <= k < p && queue[..p][k] == a;
    assert queue[..k + 1] <= queue[..p];
  }

  // ---- what an empty queue means ---------------------------------------------

  /** Every indexed node within the bound was expanded, no later than any path
      allows. */
  lemma {:induction false} AllCovered(adj: Adjacency, root: Node, bound: nat, at: map<Node, nat>, n: Node, k: nat)
    requires Covered(adj, root, bound, at, [])
    requires ReachIn(adj, root, n, k) && k < bound && n in adj
    ensures n in at && at[n] <= k
    decreases k
  {
    if k == 0 {
      assert Handled(adj, bound, at, [], root, 0);
    } else {
      var m := ReachInLast(adj, root, n, k - 1);
      AllCovered(adj, root, bound, at, m, k - 1);
      assert Handled(adj, bound, at, [], n, at[m] + 1);
    }
  }

  /** The search expands each node at its shortest distance from the root. */
  lemma Finished(adj: Adjacency, root: Node, bound: nat, at: map<Node, nat>, visits: seq<Node>)
    requires Invariant(adj, root, bound, at, visits, [])
    ensures Exact(adj, root, bound, visits)
  {
    forall n ensures n in visits <==> Within(adj, root, n, bound) {
      if Within(adj, root, n, bound) {
        var k: nat :| k < bound && ReachIn(adj, root, n, k);
        AllCovered(adj, root, bound, at, n, k);
      }
    }
    forall n, k: nat | n in at && Distance(adj, root, n, k) ensures at[n] == k {
      assert k <= at[n];
      AllCovered(adj, root, bound, at, n, k);
    }
  }

  lemma QueueInvariant(adj: Adjacency, root: Node, bound: nat, at: map<Node, nat>, visits: seq<Node>,
                       frontier: seq<Entry>)
    requires Invariant(adj, root, bound, at, visits, frontier)
    ensures Fifo(frontier) && forall n :: n in visits <==> n in at
  {
  }

  lemma OrderIs(adj: Adjacency, root: Node, bound: nat, visits: seq<Node>, taken: nat)
    requires Taken(adj, root, bound, visits, [], taken)
    ensures InQueueOrder(adj, root, visits)
  {
  }

  // ---- the two tools -----------------------------------------------------------

  /** The call graph over an index of functions and the calls in their bodies. */
  method CallGraph(index: map<Node, seq<Node>>, root: Node, depth: nat)
    returns (edges: seq<Edge>)
    ensures ExactEdges(index, root, depth, edges)
  {
    hide Invariant, Exact, EdgesFrom, EdgesOf, Children, Taken, InQueueOrder;
    NothingExpanded(index);
    edges := [];
    ghost var visits: seq<Node>, at: map<Node, nat>, taken: nat := [], map[], 0;
    var seen: set<Node> := {};
    var frontier := [Entry(root, 0)];
    Start(index, root, depth);
    NothingTaken(index, root, depth);
    while frontier != []
      invariant Invariant(index, root, depth, at, visits, frontier)
      invariant Taken(index, root, depth, visits, frontier, taken)
      invariant edges == EdgesOf(index, visits) && seen == at.Keys
      decreases index.Keys - seen, |frontier|
    {
      var Entry(symbol, d) := frontier[0];
      ghost var queue := frontier;
      QueueInvariant(index, root, depth, at, visits, queue);
      taken := taken + 1;
      frontier := frontier[1..];
      if symbol in seen || d >= depth || symbol !in index {
        SkipKeeps(index, root, depth, at, visits, queue);
        SkipTaken(index, root, depth, visits, queue, taken - 1);
      } else {
        seen := seen + {symbol};
        edges, frontier := PushCalls(index, symbol, d, edges, frontier);
        ExpandKeeps(index, root, depth, at, visits, queue);
        ExpandTaken(index, root, depth, visits, queue, taken - 1);
        EdgesOfOneMore(index, visits, symbol);
        at, visits := at[symbol := d], visits + [symbol];
      }
    }
    Finished(index, root, depth, at, visits);
    OrderIs(index, root, depth, visits, taken);
  }

  /** The inner loop: one edge and one queue entry per callee. */
  method PushCalls(index: map<Node, seq<Node>>, symbol: Node, depth: nat, edges0: seq<Edge>, frontier0: seq<Entry>)
    returns (edges: seq<Edge>, frontier: seq<Entry>)
    requires symbol in index
    ensures edges == edges0 + EdgesFrom(index, symbol)
    ensures frontier == frontier0 + Children(index, symbol, depth + 1)
  {
    edges, frontier := edges0, frontier0;
    for i := 0 to |index[symbol]|
      invariant edges == edges0 + EdgesFrom(index, symbol)[..i]
      invariant frontier == frontier0 + Children(index, symbol, depth + 1)[..i]
    {
      edges := edges + [Edge(symbol, index[symbol][i])];
      frontier := frontier + [Entry(index[symbol][i], depth + 1)];
    }
  }

  lemma NothingExpanded(adj: Adjacency)
    ensures EdgesOf(adj, []) == []
  {
  }

  lemma EdgesOfOneMore(adj: Adjacency, ns: seq<Node>, n: Node)
    ensures EdgesOf(adj, ns + [n]) == EdgesOf(adj, ns) + EdgesFrom(adj, n)
  {
    assert (ns + [n])[..|ns|] == ns;
  }

  /** The imports of a module that resolve to a module of the repository. */
  function Local(files: map<Node, seq<Node>>, imports: seq<Node>): (r: seq<Node>)
    ensures forall m :: m in r <==> m in imports && m in files
  {
    if imports == [] then []
    else
      Local(files, imports[..|imports| - 1])
      + (if imports[|imports| - 1] in files then [imports[|imports| - 1]] else [])
  }

  function LocalGraph(files: map<Node, seq<Node>>): (adj: Adjacency)
    ensures adj.Keys == files.Keys
  {
    map m | m in files :: Local(files, files[m])
  }

  /** The dependency tree: the same search over the imports that stay inside the
      repository. `files` maps every module with a file to its raw imports. */
  method DependencyTree(files: map<Node, seq<Node>>, root: Node, depth: nat)
    returns (edges: seq<Edge>)
    ensures ExactEdges(LocalGraph(files), root, depth, edges)
  {
    hide Invariant, Exact, EdgesFrom, EdgesOf, Children, LocalGraph, Local, Taken, InQueueOrder;
    ghost var adj := LocalGraph(files);
    NothingExpanded(adj);
    edges := [];
    ghost var visits: seq<Node>, at: map<Node, nat>, taken: nat := [], map[], 0;
    var seen: set<Node> := {};
    var frontier := [Entry(root, 0)];
    Start(adj, root, depth);
    NothingTaken(adj, root, depth);
    while frontier != []
      invariant Invariant(adj, root, depth, at, visits, frontier)
      invariant Taken(adj, root, depth, visits, frontier, taken)
      invariant edges == EdgesOf(adj, visits) && seen == at.Keys
      decreases adj.Keys - seen, |frontier|
    {
      var Entry(mod, d) := frontier[0];
      ghost var queue := frontier;
      QueueInvariant(adj, root, depth, at, visits, queue);
      taken := taken + 1;
      frontier := frontier[1..];
      if mod in seen || d >= depth || mod !in files {
        SkipKeeps(adj, root, depth, at, visits, queue);
        SkipTaken(adj, root, depth, visits, queue, taken - 1);
      } else {
        seen := seen + {mod};
        edges, frontier := PushImports(files, mod, d, edges, frontier);
        ExpandKeeps(adj, root, depth, at, visits, queue);
        ExpandTaken(adj, root, depth, visits, queue, taken - 1);
        EdgesOfOneMore(adj, visits, mod);
        at, visits := at[mod := d], visits + [mod];
      }
    }
    Finished(adj, root, depth, at, visits);
    OrderIs(adj, root, depth, visits, taken);
  }

  method PushImports(files: map<Node, seq<Node>>, mod: Node, depth: nat, edges0: seq<Edge>, frontier0: seq<Entry>)
    returns (edges: seq<Edge>, frontier: seq<Entry>)
    requires mod in files
    ensures edges == edges0 + EdgesFrom(LocalGraph(files), mod)
    ensures frontier == frontier0 + Children(LocalGraph(files), mod, depth + 1)
  {
    hide Local, Pairs, Entries;
    edges, frontier := edges0, frontier0;
    var imports := files[mod];
    NoImports(files, imports, mod, depth, edges0, frontier0);
    for i := 0 to |imports|
      invariant edges == edges0 + Pairs(mod, Local(files, imports[..i]))
      invariant frontier == frontier0 + Entries(Local(files, imports[..i]), depth + 1)
    {
      OneMoreImport(files, imports, i, mod, depth, edges0, frontier0);
      if imports[i] in files {
        edges := edges + [Edge(mod, imports[i])];
        frontier := frontier + [Entry(imports[i], depth + 1)];
      }
    }
    AllImports(files, mod, depth);
  }

  lemma NoImports(files: map<Node, seq<Node>>, imports: seq<Node>, mod: Node, depth: nat, edges: seq<Edge>,
                  frontier: seq<Entry>)
    ensures edges + Pairs(mod, Local(files, imports[..0])) == edges
    ensures frontier + Entries(Local(files, imports[..0]), depth + 1) == frontier
  {
  }

  lemma OneMoreImport(files: map<Node, seq<Node>>, imports: seq<Node>, i: nat, mod: Node, depth: nat,
                      edges: seq<Edge>, frontier: seq<Entry>)
    requires i < |imports|
    ensures var done, next := Local(files, imports[..i]), Local(files, imports[..i + 1]);
      if imports[i] in files
      then edges + Pairs(mod, next) == edges + Pairs(mod, done) + [Edge(mod, imports[i])]
        && frontier + Entries(next, depth + 1) == frontier + Entries(done, depth + 1) + [Entry(imports[i], depth + 1)]
      else next == done
  {
    hide Local, Pairs, Entries;
    LocalGrows(files, imports, i);
    if imports[i] in files {
      PairsGrow(edges, mod, Local(files, imports[..i]), imports[i]);
      EntriesGrow(frontier, Local(files, imports[..i]), imports[i], depth + 1);
    }
  }

  lemma LocalGrows(files: map<Node, seq<Node>>, imports: seq<Node>, i: nat)
    requires i < |imports|
    ensures Local(files, imports[..i + 1])
      == if imports[i] in files then Local(files, imports[..i]) + [imports[i]] else Local(files, imports[..i])
  {
    assert imports[..i + 1][..i] == imports[..i];
  }

  lemma PairsGrow(edges: seq<Edge>, source: Node, ns: seq<Node>, n: Node)
    ensures edges + Pairs(source, ns + [n]) == edges + Pairs(source, ns) + [Edge(source, n)]
  {
  }

  lemma EntriesGrow(frontier: seq<Entry>, ns: seq<Node>, n: Node, depth: nat)
    ensures frontier + Entries(ns + [n], depth) == frontier + Entries(ns, depth) + [Entry(n, depth)]
  {
  }

  lemma AllImports(files: map<Node, seq<Node>>, mod: Node, depth: nat)
    requires mod in files
    ensures Pairs(mod, Local(files, files[mod][..|files[mod]|])) == EdgesFrom(LocalGraph(files), mod)
    ensures Entries(Local(files, files[mod][..|files[mod]|]), depth + 1) == Children(LocalGraph(files), mod, depth + 1)
  {
    assert files[mod][..|files[mod]|] == files[mod];
  }

  // ---- consequences for a reader of the result ------------------------------------

  lemma {:induction false} EdgeMember(adj: Adjacency, ns: seq<Node>, e: Edge)
    ensures e in EdgesOf(adj, ns) <==> e.source in ns && e.target in Succ(adj, e.source)
    decreases |ns|
  {
    if ns != [] {
      var front, n := ns[..|ns| - 1], ns[|ns| - 1];
      EdgeMember(adj, front, e);
      assert ns == front + [n];
      if e.source == n && e.target in Succ(adj, n) {
        var i :| 0 <= i < |Succ(adj, n)| && Succ(adj, n)[i] == e.target;
        assert EdgesFrom(adj, n)[i] == e;
      }
    }
  }

  /** The edges reported are exactly those out of indexed nodes nearer to the root
      than the bound. */
  lemma ReportedEdges(adj: Adjacency, root: Node, depth: nat, edges: seq<Edge>, e: Edge)
    requires ExactEdges(adj, root, depth, edges)
    ensures e in edges <==> Within(adj, root, e.source, depth) && e.target in Succ(adj, e.source)
  {
    hide Within, Exact, InQueueOrder;
    var visits :| Exact(adj, root, depth, visits) && InQueueOrder(adj, root, visits) && edges == EdgesOf(adj, visits);
    EdgeMember(adj, visits, e);
    VisitedWithin(adj, root, depth, visits, e.source);
  }

  lemma VisitedWithin(adj: Adjacency, root: Node, depth: nat, visits: seq<Node>, n: Node)
    requires Exact(adj, root, depth, visits)
    ensures n in visits <==> Within(adj, root, n, depth)
  {
  }

  /** Raising the bound never loses an edge. */
  lemma DeeperSeesMore(adj: Adjacency, root: Node, d0: nat, d1: nat, shallow: seq<Edge>, deep: seq<Edge>)
    requires d0 <= d1 && ExactEdges(adj, root, d0, shallow) && ExactEdges(adj, root, d1, deep)
    ensures forall e | e in shallow :: e in deep
  {
    hide ExactEdges;
    forall e | e in shallow ensures e in deep {
      ReportedEdges(adj, root, d0, shallow, e);
      ReportedEdges(adj, root, d1, deep, e);
    }
  }

  /** The graph, the root and the bound determine the whole report, its order included. */
  lemma ReportDetermined(adj: Adjacency, root: Node, depth: nat, edges: seq<Edge>, others: seq<Edge>)
    requires ExactEdges(adj, root, depth, edges) && ExactEdges(adj, root, depth, others)
    ensures edges == others
  {
    hide Within, InQueueOrder, EdgesOf;
    var v :| Exact(adj, root, depth, v) && InQueueOrder(adj, root, v) && edges == EdgesOf(adj, v);
    var w :| Exact(adj, root, depth, w) && InQueueOrder(adj, root, w) && others == EdgesOf(adj, w);
    assert forall n :: n in v <==> n in w;
    DistinctCounts(v);
    DistinctCounts(w);
    forall n ensures multiset(v)[n] == multiset(w)[n] {
      assert n in v <==> n in multiset(v);
      assert n in w <==> n in multiset(w);
    }
    assert multiset(v) == multiset(w);
    SameMembers(v, w);
    SameVisits(adj, root, v, w, |v|);
    assert v[..|v|] == v && w[..|w|] == w;
  }

  lemma {:induction false} SameVisits(adj: Adjacency, root: Node, v: seq<Node>, w: seq<Node>, n: nat)
    requires Distinct(v) && Distinct(w) && |v| == |w| && forall x :: x in v <==> x in w
    requires InQueueOrder(adj, root, v) && InQueueOrder(adj, root, w) && n <= |v|
    ensures v[..n] == w[..n]
    decreases n
  {
    hide InQueueOrder, Queue, QueuedBefore;
    if n > 0 {
      SameVisits(adj, root, v, w, n - 1);
      var a, b := v[n - 1], w[n - 1];
      if a != b {
        var queue := Queue(adj, root, v[..n - 1]);
        LaterIn(v, w, n - 1);
        LaterIn(w, v, n - 1);
        QueuedInTime(adj, root, v, n - 1);
        QueuedInTime(adj, root, w, n - 1);
        NextInQueue(adj, root, v, n - 1, b);
        NextInQueue(adj, root, w, n - 1, a);
        OneComesFirst(queue, a, b);
      }
      assert v[..n] == v[..n - 1] + [a] && w[..n] == w[..n - 1] + [b];
    }
  }

  /** Where two listings first differ, each one's node comes later in the other. */
  lemma LaterIn(v: seq<Node>, w: seq<Node>, n: nat)
    requires Distinct(v) && |v| == |w| && n < |v| && v[..n] == w[..n] && v[n] != w[n]
    requires forall x :: x in v <==> x in w
    ensures exists j :: n < j < |w| && w[j] == v[n]
  {
    assert v[n] in w;
    forall i | 0 <= i < n ensures w[i] != v[n] {
      assert v[..n][i] == w[..n][i];
    }
  }

  lemma QueuedInTime(adj: Adjacency, root: Node, v: seq<Node>, n: nat)
    requires InQueueOrder(adj, root, v) && n < |v|
    ensures v[n] in Queue(adj, root, v[..n])
  {
  }

  /** Of what is queued by then the next node was queued first. */
  lemma NextInQueue(adj: Adjacency, root: Node, v: seq<Node>, n: nat, b: Node)
    requires InQueueOrder(adj, root, v) && n < |v| && b in Queue(adj, root, v[..n])
    requires exists j :: n < j < |v| && v[j] == b
    ensures QueuedBefore(Queue(adj, root, v[..n]), v[n], b)
  {
    hide Queue;
    var j :| n < j < |v| && v[j] == b;
    var queue, whole := Queue(adj, root, v[..n]), Queue(adj, root, v);
    QueuePrefix(adj, root, v, n);
    assert QueuedBefore(whole, v[n], v[j]);
    var k :| 0 <= k < |whole| && whole[k] == v[n] && b !in whole[..k + 1];
    var m :| 0 <= m < |queue| && queue[m] == b;
    assert whole[m] == b && m > k;
    assert queue[..k + 1] == whole[..k + 1];
  }

  lemma {:induction false} QueuePrefix(adj: Adjacency, root: Node, v: seq<Node>, n: nat)
    requires n <= |v|
    ensures Queue(adj, root, v[..n]) <= Queue(adj, root, v)
    decreases |v| - n
  {
    hide Queue;
    if n < |v| {
      QueueGrows(adj, root, v[..n], v[n]);
      assert v[..n + 1] == v[..n] + [v[n]];
      QueuePrefix(adj, root, v, n + 1);
    } else {
      assert v[..n] == v;
    }
  }

  lemma OneComesFirst(queue: seq<Node>, a: Node, b: Node)
    requires QueuedBefore(queue, a, b)
    ensures !QueuedBefore(queue, b, a)
  {
    var k :| 0 <= k < |queue| && queue[k] == a && b !in queue[..k + 1];
    forall i | 0 <= i <= k ensures queue[i] != b {
      assert queue[..k + 1][i] == queue[i];
    }
    forall m | 0 <= m < |queue| && queue[m] == b ensures a in queue[..m + 1] {
      assert queue[..m + 1][k] == a;
    }
  }
}
