/** The invariant of Tarjan's depth-first search and the steps that keep it: opening a
    node, lowering a link, returning, and popping a component
    (src/limpiador/tools/ast_tools.py, `connect` and `_pop_component`). */
module CycleInvariant {
  import opened Graphs
  import opened Sorting
  import opened Cycles

  // ---- the invariant of the depth-first search -------------------------------

  type Numbers = map<Node, nat>

  /** The search's bookkeeping.  `gray` is the chain of calls still open; nodes
      that are numbered but off the stack are finished. */
  datatype Search = Search(order: Numbers, low: Numbers, stack: seq<Node>, gray: set<Node>,
                           onStack: map<Node, bool>, counter: nat, components: seq<seq<Node>>)

  ghost function Done(order: Numbers, stack: seq<Node>): set<Node> {
    set n | n in order && n !in stack
  }

  /** The stack holds numbered nodes in increasing order, so it has no duplicates. */
  ghost predicate Increasing(order: Numbers, stack: seq<Node>) {
    && (forall i | 0 <= i < |stack| :: stack[i] in order)
    && (forall i, j | 0 <= i < j < |stack| :: order[stack[i]] < order[stack[j]])
  }

  /** Everything a returned call's node points at has been numbered. */
  ghost predicate EdgesNumbered(adj: Adjacency, order: Numbers, gray: set<Node>) {
    forall u, v | u in order && u !in gray && v in Succ(adj, u) :: v in order
  }

  ghost predicate Chained(adj: Adjacency, stack: seq<Node>) {
    forall i, j | 0 <= i <= j < |stack| :: Reach(adj, stack[i], stack[j])
  }

  ghost predicate ReachesOpen(adj: Adjacency, order: Numbers, gray: set<Node>, y: Node) {
    y in order && exists g :: g in gray && g in order && order[g] <= order[y] && Reach(adj, y, g)
  }

  ghost predicate AllReachOpen(adj: Adjacency, order: Numbers, stack: seq<Node>, gray: set<Node>) {
    forall y {:trigger ReachesOpen(adj, order, gray, y)} | y in stack :: ReachesOpen(adj, order, gray, y)
  }

  /** `number` is the number of a stack node that `y` reaches. */
  ghost predicate Witnessed(adj: Adjacency, order: Numbers, stack: seq<Node>, y: Node, number: nat) {
    exists z :: z in stack && z in order && order[z] == number && Reach(adj, y, z)
  }

  ghost predicate LowLinked(adj: Adjacency, order: Numbers, low: Numbers, stack: seq<Node>, y: Node) {
    y in order && y in low && low[y] <= order[y] && Witnessed(adj, order, stack, y, low[y])
  }

  ghost predicate LowsLinked(adj: Adjacency, order: Numbers, low: Numbers, stack: seq<Node>) {
    forall y {:trigger LowLinked(adj, order, low, stack, y)} | y in stack :: LowLinked(adj, order, low, stack, y)
  }

  ghost predicate Invariant(adj: Adjacency, s: Search) {
    && Increasing(s.order, s.stack)
    && (forall g | g in s.gray :: g in s.stack)
    && EdgesNumbered(adj, s.order, s.gray)
    && Chained(adj, s.stack)
    && AllReachOpen(adj, s.order, s.stack, s.gray)
    && LowsLinked(adj, s.order, s.low, s.stack)
    && Closed(adj, Done(s.order, s.stack))
  }

  /** No edge from stack positions `from` and up lands below position `k` on a
      node numbered less than `bound`. */
  ghost predicate Escapes(adj: Adjacency, order: Numbers, stack: seq<Node>, from: nat, k: nat, bound: nat)
    requires k <= |stack|
  {
    forall i, v | from <= i < |stack| && v in Succ(adj, stack[i]) && v in stack[..k] && v in order ::
      bound <= order[v]
  }

  /** Numbers, once given, do not change. */
  ghost predicate Kept(before: Numbers, after: Numbers) {
    forall n | n in before :: n in after && after[n] == before[n]
  }

  // ---- the steps of `connect` ------------------------------------------------

  /** The start of `connect` on `x`. */
  ghost function Opened(s: Search, x: Node): Search {
    Search(s.order[x := s.counter], s.low[x := s.counter], s.stack + [x], s.gray + {x},
           s.onStack[x := true], s.counter + 1, s.components)
  }

  lemma OpenChains(adj: Adjacency, order: Numbers, stack: seq<Node>, gray: set<Node>, x: Node)
    requires Chained(adj, stack) && AllReachOpen(adj, order, stack, gray)
    requires forall g | g in gray :: Reach(adj, g, x)
    ensures Chained(adj, stack + [x])
  {
    var t := stack + [x];
    forall i, j | 0 <= i <= j < |t| ensures Reach(adj, t[i], t[j]) {
      if j == |stack| {
        if i == j {
          ReachInSelf(adj, x);
        } else {
          assert ReachesOpen(adj, order, gray, stack[i]);
          var g :| g in gray && Reach(adj, stack[i], g);
          ReachTransitive(adj, stack[i], g, x);
        }
      }
    }
  }

  lemma OpenReachesOpen(adj: Adjacency, s: Search, x: Node)
    requires AllReachOpen(adj, s.order, s.stack, s.gray) && x !in s.order
    ensures var t := Opened(s, x); AllReachOpen(adj, t.order, t.stack, t.gray)
  {
    var t := Opened(s, x);
    forall y | y in t.stack ensures ReachesOpen(adj, t.order, t.gray, y) {
      if y == x {
        ReachInSelf(adj, x);
        assert x in t.gray && t.order[x] <= t.order[x];
      } else {
        assert ReachesOpen(adj, s.order, s.gray, y);
        var g :| g in s.gray && g in s.order && s.order[g] <= s.order[y] && Reach(adj, y, g);
        assert g in t.gray && t.order[g] <= t.order[y];
      }
    }
  }

  lemma OpenLinks(adj: Adjacency, s: Search, x: Node)
    requires LowsLinked(adj, s.order, s.low, s.stack) && x !in s.order
    ensures var t := Opened(s, x); LowsLinked(adj, t.order, t.low, t.stack)
  {
    var t := Opened(s, x);
    forall y | y in t.stack ensures LowLinked(adj, t.order, t.low, t.stack, y) {
      if y == x {
        ReachInSelf(adj, x);
        assert x in t.stack && t.order[x] == s.counter;
      } else {
        assert LowLinked(adj, s.order, s.low, s.stack, y);
        var z :| z in s.stack && z in s.order && s.order[z] == s.low[y] && Reach(adj, y, z);
        assert z in t.stack && t.order[z] == t.low[y];
      }
    }
  }

  /** Numbering and pushing a node that every open call can reach. */
  lemma OpenKeepsInvariant(adj: Adjacency, s: Search, x: Node)
    requires Invariant(adj, s) && x !in s.order
    requires forall n | n in s.order :: s.order[n] < s.counter
    requires forall g | g in s.gray :: Reach(adj, g, x)
    ensures Invariant(adj, Opened(s, x))
  {
    var t := Opened(s, x);
    assert forall i | 0 <= i < |s.stack| :: s.stack[i] in s.order;
    OpenChains(adj, s.order, s.stack, s.gray, x);
    OpenReachesOpen(adj, s, x);
    OpenLinks(adj, s, x);
    assert Done(t.order, t.stack) == Done(s.order, s.stack);
  }

  /** Lowering the link of a node to the number of a stack node it reaches. */
  lemma LowerKeepsInvariant(adj: Adjacency, s: Search, x: Node, z: Node)
    requires Invariant(adj, s) && x in s.stack && z in s.stack && Reach(adj, x, z)
    requires z in s.order && x in s.low && s.order[z] <= s.low[x]
    ensures Invariant(adj, s.(low := s.low[x := s.order[z]]))
  {
    LowerLinks(adj, s.order, s.low, s.stack, x, z);
  }

  lemma LowerLinks(adj: Adjacency, order: Numbers, low: Numbers, stack: seq<Node>, x: Node, z: Node)
    requires LowsLinked(adj, order, low, stack) && x in stack && z in stack && Reach(adj, x, z)
    requires z in order && x in low && order[z] <= low[x]
    ensures LowsLinked(adj, order, low[x := order[z]], stack)
  {
    forall y | y in stack ensures LowLinked(adj, order, low[x := order[z]], stack, y) {
      assert LowLinked(adj, order, low, stack, y);
      if y == x { assert Witnessed(adj, order, stack, x, order[z]); }
    }
  }

  /** Returning from a node whose link is below its own number: whatever reached
      an open call through it still reaches one further down. */
  lemma ReturnKeepsInvariant(adj: Adjacency, s: Search, x: Node)
    requires Invariant(adj, s) && x in s.gray && x in s.low && x in s.order && s.low[x] < s.order[x]
    requires forall v | v in Succ(adj, x) :: v in s.order
    ensures Invariant(adj, s.(gray := s.gray - {x}))
  {
    ReturnReachesOpen(adj, s.order, s.low, s.stack, s.gray, x);
  }

  lemma ReturnReachesOpen(adj: Adjacency, order: Numbers, low: Numbers, stack: seq<Node>, gray: set<Node>, x: Node)
    requires AllReachOpen(adj, order, stack, gray) && LowsLinked(adj, order, low, stack)
    requires x in stack && x in low && x in order && low[x] < order[x]
    ensures AllReachOpen(adj, order, stack, gray - {x})
  {
    assert LowLinked(adj, order, low, stack, x);
    var z :| z in stack && z in order && order[z] == low[x] && Reach(adj, x, z);
    assert ReachesOpen(adj, order, gray, z);
    var h :| h in gray && h in order && order[h] <= order[z] && Reach(adj, z, h);
    ReachTransitive(adj, x, z, h);
    forall y | y in stack ensures ReachesOpen(adj, order, gray - {x}, y) {
      assert ReachesOpen(adj, order, gray, y);
      var g :| g in gray && g in order && order[g] <= order[y] && Reach(adj, y, g);
      if g == x {
        ReachTransitive(adj, y, x, h);
        assert h in gray - {x} && order[h] <= order[y];
      } else {
        assert g in gray - {x};
      }
    }
  }

  // ---- popping a component ---------------------------------------------------

  /** The situation in which `connect` pops: the node at position `k` is its own
      link, it is the only open call from there up, and no edge escapes below. */
  ghost predicate AtRoot(adj: Adjacency, s: Search, k: nat) {
    && Invariant(adj, s)
    && k < |s.stack|
    && s.stack[k] in s.gray
    && s.stack[k] in s.order
    && (forall i | k < i < |s.stack| :: s.stack[i] !in s.gray)
    && (forall v | v in Succ(adj, s.stack[k]) :: v in s.order)
    && Escapes(adj, s.order, s.stack, k, k, s.order[s.stack[k]])
  }

  ghost function Cut(s: Search, k: nat): Search
    requires k < |s.stack|
  {
    s.(stack := s.stack[..k], gray := s.gray - {s.stack[k]})
  }

  /** The end of `connect` at a root: the stack is cut, and its top comes off sorted. */
  ghost function Popped(s: Search, k: nat): Search
    requires k < |s.stack|
  {
    StringLeOrder();
    Cut(s, k).(onStack := map n | n in s.onStack :: s.onStack[n] && n !in s.stack[k..],
               components := WithCycle(s.components, SortBy(Reversed(s.stack[k..]), StringLe)))
  }

  lemma SuffixApart(order: Numbers, stack: seq<Node>, k: nat)
    requires Increasing(order, stack) && k <= |stack|
    ensures forall n | n in stack[k..] :: n in stack && n in order && n !in stack[..k]
    ensures forall n | n in stack :: n in stack[..k] || n in stack[k..]
    ensures Done(order, stack[..k]) == Done(order, stack) + (set n | n in stack[k..])
  {
    forall n | n in stack[k..] ensures n in stack && n in order && n !in stack[..k] {
      var j :| k <= j < |stack| && stack[j] == n;
      forall i | 0 <= i < k ensures stack[i] != n {
        assert order[stack[i]] < order[stack[j]];
      }
    }
    assert stack == stack[..k] + stack[k..];
  }

  lemma DoneAfterPop(adj: Adjacency, s: Search, k: nat)
    requires AtRoot(adj, s, k)
    ensures Closed(adj, Done(s.order, s.stack[..k]))
  {
    var old_, new_ := Done(s.order, s.stack), Done(s.order, s.stack[..k]);
    SuffixApart(s.order, s.stack, k);
    forall n, v | n in new_ && v in Succ(adj, n) ensures v in new_ {
      if n !in old_ {
        var j :| k <= j < |s.stack| && s.stack[j] == n;
        assert j == k || s.stack[j] !in s.gray;
        assert v in s.order;
        BelowIsSmaller(s.order, s.stack, k, v);
      }
    }
  }

  lemma BelowIsSmaller(order: Numbers, stack: seq<Node>, k: nat, v: Node)
    requires Increasing(order, stack) && k < |stack|
    ensures v in stack[..k] ==> v in order && order[v] < order[stack[k]]
  {
    if v in stack[..k] {
      var i :| 0 <= i < k && stack[i] == v;
      assert order[stack[i]] < order[stack[k]];
    }
  }

  /** Every node above the root reaches the root again. */
  lemma SuffixReachesRoot(adj: Adjacency, s: Search, k: nat, j: nat)
    requires AtRoot(adj, s, k) && k <= j < |s.stack|
    ensures Mutual(adj, s.stack[k], s.stack[j])
  {
    var root, y := s.stack[k], s.stack[j];
    var done' := Done(s.order, s.stack[..k]);
    assert Reach(adj, root, y);
    assert y in s.stack;
    assert ReachesOpen(adj, s.order, s.gray, y);
    var g :| g in s.gray && g in s.order && s.order[g] <= s.order[y] && Reach(adj, y, g);
    DoneAfterPop(adj, s, k);
    SuffixApart(s.order, s.stack, k);
    assert y in s.stack[k..];
    ClosedTrapsReach(adj, done', y, g);
    assert g in s.stack[k..];
    var m :| k <= m < |s.stack| && s.stack[m] == g;
    assert m == k;
  }

  /** The suffix popped at a root is a whole strongly connected component. */
  lemma PoppedIsComponent(adj: Adjacency, s: Search, k: nat)
    requires AtRoot(adj, s, k)
    ensures IsComponent(adj, s.stack[k..])
  {
    var root, c := s.stack[k], s.stack[k..];
    forall y | y in c ensures Mutual(adj, root, y) {
      var j :| k <= j < |s.stack| && s.stack[j] == y;
      SuffixReachesRoot(adj, s, k, j);
    }
    forall x, y | x in c ensures y in c <==> Mutual(adj, x, y) {
      if y in c {
        ReachTransitive(adj, x, root, y);
        ReachTransitive(adj, y, root, x);
      }
      if Mutual(adj, x, y) { MutualStaysIn(adj, s, k, x, y); }
    }
  }

  lemma MutualStaysIn(adj: Adjacency, s: Search, k: nat, x: Node, y: Node)
    requires AtRoot(adj, s, k) && x in s.stack[k..] && Mutual(adj, x, y)
    ensures y in s.stack[k..]
  {
    DoneAfterPop(adj, s, k);
    SuffixApart(s.order, s.stack, k);
    ClosedTrapsReach(adj, Done(s.order, s.stack[..k]), x, y);
    if y in Done(s.order, s.stack) { ClosedTrapsReach(adj, Done(s.order, s.stack), y, x); }
  }

  lemma NotAbove(order: Numbers, stack: seq<Node>, m: nat, i: nat)
    requires Increasing(order, stack) && m < |stack| && i < |stack|
    requires order[stack[m]] <= order[stack[i]]
    ensures m <= i
  {
  }

  lemma PopLinks(adj: Adjacency, order: Numbers, low: Numbers, stack: seq<Node>, k: nat)
    requires Increasing(order, stack) && LowsLinked(adj, order, low, stack) && k <= |stack|
    ensures LowsLinked(adj, order, low, stack[..k])
  {
    forall y | y in stack[..k] ensures LowLinked(adj, order, low, stack[..k], y) {
      assert LowLinked(adj, order, low, stack, y);
      var z :| z in stack && z in order && order[z] == low[y] && Reach(adj, y, z);
      var i :| 0 <= i < k && stack[i] == y;
      var m :| 0 <= m < |stack| && stack[m] == z;
      NotAbove(order, stack, m, i);
      assert stack[..k][m] == z;
    }
  }

  lemma PopReachesOpen(adj: Adjacency, order: Numbers, stack: seq<Node>, gray: set<Node>, k: nat)
    requires Increasing(order, stack) && AllReachOpen(adj, order, stack, gray) && k < |stack|
    ensures AllReachOpen(adj, order, stack[..k], gray - {stack[k]})
  {
    forall y | y in stack[..k] ensures ReachesOpen(adj, order, gray - {stack[k]}, y) {
      BelowIsSmaller(order, stack, k, y);
      assert ReachesOpen(adj, order, gray, y);
      var g :| g in gray && g in order && order[g] <= order[y] && Reach(adj, y, g);
      assert g in gray - {stack[k]};
    }
  }

  lemma PrefixKept(adj: Adjacency, order: Numbers, stack: seq<Node>, k: nat)
    requires Increasing(order, stack) && Chained(adj, stack) && k <= |stack|
    ensures Increasing(order, stack[..k]) && Chained(adj, stack[..k])
  {
  }

  lemma GrayBelow(stack: seq<Node>, gray: set<Node>, k: nat)
    requires k < |stack| && (forall g | g in gray :: g in stack) && forall i | k < i < |stack| :: stack[i] !in gray
    ensures forall g | g in gray - {stack[k]} :: g in stack[..k]
  {
    forall g | g in gray - {stack[k]} ensures g in stack[..k] {
      var i :| 0 <= i < |stack| && stack[i] == g;
      assert stack[..k][i] == g;
    }
  }

  lemma EdgesStayNumbered(adj: Adjacency, order: Numbers, gray: set<Node>, root: Node)
    requires EdgesNumbered(adj, order, gray) && forall v | v in Succ(adj, root) :: v in order
    ensures EdgesNumbered(adj, order, gray - {root})
  {
  }

  lemma PopKeepsInvariant(adj: Adjacency, s: Search, k: nat)
    requires AtRoot(adj, s, k)
    ensures Invariant(adj, Cut(s, k))
  {
    DoneAfterPop(adj, s, k);
    hide Closed, EdgesNumbered, Increasing, Chained, Escapes, AllReachOpen, LowsLinked, Done, Succ;
    PrefixKept(adj, s.order, s.stack, k);
    GrayBelow(s.stack, s.gray, k);
    EdgesStayNumbered(adj, s.order, s.gray, s.stack[k]);
    PopLinks(adj, s.order, s.low, s.stack, k);
    PopReachesOpen(adj, s.order, s.stack, s.gray, k);
  }

  lemma SortedComponent(order: Numbers, stack: seq<Node>, k: nat)
    requires Increasing(order, stack) && k <= |stack|
    ensures TotalPreorder(StringLe)
    ensures var c := SortBy(Reversed(stack[k..]), StringLe);
      Ascending(c) && |c| == |stack| - k && forall n :: n in c <==> n in stack[k..]
  {
    StringLeOrder();
    var r := Reversed(stack[k..]);
    var c := SortBy(r, StringLe);
    SortKeepsElements(r, StringLe);
    ReversedAt(stack[k..]);
    assert Distinct(r) by {
      forall i, j | 0 <= i < j < |r| ensures r[i] != r[j] {
        assert order[stack[|stack| - 1 - j]] < order[stack[|stack| - 1 - i]];
      }
    }
    DistinctKept(r, c);
    AscendingIs(c);
  }

  ghost function WithCycle(cs: seq<seq<Node>>, c: seq<Node>): seq<seq<Node>> {
    if |c| > 1 then cs + [c] else cs
  }

  /** Adding the popped component (when it is a cycle) keeps the report right. */
  lemma PopKeepsReport(adj: Adjacency, s: Search, k: nat, cs: seq<seq<Node>>, c: seq<Node>)
    requires AtRoot(adj, s, k) && ReportFor(adj, Done(s.order, s.stack), cs)
    requires Ascending(c) && |c| == |s.stack| - k && forall n :: n in c <==> n in s.stack[k..]
    ensures ReportFor(adj, Done(s.order, s.stack[..k]), WithCycle(cs, c))
  {
    PoppedIsComponent(adj, s, k);
    assert IsComponent(adj, c);
    SuffixApart(s.order, s.stack, k);
    GrowReport(adj, Done(s.order, s.stack), Done(s.order, s.stack[..k]), cs, c);
  }

  lemma GrowReport(adj: Adjacency, done: set<Node>, done': set<Node>, cs: seq<seq<Node>>, c: seq<Node>)
    requires ReportFor(adj, done, cs) && Closed(adj, done)
    requires done' == done + (set n | n in c) && forall n | n in c :: n !in done
    requires Ascending(c) && IsComponent(adj, c)
    ensures ReportFor(adj, done', WithCycle(cs, c))
  {
    var cs' := WithCycle(cs, c);
    forall x, y | x in done' && x != y && Mutual(adj, x, y) ensures Listed(cs', x) {
      if x in done {
        var i :| 0 <= i < |cs| && x in cs[i];
        assert x in cs'[i];
      } else {
        TwoMembers(c, x, y);
        assert x in cs'[|cs|];
      }
    }
    forall i, j, x, y | 0 <= i < j < |cs'| && x in cs'[i] && y in cs'[j] ensures !Reach(adj, x, y) {
      if j == |cs| {
        assert cs[i] in cs && x in done;
        if Reach(adj, x, y) { ClosedTrapsReach(adj, done, x, y); }
      }
    }
  }

  lemma TwoMembers(c: seq<Node>, x: Node, y: Node)
    requires x in c && y in c && x != y
    ensures |c| > 1
  {
    var i, j :| 0 <= i < |c| && 0 <= j < |c| && c[i] == x && c[j] == y;
  }

  function Reversed<T>(s: seq<T>): (r: seq<T>)
    ensures multiset(r) == multiset(s)
  {
    if s == [] then []
    else
      assert s == [s[0]] + s[1..];
      Reversed(s[1..]) + [s[0]]
  }

  lemma {:induction false} ReversedAt<T>(s: seq<T>)
    ensures |Reversed(s)| == |s|
    ensures forall i | 0 <= i < |s| :: Reversed(s)[i] == s[|s| - 1 - i]
    ensures forall x :: x in Reversed(s) <==> x in s
    decreases |s|
  {
    if s != [] { ReversedAt(s[1..]); }
    SameMembers(Reversed(s), s);
  }

  lemma ReversedGrows<T>(s: seq<T>, m: nat)
    requires m < |s|
    ensures Reversed(s[m..]) == Reversed(s[m + 1..]) + [s[m]]
    ensures Reversed<T>([]) == []
  {
    assert s[m..][1..] == s[m + 1..];
  }
}
