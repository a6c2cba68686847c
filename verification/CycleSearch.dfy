/** Import-cycle detection: Tarjan's strongly connected components
    (src/limpiador/tools/ast_tools.py, `_strongly_connected` and `_pop_component`). */
module CycleSearch {
  import opened Graphs
  import opened Sorting
  import opened Cycles
  import opened CycleInvariant

  // ---- everything the search keeps true ---------------------------------------

  ghost predicate Good(adj: Adjacency, nodes: set<Node>, s: Search) {
    && Invariant(adj, s)
    && s.low.Keys == s.order.Keys == s.onStack.Keys
    && (forall n | n in s.onStack :: s.onStack[n] <==> n in s.stack)
    && (forall n | n in s.order :: s.order[n] < s.counter)
    && s.order.Keys <= nodes && Closed(adj, nodes)
    && ReportFor(adj, Done(s.order, s.stack), s.components)
  }

  /** Between two moments of the run numbers stay, and the stack only grows above. */
  ghost predicate Grown(s: Search, t: Search) {
    Kept(s.order, t.order) && s.stack <= t.stack && s.gray == t.gray
  }

  ghost predicate KeptBut(x: Node, before: Numbers, after: Numbers) {
    forall n | n in before && n != x :: n in after && after[n] == before[n]
  }

  /** The open node at position `k` has followed its first `i` successors. */
  ghost predicate Followed(adj: Adjacency, s: Search, k: nat, i: nat) {
    && k < |s.stack|
    && var x := s.stack[k];
    && x in s.gray && x in s.order && x in s.low
    && i <= |Succ(adj, x)|
    && (forall g | g in s.gray :: g in s.stack[..k + 1])
    && Escapes(adj, s.order, s.stack, k + 1, k, s.low[x])
    && (forall m | 0 <= m < i :: Succ(adj, x)[m] in s.order)
    && (forall m | 0 <= m < i && Succ(adj, x)[m] in s.stack[..k] :: s.low[x] <= s.order[Succ(adj, x)[m]])
  }

  ghost predicate AllSuccessorsFollowed(adj: Adjacency, s: Search, k: nat) {
    k < |s.stack| && Followed(adj, s, k, |Succ(adj, s.stack[k])|)
  }

  lemma OpenGood(adj: Adjacency, nodes: set<Node>, s: Search, x: Node)
    requires Good(adj, nodes, s)
    requires x !in s.order && x in nodes && forall g | g in s.gray :: Reach(adj, g, x)
    ensures Good(adj, nodes, Opened(s, x))
  {
    var t := Opened(s, x);
    OpenKeepsInvariant(adj, s, x);
    NotBelow(s.order, s.stack, |s.stack|, x);
    assert Done(t.order, t.stack) == Done(s.order, s.stack);
  }

  lemma OpenStarts(adj: Adjacency, nodes: set<Node>, s: Search, x: Node)
    requires Good(adj, nodes, s) && x !in s.order
    ensures Followed(adj, Opened(s, x), |s.stack|, 0)
    ensures Inside(s, Opened(s, x), x, s.counter)
  {
    hide Chained, EdgesNumbered, AllReachOpen, LowsLinked, Closed, ReportFor;
    var t := Opened(s, x);
    NotBelow(s.order, s.stack, |s.stack|, x);
    assert t.stack[..|s.stack| + 1] == t.stack;
  }

  // ---- following one successor -----------------------------------------------

  lemma EscapesAfterCall(adj: Adjacency, order0: Numbers, stack0: seq<Node>, order1: Numbers, stack1: seq<Node>,
                         k: nat, bound0: nat, bound1: nat, bound: nat)
    requires k < |stack0| && stack0 <= stack1 && Kept(order0, order1)
    requires forall i | 0 <= i < |stack0| :: stack0[i] in order0
    requires Escapes(adj, order0, stack0, k + 1, k, bound0)
    requires Escapes(adj, order1, stack1, |stack0|, |stack0|, bound1)
    requires bound <= bound0 && bound <= bound1
    ensures Escapes(adj, order1, stack1, k + 1, k, bound)
  {
    forall i, v | k + 1 <= i < |stack1| && v in Succ(adj, stack1[i]) && v in stack1[..k] && v in order1
      ensures bound <= order1[v]
    {
      var m :| 0 <= m < k && stack1[m] == v;
      assert stack0[m] == v;
      if i < |stack0| {
        assert stack0[i] == stack1[i] && v in stack0[..k];
      } else {
        assert v in stack1[..|stack0|];
      }
    }
  }

  function Min(a: nat, b: nat): (m: nat)
    ensures m <= a && m <= b && (m == a || m == b)
  {
    if a <= b then a else b
  }

  ghost function Lowered(s: Search, x: Node, bound: nat): Search
    requires x in s.low
  {
    s.(low := s.low[x := Min(s.low[x], bound)])
  }

  lemma LinkToStack(adj: Adjacency, s: Search, x: Node, z: Node)
    requires Invariant(adj, s) && x in s.stack && z in s.stack && Reach(adj, x, z)
    requires x in s.low && z in s.order
    ensures Invariant(adj, Lowered(s, x, s.order[z]))
  {
    if s.order[z] <= s.low[x] {
      LowerKeepsInvariant(adj, s, x, z);
    } else {
      assert s.low[x := s.low[x]] == s.low;
    }
  }

  /** Taking over the link of a finished call: if the child is still on the stack
      its link names a stack node, and if it was popped the link is too large. */
  lemma LinkThroughChild(adj: Adjacency, s: Search, x: Node, child: Node)
    requires Invariant(adj, s) && x in s.stack && Reach(adj, x, child)
    requires x in s.low && child in s.low && x in s.order && child in s.order
    requires child !in s.stack ==> s.low[x] <= s.low[child]
    ensures Invariant(adj, Lowered(s, x, s.low[child]))
  {
    if child in s.stack {
      assert LowLinked(adj, s.order, s.low, s.stack, child);
      var z :| z in s.stack && z in s.order && s.order[z] == s.low[child] && Reach(adj, child, z);
      ReachTransitive(adj, x, child, z);
      LinkToStack(adj, s, x, z);
    } else {
      assert s.low[x := s.low[x]] == s.low;
    }
  }

  lemma NodeFollowed(adj: Adjacency, nodes: set<Node>, s: Search, k: nat, i: nat)
    requires Good(adj, nodes, s) && Followed(adj, s, k, i)
    ensures s.stack[k] in s.low && s.stack[k] in s.order
    ensures forall n | n in s.order :: n in s.onStack && (s.onStack[n] <==> n in s.stack)
    ensures s.order.Keys <= nodes
  {
  }

  /** Before the recursive call: the successor may be opened. */
  lemma ReadyToCall(adj: Adjacency, nodes: set<Node>, s: Search, k: nat, i: nat)
    requires Good(adj, nodes, s)
    requires Followed(adj, s, k, i) && i < |Succ(adj, s.stack[k])|
    ensures Succ(adj, s.stack[k])[i] in nodes
    ensures forall g | g in s.gray :: Reach(adj, g, Succ(adj, s.stack[k])[i])
    ensures s.low[s.stack[k]] <= s.order[s.stack[k]] < s.counter
  {
    var x, v := s.stack[k], Succ(adj, s.stack[k])[i];
    assert x in s.stack && v in Succ(adj, x);
    assert LowLinked(adj, s.order, s.low, s.stack, x);
    forall g | g in s.gray ensures Reach(adj, g, v) {
      var j :| 0 <= j <= k && s.stack[j] == g;
      assert Reach(adj, s.stack[j], s.stack[k]);
      ReachStep(adj, g, x, v);
    }
  }

  /** After the recursive call: the child's link is folded into the parent's. */
  lemma FollowCalled(adj: Adjacency, nodes: set<Node>, s: Search, t: Search, k: nat, i: nat)
    requires Good(adj, nodes, s) && Followed(adj, s, k, i) && i < |Succ(adj, s.stack[k])|
    requires s.low[s.stack[k]] <= s.order[s.stack[k]]
    requires Good(adj, nodes, t)
    requires Grown(s, t) && Kept(s.low, t.low)
    requires var v := Succ(adj, s.stack[k])[i];
      && v !in s.order && v in t.order && v in t.low
      && (v !in t.stack ==> t.low[v] == t.order[v] && s.order[s.stack[k]] < t.order[v])
      && Escapes(adj, t.order, t.stack, |s.stack|, |s.stack|, t.low[v])
    ensures var x, v := s.stack[k], Succ(adj, s.stack[k])[i];
      && Good(adj, nodes, Lowered(t, x, t.low[v]))
      && Followed(adj, Lowered(t, x, t.low[v]), k, i + 1)
  {
    var x, v := s.stack[k], Succ(adj, s.stack[k])[i];
    CalledInvariant(adj, s, t, k, v);
    LoweredGood(adj, nodes, t, x, t.low[v]);
    CalledFollowed(adj, s, t, k, i);
  }

  lemma CalledInvariant(adj: Adjacency, s: Search, t: Search, k: nat, v: Node)
    requires k < |s.stack| && v in Succ(adj, s.stack[k]) && s.stack <= t.stack && Invariant(adj, t)
    requires s.stack[k] in t.order && s.stack[k] in t.low && v in t.order && v in t.low
    requires v !in t.stack ==> t.low[s.stack[k]] <= t.low[v]
    ensures Invariant(adj, Lowered(t, s.stack[k], t.low[v]))
  {
    var x := s.stack[k];
    assert t.stack[k] == x;
    ReachInSelf(adj, x);
    ReachStep(adj, x, x, v);
    LinkThroughChild(adj, t, x, v);
  }

  lemma CalledFollowed(adj: Adjacency, s: Search, t: Search, k: nat, i: nat)
    requires Increasing(s.order, s.stack) && Followed(adj, s, k, i) && i < |Succ(adj, s.stack[k])|
    requires Grown(s, t) && Kept(s.low, t.low)
    requires var v := Succ(adj, s.stack[k])[i];
      && v !in s.order && v in t.order && v in t.low
      && Escapes(adj, t.order, t.stack, |s.stack|, |s.stack|, t.low[v])
    ensures Followed(adj, Lowered(t, s.stack[k], t.low[Succ(adj, s.stack[k])[i]]), k, i + 1)
  {
    hide Escapes, Increasing, Succ;
    var x, v := s.stack[k], Succ(adj, s.stack[k])[i];
    SamePrefix(s.stack, t.stack, k);
    StackPrefixNumbered(s.order, s.stack, |s.stack|);
    StackPrefixNumbered(s.order, s.stack, k);
    EscapesAfterCall(adj, s.order, s.stack, t.order, t.stack, k, s.low[x], t.low[v], Min(t.low[x], t.low[v]));
    NotBelow(s.order, s.stack, k, v);
  }

  lemma SamePrefix(a: seq<Node>, b: seq<Node>, k: nat)
    requires a <= b && k < |a|
    ensures b[k] == a[k] && b[..k] == a[..k] && b[..k + 1] == a[..k + 1]
  {
  }

  lemma StackPrefixNumbered(order: Numbers, stack: seq<Node>, k: nat)
    requires Increasing(order, stack) && k <= |stack|
    ensures forall n | n in stack[..k] :: n in order
    ensures forall i | 0 <= i < k :: stack[i] in order
  {
  }

  lemma LoweredGood(adj: Adjacency, nodes: set<Node>, s: Search, x: Node, bound: nat)
    requires Good(adj, nodes, s) && x in s.low
    requires Invariant(adj, Lowered(s, x, bound))
    ensures Good(adj, nodes, Lowered(s, x, bound))
  {
    hide Invariant, ReportFor, Closed;
    assert Lowered(s, x, bound).low.Keys == s.low.Keys;
  }

  lemma NotBelow(order: Numbers, stack: seq<Node>, k: nat, v: Node)
    requires Increasing(order, stack) && k <= |stack| && v !in order
    ensures v !in stack && v !in stack[..k]
  {
  }

  lemma EscapesWeaker(adj: Adjacency, order: Numbers, stack: seq<Node>, from: nat, k: nat, bound0: nat, bound: nat)
    requires k <= |stack| && Escapes(adj, order, stack, from, k, bound0) && bound <= bound0
    ensures Escapes(adj, order, stack, from, k, bound)
  {
  }

  /** A successor that is already numbered and still on the stack. */
  lemma FollowStacked(adj: Adjacency, nodes: set<Node>, s: Search, k: nat, i: nat)
    requires Good(adj, nodes, s)
    requires Followed(adj, s, k, i) && i < |Succ(adj, s.stack[k])|
    requires Succ(adj, s.stack[k])[i] in s.stack && Succ(adj, s.stack[k])[i] in s.order
    ensures var x, v := s.stack[k], Succ(adj, s.stack[k])[i];
      && Good(adj, nodes, Lowered(s, x, s.order[v]))
      && Followed(adj, Lowered(s, x, s.order[v]), k, i + 1)
  {
    var x, v := s.stack[k], Succ(adj, s.stack[k])[i];
    assert x in s.stack;
    ReachInSelf(adj, x);
    ReachStep(adj, x, x, v);
    LinkToStack(adj, s, x, v);
    LoweredGood(adj, nodes, s, x, s.order[v]);
    EscapesWeaker(adj, s.order, s.stack, k + 1, k, s.low[x], Min(s.low[x], s.order[v]));
    StackedFollowed(adj, s, k, i);
  }

  lemma StackedFollowed(adj: Adjacency, s: Search, k: nat, i: nat)
    requires Followed(adj, s, k, i) && i < |Succ(adj, s.stack[k])| && Succ(adj, s.stack[k])[i] in s.order
    ensures Followed(adj, Lowered(s, s.stack[k], s.order[Succ(adj, s.stack[k])[i]]), k, i + 1)
  {
  }

  /** A successor whose component was popped earlier changes nothing. */
  lemma FollowDone(adj: Adjacency, s: Search, k: nat, i: nat)
    requires Followed(adj, s, k, i) && i < |Succ(adj, s.stack[k])|
    requires Succ(adj, s.stack[k])[i] in s.order && Succ(adj, s.stack[k])[i] !in s.stack
    ensures Followed(adj, s, k, i + 1)
  {
    assert forall v | v in s.stack[..k] :: v in s.stack;
  }

  // ---- the end of a call ------------------------------------------------------

  lemma EscapesWithRoot(adj: Adjacency, order: Numbers, stack: seq<Node>, k: nat, bound: nat)
    requires k < |stack| && Escapes(adj, order, stack, k + 1, k, bound)
    requires forall v | v in Succ(adj, stack[k]) && v in stack[..k] && v in order :: bound <= order[v]
    ensures Escapes(adj, order, stack, k, k, bound)
  {
  }

  lemma AllFollowed(adj: Adjacency, s: Search, k: nat)
    requires Invariant(adj, s) && AllSuccessorsFollowed(adj, s, k)
    ensures s.low[s.stack[k]] <= s.order[s.stack[k]]
    ensures s.low[s.stack[k]] == s.order[s.stack[k]] ==> AtRoot(adj, s, k)
    ensures Escapes(adj, s.order, s.stack, k, k, s.low[s.stack[k]])
    ensures forall v | v in Succ(adj, s.stack[k]) :: v in s.order
  {
    var x := s.stack[k];
    assert x in s.stack;
    assert LowLinked(adj, s.order, s.low, s.stack, x);
    forall v | v in Succ(adj, x) ensures v in s.order && (v in s.stack[..k] ==> s.low[x] <= s.order[v]) {
      var m :| 0 <= m < |Succ(adj, x)| && Succ(adj, x)[m] == v;
    }
    EscapesWithRoot(adj, s.order, s.stack, k, s.low[x]);
    SuffixApart(s.order, s.stack, k + 1);
    forall i | k < i < |s.stack| ensures s.stack[i] !in s.gray {
      assert s.stack[i] in s.stack[k + 1..];
    }
  }

  lemma ReturnGood(adj: Adjacency, nodes: set<Node>, s: Search, k: nat)
    requires Good(adj, nodes, s)
    requires AllSuccessorsFollowed(adj, s, k) && s.low[s.stack[k]] != s.order[s.stack[k]]
    ensures Good(adj, nodes, s.(gray := s.gray - {s.stack[k]}))
    ensures Escapes(adj, s.order, s.stack, k, k, s.low[s.stack[k]])
    ensures s.stack[k] in s.stack
  {
    AllFollowed(adj, s, k);
    ReturnKeepsInvariant(adj, s, s.stack[k]);
  }

  lemma ReadyToPop(adj: Adjacency, nodes: set<Node>, s: Search, k: nat)
    requires Good(adj, nodes, s)
    requires AllSuccessorsFollowed(adj, s, k) && s.low[s.stack[k]] == s.order[s.stack[k]]
    ensures AtRoot(adj, s, k)
    ensures forall j | k < j < |s.stack| :: s.stack[j] != s.stack[k]
    ensures forall n | n in s.stack :: n in s.onStack
  {
    AllFollowed(adj, s, k);
    SuffixApart(s.order, s.stack, k + 1);
    assert forall i | 0 <= i < |s.stack| :: s.stack[i] in s.order;
  }

  lemma PopGood(adj: Adjacency, nodes: set<Node>, s: Search, k: nat)
    requires Good(adj, nodes, s) && AtRoot(adj, s, k)
    ensures Good(adj, nodes, Popped(s, k))
  {
    SortedComponent(s.order, s.stack, k);
    PopKeepsInvariant(adj, s, k);
    PopKeepsReport(adj, s, k, s.components, SortBy(Reversed(s.stack[k..]), StringLe));
    SuffixApart(s.order, s.stack, k);
  }

  /** What the pop loop and the lines after it leave is the popped search. */
  lemma PoppedIs(s: Search, k: nat, component: seq<Node>, onStack: map<Node, bool>)
    requires k < |s.stack| && component == Reversed(s.stack[k..]) && onStack.Keys == s.onStack.Keys
    requires forall n | n in onStack :: onStack[n] <==> s.onStack[n] && n !in component
    ensures TotalPreorder(StringLe)
    ensures var c := SortBy(component, StringLe);
      |c| == |component| &&
      Popped(s, k) == Search(s.order, s.low, s.stack[..k], s.gray - {s.stack[k]}, onStack, s.counter,
                             WithCycle(s.components, c))
  {
    hide Reversed, SortBy, WithCycle, StringLe, Sorted, TotalPreorder;
    StringLeOrder();
    SortKeepsElements(component, StringLe);
    ReversedAt(s.stack[k..]);
    assert onStack == Popped(s, k).onStack;
  }

  /** `t` is a moment inside the call on `x` that was entered in `s`. */
  ghost predicate Inside(s: Search, t: Search, x: Node, number: nat) {
    && Kept(s.order, t.order) && Kept(s.low, t.low)
    && t.gray == s.gray + {x} && s.stack + [x] <= t.stack
    && x in t.order && t.order[x] == number && x in t.low
    && x !in s.low && x !in s.gray
  }

  lemma InsideGrows(s: Search, t: Search, u: Search, x: Node, number: nat)
    requires Inside(s, t, x, number) && Grown(t, u) && KeptBut(x, t.low, u.low) && x in u.low
    ensures Inside(s, u, x, number)
  {
  }

  lemma InsideFacts(s: Search, t: Search, x: Node, number: nat)
    requires Inside(s, t, x, number)
    ensures |t.stack| > |s.stack| && t.stack[|s.stack|] == x && t.stack[..|s.stack|] == s.stack
    ensures x in t.order && x in t.low && t.order[x] == number
    ensures t.gray - {x} == s.gray && s.stack <= t.stack
    ensures Kept(s.order, t.order) && Kept(s.low, t.low)
  {
  }

  lemma EscapesNothing(adj: Adjacency, order: Numbers, stack: seq<Node>, bound: nat)
    ensures Escapes(adj, order, stack, |stack|, |stack|, bound)
  {
  }

  /** The state shared by the nested functions of the search. */
  class Tarjan {
    const adj: Adjacency
    var order: Numbers
    var low: Numbers
    var onStack: map<Node, bool>
    var stack: seq<Node>
    var components: seq<seq<Node>>
    var counter: nat
    ghost var gray: set<Node>
    ghost const nodes: set<Node>

    ghost function Bookkeeping(): Search
      reads this
    {
      Search(order, low, stack, gray, onStack, counter, components)
    }

    ghost predicate Valid()
      reads this
    {
      Good(adj, nodes, Bookkeeping())
    }

    constructor (adj: Adjacency)
      ensures Valid() && this.adj == adj && gray == {} && order == map[] && stack == []
      ensures forall n | n in adj :: n in nodes
    {
      this.adj := adj;
      order, low, onStack, stack, components, counter := map[], map[], map[], [], [], 0;
      gray := {};
      nodes := adj.Keys + (set n, v | n in adj && v in adj[n] :: v);
    }

    method Connect(node: Node)
      requires Valid() && node !in order && node in nodes
      requires forall g | g in gray :: Reach(adj, g, node)
      modifies this
      ensures Valid() && Grown(old(Bookkeeping()), Bookkeeping()) && Kept(old(low), low)
      ensures node in order && order[node] == old(counter) && node in low
      ensures node !in stack ==> low[node] == order[node]
      ensures Escapes(adj, order, stack, |old(stack)|, |old(stack)|, low[node])
      decreases nodes - order.Keys, 0
    {
      hide Good, Escapes, Reach, Followed, Succ, Kept, KeptBut, Inside;
      ghost var k, entered, number := |stack|, Bookkeeping(), counter;
      OpenGood(adj, nodes, entered, node);
      OpenStarts(adj, nodes, entered, node);
      order, low := order[node := counter], low[node := counter];
      counter := counter + 1;
      stack := stack + [node];
      onStack := onStack[node := true];
      gray := gray + {node};
      var successors := Succ(adj, node);
      for i := 0 to |successors|
        invariant Valid() && Followed(adj, Bookkeeping(), k, i)
        invariant Inside(entered, Bookkeeping(), node, number)
      {
        ghost var before := Bookkeeping();
        InsideFacts(entered, before, node, number);
        Follow(node, successors[i], k, i);
        InsideGrows(entered, before, Bookkeeping(), node, number);
      }
      InsideFacts(entered, Bookkeeping(), node, number);
      if low[node] == order[node] {
        CloseRoot(node, k);
        EscapesNothing(adj, order, stack, low[node]);
      } else {
        ReturnGood(adj, nodes, Bookkeeping(), k);
        gray := gray - {node};
      }
    }

    /** One successor of the open node `node`: the body of the loop in `connect`. */
    method Follow(node: Node, nxt: Node, ghost k: nat, ghost i: nat)
      requires Valid() && Followed(adj, Bookkeeping(), k, i) && stack[k] == node
      requires i < |Succ(adj, node)| && Succ(adj, node)[i] == nxt
      modifies this
      ensures Valid() && Followed(adj, Bookkeeping(), k, i + 1)
      ensures Grown(old(Bookkeeping()), Bookkeeping()) && KeptBut(node, old(low), low) && node in low
      decreases nodes - order.Keys, 1
    {
      hide Reach, Escapes, Good, Followed, Succ;
      ghost var s := Bookkeeping();
      NodeFollowed(adj, nodes, s, k, i);
      if nxt !in order {
        ReadyToCall(adj, nodes, s, k, i);
        Connect(nxt);
        FollowCalled(adj, nodes, s, Bookkeeping(), k, i);
        low := low[node := Min(low[node], low[nxt])];
      } else if onStack[nxt] {
        FollowStacked(adj, nodes, s, k, i);
        low := low[node := Min(low[node], order[nxt])];
      } else {
        FollowDone(adj, s, k, i);
      }
    }

    /** The end of `connect` for a node that is its own link. */
    method CloseRoot(node: Node, ghost k: nat)
      requires Valid() && AllSuccessorsFollowed(adj, Bookkeeping(), k) && stack[k] == node
      requires node in low && node in order && low[node] == order[node]
      modifies this`stack, this`onStack, this`components, this`gray
      ensures Valid() && stack == old(stack)[..k] && gray == old(gray) - {node}
    {
      hide Good, AtRoot, Followed, AllSuccessorsFollowed, Reversed, StringLe, SortBy, Sorted;
      ghost var s := Bookkeeping();
      ReadyToPop(adj, nodes, s, k);
      var component := PopComponent(node, k);
      gray := gray - {node};
      PopGood(adj, nodes, s, k);
      PoppedIs(s, k, component, onStack);
      if |component| > 1 {
        components := components + [SortBy(component, StringLe)];
      }
    }

    /** Pops everything down to and including `root`, which sits at position `k`. */
    method PopComponent(root: Node, ghost k: nat) returns (component: seq<Node>)
      requires k < |stack| && stack[k] == root && forall j | k < j < |stack| :: stack[j] != root
      requires forall n | n in stack :: n in onStack
      modifies this`stack, this`onStack
      ensures stack == old(stack)[..k]
      ensures component == Reversed(old(stack)[k..])
      ensures onStack.Keys == old(onStack).Keys
      ensures forall n | n in onStack :: onStack[n] <==> old(onStack)[n] && n !in component
    {
      hide Reversed;
      component := [];
      ghost var full := stack;
      ReversedGrows(full, k);
      while true
        invariant k < |stack| <= |full| && stack == full[..|stack|]
        invariant component == Reversed(full[|stack|..])
        invariant onStack.Keys == old(onStack).Keys
        invariant forall n | n in onStack :: onStack[n] <==> old(onStack)[n] && n !in component
        decreases |stack|
      {
        var node := stack[|stack| - 1];
        ReversedGrows(full, |stack| - 1);
        stack := stack[..|stack| - 1];
        onStack := onStack[node := false];
        component := component + [node];
        if node == root {
          return;
        }
      }
    }
  }

  /** `_strongly_connected`: `keys` is the order in which the dictionary is walked. */
  method StronglyConnected(adj: Adjacency, keys: seq<Node>) returns (components: seq<seq<Node>>)
    requires forall n :: n in keys <==> n in adj
    ensures CycleReport(adj, components)
    ensures forall i, j, k | 0 <= i < |components| && 0 <= j < k < |components[i]| ::
      Precedes(components[i][j], components[i][k])
  {
    hide Good, Escapes, Kept, Reach, CycleReport;
    var t := new Tarjan(adj);
    for i := 0 to |keys|
      invariant t.Valid() && fresh(t) && t.adj == adj && t.gray == {}
      invariant forall n | n in adj :: n in t.nodes
      invariant forall j | 0 <= j < i :: keys[j] in t.order
    {
      if keys[i] !in t.order {
        ghost var before := t.order;
        t.Connect(keys[i]);
        KeptKeys(before, t.order);
      }
    }
    AllDone(adj, t.nodes, t.Bookkeeping());
    components := t.components;
    EachAscending(adj, components);
  }

  lemma EachAscending(adj: Adjacency, cs: seq<seq<Node>>)
    requires CycleReport(adj, cs)
    ensures forall i, j, k | 0 <= i < |cs| && 0 <= j < k < |cs[i]| :: Precedes(cs[i][j], cs[i][k])
  {
    hide Precedes;
    forall i | 0 <= i < |cs| ensures Ascending(cs[i]) {
      assert Cycle(adj, cs[i]);
    }
  }

  lemma KeptKeys(before: Numbers, after: Numbers)
    requires Kept(before, after)
    ensures before.Keys <= after.Keys
  {
  }

  /** With no call open the stack is empty, so the report covers every key. */
  lemma AllDone(adj: Adjacency, nodes: set<Node>, s: Search)
    requires Good(adj, nodes, s) && s.gray == {}
    requires forall n | n in adj :: n in s.order
    ensures s.stack == [] && CycleReport(adj, s.components)
  {
    assert s.stack != [] ==> ReachesOpen(adj, s.order, s.gray, s.stack[0]);
    forall x, y | x != y && Mutual(adj, x, y) ensures Listed(s.components, x) {
      ReachesOtherIsKey(adj, x, y);
      assert x in Done(s.order, s.stack);
    }
  }
}
