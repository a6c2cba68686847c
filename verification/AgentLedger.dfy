/** What every state of every run of the agent loop keeps: the transcript, the payloads,
    the guard, the plan and the loaded tools are all accounted for by the calls dispatched
    so far (src/limpiador/agent/loop.py, `run`). */
module AgentLedger {
  import opened Text
  import opened Sorting
  import opened Registry
  import opened Memory
  import opened Transcript
  import opened AgentLoop

  function Verbs(calls: seq<Call>): seq<Call> {
    if calls == [] then []
    else Verbs(calls[..|calls| - 1]) + if IsVerb(calls[|calls| - 1]) then [calls[|calls| - 1]] else []
  }

  function PlanOf(calls: seq<Call>): seq<SubGoal> {
    if calls == [] then [] else PlanAfter(PlanOf(calls[..|calls| - 1]), calls[|calls| - 1])
  }

  function LoadedOf(s: Setup, calls: seq<Call>): set<string> {
    if calls == [] then s.preloaded
    else LoadedBy(s.tools, LoadedOf(s, calls[..|calls| - 1]), calls[|calls| - 1].name, calls[|calls| - 1].args)
  }

  /** One payload per call, with the call's id, its summary and its text. */
  ghost predicate PayloadsOf(s: Setup, done: seq<Call>, vs: seq<PayloadView>) {
    |vs| == |done| && forall i | 0 <= i < |done| ::
      && vs[i].key == done[i].id
      && vs[i].summary == Summary(done[i].name, s.render(i))
      && (vs[i].raw == Some(s.render(i)) || vs[i].raw == None)
      && !vs[i].pinned
  }

  /** Everything the run keeps is accounted for by the calls `done`. */
  ghost predicate Ledger(s: Setup, done: seq<Call>, st: State) {
    && st.dispatched == Names(done)
    && st.calls == s.recorded + |done|
    && st.protocol == Verbs(done)
    && st.plan == PlanOf(done) && PlanDistinct(st.plan)
    && st.loaded == LoadedOf(s, done)
    && PayloadsOf(s, done, st.views)
    && ToolIds(st.messages) == Ids(done)
  }

  /** `later` holds every payload of `vs`, and what was evicted stayed evicted. */
  ghost predicate ViewsKept(vs: seq<PayloadView>, later: seq<PayloadView>) {
    |vs| <= |later| && forall i | 0 <= i < |vs| :: later[i] == vs[i] || later[i] == vs[i].(raw := None)
  }

  ghost predicate Durable(st: State, later: State) {
    ViewsKept(st.views, later.views) && PlanKept(st.plan, later.plan)
  }

  lemma DurableTransitive(a: State, b: State, c: State)
    requires Durable(a, b) && Durable(b, c)
    ensures Durable(a, c)
  {
  }

  // ---- one dispatched call ------------------------------------------------------------------

  lemma {:induction false} AddGoalsKeep(plan: seq<SubGoal>, goals: seq<string>)
    requires PlanDistinct(plan)
    ensures PlanDistinct(AddGoals(plan, goals)) && PlanKept(plan, AddGoals(plan, goals))
    decreases |goals|
  {
    if goals != [] {
      AddGoalsKeep(plan, goals[..|goals| - 1]);
      AddGoalKeeps(AddGoals(plan, goals[..|goals| - 1]), goals[|goals| - 1]);
    }
  }

  lemma PlanAfterKeeps(plan: seq<SubGoal>, c: Call)
    requires PlanDistinct(plan)
    ensures PlanDistinct(PlanAfter(plan, c)) && PlanKept(plan, PlanAfter(plan, c))
  {
    hide AddGoals, ResolveGoal, Strip, Steps;
    AddGoalsKeep(plan, Steps(c.args.subGoals));
    ResolveGoalKeeps(plan, Strip(c.args.subGoal));
  }

  lemma FoldKeepsLedger(s: Setup, done: seq<Call>, st: State, c: Call)
    requires Ledger(s, done, st)
    ensures var next := Folded(s, st, c, s.render(|done|));
      && Ledger(s, done + [c], next)
      && Shapes(next.messages) == Shapes(st.messages) + [ToolResult(c.id, c.name, "")]
      && Durable(st, next)
  {
    hide PlanAfter, PlanOf, LoadedBy, Summary, ToolIds, Contents, PlanDistinct, PayloadsOf, ViewsKept, PlanKept, IsVerb;
    FoldSequences(s, done, c);
    ToolIdsGrow(st.messages, ToolResult(c.id, c.name, s.render(|done|)));
    PlanAfterKeeps(st.plan, c);
    FoldPayloads(s, done, st.views, c);
  }

  lemma FoldSequences(s: Setup, done: seq<Call>, c: Call)
    ensures Names(done + [c]) == Names(done) + [c.name] && Ids(done + [c]) == Ids(done) + [c.id]
    ensures Verbs(done + [c]) == Verbs(done) + (if IsVerb(c) then [c] else [])
    ensures PlanOf(done + [c]) == PlanAfter(PlanOf(done), c)
    ensures LoadedOf(s, done + [c]) == LoadedBy(s.tools, LoadedOf(s, done), c.name, c.args)
  {
    hide IsVerb, PlanAfter, LoadedBy;
    assert (done + [c])[..|done|] == done;
  }

  lemma FoldPayloads(s: Setup, done: seq<Call>, vs: seq<PayloadView>, c: Call)
    requires PayloadsOf(s, done, vs)
    ensures var content := s.render(|done|);
      var next := vs + [PayloadView(c.id, Summary(c.name, content), Some(content), false)];
      PayloadsOf(s, done + [c], next) && ViewsKept(vs, next)
  {
    hide Summary;
  }

  lemma FoldAgrees(s: Setup, st: State, c: Call, content: string)
    requires Agree(st.messages, st.views)
    ensures Agree(Folded(s, st, c, content).messages, Folded(s, st, c, content).views)
  {
    hide Contents, ToolIds, Summary, PlanAfter, LoadedBy, IsVerb;
    ToolIdsGrow(st.messages, ToolResult(c.id, c.name, content));
  }

  // ---- compaction at the end of a turn ------------------------------------------------------

  lemma EvictionKeepsPayloads(s: Setup, done: seq<Call>, before: seq<PayloadView>, after: seq<PayloadView>)
    requires PayloadsOf(s, done, before) && OnlyEvicts(before, after)
    ensures PayloadsOf(s, done, after) && ViewsKept(before, after)
  {
    hide Summary;
  }

  lemma PlanKeptSelf(plan: seq<SubGoal>)
    ensures PlanKept(plan, plan)
  {
  }

  lemma CompactKeepsLedger(s: Setup, done: seq<Call>, st: State)
    requires Ledger(s, done, st)
    ensures var next := CompactState(s, st);
      Ledger(s, done, next) && Shapes(next.messages) == Shapes(st.messages) && Durable(st, next)
  {
    hide PayloadsOf, OnlyEvicts, ViewsKept, PlanKept, Compacted, DurableTokens, MirrorAll, Shapes, PlanDistinct,
         EvictedCount, Names, Ids, Verbs, PlanOf, LoadedOf, ToolIds;
    var next := CompactState(s, st);
    CompactOnlyEvicts(st.views, DurableTokens(s.task, st.plan, []), s.threshold);
    EvictionKeepsPayloads(s, done, st.views, next.views);
    MirrorKeepsShapes(st.messages, next.views);
    ToolIdsOfShapes(next.messages, st.messages);
    PlanKeptSelf(st.plan);
  }

  // ---- every state of every run ---------------------------------------------------------------

  lemma Opening(s: Setup)
    ensures Ledger(s, [], Start(s)) && Shapes(Head(s)) == Head(s) && Contents(Head(s)) == []
  {
    NoToolResults(Head(s));
  }

  lemma {:induction false} NoToolResults(ms: seq<Message>)
    requires forall i | 0 <= i < |ms| :: !ms[i].ToolResult?
    ensures ToolIds(ms) == [] && Contents(ms) == []
    decreases |ms|
  {
    if ms != [] { NoToolResults(ms[..|ms| - 1]); }
  }

  lemma AnswerKeepsLedger(s: Setup, done: seq<Call>, st: State, r: Response)
    requires Ledger(s, done, st)
    ensures Ledger(s, done, Answered(st, r)) && Durable(st, Answered(st, r))
    ensures Shapes(Answered(st, r).messages) == Shapes(st.messages) + [Assistant(r.text, r.calls)]
    ensures Contents(Answered(st, r).messages) == Contents(st.messages)
  {
    hide PayloadsOf, PlanDistinct, Names, Ids, Verbs, PlanOf, LoadedOf, ToolIds, Contents;
    ToolIdsGrow(st.messages, Assistant(r.text, r.calls));
  }

  /** The transcript inside turn `n`, once `k` calls are folded in. */
  function BatchShape(s: Setup, n: nat, k: nat): seq<Message>
    requires k <= |s.model(n).calls|
  {
    var r := s.model(n);
    Head(s) + Blocks(s.model, n) + [Assistant(r.text, r.calls)] + ResultShapes(r.calls[..k])
  }

  lemma NoneDispatched(done: seq<Call>, calls: seq<Call>, ms: seq<Message>)
    ensures done + calls[..0] == done && ms + ResultShapes(calls[..0]) == ms
  {
  }

  lemma OneDispatched(done: seq<Call>, calls: seq<Call>, k: nat, ms: seq<Message>)
    requires k < |calls|
    ensures done + calls[..k] + [calls[k]] == done + calls[..k + 1]
    ensures ms + ResultShapes(calls[..k]) + [ToolResult(calls[k].id, calls[k].name, "")]
      == ms + ResultShapes(calls[..k + 1])
  {
  }

  lemma AllDispatched(s: Setup, n: nat)
    ensures var calls := s.model(n).calls;
      && CallsOf(s.model, n) + calls[..|calls|] == CallsOf(s.model, n + 1)
      && BatchShape(s, n, |calls|) == Head(s) + Blocks(s.model, n + 1)
  {
    hide Head, ResultShapes;
    var r := s.model(n);
    assert r.calls[..|r.calls|] == r.calls;
    Regroup(Head(s), Blocks(s.model, n), [Assistant(r.text, r.calls)], ResultShapes(r.calls));
  }

  /** At the model call of any turn the books balance, and the transcript is the head and
      one block per turn: an assistant message and exactly its results. */
  lemma {:induction false} LedgerAt(s: Setup, n: nat)
    ensures Ledger(s, CallsOf(s.model, n), StateAt(s, n))
    ensures Shapes(StateAt(s, n).messages) == Head(s) + Blocks(s.model, n)
    decreases 2 * n, 0
  {
    hide Ledger, Shapes, Head, BatchShape, CompactState, BatchState;
    if n == 0 {
      Opening(s);
      assert Head(s) + [] == Head(s);
    } else {
      var k := |s.model(n - 1).calls|;
      LedgerIn(s, n - 1, k);
      AllDispatched(s, n - 1);
      CompactKeepsLedger(s, CallsOf(s.model, n), BatchState(s, n - 1, k));
    }
  }

  lemma {:induction false} LedgerIn(s: Setup, n: nat, k: nat)
    requires k <= |s.model(n).calls|
    ensures Ledger(s, CallsOf(s.model, n) + s.model(n).calls[..k], BatchState(s, n, k))
    ensures Shapes(BatchState(s, n, k).messages) == BatchShape(s, n, k)
    decreases 2 * n + 1, k
  {
    hide Ledger, Shapes, Head, Blocks, CallsOf, ResultShapes, Folded, Answered, StateAt;
    var done, r := CallsOf(s.model, n), s.model(n);
    var ms := Head(s) + Blocks(s.model, n) + [Assistant(r.text, r.calls)];
    if k == 0 {
      LedgerAt(s, n);
      AnswerKeepsLedger(s, done, StateAt(s, n), r);
      NoneDispatched(done, r.calls, ms);
    } else {
      LedgerIn(s, n, k - 1);
      DispatchedSoFar(s, done + r.calls[..k - 1], BatchState(s, n, k - 1));
      FoldKeepsLedger(s, done + r.calls[..k - 1], BatchState(s, n, k - 1), r.calls[k - 1]);
      OneDispatched(done, r.calls, k - 1, ms);
    }
  }

  lemma DispatchedSoFar(s: Setup, done: seq<Call>, st: State)
    requires Ledger(s, done, st)
    ensures |st.dispatched| == |done|
  {
  }

  /** Whatever was durable at one model call still stands inside that turn ... */
  lemma {:induction false} DurableIn(s: Setup, n: nat, k: nat)
    requires k <= |s.model(n).calls|
    ensures Durable(StateAt(s, n), BatchState(s, n, k))
    decreases k
  {
    hide Ledger, Folded, Answered, StateAt, Durable, CallsOf;
    var done, r := CallsOf(s.model, n), s.model(n);
    if k == 0 {
      LedgerAt(s, n);
      AnswerKeepsLedger(s, done, StateAt(s, n), r);
    } else {
      DurableIn(s, n, k - 1);
      LedgerIn(s, n, k - 1);
      DispatchedSoFar(s, done + r.calls[..k - 1], BatchState(s, n, k - 1));
      FoldKeepsLedger(s, done + r.calls[..k - 1], BatchState(s, n, k - 1), r.calls[k - 1]);
      DurableTransitive(StateAt(s, n), BatchState(s, n, k - 1), BatchState(s, n, k));
    }
  }

  /** ... and at every later one. */
  lemma {:induction false} DurableAt(s: Setup, m: nat, n: nat)
    requires m <= n
    ensures Durable(StateAt(s, m), StateAt(s, n))
    decreases n
  {
    hide Ledger, CompactState, BatchState, Durable, CallsOf;
    if m == n {
      DurableIn(s, n, 0);
      DurableSelf(s, n);
    } else {
      DurableAt(s, m, n - 1);
      var k := |s.model(n - 1).calls|;
      var batch := BatchState(s, n - 1, k);
      DurableIn(s, n - 1, k);
      LedgerIn(s, n - 1, k);
      CompactKeepsLedger(s, CallsOf(s.model, n - 1) + s.model(n - 1).calls[..k], batch);
      DurableTransitive(StateAt(s, n - 1), batch, StateAt(s, n));
      DurableTransitive(StateAt(s, m), StateAt(s, n - 1), StateAt(s, n));
    }
  }

  lemma DurableSelf(s: Setup, n: nat)
    ensures Durable(StateAt(s, n), StateAt(s, n))
  {
    hide StateAt;
  }

  // ---- transcript and memory agree, and when they stop ---------------------------------------

  /** Folding results back keeps transcript and memory in agreement, whatever the ids. */
  lemma {:induction false} BatchAgrees(s: Setup, n: nat, k: nat)
    requires k <= |s.model(n).calls| && Agree(StateAt(s, n).messages, StateAt(s, n).views)
    ensures Agree(BatchState(s, n, k).messages, BatchState(s, n, k).views)
    decreases k
  {
    hide Folded, StateAt, Agree;
    if k == 0 {
      AnswerAgrees(StateAt(s, n), s.model(n));
    } else {
      BatchAgrees(s, n, k - 1);
      var before := BatchState(s, n, k - 1);
      FoldAgrees(s, before, s.model(n).calls[k - 1], s.render(|before.dispatched|));
    }
  }

  lemma AnswerAgrees(st: State, r: Response)
    requires Agree(st.messages, st.views)
    ensures Agree(Answered(st, r).messages, Answered(st, r).views)
  {
    hide Contents, ToolIds;
    ToolIdsGrow(st.messages, Assistant(r.text, r.calls));
  }

  lemma KeysAreIds(s: Setup, done: seq<Call>, st: State)
    requires Ledger(s, done, st)
    ensures Keys(st.views) == Ids(done) == ToolIds(st.messages)
  {
    hide Summary, Names, Verbs, PlanOf, LoadedOf, PlanDistinct, ToolIds;
  }

  lemma OnlyEvictsKeys(before: seq<PayloadView>, after: seq<PayloadView>)
    requires OnlyEvicts(before, after)
    ensures Keys(after) == Keys(before)
  {
  }

  /** The end of turn `n` keeps the agreement exactly when it evicts nothing or every
      payload comes through the mirrored pass unharmed. */
  lemma AgreementStep(s: Setup, n: nat)
    requires Agree(StateAt(s, n).messages, StateAt(s, n).views)
    ensures var before, after := BatchState(s, n, |s.model(n).calls|), StateAt(s, n + 1);
      && |before.views| == |after.views|
      && (Agree(after.messages, after.views)
          <==> EvictedCount(before.views, after.views) == 0
               || forall k | 0 <= k < |after.views| :: Harmless(before.views, after.views, k))
  {
    hide Ledger, BatchState, Agree, Harmless, Compacted, MirrorAll, EvictedCount, OnlyEvicts, DurableTokens, CallsOf, Keys,
         ToolIds, Ids;
    var calls := s.model(n).calls;
    var before := BatchState(s, n, |calls|);
    var after := CompactState(s, before);
    CompactOnlyEvicts(before.views, DurableTokens(s.task, before.plan, []), s.threshold);
    BatchAgrees(s, n, |calls|);
    if EvictedCount(before.views, after.views) == 0 {
      NoneEvictedUnchanged(before.views, after.views);
    } else {
      LedgerIn(s, n, |calls|);
      KeysAreIds(s, CallsOf(s.model, n) + calls[..|calls|], before);
      OnlyEvictsKeys(before.views, after.views);
      MirrorAgrees(before.messages, before.views, after.views);
    }
  }

  /** With distinct call ids the agreement holds at every model call. */
  lemma {:induction false} DistinctIdsAgree(s: Setup, n: nat)
    requires Distinct(Ids(CallsOf(s.model, n)))
    ensures Agree(StateAt(s, n).messages, StateAt(s, n).views)
    decreases n
  {
    hide Ledger, BatchState, Harmless, CompactState, EvictedCount, Distinct, Contents;
    if n == 0 {
      Opening(s);
    } else {
      IdsOfFewer(s, n);
      DistinctIdsAgree(s, n - 1);
      AgreementStep(s, n - 1);
      LedgerAt(s, n);
      KeysAreIds(s, CallsOf(s.model, n), StateAt(s, n));
      var before, after := BatchState(s, n - 1, |s.model(n - 1).calls|), StateAt(s, n);
      forall k | 0 <= k < |after.views| ensures Harmless(before.views, after.views, k) {
        DistinctHarmless(before.views, after.views, k);
      }
    }
  }

  lemma IdsOfFewer(s: Setup, n: nat)
    requires n > 0 && Distinct(Ids(CallsOf(s.model, n)))
    ensures Distinct(Ids(CallsOf(s.model, n - 1)))
  {
    DistinctPrefix(Ids(CallsOf(s.model, n - 1)), Ids(CallsOf(s.model, n)));
  }
}
