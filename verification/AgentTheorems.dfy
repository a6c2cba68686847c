/** What every run of the agent satisfies, read off the states of the machine. */
module AgentTheorems {
  import opened Text
  import opened Sorting
  import opened Registry
  import opened Memory
  import opened Transcript
  import opened AgentLoop
  import opened AgentLedger
  import opened AgentRun
  import opened Naming

  // ---- bounded: the guard stops every run ------------------------------------------------

  /** A response that lets the run go on dispatches at least one call. */
  lemma {:induction false} EveryTurnCalls(s: Setup, n: nat)
    requires Reached(s, n)
    ensures |CallsOf(s.model, n)| >= n
    decreases n
  {
    if n > 0 {
      EveryTurnCalls(s, n - 1);
      assert GoesOn(s.model(n - 1));
    }
  }

  /** Dispatched names, guard count, tool results and payloads always match. */
  lemma CountsMatch(s: Setup, done: seq<Call>, st: State)
    requires Ledger(s, done, st)
    ensures |st.dispatched| == |st.views| == |ToolIds(st.messages)| == st.calls - s.recorded == |done|
  {
  }

  /** The calls a finished run dispatched: all of them, or up to the fatal one. */
  lemma CallsDispatched(s: Setup, n: nat, res: RunResult, st: State) returns (done: seq<Call>)
    requires Ended(s, n, res, st)
    ensures Ledger(s, done, st) && done <= CallsOf(s.model, n)
  {
    hide Ledger, Shapes, StateAt, BatchState, FirstFatal, FirstFinish, Reached;
    if !res.aborted && (res.crashed || s.model(n - 1).calls == []) {
      var calls, x := s.model(n - 1).calls, FirstFatal(s.model(n - 1).calls);
      LedgerIn(s, n - 1, x);
      done := CallsOf(s.model, n - 1) + calls[..x];
      assert CallsOf(s.model, n) == CallsOf(s.model, n - 1) + calls;
    } else {
      LedgerAt(s, n);
      done := CallsOf(s.model, n);
    }
  }

  lemma CallsAt(s: Setup, n: nat)
    ensures StateAt(s, n).calls == s.recorded + |CallsOf(s.model, n)|
  {
    hide StateAt, CallsOf;
    LedgerAt(s, n);
  }

  /** Every run ends within the ceiling, whatever the model does: it takes at most as many
      turns as calls were left and overshoots by less than its last batch; it is aborted
      exactly when every response asked for more. */
  lemma RunIsBounded(s: Setup, res: RunResult, final: State)
    requires |res.trace| == res.turns && Recorded(s, res.trace) && Ended(s, res.turns, res, final)
    ensures res.turns > 0 ==> s.recorded + res.turns <= s.ceiling
    ensures res.turns > 0 ==> final.calls <= s.ceiling - 1 + |s.model(res.turns - 1).calls|
    ensures res.aborted <==> Reached(s, res.turns)
    ensures res.aborted ==> final.calls >= s.ceiling
    ensures |final.dispatched| == |final.views| == |ToolIds(final.messages)| == final.calls - s.recorded
  {
    hide Ledger, StateAt, TraceEntry, Reached, EndedBy;
    var n := res.turns;
    var done := CallsDispatched(s, n, res, final);
    CountsMatch(s, done, final);
    if n > 0 {
      var last := res.trace[n - 1];
      assert AtTurn(s, n - 1);
      EveryTurnCalls(s, n - 1);
      CallsAt(s, n - 1);
    }
    if !res.aborted { EndedNotReached(s, n, res, final); }
  }

  lemma EndedNotReached(s: Setup, n: nat, res: RunResult, st: State)
    requires Ended(s, n, res, st) && !res.aborted
    ensures n > 0 && !GoesOn(s.model(n - 1)) && !Reached(s, n)
  {
    hide StateAt, BatchState, FirstFatal, FirstFinish;
  }

  // ---- determined: the responses decide everything ---------------------------------------------

  lemma NotEndedEarlier(s: Setup, a: RunResult, b: RunResult, st: State)
    requires |a.trace| == a.turns && Recorded(s, a.trace) && Ended(s, b.turns, b, st)
    ensures a.turns <= b.turns
  {
    hide StateAt, EndedBy, TraceEntry, GoesOn;
    if b.turns < a.turns {
      var call := a.trace[b.turns];
      assert AtTurn(s, b.turns);
      if !b.aborted { EndedNotReached(s, b.turns, b, st); }
    }
  }

  /** Two runs of one setup end alike, in the same state and after the same turns. */
  lemma RunDetermined(s: Setup, a: RunResult, final: State, b: RunResult, final': State)
    requires |a.trace| == a.turns && Recorded(s, a.trace) && Ended(s, a.turns, a, final)
    requires |b.trace| == b.turns && Recorded(s, b.trace) && Ended(s, b.turns, b, final')
    ensures a.turns == b.turns && a.result == b.result && a.aborted == b.aborted && a.crashed == b.crashed
    ensures final == final'
    ensures forall n | 0 <= n < a.turns :: a.trace[n].messages == b.trace[n].messages
  {
    hide StateAt, BatchState, Reached, Recorded, FirstFatal, FirstFinish;
    NotEndedEarlier(s, a, b, final');
    NotEndedEarlier(s, b, a, final);
    if a.aborted {
      if !b.aborted { EndedNotReached(s, b.turns, b, final'); }
    } else {
      EndedNotReached(s, a.turns, a, final);
    }
    SameMessages(s, a.trace, b.trace);
  }

  lemma SameMessages(s: Setup, a: seq<ModelCall>, b: seq<ModelCall>)
    requires Recorded(s, a) && Recorded(s, b) && |a| == |b|
    ensures forall n | 0 <= n < |a| :: a[n].messages == b[n].messages
  {
    hide StateAt, AtTurn;
    forall n | 0 <= n < |a| ensures a[n].messages == b[n].messages {
      assert TraceEntry(s, n, a[n]) && TraceEntry(s, n, b[n]);
    }
  }

  /** A run crashes exactly when its last batch holds a fatal call: a `plan_add` whose steps
      cannot be iterated, or its first `finish`, refused. */
  lemma CrashedExactly(s: Setup, n: nat, res: RunResult, st: State)
    requires Ended(s, n, res, st) && !res.aborted
    ensures n > 0
    ensures var calls := s.model(n - 1).calls;
      res.crashed <==> exists k {:trigger calls[k]} :: 0 <= k < |calls| && Fatal(calls[..k], calls[k])
  {
    hide StateAt, BatchState, Reached, Fatal, FirstFatal;
    var calls := s.model(n - 1).calls;
    NoneFatal(calls, |calls|);
    assert calls[..|calls|] == calls;
  }

  /** A run whose first answer is one fatal call crashes in its first turn. */
  lemma FatalCallCrashes(s: Setup, c: Call, res: RunResult, final: State)
    requires s.model(0).calls == [c] && Fatal([], c) && s.recorded < s.ceiling
    requires |res.trace| == res.turns && Recorded(s, res.trace) && Ended(s, res.turns, res, final)
    ensures res.crashed && res.turns == 1 && res.result == None && !res.aborted
  {
    hide BatchState, Fatal, FirstFatal, Reached;
    OneFatal(c);
    CallsAt(s, 0);
    assert res.turns > 0;
    if res.turns > 1 {
      var call := res.trace[1];
      assert AtTurn(s, 1);
      FirstGoesOn(s, 1);
    }
    if res.aborted { FirstGoesOn(s, res.turns); }
  }

  lemma FirstGoesOn(s: Setup, n: nat)
    requires Reached(s, n) && n > 0
    ensures FirstFatal(s.model(0).calls) == 0
  {
    hide FirstFatal;
    assert GoesOn(s.model(0));
  }

  lemma OneFatal(c: Call)
    requires Fatal([], c)
    ensures FirstFatal([c]) == 1
  {
    hide Fatal;
    assert [c][..0] == [];
  }

  /** A run that answers with one refused `finish`. */
  method RefusedFinishCrashes(registry: ToolRegistry, guard: CallGuard, task: string, id: string, args: Arguments,
                              render: nat -> string, threshold: int) returns (res: RunResult)
    requires registry.Valid() && guard.calls < guard.ceiling && !args.valid
    modifies registry, guard
    ensures res.crashed && res.turns == 1
  {
    res := OneCallRun(registry, guard, task, Call(id, FINISH, args), render, threshold);
  }

  /** A run that answers with a plan of `5`, and no `finish` anywhere. */
  method NumberAsPlanCrashes(registry: ToolRegistry, guard: CallGuard, task: string, id: string, args: Arguments,
                             render: nat -> string, threshold: int) returns (res: RunResult)
    requires registry.Valid() && guard.calls < guard.ceiling && args.subGoals == NotIterable
    modifies registry, guard
    ensures res.crashed && res.turns == 1
  {
    res := OneCallRun(registry, guard, task, Call(id, PLAN_ADD, args), render, threshold);
  }

  method OneCallRun(registry: ToolRegistry, guard: CallGuard, task: string, c: Call, render: nat -> string,
                    threshold: int) returns (res: RunResult)
    requires registry.Valid() && guard.calls < guard.ceiling && Fatal([], c)
    modifies registry, guard
    ensures res.crashed && res.turns == 1
  {
    hide Recorded, Ended, Fatal;
    var model: nat -> Response := n => Response(None, [c]);
    ghost var s := Setup(task, "", model, render, threshold, guard.ceiling, guard.calls, registry.tools, registry.loaded);
    var context;
    res, context := Run(task, "", registry, guard, model, render, threshold);
    FatalCallCrashes(s, c, res, Now(res.messages, res.toolCalls, res.protocolCalls, context, guard, registry));
  }

  lemma {:induction false} AddGoalsUnchanged(plan: seq<SubGoal>, goals: seq<string>)
    ensures AddGoals(plan, goals) == plan <==> forall g | g in goals :: Listed(plan, g)
    ensures |plan| <= |AddGoals(plan, goals)|
    decreases |goals|
  {
    hide Listed;
    if goals != [] {
      var front, last := goals[..|goals| - 1], goals[|goals| - 1];
      AddGoalsUnchanged(plan, front);
      assert last in goals && forall g | g in front :: g in goals;
      assert forall g | g in goals :: g in front || g == last;
    }
  }

  lemma {:induction false} AddGoalsPlanned(plan: seq<SubGoal>, goals: seq<string>, step: string)
    ensures Listed(AddGoals(plan, goals), step) <==> Listed(plan, step) || step in goals
    decreases |goals|
  {
    if goals != [] {
      var front, last := goals[..|goals| - 1], goals[|goals| - 1];
      hide Listed, AddGoal;
      AddGoalsPlanned(plan, front, step);
      AddGoalPlanned(AddGoals(plan, front), last, step);
      assert step in goals <==> step in front || step == last;
    }
  }

  /** Whether it was accepted or refused, a call leaves the plan as it was exactly when it is
      no plan verb, adds only steps that are planned, or resolves nothing or a step that is
      resolved. */
  lemma PlanUnchanged(plan: seq<SubGoal>, c: Call)
    requires PlanDistinct(plan)
    ensures PlanAfter(plan, c) == plan
      <==> && (c.name == PLAN_ADD ==> forall step | step in Steps(c.args.subGoals) :: Listed(plan, step))
           && (c.name == PLAN_RESOLVE ==>
                 var step := Strip(c.args.subGoal); step == "" || SubGoal(step, true) in plan)
  {
    hide Listed, AddGoals, ResolveGoal, Steps, Strip, PlanDistinct;
    AddGoalsUnchanged(plan, Steps(c.args.subGoals));
    ResolveGoalUnchanged(plan, Strip(c.args.subGoal));
  }

  /** A text as `sub_goals` is refused, and yet plans each of its characters: the plan is
      left as it was exactly when all of them are planned. */
  lemma RefusedTextPlans(plan: seq<SubGoal>, c: Call)
    requires c.name == PLAN_ADD && c.args.subGoals.GoalText?
    ensures var text, later := c.args.subGoals.text, PlanAfter(plan, c);
      && !Accepted(c.name, c.args)
      && (forall step :: Listed(later, step) <==> Listed(plan, step) || (|step| == 1 && step[0] in text))
      && (later == plan <==> forall k | k in text :: Listed(plan, [k]))
  {
    hide Listed, AddGoals, PlanDistinct;
    var text, steps := c.args.subGoals.text, Steps(c.args.subGoals);
    forall step ensures step in steps <==> |step| == 1 && step[0] in text {
      CharacterSteps(text, step);
    }
    forall step ensures Listed(AddGoals(plan, steps), step) <==> Listed(plan, step) || step in steps {
      AddGoalsPlanned(plan, steps, step);
    }
    AddGoalsUnchanged(plan, steps);
    if forall k | k in text :: Listed(plan, [k]) {
      forall step | step in steps ensures Listed(plan, step) { assert step == [step[0]]; }
    }
    if forall step | step in steps :: Listed(plan, step) {
      forall k | k in text ensures Listed(plan, [k]) { assert [k] in steps; }
    }
  }

  lemma CharacterSteps(text: string, step: string)
    ensures step in Steps(GoalText(text)) <==> |step| == 1 && step[0] in text
  {
    var steps := Steps(GoalText(text));
    if |step| == 1 && step[0] in text {
      var i :| 0 <= i < |text| && text[i] == step[0];
      assert steps[i] == step;
    }
  }

  /** The text "ab" on an empty plan. */
  lemma TwoCharactersPlanned(c: Call)
    requires c.name == PLAN_ADD && c.args.subGoals == GoalText("ab")
    ensures !Accepted(c.name, c.args) && PlanAfter([], c) == [SubGoal("a", false), SubGoal("b", false)]
  {
    var steps := Steps(c.args.subGoals);
    assert steps == ["a", "b"] && steps[..1] == ["a"] && steps[..1][..0] == [];
    assert AddGoals([], steps[..1]) == [SubGoal("a", false)];
  }

  /** A run that is neither aborted nor crashed ends with the text of a response without
      calls, or with the result of the first `finish` of its last batch, which was accepted. */
  lemma EndsExactly(s: Setup, n: nat, res: RunResult, st: State)
    requires Ended(s, n, res, st) && !res.aborted && !res.crashed
    ensures n > 0
    ensures var r := s.model(n - 1);
      && (r.calls == [] ==> res.result == r.text)
      && (r.calls != [] ==> exists k {:trigger r.calls[k]} :: (
            && 0 <= k < |r.calls| && r.calls[k].name == "finish" && (forall j | 0 <= j < k :: r.calls[j].name != "finish")
            && r.calls[k].args.valid && res.result == Some(r.calls[k].args.result)))
  {
    hide StateAt, BatchState, FirstFatal, FirstFinish, Reached;
    var calls := s.model(n - 1).calls;
    if calls != [] {
      var k := FirstFinish(calls) - 1;
      FirstFinishIs(calls, k);
      FirstFinishAccepted(calls, k);
    }
  }

  /** Where no call is fatal the first `finish` was accepted. */
  lemma FirstFinishAccepted(calls: seq<Call>, k: nat)
    requires k < |calls| && FirstFinish(calls) == k + 1 && FirstFatal(calls) == 0
    ensures calls[k].args.valid
  {
    hide FirstFatal;
    FirstFinishIs(calls, k);
    NoneFinishes(calls, k);
    NoneFatal(calls, |calls|);
    assert calls[..|calls|] == calls;
    assert !Fatal(calls[..k], calls[k]);
  }

  // ---- the plan is what the calls asked for --------------------------------------------------

  /** The call names the step: in a list, as a character of a text, or to resolve it. */
  predicate AsksFor(c: Call, d: string) {
    || (c.name == PLAN_ADD && c.args.subGoals.GoalList? && d in c.args.subGoals.steps)
    || (c.name == PLAN_ADD && c.args.subGoals.GoalText? && |d| == 1 && d[0] in c.args.subGoals.text)
    || Resolves(c, d)
  }

  predicate Resolves(c: Call, d: string) {
    c.name == PLAN_RESOLVE && d != "" && d == Strip(c.args.subGoal)
  }

  lemma OneCallPlans(plan: seq<SubGoal>, c: Call, d: string)
    ensures d in Descriptions(PlanAfter(plan, c)) <==> d in Descriptions(plan) || AsksFor(c, d)
    ensures SubGoal(d, true) in PlanAfter(plan, c) <==> SubGoal(d, true) in plan || Resolves(c, d)
  {
    hide AddGoals, ResolveGoal, Strip, Listed;
    var goals, step := c.args.subGoals, Strip(c.args.subGoal);
    ListedIs(plan, d);
    ListedIs(PlanAfter(plan, c), d);
    if c.name == PLAN_ADD {
      AddGoalsPlanned(plan, Steps(goals), d);
      AddGoalsResolved(plan, Steps(goals), d);
      if goals.GoalText? { CharacterSteps(goals.text, d); }
    } else if c.name == PLAN_RESOLVE && step != "" {
      ResolvePlanned(plan, step, d);
    }
  }

  lemma {:induction false} AddGoalsResolved(plan: seq<SubGoal>, goals: seq<string>, d: string)
    ensures SubGoal(d, true) in AddGoals(plan, goals) <==> SubGoal(d, true) in plan
    decreases |goals|
  {
    if goals != [] { AddGoalsResolved(plan, goals[..|goals| - 1], d); }
  }

  lemma ResolvePlanned(plan: seq<SubGoal>, step: string, d: string)
    ensures Listed(ResolveGoal(plan, step), d) <==> Listed(plan, d) || d == step
    ensures SubGoal(d, true) in ResolveGoal(plan, step) <==> SubGoal(d, true) in plan || d == step
  {
    var later := ResolveGoal(plan, step);
    if Listed(plan, step) {
      var k :| 0 <= k < |plan| && plan[k].description == step;
      assert later[k] == SubGoal(step, true);
      assert forall i | 0 <= i < |plan| :: later[i].description == plan[i].description;
      assert forall i | 0 <= i < |plan| && plan[i] == SubGoal(d, true) :: later[i] == plan[i];
    } else {
      assert later[|plan|] == SubGoal(step, true);
      assert forall i | 0 <= i < |plan| :: later[i] == plan[i];
    }
  }

  lemma {:induction false} CallsPlan(calls: seq<Call>, d: string)
    ensures d in Descriptions(PlanOf(calls)) <==> exists c :: c in calls && AsksFor(c, d)
    ensures SubGoal(d, true) in PlanOf(calls) <==> exists c :: c in calls && Resolves(c, d)
    decreases |calls|
  {
    hide PlanAfter, AsksFor, Resolves;
    if calls != [] {
      var front, last := calls[..|calls| - 1], calls[|calls| - 1];
      CallsPlan(front, d);
      OneCallPlans(PlanOf(front), last, d);
      assert forall c :: c in calls <==> c in front || c == last;
    }
  }

  /** At every model call the plan lists exactly the steps that calls before it asked for,
      and exactly those that calls before it resolved are resolved. */
  lemma PlanIsWhatWasAsked(s: Setup, n: nat, d: string)
    ensures d in Descriptions(StateAt(s, n).plan) <==> exists c :: c in CallsOf(s.model, n) && AsksFor(c, d)
    ensures SubGoal(d, true) in StateAt(s, n).plan <==> exists c :: c in CallsOf(s.model, n) && Resolves(c, d)
  {
    hide StateAt, PlanOf, CallsOf, AsksFor, Resolves, Verbs, LoadedOf, PayloadsOf, ToolIds, Contents, Names, Ids;
    LedgerAt(s, n);
    CallsPlan(CallsOf(s.model, n), d);
  }

  // ---- cacheable: the request head never changes -------------------------------------------

  lemma {:induction false} LoadedStaysRegistered(s: Setup, calls: seq<Call>)
    requires Registered(s.tools, s.preloaded)
    ensures Registered(s.tools, LoadedOf(s, calls))
    decreases |calls|
  {
    if calls != [] { LoadedStaysRegistered(s, calls[..|calls| - 1]); }
  }

  lemma SystemPart(s: Setup, n: nat, ms: seq<Message>)
    requires Shapes(ms) == Head(s) + Blocks(s.model, n)
    ensures SystemMessages(ms) == SystemMessages(Head(s))
  {
    hide Shapes, Head, Blocks, SystemMessages;
    SystemOfShapes(ms);
    BlocksHaveNoSystem(s.model, n);
    NoMoreSystem(Head(s), Blocks(s.model, n));
  }

  lemma SystemOfHead(s: Setup)
    ensures SystemMessages(Head(s)) == if s.systemPrompt == "" then [] else [System(s.systemPrompt)]
  {
    var task := [User(s.task)];
    NoMoreSystem(if s.systemPrompt == "" then [] else [System(s.systemPrompt)], task);
    OneSystem(s.systemPrompt);
  }

  lemma OneSystem(prompt: string)
    ensures SystemMessages([System(prompt)]) == [System(prompt)] && SystemMessages([]) == []
  {
    var ms := [System(prompt)];
    assert ms[..0] == [] && SystemMessages(ms) == SystemMessages(ms[..0]) + ms;
  }

  lemma CoreByName()
    ensures CoreSchemas() == [CoreSchema("search_tools"), CoreSchema("load_tool"), CoreSchema("plan_add"),
                              CoreSchema("plan_resolve"), CoreSchema("finish")]
  {
  }

  /** Every model call is sent the system prompt first, when there is one, and then the task. */
  lemma HeadFirst(s: Setup, n: nat)
    ensures var ms := StateAt(s, n).messages;
      if s.systemPrompt == "" then |ms| >= 1 && ms[0] == User(s.task)
      else |ms| >= 2 && ms[0] == System(s.systemPrompt) && ms[1] == User(s.task)
  {
    hide StateAt, Ledger, Blocks;
    LedgerAt(s, n);
    var ms := StateAt(s, n).messages;
    assert |Shapes(ms)| >= 1;
    assert Shapes(ms)[0] == Shape(ms[0]) == (Head(s) + Blocks(s.model, n))[0];
    if s.systemPrompt != "" { assert Shapes(ms)[1] == Shape(ms[1]) == (Head(s) + Blocks(s.model, n))[1]; }
  }

  /** At every turn of every run the cacheable prefix is the same value, although tools
      are loaded and messages rewritten on the way. */
  lemma PrefixConstant(s: Setup, n: nat, call: ModelCall)
    requires Registered(s.tools, s.preloaded) && TraceEntry(s, n, call)
    ensures var p := CachePrefix(call.messages, call.tools);
      && p.system == (if s.systemPrompt == "" then [] else [System(s.systemPrompt)])
      && p.coreTools == [CoreSchema("search_tools"), CoreSchema("load_tool"), CoreSchema("plan_add"),
                         CoreSchema("plan_resolve"), CoreSchema("finish")]
  {
    hide StateAt, Shapes, Blocks, Active, Registered, SystemMessages, CoreOnly, CoreSchemas, Head;
    SystemOfHead(s);
    CoreByName();
    LedgerAt(s, n);
    LoadedStaysRegistered(s, CallsOf(s.model, n));
    CoreOfActive(s.tools, StateAt(s, n).loaded, call.tools);
    SystemPart(s, n, call.messages);
  }

  /** The first turn is planning and every later one is dispatch. */
  lemma TurnKinds(s: Setup, n: nat)
    requires Reached(s, n)
    ensures ClassifyTurn(StateAt(s, n).messages) == if n == 0 then PLANNING else DISPATCH
  {
    hide Ledger, StateAt, FirstFatal, FirstFinish;
    LedgerAt(s, n);
    var ms := StateAt(s, n).messages;
    var sh := Shapes(ms);
    assert forall j | 0 <= j < |ms| :: sh[j].ToolResult? <==> ms[j].ToolResult?;
    if n == 0 {
      assert sh == Head(s);
    } else {
      var r := s.model(n - 1);
      assert GoesOn(r);
      var j := |sh| - 1;
      assert sh[j] == ResultShapes(r.calls)[|r.calls| - 1];
      assert ms[j].ToolResult?;
    }
  }

  // ---- coherent: what the model reads back ---------------------------------------------------

  /** With distinct call ids the tool result number `k` is, at every model call, the text
      folded back for call `k`, or that call's summary once it was evicted. */
  lemma ResultsReadBack(s: Setup, n: nat, k: nat)
    requires Distinct(Ids(CallsOf(s.model, n))) && k < |CallsOf(s.model, n)|
    ensures var st, c := StateAt(s, n), CallsOf(s.model, n)[k];
      && |Contents(st.messages)| == |st.views| == |CallsOf(s.model, n)| && ToolIds(st.messages)[k] == c.id
      && Contents(st.messages)[k] == if st.views[k].raw.Some? then s.render(k) else Summary(c.name, s.render(k))
  {
    hide StateAt, CallsOf, ToolIds, Contents, Summary, Distinct, PlanOf, LoadedOf, Verbs, PlanDistinct;
    LedgerAt(s, n);
    DistinctIdsAgree(s, n);
  }

  /** One id used twice: when the first turn ends over the threshold, the second result
      reads as the summary of the first although its payload is live, and the first still
      reads as its text although its payload is gone. */
  lemma RepeatedIdDisagrees(s: Setup, c: Call, d: Call)
    requires s.model(0).calls == [c, d] && c.id == d.id
    requires var before := BatchState(s, 0, 2);
      DurableTokens(s.task, before.plan, []) + Total(before.views) > s.threshold
    ensures var st, gone := StateAt(s, 1), Summary(c.name, s.render(0));
      && Contents(st.messages) == [s.render(0), gone]
      && |st.views| == 2 && Shown(st.views[0]) == gone && Shown(st.views[1]) == s.render(1)
      && (gone != s.render(0) || gone != s.render(1) ==> !Agree(st.messages, st.views))
  {
    hide BatchState, DurableTokens, Total, Contents, ToolIds, MirrorAll, LastLive, EvictedCount, EvictAll, CallsOf, Summary,
         StateAt;
    var before := BatchState(s, 0, 2);
    TwoCalls(s, c, d);
    StateAfter(s, 0);
    LedgerIn(s, 0, 2);
    var vs := before.views;
    LastLiveOfTwo(vs[0], vs[1]);
    var after := EvictAll(vs);
    assert after[0] == vs[0].(raw := None) && after[1] == vs[1];
    OneOfTwoEvicted(vs, after);
    assert StateAt(s, 1).views == after && StateAt(s, 1).messages == MirrorAll(before.messages, after);
    assert |ToolIds(before.messages)| == 2;
    MirroredContent(before.messages, after, 0);
    MirroredContent(before.messages, after, 1);
    SummaryOfTwo(after);
    var ids := ToolIds(before.messages);
    assert ids[0] == ids[1] && !LastOf(ids, 0) && LastOf(ids, 1);
  }

  lemma OneOfTwoEvicted(before: seq<PayloadView>, after: seq<PayloadView>)
    requires |before| == |after| == 2 && before[0].raw.Some? && after[0].raw.None?
    requires after[1].raw.Some?
    ensures EvictedCount(before, after) == 1
  {
    assert before[..1][..0] == [] && after[..1][..0] == [];
    assert EvictedCount(before[..1], after[..1]) == 1;
  }

  lemma SummaryOfTwo(vs: seq<PayloadView>)
    requires |vs| == 2 && vs[0].raw.None? && vs[1].raw.Some? && vs[0].key == vs[1].key
    ensures LastSummary(vs, vs[0].key) == Some(vs[0].summary)
  {
    assert vs[..1] == [vs[0]];
  }

  lemma FoldedGrows(s: Setup, st: State, c: Call, content: string)
    ensures var next := Folded(s, st, c, content);
      && next.views == st.views + [PayloadView(c.id, Summary(c.name, content), Some(content), false)]
      && Contents(next.messages) == Contents(st.messages) + [content]
      && ToolIds(next.messages) == ToolIds(st.messages) + [c.id]
      && |next.dispatched| == |st.dispatched| + 1
  {
    hide Summary, PlanAfter, LoadedBy, Contents, ToolIds, IsVerb;
    ToolIdsGrow(st.messages, ToolResult(c.id, c.name, content));
  }

  lemma NothingFolded(s: Setup)
    ensures var st := BatchState(s, 0, 0);
      st.views == [] && Contents(st.messages) == [] && ToolIds(st.messages) == [] && st.dispatched == []
  {
    hide BatchState, Contents, ToolIds;
    StateAfter(s, 0);
    NothingYet(s);
    NoToolResults(Head(s));
    ToolIdsGrow(Head(s), Assistant(s.model(0).text, s.model(0).calls));
  }

  lemma TwoCalls(s: Setup, c: Call, d: Call)
    requires s.model(0).calls == [c, d]
    ensures var st := BatchState(s, 0, 2);
      && st.views == [PayloadView(c.id, Summary(c.name, s.render(0)), Some(s.render(0)), false),
                      PayloadView(d.id, Summary(d.name, s.render(1)), Some(s.render(1)), false)]
      && Contents(st.messages) == [s.render(0), s.render(1)] && ToolIds(st.messages) == [c.id, d.id]
  {
    hide BatchState, Summary, Folded, Contents, ToolIds;
    NothingFolded(s);
    BatchNext(s, 0, 0);
    FoldedGrows(s, BatchState(s, 0, 0), c, s.render(0));
    BatchNext(s, 0, 1);
    FoldedGrows(s, BatchState(s, 0, 1), d, s.render(1));
  }

  /** A run that does it: one id for two calls of the first turn, a threshold of zero, and
      results long enough to count.  In its second model call the second result reads as
      the summary of the first. */
  method RepeatedIdRun(registry: ToolRegistry, guard: CallGuard, args: Arguments)
    returns (res: RunResult, ghost s: Setup)
    requires registry.Valid() && guard.calls + 2 < guard.ceiling
    modifies registry, guard
    ensures s.recorded == old(guard.calls) && s.model(0).calls == [Call("x", "t", args), Call("x", "t", args)]
    ensures |res.trace| > 1 && res.trace[1].messages == StateAt(s, 1).messages
    ensures Contents(res.trace[1].messages) == ["text", Summary("t", "text")]
    ensures |StateAt(s, 1).views| == 2 && Shown(StateAt(s, 1).views[1]) == "text"
    ensures !Agree(res.trace[1].messages, StateAt(s, 1).views)
  {
    hide Recorded, Ended, StateAt, Contents, Agree, Summary;
    var call := Call("x", "t", args);
    var model: nat -> Response := n => Response(None, [call, call]);
    var render: nat -> string := n => "text";
    s := Setup("", "", model, render, 0, guard.ceiling, guard.calls, registry.tools, registry.loaded);
    var context;
    res, context := Run("", "", registry, guard, model, render, 0);
    OverThreshold(s, call);
    RepeatedIdDisagrees(s, call, call);
    SummaryIsLonger("t", "text");
    PlainCallsGoOn(call);
    SecondTurn(s, res, Now(res.messages, res.toolCalls, res.protocolCalls, context, guard, registry));
  }

  lemma SummaryIsLonger(name: string, content: string)
    ensures |content| == 4 ==> Summary(name, content) != content
  {
    assert |Summary(name, content)| > 4;
  }

  lemma OverThreshold(s: Setup, c: Call)
    requires s.model(0).calls == [c, c] && s.threshold == 0 && |s.render(0)| == 4 && |s.render(1)| == 4
    ensures var before := BatchState(s, 0, 2);
      DurableTokens(s.task, before.plan, []) + Total(before.views) > s.threshold
  {
    hide BatchState, DurableTokens, Summary, Total, Contents, ToolIds;
    TwoCalls(s, c, c);
    var vs := BatchState(s, 0, 2).views;
    TotalOfTwo(vs[0], vs[1]);
  }

  lemma PlainCallsGoOn(c: Call)
    requires c.name == "t"
    ensures FirstFinish([c, c]) == 0 && FirstFatal([c, c]) == 0
  {
    var calls := [c, c];
    assert calls[..1] == [c] && calls[..1][..0] == [];
    assert FirstFinish(calls[..1]) == 0 && FirstFatal(calls[..1]) == 0;
  }

  lemma SecondTurn(s: Setup, res: RunResult, final: State)
    requires |res.trace| == res.turns && Recorded(s, res.trace) && Ended(s, res.turns, res, final)
    requires GoesOn(s.model(0)) && s.recorded + |s.model(0).calls| < s.ceiling
    ensures res.turns > 1 && res.trace[1].messages == StateAt(s, 1).messages
  {
    hide StateAt, BatchState, GoesOn, FirstFatal, FirstFinish;
    CallsAt(s, 0);
    CallsAt(s, 1);
    assert CallsOf(s.model, 1) == s.model(0).calls;
    if !res.aborted { EndedNotReached(s, res.turns, res, final); }
    var call := res.trace[1];
  }

  /** A step resolved at one turn is resolved, in the same place, at every later one. */
  lemma ResolvedForGood(s: Setup, m: nat, n: nat, i: nat)
    requires m <= n && i < |StateAt(s, m).plan| && StateAt(s, m).plan[i].resolved
    ensures i < |StateAt(s, n).plan| && StateAt(s, n).plan[i] == StateAt(s, m).plan[i]
  {
    hide StateAt;
    DurableAt(s, m, n);
  }

  /** An evicted payload never regains its raw text. */
  lemma EvictedForGood(s: Setup, m: nat, n: nat, i: nat)
    requires m <= n && i < |StateAt(s, m).views| && StateAt(s, m).views[i].raw.None?
    ensures i < |StateAt(s, n).views| && StateAt(s, n).views[i] == StateAt(s, m).views[i]
  {
    hide StateAt;
    DurableAt(s, m, n);
  }

  // ---- flat --------------------------------------------------------------------------------------

  /** Every batch ends with a live payload. */
  lemma NewestIsLive(s: Setup, n: nat)
    requires s.model(n).calls != []
    ensures var vs := BatchState(s, n, |s.model(n).calls|).views;
      vs != [] && vs[|vs| - 1].raw.Some?
  {
    hide StateAt, PlanAfter, Summary, LoadedBy, IsVerb;
    BatchNext(s, n, |s.model(n).calls| - 1);
  }

  /** The threshold holds, or the newest payload is the only live one and the footprint is
      exactly the durable state, the earlier summaries and its text. */
  ghost predicate Flat(s: Setup, st: State) {
    var durable, m := DurableTokens(s.task, st.plan, []), |st.views| - 1;
    || durable + Total(st.views) <= s.threshold
    || (st.views != [] && OnlyLive(st.views, m) && st.views[m].raw == Some(s.render(m))
        && Total(st.views) == Summaries(st.views[..m]) + EstimateTokens(s.render(m)))
  }

  lemma CompactedFlat(s: Setup, done: seq<Call>, st: State)
    requires Ledger(s, done, st) && st.views != [] && st.views[|st.views| - 1].raw.Some?
    ensures Flat(s, CompactState(s, st))
  {
    hide DurableTokens, Total, Summaries, EstimateTokens, LastLive, Compacted, MirrorAll, EvictedCount, Summary, PlanOf,
         LoadedOf, Verbs, ToolIds, PlanDistinct, Names, Ids;
    var next := CompactState(s, st);
    NewestIsLast(st.views);
    assert Unpinned(st.views);
    CompactedIsFlat(st.views, DurableTokens(s.task, st.plan, []), s.threshold);
    NoneAfter(next.views);
  }

  /** At every model call of every run memory is flat in this sense.  Before the first turn
      there is only the task. */
  lemma MemoryFlat(s: Setup, n: nat)
    requires Reached(s, n)
    ensures if n == 0 then StateAt(s, n).views == [] else Flat(s, StateAt(s, n))
  {
    hide BatchState, CompactState, Flat, Ledger, CallsOf, FirstFatal, FirstFinish;
    if n > 0 {
      assert GoesOn(s.model(n - 1));
      var k := |s.model(n - 1).calls|;
      LedgerIn(s, n - 1, k);
      NewestIsLive(s, n - 1);
      CompactedFlat(s, CallsOf(s.model, n - 1) + s.model(n - 1).calls[..k], BatchState(s, n - 1, k));
    }
  }

  lemma NewestIsLast(vs: seq<PayloadView>)
    requires vs != [] && vs[|vs| - 1].raw.Some?
    ensures LastLive(vs) == |vs|
  {
  }

  lemma NoneAfter(vs: seq<PayloadView>)
    ensures Summaries(vs[|vs|..]) == 0
  {
  }
}
