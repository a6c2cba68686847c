/** The agent loop (src/limpiador/agent/loop.py, `run` and its helpers) with its call
    guard (src/limpiador/agent/guard.py).  The language model is an arbitrary function
    from the number of the turn to a response, and the text each dispatched call folds
    back is an arbitrary function from the number of the call: a run against any model
    and any tools is a run of this machine. */
module AgentLoop {
  import opened Text
  import opened Sorting
  import opened Registry
  import opened Memory
  import opened Transcript
  import opened Naming

  class CallGuard {
    const ceiling: int
    var calls: nat

    constructor (ceiling: int)
      ensures this.ceiling == ceiling && calls == 0
    {
      this.ceiling, calls := ceiling, 0;
    }

    method Record()
      modifies this
      ensures calls == old(calls) + 1
    {
      calls := calls + 1;
    }

    /** True when the source raises RunAborted. */
    method Check() returns (aborted: bool)
      ensures aborted <==> calls >= ceiling
    {
      aborted := calls >= ceiling;
    }
  }

  // ---- what a run is given --------------------------------------------------------------

  datatype Setup = Setup(task: string, systemPrompt: string, model: nat -> Response, render: nat -> string,
                         threshold: int, ceiling: int, recorded: nat, tools: map<string, Tool>, preloaded: set<string>)

  /** An empty system prompt is left out, like a missing one. */
  function Head(s: Setup): seq<Message> {
    (if s.systemPrompt != "" then [System(s.systemPrompt)] else []) + [User(s.task)]
  }

  function Summary(name: string, content: string): string {
    "[" + name + "] result elided after compaction (" + Decimal(|content|) + " chars)."
  }

  /** The summary names the tool and gives the length of what it stands for. */
  lemma SummaryTells(name: string, content: string)
    ensures exists d: string ::
      && (forall i | 0 <= i < |d| :: IsDigit(d[i])) && Number(d) == |content|
      && Summary(name, content) == "[" + name + "] result elided after compaction (" + d + " chars)."
  {
    hide Number, Decimal;
    NumberOfDecimal(|content|);
  }

  // ---- one call -----------------------------------------------------------------------------

  /** Applying the call as a plan verb runs `for` over a value that is not iterable. */
  predicate BreaksLoop(c: Call) {
    c.name == PLAN_ADD && c.args.subGoals.NotIterable?
  }

  /** A plan verb that is applied, and so noted among the protocol calls. */
  predicate IsVerb(c: Call) {
    (c.name == PLAN_ADD && !c.args.subGoals.NotIterable?) || c.name == PLAN_RESOLVE
  }

  predicate IsFinish(c: Call) {
    c.name == FINISH
  }

  /** What `for goal in sub_goals` goes through: a text is iterated by characters. */
  function Steps(goals: Goals): seq<string> {
    match goals
    case GoalList(steps) => steps
    case GoalText(text) => seq(|text|, i requires 0 <= i < |text| => [text[i]])
    case NotIterable => []
  }

  function AddGoals(plan: seq<SubGoal>, goals: seq<string>): seq<SubGoal> {
    if goals == [] then plan else AddGoal(AddGoals(plan, goals[..|goals| - 1]), goals[|goals| - 1])
  }

  /** The plan after one call; a plan verb counts even when its dispatch was refused. */
  function PlanAfter(plan: seq<SubGoal>, c: Call): seq<SubGoal> {
    if c.name == PLAN_ADD then AddGoals(plan, Steps(c.args.subGoals))
    else if c.name == PLAN_RESOLVE && Strip(c.args.subGoal) != "" then ResolveGoal(plan, Strip(c.args.subGoal))
    else plan
  }

  /** `later` is the plan with each of `steps` that it did not list behind it: once,
      unresolved, and in the order of first mention. */
  ghost predicate StepsAdded(plan: seq<SubGoal>, steps: seq<string>, later: seq<SubGoal>) {
    && plan <= later
    && (forall d :: d in Descriptions(later) <==> d in Descriptions(plan) || d in steps)
    && (forall i | |plan| <= i < |later| :: !later[i].resolved && later[i].description !in Descriptions(plan))
    && (forall i, j | |plan| <= i < j < |later| :: MentionedFirst(steps, later[i].description, later[j].description))
  }

  /** There is a mention of `a` with none of `b` up to it. */
  ghost predicate MentionedFirst(steps: seq<string>, a: string, b: string) {
    exists k :: 0 <= k < |steps| && steps[k] == a && forall m | 0 <= m <= k :: steps[m] != b
  }

  lemma ListedIs(plan: seq<SubGoal>, d: string)
    ensures Listed(plan, d) <==> d in Descriptions(plan)
  {
    if Listed(plan, d) {
      var i :| 0 <= i < |plan| && plan[i].description == d;
      assert Descriptions(plan)[i] == d;
    }
  }

  lemma {:induction false} AddGoalsIs(plan: seq<SubGoal>, steps: seq<string>)
    ensures StepsAdded(plan, steps, AddGoals(plan, steps))
    decreases |steps|
  {
    hide StepsAdded, AddGoal;
    if steps == [] {
      NoStepsAdded(plan);
    } else {
      var front, last := steps[..|steps| - 1], steps[|steps| - 1];
      AddGoalsIs(plan, front);
      assert steps == front + [last];
      OneStepAdded(plan, front, AddGoals(plan, front), last);
    }
  }

  lemma NoStepsAdded(plan: seq<SubGoal>)
    ensures StepsAdded(plan, [], plan)
  {
  }

  lemma OneStepAdded(plan: seq<SubGoal>, front: seq<string>, before: seq<SubGoal>, last: string)
    requires StepsAdded(plan, front, before)
    ensures StepsAdded(plan, front + [last], AddGoal(before, last))
  {
    hide Listed, MentionedFirst;
    var steps, later := front + [last], AddGoal(before, last);
    ListedIs(before, last);
    forall d ensures d in Descriptions(later) <==> d in Descriptions(plan) || d in steps {
      DescriptionsGrow(before, last, d);
    }
    forall i, j | |plan| <= i < j < |later| ensures MentionedFirst(steps, later[i].description, later[j].description) {
      if j < |before| {
        MentionedStill(front, last, before[i].description, before[j].description);
      } else {
        assert before[i].description in Descriptions(before) by { assert Descriptions(before)[i] == before[i].description; }
        MentionedBeforeLast(front, last, before[i].description);
      }
    }
  }

  lemma AddGoalPlanned(plan: seq<SubGoal>, last: string, step: string)
    ensures Listed(AddGoal(plan, last), step) <==> Listed(plan, step) || step == last
  {
    var later := AddGoal(plan, last);
    if later != plan {
      assert later[|plan|].description == last;
      assert forall i | 0 <= i < |plan| :: later[i] == plan[i];
    }
  }

  lemma DescriptionsGrow(before: seq<SubGoal>, last: string, d: string)
    ensures d in Descriptions(AddGoal(before, last)) <==> d in Descriptions(before) || d == last
  {
    hide Listed, AddGoal;
    ListedIs(before, d);
    ListedIs(AddGoal(before, last), d);
    AddGoalPlanned(before, last, d);
  }

  lemma MentionedStill(front: seq<string>, last: string, a: string, b: string)
    requires MentionedFirst(front, a, b)
    ensures MentionedFirst(front + [last], a, b)
  {
    var k :| 0 <= k < |front| && front[k] == a && forall m | 0 <= m <= k :: front[m] != b;
    assert (front + [last])[k] == a;
  }

  lemma MentionedBeforeLast(front: seq<string>, last: string, a: string)
    requires a in front && last !in front
    ensures MentionedFirst(front + [last], a, last)
  {
    var k :| 0 <= k < |front| && front[k] == a;
    assert (front + [last])[k] == a;
  }

  /** A list of steps is planned: this is what `plan_add` is for. */
  lemma ListIsPlanned(plan: seq<SubGoal>, c: Call, steps: seq<string>)
    requires c.name == PLAN_ADD && c.args.subGoals == GoalList(steps)
    ensures StepsAdded(plan, steps, PlanAfter(plan, c))
  {
    hide StepsAdded, AddGoals;
    AddGoalsIs(plan, steps);
  }

  // ---- one batch: the first `finish`, and the first call that ends the run in an error -------

  /** Position plus one of the first `finish` call; zero when there is none. */
  function FirstFinish(calls: seq<Call>): (n: nat)
    ensures n <= |calls|
    ensures n > 0 ==> IsFinish(calls[n - 1])
  {
    if calls == [] then 0
    else
      var m := FirstFinish(calls[..|calls| - 1]);
      if m > 0 then m else if IsFinish(calls[|calls| - 1]) then |calls| else 0
  }

  /** Behind the calls `before`, the call raises an untyped error: a plan that cannot be
      iterated, or the first `finish` when it is refused. */
  predicate Fatal(before: seq<Call>, c: Call) {
    BreaksLoop(c) || (IsFinish(c) && !c.args.valid && FirstFinish(before) == 0)
  }

  /** Position plus one of the first fatal call; zero when there is none. */
  function FirstFatal(calls: seq<Call>): (n: nat)
    ensures n <= |calls|
  {
    if calls == [] then 0
    else
      var m := FirstFatal(calls[..|calls| - 1]);
      if m > 0 then m else if Fatal(calls[..|calls| - 1], calls[|calls| - 1]) then |calls| else 0
  }

  lemma FirstFinishGrows(calls: seq<Call>, k: nat)
    requires k < |calls|
    ensures var m := FirstFinish(calls[..k]);
      FirstFinish(calls[..k + 1]) == if m > 0 then m else if IsFinish(calls[k]) then k + 1 else 0
  {
    hide IsFinish;
    assert calls[..k + 1][..k] == calls[..k];
  }

  /** The first `finish` is a call of that name behind none of that name. */
  lemma FirstFinishIs(calls: seq<Call>, k: nat)
    requires k < |calls|
    ensures FirstFinish(calls) == k + 1 <==> calls[k].name == "finish" && forall j | 0 <= j < k :: calls[j].name != "finish"
  {
    NoneFinishes(calls, k);
    FirstFinishGrows(calls, k);
    FinishSeen(calls, k + 1, |calls|);
    assert calls[..|calls|] == calls;
  }

  lemma {:induction false} NoneFinishes(calls: seq<Call>, k: nat)
    requires k <= |calls|
    ensures FirstFinish(calls[..k]) == 0 <==> forall j | 0 <= j < k :: calls[j].name != "finish"
    ensures FirstFinish(calls[..k]) <= k
    decreases k
  {
    if k > 0 {
      NoneFinishes(calls, k - 1);
      FirstFinishGrows(calls, k - 1);
    }
  }

  lemma {:induction false} FinishSeen(calls: seq<Call>, k: nat, n: nat)
    requires k <= n <= |calls|
    ensures FirstFinish(calls[..k]) > 0 ==> FirstFinish(calls[..n]) == FirstFinish(calls[..k])
    ensures FirstFinish(calls[..k]) == 0 ==> FirstFinish(calls[..n]) == 0 || FirstFinish(calls[..n]) > k
    decreases n
  {
    hide IsFinish, FirstFinish;
    if k < n {
      FinishSeen(calls, k, n - 1);
      FirstFinishGrows(calls, n - 1);
    }
  }

  lemma FirstFatalGrows(calls: seq<Call>, k: nat)
    requires k < |calls|
    ensures var m := FirstFatal(calls[..k]);
      FirstFatal(calls[..k + 1]) == if m > 0 then m else if Fatal(calls[..k], calls[k]) then k + 1 else 0
  {
    hide Fatal;
    assert calls[..k + 1][..k] == calls[..k];
  }

  lemma {:induction false} FirstFatalInPrefix(calls: seq<Call>, k: nat, n: nat)
    requires k <= n <= |calls| && FirstFatal(calls[..k]) > 0
    ensures FirstFatal(calls[..n]) == FirstFatal(calls[..k])
    decreases n
  {
    hide Fatal;
    if k < n {
      FirstFatalGrows(calls, n - 1);
      FirstFatalInPrefix(calls, k, n - 1);
    }
  }

  /** Position `k` holds the first fatal call exactly when it is fatal behind the calls
      before it and none of those is. */
  lemma FirstFatalIs(calls: seq<Call>, k: nat)
    requires k < |calls|
    ensures FirstFatal(calls) == k + 1
      <==> Fatal(calls[..k], calls[k]) && forall j | 0 <= j < k :: !Fatal(calls[..j], calls[j])
  {
    hide Fatal, FirstFatal;
    NoneFatal(calls, k);
    FirstFatalGrows(calls, k);
    assert calls[..|calls|] == calls;
    if FirstFatal(calls[..k + 1]) > 0 { FirstFatalInPrefix(calls, k + 1, |calls|); }
    if FirstFatal(calls[..k + 1]) == 0 && FirstFatal(calls) == k + 1 { FatalIsSeen(calls, k, |calls|); }
  }

  lemma {:induction false} NoneFatal(calls: seq<Call>, k: nat)
    requires k <= |calls|
    ensures FirstFatal(calls[..k]) == 0 <==> forall j | 0 <= j < k :: !Fatal(calls[..j], calls[j])
    ensures FirstFatal(calls[..k]) <= k
    decreases k
  {
    hide Fatal;
    if k > 0 {
      NoneFatal(calls, k - 1);
      FirstFatalGrows(calls, k - 1);
    }
  }

  lemma {:induction false} FatalIsSeen(calls: seq<Call>, k: nat, n: nat)
    requires k < n <= |calls| && FirstFatal(calls[..n]) == k + 1
    ensures FirstFatal(calls[..k + 1]) == k + 1
    decreases n
  {
    hide Fatal, FirstFatal;
    if k + 1 < n {
      FirstFatalGrows(calls, n - 1);
      FatalIsSeen(calls, k, n - 1);
    }
  }

  /** A response that does not end the run. */
  predicate GoesOn(r: Response) {
    r.calls != [] && FirstFinish(r.calls) == 0 && FirstFatal(r.calls) == 0
  }

  /** The run goes on exactly after a response with calls, none of them `finish` or a plan
      that cannot be iterated. */
  lemma GoesOnIs(r: Response)
    ensures GoesOn(r) <==> r.calls != [] && forall k | 0 <= k < |r.calls| ::
      r.calls[k].name != "finish" && !(r.calls[k].name == "plan_add" && r.calls[k].args.subGoals.NotIterable?)
  {
    hide FirstFinish, FirstFatal;
    var calls := r.calls;
    assert calls[..|calls|] == calls;
    NoneFinishes(calls, |calls|);
    NoneFatal(calls, |calls|);
  }

  // ---- the machine: the states of a run -------------------------------------------------------

  datatype State = State(messages: seq<Message>, dispatched: seq<string>, protocol: seq<Call>, plan: seq<SubGoal>,
                         views: seq<PayloadView>, calls: nat, loaded: set<string>)

  function Start(s: Setup): State {
    State(Head(s), [], [], [], [], s.recorded, s.preloaded)
  }

  /** The state after dispatching one more call and folding its result back. */
  function Folded(s: Setup, st: State, c: Call, content: string): State {
    State(st.messages + [ToolResult(c.id, c.name, content)],
      st.dispatched + [c.name],
      st.protocol + (if IsVerb(c) then [c] else []),
      PlanAfter(st.plan, c),
      st.views + [PayloadView(c.id, Summary(c.name, content), Some(content), false)],
      st.calls + 1,
      LoadedBy(s.tools, st.loaded, c.name, c.args))
  }

  function Answered(st: State, r: Response): State {
    st.(messages := st.messages + [Assistant(r.text, r.calls)])
  }

  /** Compaction, mirrored onto the transcript when it evicted something. */
  function CompactState(s: Setup, st: State): State {
    var views := Compacted(st.views, DurableTokens(s.task, st.plan, []), s.threshold);
    st.(views := views,
        messages := if EvictedCount(st.views, views) == 0 then st.messages else MirrorAll(st.messages, views))
  }

  /** The state at the model call of turn `n`, if the run gets that far. */
  function StateAt(s: Setup, n: nat): State
    decreases 2 * n, 0
  {
    if n == 0 then Start(s) else CompactState(s, BatchState(s, n - 1, |s.model(n - 1).calls|))
  }

  /** The state in turn `n` once its answer and `k` of its calls are folded in. */
  function BatchState(s: Setup, n: nat, k: nat): State
    requires k <= |s.model(n).calls|
    decreases 2 * n + 1, k
  {
    if k == 0 then Answered(StateAt(s, n), s.model(n))
    else
      var before := BatchState(s, n, k - 1);
      Folded(s, before, s.model(n).calls[k - 1], s.render(|before.dispatched|))
  }

  /** No response before turn `n` ended the run. */
  ghost predicate Reached(s: Setup, n: nat) {
    forall i | 0 <= i < n :: GoesOn(s.model(i))
  }

  // ---- the loop, on objects --------------------------------------------------------------------

  ghost function Now(messages: seq<Message>, dispatched: seq<string>, protocol: seq<Call>, context: Context,
                     guard: CallGuard, registry: ToolRegistry): State
    reads context, context.payloads, guard, registry
  {
    State(messages, dispatched, protocol, context.subGoals, context.Views(), guard.calls, registry.loaded)
  }

  /** `_apply_protocol_verb`: plan verbs write the durable plan.  `raised` is the TypeError
      of a `sub_goals` that cannot be iterated; nothing was written then. */
  method ApplyProtocolVerb(context: Context, c: Call) returns (verb: bool, raised: bool)
    requires context.Valid()
    modifies context`subGoals
    ensures context.Valid() && verb == IsVerb(c) && raised == BreaksLoop(c)
    ensures context.subGoals == PlanAfter(old(context.subGoals), c)
    ensures c.name == PLAN_ADD && c.args.subGoals.GoalList? ==>
      StepsAdded(old(context.subGoals), c.args.subGoals.steps, context.subGoals)
  {
    hide StepsAdded;
    if c.name == PLAN_ADD {
      if c.args.subGoals.NotIterable? {
        return false, true;
      }
      var goals := Steps(c.args.subGoals);
      for i := 0 to |goals|
        invariant context.Valid() && context.subGoals == AddGoals(old(context.subGoals), goals[..i])
      {
        assert goals[..i + 1][..i] == goals[..i];
        context.AddSubGoal(goals[i]);
      }
      assert goals[..|goals|] == goals;
      if c.args.subGoals.GoalList? { ListIsPlanned(old(context.subGoals), c, c.args.subGoals.steps); }
      return true, false;
    }
    if c.name == PLAN_RESOLVE {
      var goal := Strip(c.args.subGoal);
      if goal != "" {
        context.ResolveSubGoal(goal);
      }
      return true, false;
    }
    verb, raised := false, false;
  }

  /** `_record_payload` and `_apply_protocol_verb`: what one call does to working memory. */
  method Remember(context: Context, c: Call, content: string) returns (verb: bool, raised: bool)
    requires context.Valid()
    modifies context`subGoals, context`payloads, context`filesRead, context`rereads
    ensures context.Valid() && verb == IsVerb(c) && raised == BreaksLoop(c)
    ensures context.subGoals == PlanAfter(old(context.subGoals), c)
    ensures context.Views() == old(context.Views()) + [PayloadView(c.id, Summary(c.name, content), Some(content), false)]
    ensures fresh(context.Owned() - old(context.Owned()))
  {
    hide PlanAfter, Summary, PlanDistinct, Distinct, IsVerb, BreaksLoop, ViewsOf, DefaultSummary;
    context.RecordPayload(c.id, content, RESULT, Some(Summary(c.name, content)), false);
    verb, raised := ApplyProtocolVerb(context, c);
  }

  /** The body of the dispatch loop for one call, up to the handling of `finish`. */
  method DispatchCall(ghost s: Setup, registry: ToolRegistry, guard: CallGuard, context: Context, c: Call,
                      content: string, messages: seq<Message>, dispatched: seq<string>, protocol: seq<Call>)
    returns (messages': seq<Message>, dispatched': seq<string>, protocol': seq<Call>, reply: Reply, raised: bool)
    requires registry.Valid() && context.Valid() && registry.tools == s.tools
    modifies registry`loaded, registry`lastWasSearch, registry`trace, guard
    modifies context`subGoals, context`payloads, context`filesRead, context`rereads
    ensures registry.Valid() && context.Valid()
    ensures Now(messages', dispatched', protocol', context, guard, registry)
      == Folded(s, old(Now(messages, dispatched, protocol, context, guard, registry)), c, content)
    ensures raised == BreaksLoop(c)
    ensures guard.calls == old(guard.calls) + 1
    ensures fresh(context.Owned() - old(context.Owned()))
    ensures IsFinish(c) ==> reply == if c.args.valid then Finished(c.args.result) else Malformed
  {
    hide PlanAfter, Summary, PlanDistinct, Distinct, IsVerb, ViewsOf, Handler, LoadedBy, BreaksLoop, DefaultSummary,
         IsFinish, ValidName;
    guard.Record();
    dispatched' := dispatched + [c.name];
    reply := registry.Dispatch(c.name, c.args);
    messages' := messages + [ToolResult(c.id, c.name, content)];
    FinishReply(c, reply);
    var verb;
    verb, raised := Remember(context, c, content);
    protocol' := if verb then protocol + [c] else protocol;
    assert protocol + [] == protocol;
  }

  lemma FinishReply(c: Call, reply: Reply)
    requires c.name in CORE_TOOL_NAMES ==> (reply == Malformed <==> !Accepted(c.name, c.args))
    requires c.name == FINISH && c.args.valid ==> reply == Finished(c.args.result)
    ensures IsFinish(c) ==> reply == if c.args.valid then Finished(c.args.result) else Malformed
  {
  }

  /** What the calls so far finish with: the first `finish` decides. */
  predicate FinishedBy(calls: seq<Call>, finished: Option<string>) {
    var f := FirstFinish(calls);
    if f > 0 then calls[f - 1].args.valid && finished == Some(calls[f - 1].args.result) else finished == None
  }

  lemma FinishStep(calls: seq<Call>, k: nat, finished: Option<string>)
    requires k < |calls| && FinishedBy(calls[..k], finished)
    ensures var c := calls[k];
      if IsFinish(c) && finished.None? then c.args.valid ==> FinishedBy(calls[..k + 1], Some(c.args.result))
      else FinishedBy(calls[..k + 1], finished)
    ensures Fatal(calls[..k], calls[k])
      <==> BreaksLoop(calls[k]) || (IsFinish(calls[k]) && finished.None? && !calls[k].args.valid)
  {
    hide FirstFinish, IsFinish, BreaksLoop;
    FirstFinishGrows(calls, k);
    assert calls[..k + 1][k] == calls[k];
    var f := FirstFinish(calls[..k]);
    if f > 0 { assert calls[..k][f - 1] == calls[..k + 1][f - 1]; }
  }

  lemma NothingFinished(calls: seq<Call>)
    ensures FinishedBy(calls[..0], None) && FirstFatal(calls[..0]) == 0
  {
  }

  /** The dispatch loop stands before call `k`. */
  ghost predicate Underway(s: Setup, n: nat, k: nat, finished: Option<string>, st: State) {
    && k <= |s.model(n).calls| && st == BatchState(s, n, k)
    && FirstFatal(s.model(n).calls[..k]) == 0 && FinishedBy(s.model(n).calls[..k], finished)
  }

  /** The dispatch loop is left: after the whole batch, or on its first fatal call, with
      the calls behind that one never dispatched. */
  ghost predicate BatchOver(s: Setup, n: nat, finished: Option<string>, crashed: bool, st: State) {
    var calls := s.model(n).calls;
    && (crashed <==> FirstFatal(calls) > 0)
    && st == BatchState(s, n, if crashed then FirstFatal(calls) else |calls|)
    && (!crashed ==> FinishedBy(calls, finished))
  }

  lemma NoneYet(s: Setup, n: nat)
    ensures Underway(s, n, 0, None, BatchState(s, n, 0))
  {
    hide BatchState, FinishedBy, FirstFatal;
    NothingFinished(s.model(n).calls);
  }

  lemma BatchNext(s: Setup, n: nat, k: nat)
    requires k < |s.model(n).calls|
    ensures var before := BatchState(s, n, k);
      BatchState(s, n, k + 1) == Folded(s, before, s.model(n).calls[k], s.render(|before.dispatched|))
  {
    hide Folded, StateAt;
  }

  lemma CallGoesOn(s: Setup, n: nat, k: nat, finished: Option<string>, finished': Option<string>)
    requires k < |s.model(n).calls| && Underway(s, n, k, finished, BatchState(s, n, k))
    requires var c := s.model(n).calls[k];
      && !BreaksLoop(c) && !(IsFinish(c) && finished.None? && !c.args.valid)
      && finished' == if IsFinish(c) && finished.None? then Some(c.args.result) else finished
    ensures Underway(s, n, k + 1, finished', BatchState(s, n, k + 1))
  {
    hide BatchState, FinishedBy, FirstFatal, IsFinish, BreaksLoop, Fatal;
    FinishStep(s.model(n).calls, k, finished);
    FirstFatalGrows(s.model(n).calls, k);
  }

  lemma CallCrashes(s: Setup, n: nat, k: nat, finished: Option<string>, finished': Option<string>)
    requires k < |s.model(n).calls| && Underway(s, n, k, finished, BatchState(s, n, k))
    requires var c := s.model(n).calls[k];
      BreaksLoop(c) || (IsFinish(c) && finished.None? && !c.args.valid)
    ensures BatchOver(s, n, finished', true, BatchState(s, n, k + 1))
  {
    hide BatchState, FinishedBy, FirstFatal, IsFinish, BreaksLoop, Fatal;
    var calls := s.model(n).calls;
    FinishStep(calls, k, finished);
    FirstFatalGrows(calls, k);
    FirstFatalInPrefix(calls, k + 1, |calls|);
    assert calls[..|calls|] == calls;
  }

  lemma BatchDone(s: Setup, n: nat, finished: Option<string>)
    requires Underway(s, n, |s.model(n).calls|, finished, BatchState(s, n, |s.model(n).calls|))
    ensures BatchOver(s, n, finished, false, BatchState(s, n, |s.model(n).calls|))
  {
    hide BatchState, FinishedBy, FirstFatal;
    assert s.model(n).calls[..|s.model(n).calls|] == s.model(n).calls;
  }

  /** One round of the dispatch loop: call `k` of turn `n`. */
  method DispatchNext(ghost s: Setup, ghost n: nat, ghost k: nat, c: Call, render: nat -> string, registry: ToolRegistry,
                      guard: CallGuard, context: Context, messages0: seq<Message>, dispatched0: seq<string>,
                      protocol0: seq<Call>, finished0: Option<string>)
    returns (messages: seq<Message>, dispatched: seq<string>, protocol: seq<Call>, finished: Option<string>,
             crashed: bool)
    requires registry.Valid() && context.Valid() && registry.tools == s.tools && render == s.render
    requires k < |s.model(n).calls| && c == s.model(n).calls[k]
    requires Underway(s, n, k, finished0, Now(messages0, dispatched0, protocol0, context, guard, registry))
    modifies registry`loaded, registry`lastWasSearch, registry`trace, guard
    modifies context`subGoals, context`payloads, context`filesRead, context`rereads
    ensures registry.Valid() && context.Valid()
    ensures var st := Now(messages, dispatched, protocol, context, guard, registry);
      if crashed then BatchOver(s, n, finished, true, st) else Underway(s, n, k + 1, finished, st)
    ensures guard.calls == old(guard.calls) + 1 && fresh(context.Owned() - old(context.Owned()))
  {
    hide BatchOver, BatchState, Folded, FirstFatal, FinishedBy, IsFinish, BreaksLoop, ViewsOf, Distinct, PlanDistinct,
         ValidName;
    BatchNext(s, n, k);
    var reply, raised;
    messages, dispatched, protocol, reply, raised :=
      DispatchCall(s, registry, guard, context, c, render(|dispatched0|), messages0, dispatched0, protocol0);
    finished := finished0;
    if raised {
      CallCrashes(s, n, k, finished0, finished);
      return messages, dispatched, protocol, finished, true;
    }
    if IsFinish(c) && finished.None? {
      if !reply.Finished? {
        CallCrashes(s, n, k, finished0, finished);
        return messages, dispatched, protocol, finished, true;
      }
      finished := Some(reply.result);
    }
    CallGoesOn(s, n, k, finished0, finished);
    crashed := false;
  }

  /** The dispatch loop of one turn, in the order the calls were returned. */
  method DispatchBatch(ghost s: Setup, ghost n: nat, calls: seq<Call>, render: nat -> string, registry: ToolRegistry,
                       guard: CallGuard, context: Context, messages0: seq<Message>, dispatched0: seq<string>,
                       protocol0: seq<Call>)
    returns (messages: seq<Message>, dispatched: seq<string>, protocol: seq<Call>, finished: Option<string>,
             crashed: bool)
    requires registry.Valid() && context.Valid() && registry.tools == s.tools
    requires calls == s.model(n).calls && render == s.render
    requires Now(messages0, dispatched0, protocol0, context, guard, registry) == BatchState(s, n, 0)
    modifies registry`loaded, registry`lastWasSearch, registry`trace, guard
    modifies context`subGoals, context`payloads, context`filesRead, context`rereads
    ensures registry.Valid() && context.Valid()
    ensures BatchOver(s, n, finished, crashed, Now(messages, dispatched, protocol, context, guard, registry))
    ensures guard.calls >= old(guard.calls) && (calls != [] ==> guard.calls > old(guard.calls))
    ensures fresh(context.Owned() - old(context.Owned()))
  {
    hide Underway, BatchOver, BatchState, ViewsOf, Distinct, PlanDistinct, ValidName;
    messages, dispatched, protocol, finished, crashed := messages0, dispatched0, protocol0, None, false;
    NoneYet(s, n);
    for k := 0 to |calls|
      invariant registry.Valid() && context.Valid() && registry.tools == s.tools
      invariant Underway(s, n, k, finished, Now(messages, dispatched, protocol, context, guard, registry))
      invariant !crashed && guard.calls == old(guard.calls) + k
      invariant fresh(context.Owned() - old(context.Owned()))
    {
      messages, dispatched, protocol, finished, crashed :=
        DispatchNext(s, n, k, calls[k], render, registry, guard, context, messages, dispatched, protocol, finished);
      if crashed {
        return;
      }
    }
    StateOf(s, n, |calls|, finished, Now(messages, dispatched, protocol, context, guard, registry));
    BatchDone(s, n, finished);
  }

  lemma StateOf(s: Setup, n: nat, k: nat, finished: Option<string>, st: State)
    requires Underway(s, n, k, finished, st)
    ensures k <= |s.model(n).calls| && st == BatchState(s, n, k)
  {
    hide BatchState, FirstFatal, FinishedBy;
  }

  /** `_compact`: compaction, mirrored onto the transcript when it evicted something. */
  method Compact(context: Context, messages: seq<Message>) returns (messages': seq<Message>)
    requires context.Valid()
    modifies context.Owned()
    ensures context.Views() == Compacted(old(context.Views()), context.Durable(), context.threshold)
    ensures messages' == if EvictedCount(old(context.Views()), context.Views()) == 0 then messages
                         else MirrorAll(messages, context.Views())
  {
    var evicted, _, _ := context.Compact();
    if evicted == 0 {
      return messages;
    }
    messages' := Mirror(messages, context.Views());
  }
}
