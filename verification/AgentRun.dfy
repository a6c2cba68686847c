/** A whole run of the agent (src/limpiador/agent/loop.py, `run`): its model calls see
    the states of the machine, one after another, and its end is decided by the responses. */
module AgentRun {
  import opened Text
  import opened Sorting
  import opened Naming
  import opened Registry
  import opened Memory
  import opened Transcript
  import opened AgentLoop

  datatype ModelCall = ModelCall(messages: seq<Message>, tools: seq<Schema>)

  /** `result` is the finish payload or the trailing text; a run that crashed left the loop
      on an untyped error. */
  datatype RunResult = RunResult(result: Option<string>, aborted: bool, crashed: bool, turns: nat,
                                 toolCalls: seq<string>, messages: seq<Message>, trace: seq<ModelCall>,
                                 protocolCalls: seq<Call>)

  /** The run gets to the model call of turn `n`. */
  ghost predicate AtTurn(s: Setup, n: nat) {
    Reached(s, n) && StateAt(s, n).calls < s.ceiling
  }

  /** The traced call carries the transcript as it was and the schemas of that turn. */
  ghost predicate TraceEntry(s: Setup, n: nat, call: ModelCall) {
    call.messages == StateAt(s, n).messages && Active(s.tools, StateAt(s, n).loaded, call.tools)
  }

  /** One model call per turn, each in the machine's state for that turn. */
  ghost predicate Recorded(s: Setup, trace: seq<ModelCall>) {
    forall n {:trigger trace[n]} | 0 <= n < |trace| :: AtTurn(s, n) && TraceEntry(s, n, trace[n])
  }

  /** How the run ended, after `n` model calls, in the state `st`. */
  ghost predicate Ended(s: Setup, n: nat, res: RunResult, st: State) {
    if res.aborted then
      !res.crashed && res.result == None && Reached(s, n) && st == StateAt(s, n) && st.calls >= s.ceiling
    else
      n > 0 && Reached(s, n - 1) && EndedBy(s, n - 1, res, st)
  }

  /** The response of turn `n` ended the run: no calls, a fatal call, or a `finish`. */
  ghost predicate EndedBy(s: Setup, n: nat, res: RunResult, st: State) {
    var r := s.model(n);
    var x, f := FirstFatal(r.calls), FirstFinish(r.calls);
    && (r.calls == [] || x > 0 || f > 0)
    && (res.crashed <==> x > 0)
    && res.result == (if r.calls == [] then r.text else if x > 0 then None else Some(r.calls[f - 1].args.result))
    && st == (if r.calls == [] || x > 0 then BatchState(s, n, x) else StateAt(s, n + 1))
  }

  /** How one turn left off. */
  datatype TurnOutcome = Answer | Continues | FinishedWith(result: string) | Raised

  ghost predicate TurnEnded(s: Setup, n: nat, outcome: TurnOutcome, st: State) {
    var r := s.model(n);
    var x, f := FirstFatal(r.calls), FirstFinish(r.calls);
    match outcome
    case Answer => r.calls == [] && st == BatchState(s, n, 0)
    case Continues => GoesOn(r) && st == StateAt(s, n + 1)
    case FinishedWith(text) =>
      x == 0 && f > 0 && text == r.calls[f - 1].args.result && st == StateAt(s, n + 1)
    case Raised => x > 0 && st == BatchState(s, n, x)
  }

  lemma BatchEnded(s: Setup, n: nat, finished: Option<string>, crashed: bool, st: State)
    requires BatchOver(s, n, finished, crashed, st) && s.model(n).calls != []
    ensures crashed ==> TurnEnded(s, n, Raised, st)
    ensures !crashed ==> st == BatchState(s, n, |s.model(n).calls|)
    ensures !crashed ==>
      TurnEnded(s, n, if finished.Some? then FinishedWith(finished.value) else Continues, StateAt(s, n + 1))
  {
    hide BatchState, StateAt, FirstFatal, FirstFinish;
  }

  lemma StateAfter(s: Setup, n: nat)
    ensures StateAt(s, n + 1) == CompactState(s, BatchState(s, n, |s.model(n).calls|))
    ensures BatchState(s, n, 0) == Answered(StateAt(s, n), s.model(n))
  {
    hide CompactState, Answered;
  }

  /** One turn, from the model's response to the end of the loop body. */
  method TakeTurn(ghost s: Setup, ghost n: nat, response: Response, render: nat -> string, registry: ToolRegistry,
                  guard: CallGuard, context: Context, messages0: seq<Message>, dispatched0: seq<string>,
                  protocol0: seq<Call>)
    returns (messages: seq<Message>, dispatched: seq<string>, protocol: seq<Call>, outcome: TurnOutcome)
    requires registry.Valid() && registry.tools == s.tools && context.Valid()
    requires context.task == s.task && context.threshold == s.threshold && context.facts == []
    requires response == s.model(n) && render == s.render
    requires Now(messages0, dispatched0, protocol0, context, guard, registry) == StateAt(s, n)
    modifies registry`loaded, registry`lastWasSearch, registry`trace, guard
    modifies context`subGoals, context`payloads, context`filesRead, context`rereads, context.Owned()
    ensures registry.Valid() && context.Valid()
    ensures TurnEnded(s, n, outcome, Now(messages, dispatched, protocol, context, guard, registry))
    ensures guard.calls >= old(guard.calls) && (outcome.Continues? ==> guard.calls > old(guard.calls))
    ensures fresh(context.Owned() - old(context.Owned()))
  {
    hide BatchState, StateAt, BatchOver, TurnEnded, CompactState, FirstFatal, FirstFinish, DurableTokens, ViewsOf,
         Distinct, PlanDistinct, ValidName, GoesOn;
    StateAfter(s, n);
    dispatched, protocol := dispatched0, protocol0;
    messages := messages0 + [Assistant(response.text, response.calls)];
    if response.calls == [] {
      PlainAnswer(s, n);
      outcome := Answer;
      return;
    }
    var finished, crashed;
    messages, dispatched, protocol, finished, crashed :=
      DispatchBatch(s, n, response.calls, render, registry, guard, context, messages, dispatched, protocol);
    BatchEnded(s, n, finished, crashed, Now(messages, dispatched, protocol, context, guard, registry));
    if crashed {
      outcome := Raised;
      return;
    }
    messages :=
      CompactTurn(s, BatchState(s, n, |response.calls|), registry, guard, context, messages, dispatched, protocol);
    outcome := if finished.Some? then FinishedWith(finished.value) else Continues;
  }

  lemma PlainAnswer(s: Setup, n: nat)
    requires s.model(n).calls == []
    ensures TurnEnded(s, n, Answer, BatchState(s, n, 0))
  {
    hide BatchState, StateAt;
  }

  /** The compaction at the end of a turn. */
  method CompactTurn(ghost s: Setup, ghost st: State, registry: ToolRegistry, guard: CallGuard, context: Context,
                     messages0: seq<Message>, dispatched: seq<string>, protocol: seq<Call>)
    returns (messages: seq<Message>)
    requires context.Valid()
    requires context.task == s.task && context.threshold == s.threshold && context.facts == []
    requires Now(messages0, dispatched, protocol, context, guard, registry) == st
    modifies context.Owned()
    ensures Now(messages, dispatched, protocol, context, guard, registry) == CompactState(s, st)
  {
    hide DurableTokens, MirrorAll, EvictedCount, Compacted, CompactState, ViewsOf;
    messages := Compact(context, messages0);
    CompactedState(s, st, Now(messages, dispatched, protocol, context, guard, registry));
  }

  lemma CompactedState(s: Setup, st: State, next: State)
    requires next.views == Compacted(st.views, DurableTokens(s.task, st.plan, []), s.threshold)
    requires next == st.(views := next.views, messages := next.messages)
    requires next.messages == if EvictedCount(st.views, next.views) == 0 then st.messages
                              else MirrorAll(st.messages, next.views)
    ensures next == CompactState(s, st)
  {
    hide DurableTokens, MirrorAll, EvictedCount, Compacted;
  }

  // ---- the loop over turns ----------------------------------------------------------------------

  lemma NothingYet(s: Setup)
    ensures StateAt(s, 0) == Start(s) && Reached(s, 0) && Recorded(s, [])
  {
  }

  lemma RecordTurn(s: Setup, trace: seq<ModelCall>, tools: seq<Schema>)
    requires var n := |trace|;
      && Recorded(s, trace) && Reached(s, n) && StateAt(s, n).calls < s.ceiling
      && Active(s.tools, StateAt(s, n).loaded, tools)
    ensures Recorded(s, trace + [ModelCall(StateAt(s, |trace|).messages, tools)])
  {
    hide StateAt, Reached, Active;
    var longer := trace + [ModelCall(StateAt(s, |trace|).messages, tools)];
    forall n | 0 <= n < |longer| ensures AtTurn(s, n) && TraceEntry(s, n, longer[n]) {
      if n < |trace| { assert longer[n] == trace[n]; }
    }
  }

  lemma TurnGoesOn(s: Setup, n: nat, st: State)
    requires Reached(s, n) && TurnEnded(s, n, Continues, st)
    ensures Reached(s, n + 1) && st == StateAt(s, n + 1)
  {
    hide StateAt, GoesOn, BatchState, FirstFatal, FirstFinish;
  }

  lemma EndedByGuard(s: Setup, n: nat, res: RunResult)
    requires res.aborted && !res.crashed && res.result == None && Reached(s, n) && StateAt(s, n).calls >= s.ceiling
    ensures Ended(s, n, res, StateAt(s, n))
  {
    hide StateAt, Reached;
  }

  lemma NoCallsNoFatal()
    ensures FirstFinish([]) == 0 && FirstFatal([]) == 0
  {
  }

  lemma EndedByTurn(s: Setup, n: nat, outcome: TurnOutcome, res: RunResult, st: State)
    requires Reached(s, n) && TurnEnded(s, n, outcome, st) && !outcome.Continues? && !res.aborted
    requires res.crashed <==> outcome.Raised?
    requires res.result == (match outcome
                            case Answer => s.model(n).text
                            case FinishedWith(text) => Some(text)
                            case Raised => None
                            case Continues => None)
    ensures Ended(s, n + 1, res, st)
  {
    hide StateAt, BatchState, Reached, FirstFatal, FirstFinish, GoesOn;
    NoCallsNoFatal();
  }

  /** `run`. */
  method Run(task: string, systemPrompt: string, registry: ToolRegistry, guard: CallGuard, model: nat -> Response,
             render: nat -> string, threshold: int)
    returns (res: RunResult, context: Context)
    requires registry.Valid()
    modifies registry, guard
    ensures var s := Setup(task, systemPrompt, model, render, threshold, guard.ceiling, old(guard.calls),
                           old(registry.tools), old(registry.loaded));
      && |res.trace| == res.turns && Recorded(s, res.trace)
      && Ended(s, res.turns, res, Now(res.messages, res.toolCalls, res.protocolCalls, context, guard, registry))
    ensures registry.Valid() && registry.tools == old(registry.tools)
  {
    hide StateAt, BatchState, Reached, Recorded, Active, GoesOn, Ended, TurnEnded, ViewsOf, Distinct, PlanDistinct,
         ValidName, DurableTokens;
    ghost var s := Setup(task, systemPrompt, model, render, threshold, guard.ceiling, guard.calls,
                         registry.tools, registry.loaded);
    var messages := (if systemPrompt != "" then [System(systemPrompt)] else []) + [User(task)];
    context := new Context(task, threshold);
    var dispatched: seq<string>, protocol: seq<Call>, trace: seq<ModelCall> := [], [], [];
    var turns := 0;
    NothingYet(s);
    while true
      invariant registry.Valid() && registry.tools == s.tools
      invariant fresh(context) && context.Valid() && context.task == task && context.threshold == threshold
      invariant context.facts == [] && fresh(context.Owned())
      invariant turns == |trace| && Recorded(s, trace) && Reached(s, turns)
      invariant Now(messages, dispatched, protocol, context, guard, registry) == StateAt(s, turns)
      decreases guard.ceiling - guard.calls
    {
      var aborted := guard.Check();
      if aborted {
        res := RunResult(None, true, false, turns, dispatched, messages, trace, protocol);
        EndedByGuard(s, turns, res);
        return;
      }
      var tools := registry.ActiveSchemas();
      RecordTurn(s, trace, tools);
      trace := trace + [ModelCall(messages, tools)];
      var response := model(turns);
      var outcome;
      messages, dispatched, protocol, outcome :=
        TakeTurn(s, turns, response, render, registry, guard, context, messages, dispatched, protocol);
      ghost var end := Now(messages, dispatched, protocol, context, guard, registry);
      turns := turns + 1;
      match outcome
      case Continues =>
        TurnGoesOn(s, turns - 1, end);
      case Answer =>
        res := RunResult(response.text, false, false, turns, dispatched, messages, trace, protocol);
        EndedByTurn(s, turns - 1, outcome, res, end);
        return;
      case FinishedWith(text) =>
        res := RunResult(Some(text), false, false, turns, dispatched, messages, trace, protocol);
        EndedByTurn(s, turns - 1, outcome, res, end);
        return;
      case Raised =>
        res := RunResult(None, false, true, turns, dispatched, messages, trace, protocol);
        EndedByTurn(s, turns - 1, outcome, res, end);
        return;
    }
  }
}
