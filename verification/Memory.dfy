/** Working memory: the durable plan, the payloads that can be evicted, and compaction
    (src/limpiador/agent/context.py). */
module Memory {
  import opened Text
  import opened Sorting

  const CHARS_PER_TOKEN := 4

  function EstimateTokens(text: string): nat {
    |text| / CHARS_PER_TOKEN
  }

  /** A token is four characters, and what is left over counts nothing. */
  lemma EstimateIs(text: string)
    ensures 4 * EstimateTokens(text) <= |text| < 4 * EstimateTokens(text) + 4
  {
  }

  // ---- the plan ---------------------------------------------------------------------

  datatype SubGoal = SubGoal(description: string, resolved: bool)

  predicate Listed(plan: seq<SubGoal>, description: string) {
    exists i :: 0 <= i < |plan| && plan[i].description == description
  }

  /** A plan never lists a step twice. */
  ghost predicate PlanDistinct(plan: seq<SubGoal>) {
    forall i, j | 0 <= i < j < |plan| :: plan[i].description != plan[j].description
  }

  /** `later` keeps every step of `plan` in its place, and whatever was resolved. */
  ghost predicate PlanKept(plan: seq<SubGoal>, later: seq<SubGoal>) {
    |plan| <= |later| && forall i | 0 <= i < |plan| ::
      later[i].description == plan[i].description && (plan[i].resolved ==> later[i].resolved)
  }

  function AddGoal(plan: seq<SubGoal>, description: string): seq<SubGoal> {
    if Listed(plan, description) then plan else plan + [SubGoal(description, false)]
  }

  /** The step is resolved, planned or not, and no other changes. */
  function ResolveGoal(plan: seq<SubGoal>, description: string): seq<SubGoal> {
    if Listed(plan, description) then
      seq(|plan|, i requires 0 <= i < |plan| =>
        if plan[i].description == description then SubGoal(description, true) else plan[i])
    else plan + [SubGoal(description, true)]
  }

  lemma AddGoalKeeps(plan: seq<SubGoal>, description: string)
    requires PlanDistinct(plan)
    ensures var later := AddGoal(plan, description);
      PlanDistinct(later) && PlanKept(plan, later) && Listed(later, description)
  {
    var later := AddGoal(plan, description);
    if !Listed(plan, description) { assert later[|plan|].description == description; }
  }

  lemma ResolveGoalKeeps(plan: seq<SubGoal>, description: string)
    requires PlanDistinct(plan)
    ensures var later := ResolveGoal(plan, description);
      PlanDistinct(later) && PlanKept(plan, later)
      && exists i :: 0 <= i < |later| && later[i] == SubGoal(description, true)
  {
    var later := ResolveGoal(plan, description);
    if Listed(plan, description) {
      var i :| 0 <= i < |plan| && plan[i].description == description;
      assert later[i] == SubGoal(description, true);
    } else {
      assert later[|plan|] == SubGoal(description, true);
    }
  }

  /** Resolving changes nothing exactly when the step is resolved already. */
  lemma ResolveGoalUnchanged(plan: seq<SubGoal>, description: string)
    requires PlanDistinct(plan)
    ensures ResolveGoal(plan, description) == plan <==> SubGoal(description, true) in plan
  {
    var later := ResolveGoal(plan, description);
    if Listed(plan, description) {
      var i :| 0 <= i < |plan| && plan[i].description == description;
      assert later[i] == SubGoal(description, true);
      if plan[i].resolved {
        assert plan[i] == SubGoal(description, true);
        assert later == plan;
      }
    } else {
      assert |later| == |plan| + 1;
    }
  }

  // ---- payloads as values -------------------------------------------------------------

  /** A payload at one moment; no raw text means it was evicted. */
  datatype PayloadView = PayloadView(key: string, summary: string, raw: Option<string>, pinned: bool)

  /** What the payload stands for in the transcript: raw text, or its summary. */
  function Shown(v: PayloadView): string {
    if v.raw.None? then v.summary else v.raw.value
  }

  function Footprint(v: PayloadView): nat {
    EstimateTokens(Shown(v))
  }

  function Total(vs: seq<PayloadView>): nat {
    if vs == [] then 0 else Total(vs[..|vs| - 1]) + Footprint(vs[|vs| - 1])
  }

  function Summaries(vs: seq<PayloadView>): nat {
    if vs == [] then 0 else Summaries(vs[..|vs| - 1]) + EstimateTokens(vs[|vs| - 1].summary)
  }

  /** Position plus one of the most recent live payload; zero when all are evicted. */
  function LastLive(vs: seq<PayloadView>): (n: nat)
    ensures n <= |vs|
    ensures n > 0 ==> vs[n - 1].raw.Some?
    ensures forall i | n <= i < |vs| :: vs[i].raw.None?
  {
    if vs == [] then 0
    else if vs[|vs| - 1].raw.Some? then |vs|
    else LastLive(vs[..|vs| - 1])
  }

  lemma LastLiveStep(vs: seq<PayloadView>, n: nat)
    requires 0 < n <= |vs|
    ensures LastLive(vs[..n]) == if vs[n - 1].raw.Some? then n else LastLive(vs[..n - 1])
  {
    assert vs[..n][..n - 1] == vs[..n - 1];
  }

  lemma AllLive(vs: seq<PayloadView>)
    ensures vs[..|vs|] == vs && LastLive(vs[..0]) == 0
  {
  }

  /** What one pass over the threshold does to the payload at position `i`. */
  function Evicted(vs: seq<PayloadView>, i: nat): PayloadView
    requires i < |vs|
  {
    if i + 1 == LastLive(vs) || vs[i].pinned || vs[i].raw.None? then vs[i] else vs[i].(raw := None)
  }

  function EvictAll(vs: seq<PayloadView>): (r: seq<PayloadView>)
    ensures |r| == |vs| && forall i | 0 <= i < |vs| :: r[i] == Evicted(vs, i)
  {
    seq(|vs|, i requires 0 <= i < |vs| => Evicted(vs, i))
  }

  /** The payloads when the loop has reached position `i`. */
  function EvictedUpTo(vs: seq<PayloadView>, i: nat): (r: seq<PayloadView>)
    ensures |r| == |vs| && forall j | 0 <= j < |vs| :: r[j] == if j < i then Evicted(vs, j) else vs[j]
  {
    seq(|vs|, j requires 0 <= j < |vs| => if j < i then Evicted(vs, j) else vs[j])
  }

  lemma EvictedFrom(vs: seq<PayloadView>)
    ensures EvictedUpTo(vs, 0) == vs && EvictedUpTo(vs, |vs|) == EvictAll(vs)
  {
  }

  lemma EvictedStep(vs: seq<PayloadView>, i: nat)
    requires i < |vs|
    ensures var now, next := EvictedUpTo(vs, i), EvictedUpTo(vs, i + 1);
      && now[i] == vs[i] && EvictAll(vs)[i] == Evicted(vs, i)
      && next == (if i + 1 == LastLive(vs) || vs[i].pinned || vs[i].raw.None? then now
                  else now[i := now[i].(raw := None)])
      && (Evicted(vs, i).raw.None? <==> vs[i].raw.None? || !(i + 1 == LastLive(vs) || vs[i].pinned))
  {
    hide LastLive;
  }

  function Compacted(vs: seq<PayloadView>, durable: nat, threshold: int): (r: seq<PayloadView>)
    ensures |r| == |vs|
  {
    if durable + Total(vs) <= threshold then vs else EvictAll(vs)
  }

  // ---- what a pass does to the footprint -----------------------------------------------

  /** The change in tokens at each position where raw text gave way to its summary. */
  function Saved(before: seq<PayloadView>, after: seq<PayloadView>): int
    requires |before| == |after|
  {
    if before == [] then 0
    else
      var n := |before| - 1;
      Saved(before[..n], after[..n])
      + (if before[n].raw.Some? && after[n].raw.None?
         then EstimateTokens(after[n].summary) - EstimateTokens(before[n].raw.value) else 0)
  }

  function EvictedCount(before: seq<PayloadView>, after: seq<PayloadView>): nat
    requires |before| == |after|
  {
    if before == [] then 0
    else
      var n := |before| - 1;
      EvictedCount(before[..n], after[..n]) + if before[n].raw.Some? && after[n].raw.None? then 1 else 0
  }

  lemma EvictedCountGrows(before: seq<PayloadView>, after: seq<PayloadView>, i: nat)
    requires |before| == |after| && i < |before|
    ensures EvictedCount(before[..i + 1], after[..i + 1])
      == EvictedCount(before[..i], after[..i]) + if before[i].raw.Some? && after[i].raw.None? then 1 else 0
  {
    assert before[..i + 1][..i] == before[..i] && after[..i + 1][..i] == after[..i];
  }

  lemma {:induction false} NothingEvicted(vs: seq<PayloadView>)
    ensures EvictedCount(vs, vs) == 0 && EvictedCount([], []) == 0
    decreases |vs|
  {
    if vs != [] { NothingEvicted(vs[..|vs| - 1]); }
  }

  /** A pass that evicted nothing changed nothing. */
  lemma NoneEvictedUnchanged(before: seq<PayloadView>, after: seq<PayloadView>)
    requires OnlyEvicts(before, after) && EvictedCount(before, after) == 0
    ensures after == before
  {
    hide EvictedCount;
    forall i | 0 <= i < |before| ensures after[i] == before[i] {
      NoneEvictedAt(before, after, i);
    }
  }

  lemma {:induction false} NoneEvictedAt(before: seq<PayloadView>, after: seq<PayloadView>, i: nat)
    requires |before| == |after| && EvictedCount(before, after) == 0 && i < |before|
    ensures before[i].raw.Some? ==> after[i].raw.Some?
    decreases |before|
  {
    var n := |before| - 1;
    if i < n { NoneEvictedAt(before[..n], after[..n], i); }
  }

  /** Each payload is as before, or has given up its raw text for its own summary. */
  ghost predicate OnlyEvicts(before: seq<PayloadView>, after: seq<PayloadView>) {
    |before| == |after| && forall i | 0 <= i < |before| ::
      after[i] == before[i] || (before[i].raw.Some? && !before[i].pinned && after[i] == before[i].(raw := None))
  }

  lemma CompactOnlyEvicts(vs: seq<PayloadView>, durable: nat, threshold: int)
    ensures OnlyEvicts(vs, Compacted(vs, durable, threshold))
  {
  }

  /** The footprint changes by exactly the summary-minus-raw estimates of what a pass
      evicted.  The sum can be positive: a summary may be longer than its raw text. */
  lemma {:induction false} FootprintChange(before: seq<PayloadView>, after: seq<PayloadView>)
    requires OnlyEvicts(before, after)
    ensures Total(after) - Total(before) == Saved(before, after)
    decreases |before|
  {
    if before != [] {
      var n := |before| - 1;
      FootprintChange(before[..n], after[..n]);
    }
  }

  lemma TotalLast(vs: seq<PayloadView>, v: PayloadView)
    ensures Total(vs + [v]) == Total(vs) + Footprint(v)
    ensures Summaries(vs + [v]) == Summaries(vs) + EstimateTokens(v.summary)
  {
    assert (vs + [v])[..|vs|] == vs;
  }

  lemma TotalOfNone()
    ensures Total([]) == 0 && Summaries([]) == 0
  {
  }

  lemma TotalOfTwo(a: PayloadView, b: PayloadView)
    ensures Total([a, b]) == Footprint(a) + Footprint(b)
  {
    hide Total, Summaries, Footprint;
    TotalOfNone();
    TotalLast([], a);
    TotalLast([a], b);
    assert [] + [a] == [a] && [a] + [b] == [a, b];
  }

  /** A pass can grow the footprint: two short results whose summaries are longer. */
  lemma CompactionCanGrow()
    ensures var v := PayloadView("a", "[x] result elided after compaction (4 chars).", Some("abcd"), false);
      Total(Compacted([v, v], 0, 1)) > Total([v, v]) > 1
  {
    hide Total, LastLive;
    var v := PayloadView("a", "[x] result elided after compaction (4 chars).", Some("abcd"), false);
    var vs := [v, v];
    TotalOfTwo(v, v);
    LastLiveOfTwo(v, v);
    var e := EvictAll(vs);
    assert e[0] == v.(raw := None) && e[1] == v;
    assert e == [v.(raw := None), v];
    TotalOfTwo(v.(raw := None), v);
  }

  lemma LastLiveOfTwo(a: PayloadView, b: PayloadView)
    requires b.raw.Some?
    ensures LastLive([a, b]) == 2
  {
  }

  // ---- memory is flat ---------------------------------------------------------------------

  lemma {:induction false} TotalOfEvicted(vs: seq<PayloadView>)
    requires forall i | 0 <= i < |vs| :: vs[i].raw.None?
    ensures Total(vs) == Summaries(vs)
    decreases |vs|
  {
    if vs != [] { TotalOfEvicted(vs[..|vs| - 1]); }
  }

  /** Only the payload at position `k` still holds its text. */
  ghost predicate OnlyLive(vs: seq<PayloadView>, k: nat) {
    k < |vs| && vs[k].raw.Some? && forall i | 0 <= i < |vs| && i != k :: vs[i].raw.None?
  }

  lemma LastApart<T>(s: seq<T>, k: nat)
    requires k < |s|
    ensures var m := |s| - 1;
      && s == s[..m] + [s[m]]
      && (k == m ==> s[k + 1..] == [])
      && (k < m ==> s[..m][..k] == s[..k] && s[k + 1..] == s[..m][k + 1..] + [s[m]])
  {
  }

  /** With one live payload the footprint is its text and the summaries of all others. */
  lemma {:induction false} TotalWithOneLive(vs: seq<PayloadView>, k: nat)
    requires OnlyLive(vs, k)
    ensures Total(vs) == Summaries(vs[..k]) + EstimateTokens(vs[k].raw.value) + Summaries(vs[k + 1..])
    decreases |vs|
  {
    hide EstimateTokens, Total, Summaries;
    var m := |vs| - 1;
    var front := vs[..m];
    LastApart(vs, k);
    TotalLast(front, vs[m]);
    if k == m {
      TotalOfEvicted(front);
      TotalOfNone();
    } else {
      TotalWithOneLive(front, k);
      TotalLast(front[k + 1..], vs[m]);
    }
  }

  ghost predicate Unpinned(vs: seq<PayloadView>) {
    forall i | 0 <= i < |vs| :: !vs[i].pinned
  }

  /** Any payloads, none of them pinned: a pass over the threshold leaves the text of the
      most recent live payload, and the footprint is exactly that text and the summaries of
      the others, on top of the durable state. */
  lemma CompactedIsFlat(vs: seq<PayloadView>, durable: nat, threshold: int)
    requires Unpinned(vs)
    ensures var r, n := Compacted(vs, durable, threshold), LastLive(vs);
      && Unpinned(r)
      && (durable + Total(vs) <= threshold ==> r == vs)
      && (durable + Total(vs) > threshold && n == 0 ==> Total(r) == Summaries(r))
      && (durable + Total(vs) > threshold && n > 0 ==>
            && OnlyLive(r, n - 1) && r[n - 1] == vs[n - 1]
            && Total(r) == Summaries(r[..n - 1]) + EstimateTokens(vs[n - 1].raw.value) + Summaries(r[n..]))
  {
    hide Total, Summaries, LastLive, EstimateTokens;
    if durable + Total(vs) > threshold {
      var r, n := EvictAll(vs), LastLive(vs);
      if n == 0 {
        TotalOfEvicted(r);
      } else {
        TotalWithOneLive(r, n - 1);
      }
    }
  }

  // ---- the objects --------------------------------------------------------------------

  datatype SymbolFact = SymbolFact(symbol: string, kind: string, location: string, detail: string)

  datatype PayloadKind = FILE | DIFF | LOG | RESULT

  function KindValue(kind: PayloadKind): string {
    match kind
    case FILE => "file"
    case DIFF => "diff"
    case LOG => "log"
    case RESULT => "result"
  }

  /** `_default_summary`. */
  function DefaultSummary(key: string, kind: PayloadKind, raw: string): string {
    "[" + KindValue(kind) + "] " + key + ": " + Decimal(|raw|) + " chars, summarized"
  }

  /** The default summary names the kind and the key and gives the length of the text. */
  lemma DefaultSummaryTells(key: string, kind: PayloadKind, raw: string)
    ensures KindValue(kind) == match kind
      case FILE => "file"
      case DIFF => "diff"
      case LOG => "log"
      case RESULT => "result"
    ensures exists d: string ::
      && (forall i | 0 <= i < |d| :: IsDigit(d[i])) && Number(d) == |raw|
      && DefaultSummary(key, kind, raw) == "[" + KindValue(kind) + "] " + key + ": " + d + " chars, summarized"
  {
    hide Number, Decimal;
    NumberOfDecimal(|raw|);
  }

  class Payload {
    const key: string
    const kind: PayloadKind
    const summary: string
    var raw: Option<string>
    var pinned: bool

    constructor (key: string, kind: PayloadKind, summary: string, raw: string, pinned: bool)
      ensures this.kind == kind && View() == PayloadView(key, summary, Some(raw), pinned)
    {
      this.key, this.kind, this.summary, this.raw, this.pinned := key, kind, summary, Some(raw), pinned;
    }

    function View(): PayloadView
      reads this
    {
      PayloadView(key, summary, raw, pinned)
    }
  }

  function ViewsOf(payloads: seq<Payload>): (r: seq<PayloadView>)
    reads payloads
    ensures |r| == |payloads| && forall i | 0 <= i < |payloads| :: r[i] == payloads[i].View()
  {
    seq(|payloads|, i requires 0 <= i < |payloads| reads payloads => payloads[i].View())
  }

  function Concat(parts: seq<string>): string {
    if parts == [] then "" else parts[0] + Concat(parts[1..])
  }

  function Descriptions(plan: seq<SubGoal>): (r: seq<string>)
    ensures |r| == |plan| && forall i | 0 <= i < |plan| :: r[i] == plan[i].description
  {
    seq(|plan|, i requires 0 <= i < |plan| => plan[i].description)
  }

  function FactTexts(facts: seq<SymbolFact>): seq<string> {
    seq(|facts|, i requires 0 <= i < |facts| => facts[i].symbol + facts[i].location + facts[i].detail)
  }

  function DurableTokens(task: string, plan: seq<SubGoal>, facts: seq<SymbolFact>): nat {
    EstimateTokens(Concat([task] + Descriptions(plan) + FactTexts(facts)))
  }

  /** The characters of the planned steps, resolved or not. */
  function PlanChars(plan: seq<SubGoal>): nat {
    if plan == [] then 0 else |plan[0].description| + PlanChars(plan[1..])
  }

  function FactChars(facts: seq<SymbolFact>): nat {
    if facts == [] then 0
    else |facts[0].symbol| + |facts[0].location| + |facts[0].detail| + FactChars(facts[1..])
  }

  lemma {:induction false} ConcatAppends(a: seq<string>, b: seq<string>)
    ensures |Concat(a + b)| == |Concat(a)| + |Concat(b)|
    decreases |a|
  {
    if a == [] {
      assert a + b == b;
    } else {
      ConcatAppends(a[1..], b);
      assert (a + b)[1..] == a[1..] + b;
    }
  }

  lemma {:induction false} PlanLength(plan: seq<SubGoal>)
    ensures |Concat(Descriptions(plan))| == PlanChars(plan)
    decreases |plan|
  {
    if plan != [] {
      PlanLength(plan[1..]);
      assert Descriptions(plan)[1..] == Descriptions(plan[1..]);
    }
  }

  lemma {:induction false} FactLength(facts: seq<SymbolFact>)
    ensures |Concat(FactTexts(facts))| == FactChars(facts)
    decreases |facts|
  {
    if facts != [] {
      FactLength(facts[1..]);
      assert FactTexts(facts)[1..] == FactTexts(facts[1..]);
    }
  }

  /** The durable estimate counts the task, every planned step and every fact, as one text. */
  lemma DurableIs(task: string, plan: seq<SubGoal>, facts: seq<SymbolFact>)
    ensures var chars, tokens := |task| + PlanChars(plan) + FactChars(facts), DurableTokens(task, plan, facts);
      4 * tokens <= chars < 4 * tokens + 4
  {
    hide Concat, FactTexts, PlanChars, FactChars, EstimateTokens;
    EstimateIs(Concat([task] + Descriptions(plan) + FactTexts(facts)));
    ConcatAppends([task] + Descriptions(plan), FactTexts(facts));
    ConcatAppends([task], Descriptions(plan));
    OnePart(task);
    PlanLength(plan);
    FactLength(facts);
  }

  lemma OnePart(text: string)
    ensures Concat([text]) == text
  {
    assert [text][1..] == [];
  }

  class Context {
    const task: string
    const threshold: int
    var subGoals: seq<SubGoal>
    var facts: seq<SymbolFact>
    var payloads: seq<Payload>
    var filesRead: set<string>
    var rereads: seq<string>  // the keys traced with the re-read tag

    ghost predicate Valid()
      reads this
    {
      Distinct(payloads) && PlanDistinct(subGoals) && Distinct(facts)
    }

    /** The objects the context changes besides itself. */
    ghost function Owned(): set<Payload>
      reads this`payloads
    {
      set p | p in payloads
    }

    /** The payloads as they stand. */
    function Views(): (r: seq<PayloadView>)
      reads this`payloads, payloads
      ensures |r| == |payloads| && forall i | 0 <= i < |payloads| :: r[i] == payloads[i].View()
    {
      ViewsOf(payloads)
    }

    function Durable(): nat
      reads this
    {
      DurableTokens(task, subGoals, facts)
    }

    constructor (task: string, threshold: int)
      ensures Valid() && this.task == task && this.threshold == threshold
      ensures subGoals == [] && facts == [] && payloads == [] && Owned() == {} && filesRead == {} && rereads == []
    {
      this.task, this.threshold := task, threshold;
      subGoals, facts, payloads, filesRead, rereads := [], [], [], {}, [];
    }

    method AddSubGoal(description: string)
      requires Valid()
      modifies this`subGoals
      ensures Valid() && subGoals == AddGoal(old(subGoals), description)
    {
      AddGoalKeeps(subGoals, description);
      for i := 0 to |subGoals|
        invariant forall j | 0 <= j < i :: subGoals[j].description != description
        invariant subGoals == old(subGoals)
      {
        if subGoals[i].description == description {
          return;
        }
      }
      subGoals := subGoals + [SubGoal(description, false)];
    }

    method ResolveSubGoal(description: string)
      requires Valid()
      modifies this`subGoals
      ensures Valid() && subGoals == ResolveGoal(old(subGoals), description)
    {
      for i := 0 to |subGoals|
        invariant forall j | 0 <= j < i :: subGoals[j].description != description
        invariant subGoals == old(subGoals)
      {
        if subGoals[i].description == description {
          subGoals := subGoals[i := subGoals[i].(resolved := true)];
          return;
        }
      }
      subGoals := subGoals + [SubGoal(description, true)];
    }

    method RecordSymbolFact(fact: SymbolFact)
      requires Valid()
      modifies this`facts
      ensures Valid() && facts == if fact in old(facts) then old(facts) else old(facts) + [fact]
    {
      if fact !in facts {
        facts := facts + [fact];
      }
    }

    /** Appends a live payload; reading a file again leaves its key in the trace. */
    method RecordPayload(key: string, raw: string, kind: PayloadKind, summary: Option<string>, pinned: bool)
      requires Valid()
      modifies this`payloads, this`filesRead, this`rereads
      ensures Valid() && |payloads| == |old(payloads)| + 1 && payloads[..|old(payloads)|] == old(payloads)
      ensures payloads[|old(payloads)|].kind == kind
      ensures fresh(Owned() - old(Owned()))
      ensures var gist := if summary.Some? then summary.value else DefaultSummary(key, kind, raw);
        Views() == old(Views()) + [PayloadView(key, gist, Some(raw), pinned)]
      ensures filesRead == old(filesRead) + if kind.FILE? then {key} else {}
      ensures rereads == old(rereads) + if kind.FILE? && key in old(filesRead) then [key] else []
    {
      hide DefaultSummary;
      if kind.FILE? {
        if key in filesRead {
          rereads := rereads + [key];
        }
        filesRead := filesRead + {key};
      }
      var gist := if summary.Some? then summary.value else DefaultSummary(key, kind, raw);
      var payload := new Payload(key, kind, gist, raw, pinned);
      payloads := payloads + [payload];
    }

    /** The current footprint: the durable state plus every payload. */
    method EstimatedTokens() returns (n: nat)
      ensures n == Durable() + Total(Views())
    {
      var sum := 0;
      for i := 0 to |payloads|
        invariant sum == Total(Views()[..i])
      {
        assert Views()[..i + 1][..i] == Views()[..i];
        sum := sum + Footprint(payloads[i].View());
      }
      assert Views()[..|payloads|] == Views();
      n := DurableTokens(task, subGoals, facts) + sum;
    }

    /** `_most_recent_live`, as a position. */
    method MostRecentLive() returns (n: nat)
      ensures n == LastLive(Views())
    {
      hide LastLive;
      n := |payloads|;
      AllLive(Views());
      while n > 0
        invariant n <= |payloads| && LastLive(Views()) == LastLive(Views()[..n])
      {
        LastLiveStep(Views(), n);
        if payloads[n - 1].raw.Some? {
          return;
        }
        n := n - 1;
      }
    }

    /** One compaction pass: below the threshold nothing; above it every live, unpinned
        payload but the most recent one gives up its raw text. */
    method Compact() returns (evicted: nat, before: nat, after: nat)
      requires Valid()
      modifies Owned()
      ensures Views() == Compacted(old(Views()), Durable(), threshold)
      ensures before == Durable() + Total(old(Views())) && after == Durable() + Total(Views())
      ensures evicted == EvictedCount(old(Views()), Views())
    {
      hide Total, DurableTokens, LastLive, EvictedCount, EvictAll;
      NothingEvicted(Views());
      before := EstimatedTokens();
      if before <= threshold {
        return 0, before, before;
      }
      var protected := MostRecentLive();
      evicted := EvictStale(protected);
      after := EstimatedTokens();
    }

    /** The loop of `compact`, once the most recent live payload is known. */
    method EvictStale(protected: nat) returns (evicted: nat)
      requires Valid() && protected == LastLive(Views())
      modifies Owned()
      ensures Views() == EvictAll(old(Views()))
      ensures evicted == EvictedCount(old(Views()), Views())
    {
      hide LastLive, EvictedCount, EvictAll, EvictedUpTo, Evicted, ViewsOf, PlanDistinct, Distinct;
      ghost var vs := Views();
      NothingEvicted(vs);
      EvictedFrom(vs);
      evicted := 0;
      for i := 0 to |payloads|
        invariant Views() == EvictedUpTo(vs, i)
        invariant evicted == EvictedCount(vs[..i], EvictAll(vs)[..i])
      {
        EvictedCountGrows(vs, EvictAll(vs), i);
        EvictedStep(vs, i);
        if !(i + 1 == protected || payloads[i].pinned || payloads[i].raw.None?) {
          Evict(i);
          evicted := evicted + 1;
        }
      }
      AllLive(vs);
      AllLive(EvictAll(vs));
    }

    /** One payload gives up its text, and no other changes. */
    method Evict(i: nat)
      requires Valid() && i < |payloads|
      modifies payloads[i]
      ensures Views() == old(Views())[i := old(Views())[i].(raw := None)]
    {
      hide PlanDistinct;
      payloads[i].raw := None;
    }
  }
}
