/** The wire transcript of a run, and how compaction is mirrored onto it
    (src/limpiador/agent/loop.py; `classify_turn` and `cache_prefix` from
    src/limpiador/agent/llm.py). */
module Transcript {
  import opened Text
  import opened Sorting
  import opened Naming
  import opened Registry
  import opened Memory

  datatype Call = Call(id: string, name: string, args: Arguments)

  datatype Response = Response(text: Option<string>, calls: seq<Call>)

  datatype Message =
    | System(content: string)
    | User(content: string)
    | Assistant(text: Option<string>, calls: seq<Call>)
    | ToolResult(id: string, name: string, content: string)

  // ---- the shape of a transcript --------------------------------------------------------

  /** A message without the content of a tool result, the one thing that is rewritten. */
  function Shape(m: Message): Message {
    if m.ToolResult? then m.(content := "") else m
  }

  function Shapes(ms: seq<Message>): (r: seq<Message>)
    ensures |r| == |ms| && forall i | 0 <= i < |ms| :: r[i] == Shape(ms[i])
  {
    seq(|ms|, i requires 0 <= i < |ms| => Shape(ms[i]))
  }

  function ResultShapes(calls: seq<Call>): (r: seq<Message>)
    ensures |r| == |calls| && forall i | 0 <= i < |r| :: r[i] == ToolResult(calls[i].id, calls[i].name, "")
  {
    seq(|calls|, i requires 0 <= i < |calls| => ToolResult(calls[i].id, calls[i].name, ""))
  }

  /** One assistant message and exactly its tool results: same ids, same order. */
  function Block(r: Response): seq<Message> {
    [Assistant(r.text, r.calls)] + ResultShapes(r.calls)
  }

  /** The first `n` responses of a model, each followed by its results. */
  function Blocks(model: nat -> Response, n: nat): seq<Message> {
    if n == 0 then [] else Blocks(model, n - 1) + Block(model(n - 1))
  }

  function CallsOf(model: nat -> Response, n: nat): seq<Call> {
    if n == 0 then [] else CallsOf(model, n - 1) + model(n - 1).calls
  }

  function Ids(calls: seq<Call>): (r: seq<string>)
    ensures |r| == |calls| && forall i | 0 <= i < |r| :: r[i] == calls[i].id
  {
    seq(|calls|, i requires 0 <= i < |calls| => calls[i].id)
  }

  function Names(calls: seq<Call>): (r: seq<string>)
    ensures |r| == |calls| && forall i | 0 <= i < |r| :: r[i] == calls[i].name
  {
    seq(|calls|, i requires 0 <= i < |calls| => calls[i].name)
  }

  /** The ids of the tool results, in order. */
  function ToolIds(ms: seq<Message>): seq<string> {
    if ms == [] then []
    else
      var m := ms[|ms| - 1];
      ToolIds(ms[..|ms| - 1]) + if m.ToolResult? then [m.id] else []
  }

  /** The contents of the tool results, in the same order. */
  function Contents(ms: seq<Message>): (r: seq<string>)
    ensures |r| == |ToolIds(ms)|
  {
    if ms == [] then []
    else
      var m := ms[|ms| - 1];
      Contents(ms[..|ms| - 1]) + if m.ToolResult? then [m.content] else []
  }

  lemma ToolIdsGrow(ms: seq<Message>, m: Message)
    ensures ToolIds(ms + [m]) == ToolIds(ms) + if m.ToolResult? then [m.id] else []
    ensures Contents(ms + [m]) == Contents(ms) + if m.ToolResult? then [m.content] else []
    ensures Shapes(ms + [m]) == Shapes(ms) + [Shape(m)]
  {
    assert (ms + [m])[..|ms|] == ms;
  }

  lemma {:induction false} ToolIdsOfShapes(a: seq<Message>, b: seq<Message>)
    requires Shapes(a) == Shapes(b)
    ensures ToolIds(a) == ToolIds(b)
    decreases |a|
  {
    assert |Shapes(a)| == |Shapes(b)|;
    if a != [] {
      var n := |a| - 1;
      assert Shapes(a)[n] == Shapes(b)[n];
      assert Shapes(a[..n]) == Shapes(a)[..n] == Shapes(b)[..n] == Shapes(b[..n]);
      ToolIdsOfShapes(a[..n], b[..n]);
    }
  }

  /** Where in the transcript the tool result number `k` is. */
  function Position(ms: seq<Message>, k: nat): (p: nat)
    requires k < |ToolIds(ms)|
    ensures p < |ms| && ms[p].ToolResult? && ms[p].id == ToolIds(ms)[k] && ms[p].content == Contents(ms)[k]
  {
    var n := |ms| - 1;
    if ms[n].ToolResult? && k == |ToolIds(ms)| - 1 then n else Position(ms[..n], k)
  }

  lemma ShapesPrefix(a: seq<Message>, b: seq<Message>)
    requires Shapes(a) == Shapes(b) && a != []
    ensures |a| == |b|
    ensures var n := |a| - 1;
      Shapes(a[..n]) == Shapes(b[..n]) && (a[n].ToolResult? <==> b[n].ToolResult?)
  {
    var n := |a| - 1;
    assert |Shapes(a)| == |Shapes(b)|;
    assert Shapes(a)[n] == Shapes(b)[n];
    assert Shapes(a[..n]) == Shapes(a)[..n] == Shapes(b)[..n] == Shapes(b[..n]);
  }

  lemma {:induction false} SamePosition(a: seq<Message>, b: seq<Message>, k: nat)
    requires Shapes(a) == Shapes(b) && k < |ToolIds(a)|
    ensures ToolIds(a) == ToolIds(b) && Position(a, k) == Position(b, k)
    decreases |a|
  {
    hide Shapes;
    ToolIdsOfShapes(a, b);
    ShapesPrefix(a, b);
    var n := |a| - 1;
    if !(a[n].ToolResult? && k == |ToolIds(a)| - 1) { SamePosition(a[..n], b[..n], k); }
  }

  // ---- mirroring evictions onto the transcript --------------------------------------------

  /** Position plus one of the last tool result with an id; zero when there is none. */
  function LastWith(ms: seq<Message>, id: string): (n: nat)
    ensures n <= |ms|
    ensures n > 0 ==> ms[n - 1].ToolResult? && ms[n - 1].id == id
    ensures forall j | n <= j < |ms| && ms[j].ToolResult? :: ms[j].id != id
  {
    if ms == [] then 0
    else if ms[|ms| - 1].ToolResult? && ms[|ms| - 1].id == id then |ms|
    else LastWith(ms[..|ms| - 1], id)
  }

  /** The summary of the last evicted payload with a key, if there is one. */
  function LastSummary(vs: seq<PayloadView>, key: string): (r: Option<string>)
    ensures r.None? <==> forall i | 0 <= i < |vs| && vs[i].key == key :: vs[i].raw.Some?
  {
    if vs == [] then None
    else if vs[|vs| - 1].key == key && vs[|vs| - 1].raw.None? then Some(vs[|vs| - 1].summary)
    else LastSummary(vs[..|vs| - 1], key)
  }

  /** One message after the evictions of `vs` were mirrored: only the last tool result
      of an id is rewritten, to the summary of the last evicted payload of that key. */
  function Mirrored(ms: seq<Message>, vs: seq<PayloadView>, j: nat): Message
    requires j < |ms|
  {
    if ms[j].ToolResult? && LastWith(ms, ms[j].id) == j + 1 && LastSummary(vs, ms[j].id).Some?
    then ms[j].(content := LastSummary(vs, ms[j].id).value)
    else ms[j]
  }

  function MirrorAll(ms: seq<Message>, vs: seq<PayloadView>): (r: seq<Message>)
    ensures |r| == |ms| && forall j | 0 <= j < |ms| :: r[j] == Mirrored(ms, vs, j)
  {
    seq(|ms|, j requires 0 <= j < |ms| => Mirrored(ms, vs, j))
  }

  lemma MirrorKeepsShapes(ms: seq<Message>, vs: seq<PayloadView>)
    ensures Shapes(MirrorAll(ms, vs)) == Shapes(ms)
  {
  }

  /** `by_id`, and the loop that rewrites the messages of evicted payloads. */
  method Mirror(messages: seq<Message>, payloads: seq<PayloadView>) returns (r: seq<Message>)
    ensures r == MirrorAll(messages, payloads)
  {
    hide MirrorAll, LastWith;
    var byId := IndexById(messages);
    r := messages;
    NothingMirrored(messages);
    for i := 0 to |payloads|
      invariant r == MirrorAll(messages, payloads[..i])
    {
      var payload := payloads[i];
      MirrorStep(messages, payloads, i);
      if payload.raw.None? && payload.key in byId {
        var at := byId[payload.key];
        r := r[at := r[at].(content := payload.summary)];
      }
    }
    assert payloads[..|payloads|] == payloads;
  }

  lemma NothingMirrored(ms: seq<Message>)
    ensures MirrorAll(ms, []) == ms
  {
  }

  lemma MirrorStep(ms: seq<Message>, vs: seq<PayloadView>, i: nat)
    requires i < |vs|
    ensures var r, n := MirrorAll(ms, vs[..i]), LastWith(ms, vs[i].key);
      && (n > 0 ==> r[n - 1].ToolResult?)
      && MirrorAll(ms, vs[..i + 1])
         == if vs[i].raw.None? && n > 0 then r[n - 1 := r[n - 1].(content := vs[i].summary)] else r
  {
    hide MirrorAll, Mirrored;
    var r, s, n := MirrorAll(ms, vs[..i]), MirrorAll(ms, vs[..i + 1]), LastWith(ms, vs[i].key);
    if n > 0 {
      MirroredIsLike(ms, vs[..i], n - 1);
    }
    forall j | 0 <= j < |ms|
      ensures s[j] == if vs[i].raw.None? && j + 1 == n then r[j].(content := vs[i].summary) else r[j]
    {
      MirrorOneMore(ms, vs, i, j);
      if j + 1 == n { MirroredIsLike(ms, vs[..i], j); }
    }
    UpdateAt(r, s, n, vs[i].raw.None?);
  }

  /** A tool result stays a tool result of its call. */
  lemma MirroredIsLike(ms: seq<Message>, vs: seq<PayloadView>, j: nat)
    requires j < |ms| && ms[j].ToolResult?
    ensures Mirrored(ms, vs, j).ToolResult?
    ensures forall text :: Mirrored(ms, vs, j).(content := text) == ms[j].(content := text)
  {
    hide LastWith, LastSummary;
  }

  lemma UpdateAt(r: seq<Message>, s: seq<Message>, n: nat, changed: bool)
    requires |r| == |s| && n <= |s|
    requires forall j | 0 <= j < |s| && !(changed && j + 1 == n) :: s[j] == r[j]
    ensures s == if changed && n > 0 then r[n - 1 := s[n - 1]] else r
  {
  }

  lemma MirrorOneMore(ms: seq<Message>, vs: seq<PayloadView>, i: nat, j: nat)
    requires i < |vs| && j < |ms|
    ensures LastWith(ms, vs[i].key) == j + 1 ==> ms[j].ToolResult?
    ensures Mirrored(ms, vs[..i + 1], j)
      == if vs[i].raw.None? && j + 1 == LastWith(ms, vs[i].key) then ms[j].(content := vs[i].summary)
         else Mirrored(ms, vs[..i], j)
  {
    hide LastWith, LastSummary;
    if ms[j].ToolResult? {
      LastSummaryStep(vs, i, ms[j].id);
    }
  }

  lemma LastSummaryStep(vs: seq<PayloadView>, i: nat, key: string)
    requires i < |vs|
    ensures LastSummary(vs[..i + 1], key)
      == if vs[i].key == key && vs[i].raw.None? then Some(vs[i].summary) else LastSummary(vs[..i], key)
  {
    assert vs[..i + 1][..i] == vs[..i];
  }

  ghost predicate Indexes(byId: map<string, nat>, ms: seq<Message>) {
    && (forall id :: id in byId <==> LastWith(ms, id) > 0)
    && (forall id | id in byId :: byId[id] + 1 == LastWith(ms, id))
  }

  lemma LastWithStep(ms: seq<Message>, j: nat, id: string)
    requires j < |ms|
    ensures LastWith(ms[..j + 1], id) == if ms[j].ToolResult? && ms[j].id == id then j + 1 else LastWith(ms[..j], id)
  {
    assert ms[..j + 1][..j] == ms[..j];
  }

  lemma IndexStep(byId: map<string, nat>, ms: seq<Message>, j: nat)
    requires j < |ms| && Indexes(byId, ms[..j])
    ensures Indexes(if ms[j].ToolResult? then byId[ms[j].id := j] else byId, ms[..j + 1])
  {
    hide LastWith;
    forall id { LastWithStep(ms, j, id); }
  }

  lemma NothingIndexed(ms: seq<Message>)
    ensures Indexes(map[], ms[..0])
  {
  }

  method IndexById(messages: seq<Message>) returns (byId: map<string, nat>)
    ensures Indexes(byId, messages)
  {
    hide Indexes, LastWith;
    byId := map[];
    NothingIndexed(messages);
    for j := 0 to |messages|
      invariant Indexes(byId, messages[..j])
    {
      IndexStep(byId, messages, j);
      if messages[j].ToolResult? {
        byId := byId[messages[j].id := j];
      }
    }
    assert messages[..|messages|] == messages;
  }

  // ---- transcript and memory agree ----------------------------------------------------------

  /** The tool results, one by one, show what the payloads stand for: the raw text while
      it is live, the summary once it was evicted. */
  ghost predicate Agree(ms: seq<Message>, vs: seq<PayloadView>) {
    |Contents(ms)| == |vs| && forall k | 0 <= k < |vs| :: Contents(ms)[k] == Shown(vs[k])
  }

  /** Nothing after position `k` has its key. */
  ghost predicate LastOf(keys: seq<string>, k: nat) {
    k < |keys| && forall j | k < j < |keys| :: keys[j] != keys[k]
  }

  function Keys(vs: seq<PayloadView>): (r: seq<string>)
    ensures |r| == |vs| && forall i | 0 <= i < |r| :: r[i] == vs[i].key
  {
    seq(|vs|, i requires 0 <= i < |vs| => vs[i].key)
  }

  lemma {:induction false} LastWithLastOf(ms: seq<Message>, k: nat)
    requires k < |ToolIds(ms)|
    ensures LastWith(ms, ToolIds(ms)[k]) == Position(ms, k) + 1 <==> LastOf(ToolIds(ms), k)
    decreases |ms|
  {
    var n := |ms| - 1;
    var front, ids := ms[..n], ToolIds(ms[..n]);
    if !ms[n].ToolResult? {
      assert ToolIds(ms) == ids;
      LastWithLastOf(front, k);
    } else {
      assert ToolIds(ms) == ids + [ms[n].id];
      if k < |ids| {
        LastWithLastOf(front, k);
        LastOfLonger(ids, ms[n].id, k);
      }
    }
  }

  lemma LastOfLonger(ids: seq<string>, id: string, k: nat)
    requires k < |ids|
    ensures LastOf(ids + [id], k) <==> LastOf(ids, k) && id != ids[k]
  {
    var longer := ids + [id];
    if LastOf(longer, k) {
      assert longer[|ids|] == id;
      forall j | k < j < |ids| ensures ids[j] != ids[k] { assert longer[j] == ids[j]; }
    }
  }

  /** What a mirrored pass leaves in the tool result number `k`. */
  lemma MirroredContent(ms: seq<Message>, vs: seq<PayloadView>, k: nat)
    requires k < |ToolIds(ms)|
    ensures var r, s := MirrorAll(ms, vs), LastSummary(vs, ToolIds(ms)[k]);
      && ToolIds(r) == ToolIds(ms)
      && Contents(r)[k] == if LastOf(ToolIds(ms), k) && s.Some? then s.value else Contents(ms)[k]
  {
    hide LastWith, LastSummary, ToolIds, Contents, Position, LastOf, MirrorAll;
    var r := MirrorAll(ms, vs);
    MirrorKeepsShapes(ms, vs);
    ToolIdsOfShapes(r, ms);
    SamePosition(r, ms, k);
    LastWithLastOf(ms, k);
    var p := Position(ms, k);
    assert r[p] == Mirrored(ms, vs, p);
  }

  /** Payload `k` comes out of a mirrored pass as its own tool result shows it.  Only the
      last result of an id is rewritten, to the last summary evicted under that id: an
      evicted payload needs that summary to be its own, or to be shown already; a live one
      must not be written over, or only with what it shows. */
  ghost predicate Harmless(before: seq<PayloadView>, after: seq<PayloadView>, k: nat)
    requires |before| == |after| && k < |after|
  {
    var s := LastSummary(after, after[k].key);
    if after[k].raw.None? then
      (if LastOf(Keys(after), k) then s == Some(after[k].summary) else Shown(before[k]) == after[k].summary)
    else
      LastOf(Keys(after), k) ==> s == None || s == Some(Shown(before[k]))
  }

  /** From a transcript that shows memory as it is, a mirrored pass leads to another one
      exactly when every payload comes through it unharmed: any ids, any payloads. */
  lemma MirrorAgrees(ms: seq<Message>, before: seq<PayloadView>, after: seq<PayloadView>)
    requires Agree(ms, before) && OnlyEvicts(before, after) && ToolIds(ms) == Keys(after)
    ensures Agree(MirrorAll(ms, after), after) <==> forall k | 0 <= k < |after| :: Harmless(before, after, k)
  {
    hide LastSummary, ToolIds, Contents, LastOf, MirrorAll;
    var r := MirrorAll(ms, after);
    MirrorKeepsShapes(ms, after);
    ToolIdsOfShapes(r, ms);
    forall k | 0 <= k < |after| ensures Contents(r)[k] == Shown(after[k]) <==> Harmless(before, after, k) {
      MirroredContent(ms, after, k);
      if after[k].raw.None? { EvictedHasSummary(after, k); }
      assert Contents(ms)[k] == Shown(before[k]);
    }
  }

  lemma EvictedHasSummary(vs: seq<PayloadView>, k: nat)
    requires k < |vs| && vs[k].raw.None?
    ensures LastSummary(vs, vs[k].key).Some?
  {
    hide LastSummary;
  }

  /** With distinct ids no payload is harmed. */
  lemma DistinctHarmless(before: seq<PayloadView>, after: seq<PayloadView>, k: nat)
    requires |before| == |after| && Distinct(Keys(after)) && k < |after|
    ensures Harmless(before, after, k)
  {
    hide LastSummary;
    SummaryOfDistinct(after, k);
    assert forall i, j | 0 <= i < j < |after| :: Keys(after)[i] != Keys(after)[j];
  }

  lemma {:induction false} SummaryOfDistinct(vs: seq<PayloadView>, i: nat)
    requires Distinct(Keys(vs)) && i < |vs|
    ensures LastSummary(vs, vs[i].key) == if vs[i].raw.None? then Some(vs[i].summary) else None
    decreases |vs|
  {
    var front := vs[..|vs| - 1];
    assert Keys(vs)[i] == vs[i].key && Keys(vs)[|vs| - 1] == vs[|vs| - 1].key;
    if i < |vs| - 1 {
      assert Keys(front) == Keys(vs)[..|vs| - 1];
      DistinctPrefix(Keys(front), Keys(vs));
      SummaryOfDistinct(front, i);
    } else {
      NewKeyHasNone(vs);
    }
  }

  lemma NewKeyHasNone(vs: seq<PayloadView>)
    requires Distinct(Keys(vs)) && vs != []
    ensures LastSummary(vs[..|vs| - 1], vs[|vs| - 1].key) == None
  {
    hide LastSummary;
    var n := |vs| - 1;
    forall i | 0 <= i < n ensures vs[..n][i].key != vs[n].key {
      assert Keys(vs)[i] != Keys(vs)[n];
    }
  }

  lemma DistinctPrefix<T>(a: seq<T>, b: seq<T>)
    requires a <= b && Distinct(b)
    ensures Distinct(a)
  {
  }

  // ---- what the model adapter reads off the transcript ----------------------------------------

  datatype TurnKind = PLANNING | DISPATCH

  function ClassifyTurn(ms: seq<Message>): TurnKind {
    if exists j :: 0 <= j < |ms| && ms[j].ToolResult? then DISPATCH else PLANNING
  }

  /** A turn is for planning exactly while the transcript holds no tool result. */
  lemma {:induction false} PlanningIs(ms: seq<Message>)
    ensures ClassifyTurn(ms) == PLANNING <==> ToolIds(ms) == []
    decreases |ms|
  {
    if ms != [] {
      var front, last := ms[..|ms| - 1], ms[|ms| - 1];
      PlanningIs(front);
      assert ms == front + [last];
      assert forall j | 0 <= j < |front| :: ms[j] == front[j];
    }
  }

  function SystemMessages(ms: seq<Message>): seq<Message> {
    if ms == [] then []
    else SystemMessages(ms[..|ms| - 1]) + if ms[|ms| - 1].System? then [ms[|ms| - 1]] else []
  }

  /** The system messages of two transcripts are those of the one and then of the other. */
  lemma {:induction false} SystemAdds(a: seq<Message>, b: seq<Message>)
    ensures SystemMessages(a + b) == SystemMessages(a) + SystemMessages(b)
    decreases |b|
  {
    if b == [] {
      assert a + b == a;
    } else {
      var n := |b| - 1;
      SystemAdds(a, b[..n]);
      assert (a + b)[..|a + b| - 1] == a + b[..n];
    }
  }

  function CoreOnly(schemas: seq<Schema>): seq<Schema> {
    if schemas == [] then []
    else
      CoreOnly(schemas[..|schemas| - 1])
      + if schemas[|schemas| - 1].name in CORE_TOOL_NAMES then [schemas[|schemas| - 1]] else []
  }

  datatype Prefix = Prefix(system: seq<Message>, coreTools: seq<Schema>)

  function CachePrefix(ms: seq<Message>, schemas: seq<Schema>): Prefix {
    Prefix(SystemMessages(ms), CoreOnly(schemas))
  }

  lemma {:induction false} AllCore(schemas: seq<Schema>)
    requires forall i | 0 <= i < |schemas| :: schemas[i].name in CORE_TOOL_NAMES
    ensures CoreOnly(schemas) == schemas
    decreases |schemas|
  {
    if schemas != [] {
      AllCore(schemas[..|schemas| - 1]);
      assert schemas == schemas[..|schemas| - 1] + [schemas[|schemas| - 1]];
    }
  }

  lemma {:induction false} NoneCore(core: seq<Schema>, rest: seq<Schema>)
    requires forall i | 0 <= i < |rest| :: rest[i].name !in CORE_TOOL_NAMES
    ensures CoreOnly(core + rest) == CoreOnly(core)
    decreases |rest|
  {
    if rest == [] {
      assert core + rest == core;
    } else {
      var n := |rest| - 1;
      NoneCore(core, rest[..n]);
      assert (core + rest)[..|core + rest| - 1] == core + rest[..n];
    }
  }

  /** The core part of the request head does not depend on what is loaded. */
  lemma CoreOfActive(tools: map<string, Tool>, loaded: set<string>, schemas: seq<Schema>)
    requires Registered(tools, loaded) && Active(tools, loaded, schemas)
    ensures CoreOnly(schemas) == CoreSchemas()
  {
    var names :| LoadedInOrder(loaded, names) && (forall n | n in names :: n in tools)
      && schemas == CoreSchemas() + SchemasOf(tools, names);
    AllCore(CoreSchemas());
    var rest := SchemasOf(tools, names);
    forall i | 0 <= i < |rest| ensures rest[i].name !in CORE_TOOL_NAMES {
      assert names[i] in names;
      WireNameNeverCore(names[i]);
    }
    NoneCore(CoreSchemas(), rest);
  }

  lemma {:induction false} SystemOfShapes(ms: seq<Message>)
    ensures SystemMessages(ms) == SystemMessages(Shapes(ms))
    decreases |ms|
  {
    if ms != [] {
      var n := |ms| - 1;
      SystemOfShapes(ms[..n]);
      assert Shapes(ms)[..n] == Shapes(ms[..n]);
    }
  }

  lemma {:induction false} NoMoreSystem(a: seq<Message>, b: seq<Message>)
    requires forall j | 0 <= j < |b| :: !b[j].System?
    ensures SystemMessages(a + b) == SystemMessages(a)
    decreases |b|
  {
    if b == [] {
      assert a + b == a;
    } else {
      var n := |b| - 1;
      NoMoreSystem(a, b[..n]);
      assert (a + b)[..|a + b| - 1] == a + b[..n];
    }
  }

  lemma {:induction false} BlocksHaveNoSystem(model: nat -> Response, n: nat)
    ensures forall j | 0 <= j < |Blocks(model, n)| :: !Blocks(model, n)[j].System?
  {
    if n > 0 {
      BlocksHaveNoSystem(model, n - 1);
    }
  }
}
