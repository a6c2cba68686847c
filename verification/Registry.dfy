/** The tool registry: registration, search ranking, loading and dispatch
    (src/limpiador/tools/registry.py). */
module Registry {
  import opened Text
  import opened Sorting
  import opened Naming

  datatype Tool = Tool(name: string, description: string)

  // ---- tokens and scores --------------------------------------------------------------

  /** `str.lower` on the characters a token can contain. */
  function Lower(c: char): char {
    if 'A' <= c <= 'Z' then 'a' + (c - 'A') else c
  }

  predicate IsTokenChar(c: char) {
    'a' <= Lower(c) <= 'z' || '0' <= c <= '9'
  }

  /** The tokens of `text` when `run` is the token being read. */
  function TokensFrom(text: string, run: string): set<string> {
    if text == "" then Closed(run)
    else if IsTokenChar(text[0]) then TokensFrom(text[1..], run + [Lower(text[0])])
    else Closed(run) + TokensFrom(text[1..], "")
  }

  function Closed(run: string): set<string> {
    if run == "" then {} else {run}
  }

  /** `_tokenize`: the maximal runs of letters and digits, lowercased. */
  function Tokenize(text: string): set<string> {
    TokensFrom(text, "")
  }

  /** A separator splits the tokens of a text into those of its two sides. */
  lemma {:induction false} TokensSplit(a: string, sep: char, b: string, run: string)
    requires !IsTokenChar(sep)
    ensures TokensFrom(a + [sep] + b, run) == TokensFrom(a, run) + Tokenize(b)
    decreases |a|
  {
    if a == "" {
      assert (a + [sep] + b)[1..] == b;
    } else {
      assert (a + [sep] + b)[1..] == a[1..] + [sep] + b;
      TokensSplit(a[1..], sep, b, if IsTokenChar(a[0]) then run + [Lower(a[0])] else "");
    }
  }

  // ---- which words a text has -----------------------------------------------------------

  predicate WordChar(c: char) {
    'a' <= c <= 'z' || 'A' <= c <= 'Z' || '0' <= c <= '9'
  }

  /** The characters from `i` to `j` are a whole run of letters and digits. */
  ghost predicate WordAt(text: string, i: nat, j: nat) {
    && i < j <= |text| && (forall k | i <= k < j :: WordChar(text[k]))
    && (i > 0 ==> !WordChar(text[i - 1])) && (j < |text| ==> !WordChar(text[j]))
  }

  /** `w` is the text in lower case. */
  ghost predicate InLowerCase(w: string, text: string) {
    |w| == |text| && forall k | 0 <= k < |w| ::
      w[k] as int == text[k] as int + if 'A' <= text[k] <= 'Z' then 32 else 0
  }

  ghost predicate HasWord(text: string, w: string) {
    exists i: nat, j: nat :: WordAt(text, i, j) && InLowerCase(w, text[i..j])
  }

  lemma CharIs(c: char)
    ensures IsTokenChar(c) <==> WordChar(c)
    ensures Lower(c) as int == c as int + if 'A' <= c <= 'Z' then 32 else 0
  {
  }

  /** The tokens still to come, where `run` is the word that began at `start`. */
  lemma {:induction false} TokensFromIs(text: string, start: nat, p: nat, run: string, w: string)
    requires start <= p <= |text| && InLowerCase(run, text[start..p])
    requires (forall k | start <= k < p :: WordChar(text[k])) && (start > 0 ==> !WordChar(text[start - 1]))
    ensures w in TokensFrom(text[p..], run)
      <==> exists i: nat, j: nat :: start <= i && WordAt(text, i, j) && InLowerCase(w, text[i..j])
    decreases |text| - p
  {
    hide IsTokenChar, Lower, WordChar;
    if p == |text| {
      LastWord(text, start, run, w);
    } else {
      var c := text[p];
      CharIs(c);
      assert text[p..][0] == c && text[p..][1..] == text[p + 1..];
      if WordChar(c) {
        assert text[start..p + 1] == text[start..p] + [c];
        TokensFromIs(text, start, p + 1, run + [Lower(c)], w);
      } else {
        TokensFromIs(text, p + 1, p + 1, "", w);
        WordCloses(text, start, p, run, w);
      }
    }
  }

  lemma SameLowerCase(w: string, v: string, text: string)
    requires InLowerCase(w, text) && InLowerCase(v, text)
    ensures w == v
  {
  }

  /** A run that ends at `p` is one word and the only one that begins inside it. */
  lemma WordEnds(text: string, start: nat, p: nat, run: string, w: string)
    requires start <= p <= |text| && InLowerCase(run, text[start..p]) && (p < |text| ==> !WordChar(text[p]))
    requires (forall k | start <= k < p :: WordChar(text[k])) && (start > 0 ==> !WordChar(text[start - 1]))
    ensures w in Closed(run) <==> start < p && InLowerCase(w, text[start..p])
    ensures start < p ==> WordAt(text, start, p)
    ensures forall i: nat, j: nat | start <= i <= p && WordAt(text, i, j) :: i == start && j == p
  {
    hide WordChar;
    if InLowerCase(w, text[start..p]) { SameLowerCase(w, run, text[start..p]); }
  }

  lemma LastWord(text: string, start: nat, run: string, w: string)
    requires start <= |text| && InLowerCase(run, text[start..|text|])
    requires (forall k | start <= k < |text| :: WordChar(text[k])) && (start > 0 ==> !WordChar(text[start - 1]))
    ensures w in TokensFrom(text[|text|..], run)
      <==> exists i: nat, j: nat :: start <= i && WordAt(text, i, j) && InLowerCase(w, text[i..j])
  {
    hide WordChar, InLowerCase, Closed;
    WordEnds(text, start, |text|, run, w);
    assert text[|text|..] == "";
  }

  lemma WordCloses(text: string, start: nat, p: nat, run: string, w: string)
    requires start <= p < |text| && InLowerCase(run, text[start..p]) && !WordChar(text[p])
    requires (forall k | start <= k < p :: WordChar(text[k])) && (start > 0 ==> !WordChar(text[start - 1]))
    ensures (exists i: nat, j: nat :: start <= i && WordAt(text, i, j) && InLowerCase(w, text[i..j]))
      <==> w in Closed(run)
           || exists i: nat, j: nat :: p + 1 <= i && WordAt(text, i, j) && InLowerCase(w, text[i..j])
  {
    hide WordChar, InLowerCase, Closed;
    WordEnds(text, start, p, run, w);
  }

  /** The tokens of a text are its runs of letters and digits, in lower case. */
  lemma TokenIs(text: string, w: string)
    ensures w in Tokenize(text) <==> HasWord(text, w)
  {
    hide WordAt, InLowerCase;
    assert text[0..] == text && text[0..0] == "";
    NothingRead(text);
    TokensFromIs(text, 0, 0, "", w);
  }

  lemma NothingRead(text: string)
    ensures InLowerCase("", text[0..0])
  {
  }

  /** The tool has a word of the query in its name or its description. */
  ghost predicate SharesWord(tool: Tool, query: string) {
    exists w :: HasWord(query, w) && (HasWord(tool.name, w) || HasWord(tool.description, w))
  }

  lemma ScorePositive(tool: Tool, query: string)
    ensures Score(tool, Tokenize(query)) > 0 <==> SharesWord(tool, query)
  {
    hide Tokenize, HasWord;
    forall text, w ensures w in Tokenize(text) <==> HasWord(text, w) {
      TokenIs(text, w);
    }
    var q, name, about := Tokenize(query), Tokenize(tool.name), Tokenize(tool.description);
    if SharesWord(tool, query) {
      var w :| HasWord(query, w) && (HasWord(tool.name, w) || HasWord(tool.description, w));
      assert w in q * name || w in q * about;
    }
    if Score(tool, q) > 0 {
      var hits := if |q * name| > 0 then q * name else q * about;
      var w :| w in hits;
      assert HasWord(query, w);
    }
  }

  // ---- scores -------------------------------------------------------------------------------

  const NAME_WEIGHT := 2
  const DESCRIPTION_WEIGHT := 1

  function Score(tool: Tool, query: set<string>): nat {
    NAME_WEIGHT * |query * Tokenize(tool.name)| + DESCRIPTION_WEIGHT * |query * Tokenize(tool.description)|
  }

  lemma SmallerSet<T>(a: set<T>, b: set<T>)
    requires a <= b
    ensures |a| <= |b|
  {
    assert b == a + (b - a);
  }

  lemma ScoreMonotone(tool: Tool, q: set<string>, q': set<string>)
    requires q <= q'
    ensures Score(tool, q) <= Score(tool, q')
  {
    SmallerSet(q * Tokenize(tool.name), q' * Tokenize(tool.name));
    SmallerSet(q * Tokenize(tool.description), q' * Tokenize(tool.description));
  }

  /** Adding words to a query never lowers a tool's score. */
  lemma LongerQueryScoresHigher(tool: Tool, query: string, more: string)
    ensures Score(tool, Tokenize(query)) <= Score(tool, Tokenize(query + " " + more))
  {
    TokensSplit(query, ' ', more, "");
    ScoreMonotone(tool, Tokenize(query), Tokenize(query + " " + more));
  }

  /** A word of the query counts two in the name and one in the description ... */
  lemma OneWordScores(tool: Tool, w: string)
    ensures Score(tool, {w}) == (if HasWord(tool.name, w) then 2 else 0) + if HasWord(tool.description, w) then 1 else 0
  {
    hide Tokenize, HasWord;
    TokenIs(tool.name, w);
    TokenIs(tool.description, w);
    OneWordOf(w, Tokenize(tool.name));
    OneWordOf(w, Tokenize(tool.description));
  }

  lemma OneWordOf(w: string, words: set<string>)
    ensures |{w} * words| == if w in words then 1 else 0
  {
    assert {w} * words == if w in words then {w} else {};
  }

  /** ... and the words of a query add up. */
  lemma ScoresAdd(tool: Tool, some: set<string>, others: set<string>)
    requires some !! others
    ensures Score(tool, some + others) == Score(tool, some) + Score(tool, others)
  {
    hide Tokenize;
    CountsAdd(some, others, Tokenize(tool.name));
    CountsAdd(some, others, Tokenize(tool.description));
  }

  lemma CountsAdd(a: set<string>, b: set<string>, words: set<string>)
    requires a !! b
    ensures |(a + b) * words| == |a * words| + |b * words|
  {
    assert (a + b) * words == a * words + b * words;
  }

  // ---- ranking ----------------------------------------------------------------------------

  datatype Scored = Scored(score: nat, tool: Tool)

  /** The sort key (-score, name), as an order. */
  predicate RankLe(a: Scored, b: Scored) {
    a.score > b.score || (a.score == b.score && StringLe(a.tool.name, b.tool.name))
  }

  lemma RankOrder()
    ensures TotalPreorder(RankLe)
  {
    StringLeOrder();
  }

  /** The better score first; ties by name. */
  ghost predicate Before(a: Tool, b: Tool, query: set<string>) {
    Score(a, query) > Score(b, query) || (Score(a, query) == Score(b, query) && Precedes(a.name, b.name))
  }

  /** `r` lists exactly the tools with a positive score, best first, ties by name. */
  ghost predicate Ranking(tools: set<Tool>, query: set<string>, r: seq<Tool>) {
    && (forall t :: t in r <==> t in tools && Score(t, query) > 0)
    && (forall i, j | 0 <= i < j < |r| :: Before(r[i], r[j], query))
  }

  /** The ranking depends only on the set of tools: two lists that both rank it are
      equal, so the order of registration cannot matter. */
  lemma RankingUnique(tools: set<Tool>, query: set<string>, r: seq<Tool>, s: seq<Tool>)
    requires Ranking(tools, query, r) && Ranking(tools, query, s)
    ensures r == s
  {
    RankingSameLength(tools, query, r, s);
    RankingSameLength(tools, query, s, r);
    RankingPointwise(tools, query, r, s, |r|);
  }

  lemma DistinctSize<T>(s: seq<T>)
    requires Distinct(s)
    ensures |set x | x in s| == |s|
    decreases |s|
  {
    if s != [] {
      var t := s[1..];
      DistinctSize(t);
      assert (set x | x in s) == {s[0]} + set x | x in t;
    }
  }

  lemma RankingSameLength(tools: set<Tool>, query: set<string>, r: seq<Tool>, s: seq<Tool>)
    requires Ranking(tools, query, r) && Ranking(tools, query, s)
    ensures |r| == |s|
  {
    DistinctSize(r);
    DistinctSize(s);
    assert (set x | x in r) == (set x | x in s);
  }

  lemma {:induction false} RankingPointwise(tools: set<Tool>, query: set<string>, r: seq<Tool>, s: seq<Tool>, n: nat)
    requires Ranking(tools, query, r) && Ranking(tools, query, s) && |r| == |s| && n <= |r|
    ensures r[..n] == s[..n]
    decreases n
  {
    if n > 0 {
      RankingPointwise(tools, query, r, s, n - 1);
      SameNext(tools, query, r, s, n - 1);
      assert r[..n] == r[..n - 1] + [r[n - 1]] && s[..n] == s[..n - 1] + [s[n - 1]];
    }
  }

  lemma SameNext(tools: set<Tool>, query: set<string>, r: seq<Tool>, s: seq<Tool>, k: nat)
    requires Ranking(tools, query, r) && Ranking(tools, query, s) && |r| == |s| && k < |r| && r[..k] == s[..k]
    ensures r[k] == s[k]
  {
    if r[k] != s[k] {
      LaterInOther(tools, query, r, s, k);
      LaterInOther(tools, query, s, r, k);
      if Precedes(r[k].name, s[k].name) { PrecedesOneWay(r[k].name, s[k].name); }
    }
  }

  /** Where the two lists first differ, each one's entry comes later in the other. */
  lemma LaterInOther(tools: set<Tool>, query: set<string>, r: seq<Tool>, s: seq<Tool>, k: nat)
    requires Ranking(tools, query, r) && Ranking(tools, query, s) && |r| == |s| && k < |r|
    requires r[..k] == s[..k] && r[k] != s[k]
    ensures Before(s[k], r[k], query)
  {
    hide Before, Score;
    assert r[k] in r;
    var j :| 0 <= j < |s| && s[j] == r[k];
    if j < k {
      assert r[j] == r[..k][j] == s[..k][j];
      assert Before(r[j], r[k], query);
      NotBeforeItself(r[k], query);
    }
  }

  lemma NotBeforeItself(t: Tool, query: set<string>)
    ensures !Before(t, t, query)
  {
  }

  // ---- requests, replies and schemas -----------------------------------------------------

  /** What a call sends as `sub_goals`, after `or []`: the texts of a list, of an object's
      keys, or of nothing at all; a text; or a value Python cannot iterate, such as 5. */
  datatype Goals = GoalList(steps: seq<string>) | GoalText(text: string) | NotIterable

  /** What a call's argument dictionary holds, and whether it satisfies the input model
      of the tool it is sent to. */
  datatype Arguments = Arguments(valid: bool, query: string, limit: nat, name: string, subGoals: Goals,
                                 subGoal: string, result: string)

  /** The input model of `plan_add` only admits a list. */
  predicate Accepted(name: string, args: Arguments) {
    args.valid && (name == PLAN_ADD ==> args.subGoals.GoalList?)
  }

  datatype Reply =
    | Found(summaries: seq<Tool>)
    | Loaded(name: string)
    | Planned(subGoals: seq<string>)
    | Resolved(subGoal: string)
    | Finished(result: string)
    | Invoked(tool: Tool)
    | Malformed
    | NotFound(name: string)

  /** A function-calling schema: a core verb's, or a tool's under its wire name. */
  datatype Schema = CoreSchema(name: string) | ToolSchema(name: string, description: string)

  function CoreSchemas(): (r: seq<Schema>)
    ensures |r| == |CORE_TOOL_NAMES| && forall i | 0 <= i < |r| :: r[i] == CoreSchema(CORE_TOOL_NAMES[i])
  {
    seq(|CORE_TOOL_NAMES|, i requires 0 <= i < |CORE_TOOL_NAMES| => CoreSchema(CORE_TOOL_NAMES[i]))
  }

  function SchemasOf(tools: map<string, Tool>, names: seq<string>): (r: seq<Schema>)
    requires forall n | n in names :: n in tools
    ensures |r| == |names|
    ensures forall i | 0 <= i < |r| :: r[i] == ToolSchema(WireName(tools[names[i]].name), tools[names[i]].description)
  {
    seq(|names|, i requires 0 <= i < |names| =>
      ToolSchema(WireName(tools[names[i]].name), tools[names[i]].description))
  }

  /** The schemas of a turn: the core first, then the loaded tools by name. */
  ghost predicate Active(tools: map<string, Tool>, loaded: set<string>, r: seq<Schema>) {
    exists names ::
      LoadedInOrder(loaded, names) && (forall n | n in names :: n in tools) && r == CoreSchemas() + SchemasOf(tools, names)
  }

  /** The first `limit` entries of the ranking, or all of it when it is shorter. */
  ghost predicate BestMatches(tools: set<Tool>, args: Arguments, r: seq<Tool>) {
    exists full ::
      Ranking(tools, Tokenize(args.query), full) && r == full[..if args.limit <= |full| then args.limit else |full|]
  }

  /** The tools that share a word with the query. */
  ghost function Matching(tools: set<Tool>, query: string): set<Tool> {
    set t | t in tools && SharesWord(t, query)
  }

  /** Only matching tools are found, as many as the limit allows, and so all of them when
      it allows that many. */
  ghost predicate MatchesFound(tools: set<Tool>, args: Arguments, r: seq<Tool>) {
    var matching := Matching(tools, args.query);
    && Distinct(r) && (forall t | t in r :: t in matching)
    && |r| == (if args.limit <= |matching| then args.limit else |matching|)
    && (|matching| <= args.limit ==> forall t | t in matching :: t in r)
  }

  lemma BestMatchesFound(tools: set<Tool>, args: Arguments, r: seq<Tool>)
    requires BestMatches(tools, args, r)
    ensures MatchesFound(tools, args, r)
  {
    hide Score, Tokenize, SharesWord;
    var full :| Ranking(tools, Tokenize(args.query), full)
      && r == full[..if args.limit <= |full| then args.limit else |full|];
    var matching := Matching(tools, args.query);
    RankingDistinct(tools, Tokenize(args.query), full);
    forall t ensures t in full <==> t in matching {
      ScorePositive(t, args.query);
    }
    DistinctSize(full);
    assert (set t | t in full) == matching;
  }

  lemma RankingDistinct(tools: set<Tool>, query: set<string>, r: seq<Tool>)
    requires Ranking(tools, query, r)
    ensures Distinct(r)
  {
    hide Before;
    forall i, j | 0 <= i < j < |r| ensures r[i] != r[j] {
      assert Before(r[i], r[j], query);
      NotBeforeItself(r[j], query);
    }
  }

  const RESEARCH_RETRY := "[REGISTRY RESEARCH_RETRY]"

  /** What one dispatched call leaves loaded: only a well-formed `load_tool` of a
      registered tool adds to it. */
  function LoadedBy(tools: map<string, Tool>, loaded: set<string>, name: string, args: Arguments): set<string> {
    if name == LOAD_TOOL && args.valid && args.name in tools then loaded + {args.name} else loaded
  }

  class ToolRegistry {
    var tools: map<string, Tool>
    var order: seq<string>  // the keys of `tools`, oldest first
    var loaded: set<string>
    var lastWasSearch: bool
    var trace: seq<string>

    ghost predicate Valid()
      reads this
    {
      && Distinct(order) && (forall n :: n in order <==> n in tools)
      && (forall n | n in tools :: tools[n].name == n && ValidName(n))
      && (forall n | n in loaded :: n in tools)
    }

    constructor ()
      ensures Valid() && tools == map[] && loaded == {} && trace == [] && !lastWasSearch
    {
      tools, order, loaded, lastWasSearch, trace := map[], [], {}, false, [];
    }

    /** False when the name is taken: the source raises ValueError. */
    method Register(tool: Tool) returns (added: bool)
      requires Valid() && ValidName(tool.name)
      modifies this`tools, this`order
      ensures Valid() && (added <==> tool.name !in old(tools))
      ensures tools == if added then old(tools)[tool.name := tool] else old(tools)
    {
      if tool.name in tools {
        return false;
      }
      tools := tools[tool.name := tool];
      order := order + [tool.name];
      added := true;
    }

    method Rank(query: string) returns (r: seq<Tool>)
      requires Valid()
      ensures Ranking(tools.Values, Tokenize(query), r)
    {
      hide Ranking, ScoredSoFar, Tokenize, Sorted, RankLe, StringLe;
      NoWordsNoRanking(tools.Values);
      NothingScored(tools);
      var queryTokens := Tokenize(query);
      if queryTokens == {} {
        return [];
      }
      var scored: seq<Scored> := [];
      for i := 0 to |order|
        invariant ScoredSoFar(tools, order[..i], queryTokens, scored)
      {
        assert order[i] in order;
        var tool := tools[order[i]];
        var score := Score(tool, queryTokens);
        ScoreOneMore(tools, order, i, queryTokens, scored);
        if score > 0 {
          scored := scored + [Scored(score, tool)];
        }
      }
      assert order[..|order|] == order;
      RankOrder();
      var sorted := SortBy(scored, RankLe);
      SortKeepsElements(scored, RankLe);
      r := seq(|sorted|, i requires 0 <= i < |sorted| => sorted[i].tool);
      SortedIsRanking(tools, order, queryTokens, scored, sorted, r);
    }

    /** The best `limit` matches; a second search in a row is traced as a retry. */
    method Search(args: Arguments) returns (r: Reply)
      requires Valid()
      modifies this`lastWasSearch, this`trace
      ensures !args.valid ==> r == Malformed && lastWasSearch == old(lastWasSearch) && trace == old(trace)
      ensures args.valid ==> lastWasSearch
      ensures args.valid ==> trace == if old(lastWasSearch) then old(trace) + [RESEARCH_RETRY] else old(trace)
      ensures args.valid ==>
        r.Found? && BestMatches(tools.Values, args, r.summaries) && MatchesFound(tools.Values, args, r.summaries)
    {
      hide Ranking, MatchesFound;
      if !args.valid {
        return Malformed;
      }
      if lastWasSearch {
        trace := trace + [RESEARCH_RETRY];
      }
      lastWasSearch := true;
      var ranked := Rank(args.query);
      r := Found(ranked[..if args.limit <= |ranked| then args.limit else |ranked|]);
      BestMatchesFound(tools.Values, args, r.summaries);
    }

    method Load(args: Arguments) returns (r: Reply)
      requires Valid()
      modifies this`loaded, this`lastWasSearch
      ensures Valid()
      ensures r == if !args.valid then Malformed else if args.name !in tools then NotFound(args.name) else Loaded(args.name)
      ensures loaded == if r.Loaded? then old(loaded) + {args.name} else old(loaded)
      ensures lastWasSearch == (if r.Loaded? then false else old(lastWasSearch))
    {
      if !args.valid {
        return Malformed;
      }
      if args.name !in tools {
        return NotFound(args.name);
      }
      loaded := loaded + {args.name};
      lastWasSearch := false;
      r := Loaded(args.name);
    }

    /** The loaded tool with a wire name: there is at most one, so the order in which
        the set is walked does not matter. */
    method LoadedTool(wireName: string) returns (r: Option<Tool>)
      requires Valid()
      ensures r == Handler(tools, loaded, wireName)
    {
      var rest := loaded;
      while rest != {}
        invariant rest <= loaded && forall n | n in loaded && n !in rest :: WireName(n) != wireName
        decreases rest
      {
        var name :| name in rest;
        if WireName(tools[name].name) == wireName {
          OnlyHandler(tools, loaded, wireName, name);
          return Some(tools[name]);
        }
        rest := rest - {name};
      }
      r := None;
    }

    /** Core verbs by their fixed names, every other call to the one loaded tool of that
        wire name. */
    method Dispatch(name: string, args: Arguments) returns (r: Reply)
      requires Valid()
      modifies this`loaded, this`lastWasSearch, this`trace
      ensures Valid()
      ensures name !in CORE_TOOL_NAMES ==>
        && r == (match Handler(tools, loaded, name) case Some(t) => Invoked(t) case None => NotFound(name))
        && loaded == old(loaded) && lastWasSearch == old(lastWasSearch) && trace == old(trace)
      ensures name in CORE_TOOL_NAMES ==> !r.Invoked? && (r == Malformed <==> !Accepted(name, args))
      ensures name == SEARCH_TOOLS && args.valid ==>
        r.Found? && BestMatches(tools.Values, args, r.summaries) && MatchesFound(tools.Values, args, r.summaries)
      ensures name == LOAD_TOOL && args.valid ==>
        r == if args.name in tools then Loaded(args.name) else NotFound(args.name)
      ensures name == FINISH && args.valid ==> r == Finished(args.result)
      ensures name == PLAN_ADD ==>
        r == if args.valid && args.subGoals.GoalList? then Planned(args.subGoals.steps) else Malformed
      ensures name == PLAN_RESOLVE && args.valid ==> r == Resolved(args.subGoal)
      ensures name in CORE_TOOL_NAMES && !args.valid ==> r == Malformed
      ensures loaded == LoadedBy(tools, old(loaded), name, args)
      ensures lastWasSearch == (if name in CORE_TOOL_NAMES && !r.Malformed? && !r.NotFound? then name == SEARCH_TOOLS
                                else old(lastWasSearch))
      ensures trace == if name == SEARCH_TOOLS && args.valid && old(lastWasSearch) then old(trace) + [RESEARCH_RETRY]
                       else old(trace)
    {
      hide BestMatches, MatchesFound;
      if name == SEARCH_TOOLS {
        r := Search(args);
      } else if name == LOAD_TOOL {
        r := Load(args);
      } else if name == PLAN_ADD || name == PLAN_RESOLVE || name == FINISH {
        if !Accepted(name, args) {
          return Malformed;
        }
        lastWasSearch := false;
        r := if name == PLAN_ADD then Planned(args.subGoals.steps)
        else if name == PLAN_RESOLVE then Resolved(args.subGoal)
        else Finished(args.result);
      } else {
        var tool := LoadedTool(name);
        match tool
        case Some(t) => r := Invoked(t);
        case None => r := NotFound(name);
      }
    }

    method ActiveSchemas() returns (r: seq<Schema>)
      requires Valid()
      ensures Active(tools, loaded, r)
    {
      hide CoreSchemas, SchemasOf, Ascending;
      var names := LoadedNames();
      r := CoreSchemas() + SchemasOf(tools, names);
    }

    /** `sorted(self._loaded)`. */
    method LoadedNames() returns (r: seq<string>)
      requires Valid()
      ensures LoadedInOrder(loaded, r) && forall n | n in r :: n in tools
    {
      var names: seq<string> := [];
      for i := 0 to |order|
        invariant Distinct(names)
        invariant forall n :: n in names <==> n in order[..i] && n in loaded
      {
        if order[i] in loaded {
          assert order[i] !in order[..i];
          names := names + [order[i]];
        }
      }
      assert order[..|order|] == order;
      StringLeOrder();
      r := SortBy(names, StringLe);
      SortKeepsElements(names, StringLe);
      DistinctKept(names, r);
      AscendingIs(r);
    }
  }

  ghost predicate LoadedInOrder(loaded: set<string>, names: seq<string>) {
    Ascending(names) && forall n :: n in names <==> n in loaded
  }

  // ---- dispatch is unambiguous --------------------------------------------------------------

  ghost predicate Registered(tools: map<string, Tool>, loaded: set<string>) {
    && (forall n | n in tools :: tools[n].name == n && ValidName(n))
    && (forall n | n in loaded :: n in tools)
  }

  /** The tool a wire name calls, if any is loaded. */
  ghost function Handler(tools: map<string, Tool>, loaded: set<string>, wireName: string): Option<Tool>
    requires Registered(tools, loaded)
  {
    if exists n :: n in loaded && WireName(n) == wireName then
      var n :| n in loaded && WireName(n) == wireName;
      Some(tools[n])
    else None
  }

  lemma OnlyHandler(tools: map<string, Tool>, loaded: set<string>, wireName: string, name: string)
    requires Registered(tools, loaded) && name in loaded && WireName(name) == wireName
    ensures Handler(tools, loaded, wireName) == Some(tools[name])
    ensures wireName !in CORE_TOOL_NAMES
  {
    forall n | n in loaded && WireName(n) == wireName ensures n == name {
      WireNameInjective(n, name);
    }
    WireNameNeverCore(name);
  }

  /** A wire name has a handler exactly when it is a loaded tool's, and then only that
      tool's. */
  lemma DispatchUnambiguous(tools: map<string, Tool>, loaded: set<string>, wireName: string, t: Tool)
    requires Registered(tools, loaded)
    ensures Handler(tools, loaded, wireName) == Some(t)
      <==> t.name in loaded && tools[t.name] == t && WireName(t.name) == wireName
  {
    if t.name in loaded && WireName(t.name) == wireName {
      OnlyHandler(tools, loaded, wireName, t.name);
    }
  }

  // ---- the ranking loop ----------------------------------------------------------------------

  /** The entries appended so far: one for each tool with a positive score. */
  ghost predicate ScoredSoFar(tools: map<string, Tool>, names: seq<string>, query: set<string>, scored: seq<Scored>) {
    && (forall n | n in names :: n in tools && tools[n].name == n)
    && (forall e | e in scored ::
          e.tool.name in names && e.tool == tools[e.tool.name] && e.score == Score(e.tool, query) > 0)
    && (forall n | n in names && Score(tools[n], query) > 0 :: Scored(Score(tools[n], query), tools[n]) in scored)
    && (forall i, j | 0 <= i < j < |scored| :: scored[i].tool.name != scored[j].tool.name)
  }

  lemma NothingScored(tools: map<string, Tool>)
    ensures forall query :: ScoredSoFar(tools, [], query, [])
  {
  }

  lemma NoWordsNoRanking(tools: set<Tool>)
    ensures Ranking(tools, {}, [])
  {
  }

  lemma ScoreOneMore(tools: map<string, Tool>, order: seq<string>, i: nat, query: set<string>, scored: seq<Scored>)
    requires i < |order| && Distinct(order) && order[i] in tools && tools[order[i]].name == order[i]
    requires ScoredSoFar(tools, order[..i], query, scored)
    ensures var t := tools[order[i]]; var score := Score(t, query);
      ScoredSoFar(tools, order[..i + 1], query, if score > 0 then scored + [Scored(score, t)] else scored)
  {
    hide Score, Distinct;
    NameIsNew(order, i);
    var t := tools[order[i]];
    var score := Score(t, query);
    var next := if score > 0 then scored + [Scored(score, t)] else scored;
    assert forall n :: n in order[..i + 1] <==> n in order[..i] || n == order[i];
    forall n | n in order[..i + 1] && Score(tools[n], query) > 0
      ensures Scored(Score(tools[n], query), tools[n]) in next
    {
      if n == order[i] { assert next[|scored|] == Scored(score, t); }
    }
  }

  lemma NameIsNew(order: seq<string>, i: nat)
    requires i < |order| && Distinct(order)
    ensures order[i] !in order[..i] && order[..i + 1] == order[..i] + [order[i]]
  {
  }

  lemma SortedIsRanking(tools: map<string, Tool>, order: seq<string>, query: set<string>, scored: seq<Scored>,
                        sorted: seq<Scored>, r: seq<Tool>)
    requires ScoredSoFar(tools, order, query, scored) && forall n | n in tools :: n in order
    requires Sorted(sorted, RankLe) && multiset(sorted) == multiset(scored)
    requires |r| == |sorted| && forall i | 0 <= i < |r| :: r[i] == sorted[i].tool
    ensures Ranking(tools.Values, query, r)
  {
    SameMembers(sorted, scored);
    assert Distinct(scored);
    DistinctKept(scored, sorted);
    forall i, j | 0 <= i < j < |r|
      ensures Before(r[i], r[j], query)
    {
      assert sorted[i] in scored && sorted[j] in scored && RankLe(sorted[i], sorted[j]);
      assert sorted[i] != sorted[j];
      StringLeIs(sorted[i].tool.name, sorted[j].tool.name);
    }
    forall t ensures t in r <==> t in tools.Values && Score(t, query) > 0 {
      if t in tools.Values && Score(t, query) > 0 {
        var n :| n in tools && tools[n] == t;
        assert n in order;
        assert Scored(Score(t, query), t) in sorted;
        var i :| 0 <= i < |sorted| && sorted[i] == Scored(Score(t, query), t);
        assert r[i] == t;
      }
      if t in r {
        var i :| 0 <= i < |r| && r[i] == t;
        assert sorted[i] in scored;
        assert t.name in order && t.name in tools;
      }
    }
  }
}
