/** One commit against one section after another: `fs.apply_patch` plans every section
    from the tree as it was (src/limpiador/tools/fs_tools.py:450), so sections that name
    one file do not see each other. */
module PatchSequence {
  import opened Text
  import opened Hunks
  import opened PatchParser
  import opened PatchTool

  /** Each section planned from, and written to, what the ones before it left. */
  function OneByOne(tree: Tree, safe: SafePath, ps: seq<FilePatch>): Result<Tree, Failure> {
    if ps == [] then Ok(tree)
    else
      var before := OneByOne(tree, safe, ps[..|ps| - 1]);
      if before.Err? then before
      else
        var plan := PlanFile(before.value, safe, ps[|ps| - 1]);
        if plan.Err? then Err(plan.error) else Ok(Carried(before.value, plan.value))
  }

  lemma OneByOneStep(tree: Tree, safe: SafePath, ps: seq<FilePatch>, j: nat)
    requires j < |ps|
    ensures var before, all := OneByOne(tree, safe, ps[..j]), OneByOne(tree, safe, ps[..j + 1]);
      && (before.Err? ==> all.Err?)
      && (before.Ok? ==>
            var plan := PlanFile(before.value, safe, ps[j]);
            all == if plan.Err? then Err(plan.error) else Ok(Carried(before.value, plan.value)))
  {
    assert ps[..j + 1][..j] == ps[..j];
  }

  lemma {:induction false} PrefixApplies(tree: Tree, safe: SafePath, ps: seq<FilePatch>, i: nat, j: nat)
    requires i <= j <= |ps| && OneByOne(tree, safe, ps[..j]).Ok?
    ensures OneByOne(tree, safe, ps[..i]).Ok?
    decreases j
  {
    if i < j {
      OneByOneStep(tree, safe, ps, j - 1);
      PrefixApplies(tree, safe, ps, i, j - 1);
    }
  }

  /** Planning a section reads no file but its own. */
  lemma PlanReadsTarget(t1: Tree, t2: Tree, safe: SafePath, p: FilePatch)
    requires safe(p.path).Some? ==> TextOf(t1, safe(p.path).value) == TextOf(t2, safe(p.path).value)
    ensures PlanFile(t1, safe, p) == PlanFile(t2, safe, p)
  {
    hide Patched, CreatedContent;
  }

  lemma PlanTarget(tree: Tree, safe: SafePath, p: FilePatch)
    requires PlanFile(tree, safe, p).Ok?
    ensures safe(p.path) == Some(PlanFile(tree, safe, p).value.target)
  {
    hide Patched, CreatedContent;
  }

  lemma CommittedUnique(tree: Tree, plans: seq<Planned>, a: Tree, b: Tree)
    requires Committed(tree, plans, a) && Committed(tree, plans, b)
    ensures a == b
  {
    forall f ensures TextOf(a, f) == TextOf(b, f) {
      assert Holds(a, f, Final(tree, plans, f)) && Holds(b, f, Final(tree, plans, f));
    }
    SameTexts(a, b);
  }

  lemma SameTexts(a: Tree, b: Tree)
    ensures a == b <==> forall f :: TextOf(a, f) == TextOf(b, f)
  {
    if forall f :: TextOf(a, f) == TextOf(b, f) {
      forall f ensures f in a <==> f in b { assert TextOf(a, f) == TextOf(b, f); }
      forall f | f in a ensures a[f] == b[f] { assert TextOf(a, f) == TextOf(b, f); }
    }
  }

  // ---- distinct files: the two are the same -------------------------------------------------

  lemma {:induction false} SequenceCommits(tree: Tree, safe: SafePath, ps: seq<FilePatch>, plans: seq<Planned>, j: nat)
    requires PlanAll(tree, safe, ps) == Ok(plans) && DistinctFiles(safe, ps) && j <= |ps|
    ensures |plans| == |ps| && OneByOne(tree, safe, ps[..j]).Ok?
    ensures Committed(tree, plans[..j], OneByOne(tree, safe, ps[..j]).value)
    decreases j
  {
    hide PlanFile, PlanAll, Committed;
    PlanAllEach(tree, safe, ps);
    if j == 0 {
      assert plans[..0] == [] && ps[..0] == [];
      NothingCommitted(tree);
    } else {
      SequenceCommits(tree, safe, ps, plans, j - 1);
      var now := OneByOne(tree, safe, ps[..j - 1]).value;
      FreshTarget(tree, safe, ps, plans, j - 1, now);
      OneByOneStep(tree, safe, ps, j - 1);
      PlannedDeletions(tree, safe, ps, plans);
      CommitStep(tree, plans, j - 1, now);
    }
  }

  /** The next section's file is still as it was, so it is planned as before. */
  lemma FreshTarget(tree: Tree, safe: SafePath, ps: seq<FilePatch>, plans: seq<Planned>, j: nat, now: Tree)
    requires |plans| == |ps| && DistinctFiles(safe, ps) && j < |ps|
    requires forall i | 0 <= i < |ps| :: PlanFile(tree, safe, ps[i]) == Ok(plans[i])
    requires Committed(tree, plans[..j], now)
    ensures PlanFile(now, safe, ps[j]) == Ok(plans[j])
  {
    hide PlanFile;
    var f := plans[j].target;
    PlanTarget(tree, safe, ps[j]);
    forall i | 0 <= i < j ensures plans[..j][i].target != f {
      PlanTarget(tree, safe, ps[i]);
    }
    NeverNamed(tree, plans[..j], f);
    assert Holds(now, f, Final(tree, plans[..j], f));
    PlanReadsTarget(now, tree, safe, ps[j]);
  }

  lemma NeverNamed(tree: Tree, plans: seq<Planned>, f: File)
    requires forall i | 0 <= i < |plans| :: plans[i].target != f
    ensures Final(tree, plans, f) == TextOf(tree, f)
  {
  }

  lemma {:induction false} SequenceThenPlan(tree: Tree, safe: SafePath, ps: seq<FilePatch>, j: nat)
    requires DistinctFiles(safe, ps) && j <= |ps| && OneByOne(tree, safe, ps[..j]).Ok?
    ensures PlanAll(tree, safe, ps[..j]).Ok?
    decreases j
  {
    hide PlanFile, PlanAll, Committed;
    PlanAllEach(tree, safe, ps[..j]);
    if j > 0 {
      var front := ps[..j - 1];
      OneByOneStep(tree, safe, ps, j - 1);
      SequenceThenPlan(tree, safe, ps, j - 1);
      PlanAllEach(tree, safe, front);
      var plans := PlanAll(tree, safe, front).value;
      SequenceCommits(tree, safe, front, plans, j - 1);
      assert front[..j - 1] == front && plans[..j - 1] == plans;
      var now := OneByOne(tree, safe, front).value;
      var p := ps[j - 1];
      StillFresh(tree, safe, front, plans, p, now);
      forall i | 0 <= i < j ensures PlanFile(tree, safe, ps[..j][i]).Ok? {
        if i < j - 1 { assert ps[..j][i] == front[i]; }
      }
    }
  }

  lemma StillFresh(tree: Tree, safe: SafePath, front: seq<FilePatch>, plans: seq<Planned>, p: FilePatch, now: Tree)
    requires |plans| == |front| && forall i | 0 <= i < |front| :: PlanFile(tree, safe, front[i]) == Ok(plans[i])
    requires forall i | 0 <= i < |front| :: safe(front[i].path) != safe(p.path)
    requires Committed(tree, plans, now)
    ensures PlanFile(now, safe, p) == PlanFile(tree, safe, p)
  {
    hide PlanFile;
    if safe(p.path).Some? {
      var f := safe(p.path).value;
      forall i | 0 <= i < |plans| ensures plans[i].target != f {
        PlanTarget(tree, safe, front[i]);
      }
      NeverNamed(tree, plans, f);
      assert Holds(now, f, Final(tree, plans, f));
    }
    PlanReadsTarget(now, tree, safe, p);
  }

  /** A patch that names no file twice can be planned exactly when its sections can be
      applied one after another, and its commit is the tree they leave. */
  lemma DistinctFilesCommute(tree: Tree, safe: SafePath, ps: seq<FilePatch>)
    requires DistinctFiles(safe, ps)
    ensures var plans, one := PlanAll(tree, safe, ps), OneByOne(tree, safe, ps);
      && (plans.Ok? <==> one.Ok?)
      && (plans.Ok? ==> forall after :: Committed(tree, plans.value, after) <==> after == one.value)
  {
    hide PlanAll, OneByOne, Committed;
    assert ps[..|ps|] == ps;
    if PlanAll(tree, safe, ps).Ok? {
      var plans := PlanAll(tree, safe, ps).value;
      SequenceCommits(tree, safe, ps, plans, |ps|);
      assert plans[..|ps|] == plans;
      forall after | Committed(tree, plans, after) ensures after == OneByOne(tree, safe, ps).value {
        CommittedUnique(tree, plans, after, OneByOne(tree, safe, ps).value);
      }
    } else if OneByOne(tree, safe, ps).Ok? {
      SequenceThenPlan(tree, safe, ps, |ps|);
    }
  }

  // ---- one file in several sections -----------------------------------------------------------

  lemma SameLinesSameText(a: string, b: string)
    requires SplitLines(a) == SplitLines(b) && EndsWithNewline(a) == EndsWithNewline(b)
    ensures a == b
  {
    LinesDetermineText(a);
    LinesDetermineText(b);
  }

  /** Results that differ by a final empty line come from files that do. */
  lemma ExtraLineTold(a: seq<string>, b: seq<string>, hunks: seq<Hunk>, short: seq<string>)
    requires Splice(a, hunks, 0) == Ok(short + [""]) && Splice(b, hunks, 0) == Ok(short)
    ensures a == b + [""]
  {
    hide Splice, Invert;
    InverseRestoresLines(a, hunks, short + [""]);
    InverseRestoresLines(b, hunks, short);
    ExtraLine(short, "", Invert(hunks, 0), 0);
  }

  lemma SpliceInjective(a: seq<string>, b: seq<string>, hunks: seq<Hunk>)
    requires Splice(a, hunks, 0).Ok? && Splice(a, hunks, 0) == Splice(b, hunks, 0)
    ensures a == b
  {
    hide Splice, Invert;
    InverseRestoresLines(a, hunks, Splice(a, hunks, 0).value);
    InverseRestoresLines(b, hunks, Splice(a, hunks, 0).value);
  }

  /** The lines a written text was made of. */
  lemma WrittenFrom(r: seq<string>, terminated: bool, text: string)
    requires Unbroken(r) && text == Join(r) + if terminated then "\n" else ""
    ensures terminated && text != "\n" ==> r == SplitLines(text) && EndsWithNewline(text)
    ensures !terminated ==> r == SplitLines(text) || r == SplitLines(text) + [""]
    ensures !terminated && EndsWithNewline(text) ==> r == SplitLines(text) + [""]
  {
    hide Split, Join, SplitLines;
    if terminated {
      NoLines();
      if r != [] { SplitLinesTerminated(r); }
      assert r == [] ==> text == "\n" by { if r == [] { assert Join(r) + "\n" == "\n"; } }
    } else {
      assert Join(r) + "" == Join(r);
      SplitLinesJoined(r);
      if r != [] && r[|r| - 1] == "" {
        assert r == r[..|r| - 1] + [""];
      } else {
        NoFinalNewline(r);
      }
    }
  }

  lemma NoEmptyTail(t: string, ls: seq<string>)
    requires !EndsWithNewline(t)
    ensures SplitLines(t) != ls + [""]
  {
    hide SplitLines, EndsWithNewline;
    LinesDetermineText(t);
    var longer := ls + [""];
    assert longer != [] && longer[|longer| - 1] == "";
  }

  /** All that is left of a terminated text is its newline: no line, or one empty line. */
  predicate OnlyNewlineLeft(text: string, hunks: seq<Hunk>) {
    && EndsWithNewline(text)
    && var n := |SplitLines(text)| + Shift(hunks, |hunks|);
       n == 0 || (n == 1 && LastLine(SplitLines(text), hunks) == Some(""))
  }

  lemma OnlyNewlineIs(text: string, hunks: seq<Hunk>)
    requires UnbrokenHunks(hunks) && Splice(SplitLines(text), hunks, 0).Ok? && EndsWithNewline(text)
    ensures var r := Splice(SplitLines(text), hunks, 0).value;
      && (OnlyNewlineLeft(text, hunks) <==> r == [] || r == [""])
      && (OnlyNewlineLeft(text, hunks) <==> Patched(text, hunks) == Ok("\n"))
  {
    hide Split, Join, SplitLines, Splice, EndsWithNewline, UnbrokenHunks, Unbroken, Shift, LastLine;
    LinesDetermineText(text);
    SpliceUnbroken(SplitLines(text), hunks, 0);
    SpliceLength(SplitLines(text), hunks, 0);
    LastLineIs(SplitLines(text), hunks);
    EmptyJoin(Splice(SplitLines(text), hunks, 0).value);
    NewlineLast(Join(Splice(SplitLines(text), hunks, 0).value));
  }

  /** An unterminated text that comes out as a lone newline is the only one that does. */
  lemma UnterminatedAlone(a: string, b: string, hunks: seq<Hunk>)
    requires UnbrokenHunks(hunks) && Patched(a, hunks) == Ok("\n") == Patched(b, hunks) && !EndsWithNewline(a)
    ensures a == b
  {
    hide Split, Join, SplitLines, Splice, EndsWithNewline, UnbrokenHunks, Unbroken, OnlyNewlineLeft;
    var r, s := Splice(SplitLines(a), hunks, 0).value, Splice(SplitLines(b), hunks, 0).value;
    LinesDetermineText(a);
    LinesDetermineText(b);
    SpliceUnbroken(SplitLines(a), hunks, 0);
    SpliceUnbroken(SplitLines(b), hunks, 0);
    assert Join(r) + "" == Join(r);
    TwoEmptyLines(r);
    NoEmptyTail(a, SplitLines(b));
    NoEmptyTail(a, SplitLines(b) + [""]);
    if EndsWithNewline(b) {
      OnlyNewlineIs(b, hunks);
      LessThanTwo(SplitLines(a), SplitLines(b), hunks, s);
    } else {
      assert Join(s) + "" == Join(s);
      TwoEmptyLines(s);
      SpliceInjective(SplitLines(a), SplitLines(b), hunks);
      SameLinesSameText(a, b);
    }
  }

  lemma TwoEmptyLines(r: seq<string>)
    requires Unbroken(r) && Join(r) == "\n"
    ensures r == ["", ""]
  {
    hide Split, Join;
    if r == [] { NoLines(); } else { SplitJoin(r); }
    LoneNewlineSplit();
  }

  lemma LoneNewlineSplit()
    ensures Split("\n") == ["", ""]
  {
    assert "\n"[1..] == "";
  }

  lemma LessThanTwo(a: seq<string>, b: seq<string>, hunks: seq<Hunk>, s: seq<string>)
    requires Splice(a, hunks, 0) == Ok(["", ""]) && Splice(b, hunks, 0) == Ok(s) && (s == [] || s == [""])
    ensures a == b + [""] || a == b + [""] + [""]
  {
    hide Splice;
    ExtraLine(b, "", hunks, 0);
    if s == [] {
      ExtraLine(b + [""], "", hunks, 0);
      assert s + [""] + [""] == ["", ""];
      SpliceInjective(a, b + [""] + [""], hunks);
    } else {
      assert s + [""] == ["", ""];
      SpliceInjective(a, b + [""], hunks);
    }
  }

  /** Patching tells texts apart, except terminated ones of which it leaves the newline. */
  lemma PatchedInjective(a: string, b: string, hunks: seq<Hunk>)
    requires UnbrokenHunks(hunks) && Patched(a, hunks).Ok? && Patched(b, hunks).Ok?
    ensures Patched(a, hunks) == Patched(b, hunks)
      <==> a == b || (OnlyNewlineLeft(a, hunks) && OnlyNewlineLeft(b, hunks))
  {
    hide Patched, OnlyNewlineLeft, UnbrokenHunks, EndsWithNewline;
    PatchedFrom(a, hunks);
    PatchedFrom(b, hunks);
    if Patched(a, hunks) == Patched(b, hunks) != Ok("\n") {
      NotEmptied(a, b, hunks);
    } else if Patched(a, hunks) == Patched(b, hunks) {
      if !EndsWithNewline(a) {
        UnterminatedAlone(a, b, hunks);
      } else if !EndsWithNewline(b) {
        UnterminatedAlone(b, a, hunks);
      }
    }
  }

  lemma PatchedFrom(text: string, hunks: seq<Hunk>)
    requires UnbrokenHunks(hunks) && Patched(text, hunks).Ok?
    ensures OnlyNewlineLeft(text, hunks) ==> Patched(text, hunks) == Ok("\n")
    ensures EndsWithNewline(text) && Patched(text, hunks) == Ok("\n") ==> OnlyNewlineLeft(text, hunks)
  {
    hide Splice, UnbrokenHunks, SplitLines, Join, Shift, LastLine;
    if EndsWithNewline(text) { OnlyNewlineIs(text, hunks); }
  }

  lemma NotEmptied(a: string, b: string, hunks: seq<Hunk>)
    requires UnbrokenHunks(hunks) && Patched(a, hunks).Ok?
    requires Patched(a, hunks) == Patched(b, hunks) && Patched(a, hunks) != Ok("\n")
    ensures a == b
  {
    hide Split, Join, SplitLines, Splice, EndsWithNewline, UnbrokenHunks, Unbroken;
    var r, s := Splice(SplitLines(a), hunks, 0).value, Splice(SplitLines(b), hunks, 0).value;
    var text := Patched(a, hunks).value;
    LinesDetermineText(a);
    LinesDetermineText(b);
    SpliceUnbroken(SplitLines(a), hunks, 0);
    SpliceUnbroken(SplitLines(b), hunks, 0);
    WrittenFrom(r, EndsWithNewline(a), text);
    WrittenFrom(s, EndsWithNewline(b), text);
    if !EndsWithNewline(a) { NoEmptyTail(a, SplitLines(b)); }
    if !EndsWithNewline(b) { NoEmptyTail(b, SplitLines(a)); }
    TextsEqual(a, b, hunks, r, s, SplitLines(text));
  }

  lemma TextsEqual(a: string, b: string, hunks: seq<Hunk>, r: seq<string>, s: seq<string>, ls: seq<string>)
    requires Splice(SplitLines(a), hunks, 0) == Ok(r) && Splice(SplitLines(b), hunks, 0) == Ok(s)
    requires (r == ls || r == ls + [""]) && (s == ls || s == ls + [""])
    requires !EndsWithNewline(a) ==> SplitLines(a) != SplitLines(b) + [""]
    requires !EndsWithNewline(b) ==> SplitLines(b) != SplitLines(a) + [""]
    requires EndsWithNewline(a) ==> r == ls
    requires EndsWithNewline(b) ==> s == ls
    requires EndsWithNewline(a) != EndsWithNewline(b) ==> r != s
    ensures a == b
  {
    hide Splice, SplitLines, EndsWithNewline;
    if r == s {
      SpliceInjective(SplitLines(a), SplitLines(b), hunks);
      SameLinesSameText(a, b);
    } else if r == ls {
      ExtraLineTold(SplitLines(b), SplitLines(a), hunks, ls);
    } else {
      ExtraLineTold(SplitLines(a), SplitLines(b), hunks, ls);
    }
  }

  /** Section `j` is the last to name its file. */
  ghost predicate LastToName(safe: SafePath, ps: seq<FilePatch>, j: nat)
    requires j < |ps|
  {
    forall i | j < i < |ps| :: safe(ps[i].path) != safe(ps[j].path)
  }

  /** An edit finds its file as it was before the patch, whatever the earlier sections did
      to it; or all it leaves of either is the newline. */
  ghost predicate FindsOriginal(tree: Tree, safe: SafePath, ps: seq<FilePatch>, j: nat)
    requires j < |ps|
  {
    var before, p := OneByOne(tree, safe, ps[..j]), ps[j];
    before.Ok? && safe(p.path).Some? &&
    var f := safe(p.path).value;
    f in tree && f in before.value &&
    (before.value[f] == tree[f]
     || (OnlyNewlineLeft(tree[f], p.hunks) && OnlyNewlineLeft(before.value[f], p.hunks)))
  }

  /** The file of a section keeps what that section wrote until another one names it. */
  lemma {:induction false} StaysWritten(tree: Tree, safe: SafePath, ps: seq<FilePatch>, j: nat, n: nat)
    requires j < n <= |ps| && OneByOne(tree, safe, ps[..n]).Ok?
    requires forall i | j < i < n :: safe(ps[i].path) != safe(ps[j].path)
    ensures OneByOne(tree, safe, ps[..j]).Ok?
    ensures var plan := PlanFile(OneByOne(tree, safe, ps[..j]).value, safe, ps[j]);
      plan.Ok? && TextOf(OneByOne(tree, safe, ps[..n]).value, plan.value.target) == plan.value.content
    decreases n
  {
    hide PlanFile;
    OneByOneStep(tree, safe, ps, n - 1);
    if j < n - 1 {
      StaysWritten(tree, safe, ps, j, n - 1);
      PlanTarget(OneByOne(tree, safe, ps[..j]).value, safe, ps[j]);
      PlanTarget(OneByOne(tree, safe, ps[..n - 1]).value, safe, ps[n - 1]);
    }
  }

  lemma {:induction false} StaysUnnamed(tree: Tree, safe: SafePath, ps: seq<FilePatch>, f: File, n: nat)
    requires n <= |ps| && OneByOne(tree, safe, ps[..n]).Ok?
    requires forall i | 0 <= i < n :: safe(ps[i].path) != Some(f)
    ensures TextOf(OneByOne(tree, safe, ps[..n]).value, f) == TextOf(tree, f)
    decreases n
  {
    hide PlanFile;
    if n > 0 {
      OneByOneStep(tree, safe, ps, n - 1);
      StaysUnnamed(tree, safe, ps, f, n - 1);
      PlanTarget(OneByOne(tree, safe, ps[..n - 1]).value, safe, ps[n - 1]);
    }
  }

  /** Two trees in which a section can be planned give it the same outcome exactly when it
      is no edit, or an edit the two texts do not tell apart. */
  lemma SamePlan(t1: Tree, t2: Tree, safe: SafePath, p: FilePatch)
    requires UnbrokenHunks(p.hunks) && PlanFile(t1, safe, p).Ok? && PlanFile(t2, safe, p).Ok?
    ensures safe(p.path).Some?
    ensures !p.create && !p.delete ==> safe(p.path).value in t1 && safe(p.path).value in t2
    ensures PlanFile(t1, safe, p) == PlanFile(t2, safe, p) <==>
      (p.create || p.delete ||
       var f := safe(p.path).value;
       t2[f] == t1[f] || (OnlyNewlineLeft(t1[f], p.hunks) && OnlyNewlineLeft(t2[f], p.hunks)))
  {
    hide Patched, CreatedContent, UnbrokenHunks, OnlyNewlineLeft;
    if !p.create && !p.delete {
      PatchedInjective(t1[safe(p.path).value], t2[safe(p.path).value], p.hunks);
    }
  }

  /** The last section to name a file decides both trees there. */
  lemma DecidedByLast(tree: Tree, safe: SafePath, ps: seq<FilePatch>, plans: seq<Planned>, after: Tree, j: nat)
    requires PlanAll(tree, safe, ps) == Ok(plans) && Committed(tree, plans, after)
    requires OneByOne(tree, safe, ps).Ok? && j < |ps| && LastToName(safe, ps, j) && UnbrokenHunks(ps[j].hunks)
    ensures |plans| == |ps|
    ensures TextOf(after, plans[j].target) == TextOf(OneByOne(tree, safe, ps).value, plans[j].target)
      <==> ps[j].create || ps[j].delete || FindsOriginal(tree, safe, ps, j)
  {
    hide PlanFile, PlanAll, UnbrokenHunks, Patched, OnlyNewlineLeft;
    PlanAllEach(tree, safe, ps);
    assert ps[..|ps|] == ps;
    var f := plans[j].target;
    PlanTarget(tree, safe, ps[j]);
    StaysWritten(tree, safe, ps, j, |ps|);
    var before := OneByOne(tree, safe, ps[..j]).value;
    PlanTarget(before, safe, ps[j]);
    SamePlan(tree, before, safe, ps[j]);
    PlanPath(tree, safe, ps[j]);
    PlanPath(before, safe, ps[j]);
    forall i | j < i < |plans| ensures plans[i].target != f { PlanTarget(tree, safe, ps[i]); }
    LastPlanIs(plans, j);
    assert Holds(after, f, Final(tree, plans, f));
  }

  lemma PlanPath(tree: Tree, safe: SafePath, p: FilePatch)
    requires PlanFile(tree, safe, p).Ok?
    ensures PlanFile(tree, safe, p).value.path == p.path
  {
    hide Patched, CreatedContent;
  }

  lemma LastPlanIs(plans: seq<Planned>, j: nat)
    requires j < |plans| && forall i | j < i < |plans| :: plans[i].target != plans[j].target
    ensures LastPlan(plans, plans[j].target) == j + 1
  {
    hide LastPlan;
    var n := LastPlan(plans, plans[j].target);
    assert n > j;
  }

  lemma {:induction false} LastNamed(safe: SafePath, ps: seq<FilePatch>, f: File, n: nat) returns (j: nat)
    requires n <= |ps| && exists i :: 0 <= i < n && safe(ps[i].path) == Some(f)
    ensures j < n && safe(ps[j].path) == Some(f) && forall i | j < i < n :: safe(ps[i].path) != Some(f)
    decreases n
  {
    if safe(ps[n - 1].path) == Some(f) {
      j := n - 1;
    } else {
      j := LastNamed(safe, ps, f, n - 1);
    }
  }

  /** Any patch that can be planned and can be applied section by section: the two trees
      are the same exactly when every edit that is the last to name its file finds the text
      the patch was planned from, or leaves nothing but the newline of either text. */
  lemma SequenceAgrees(tree: Tree, safe: SafePath, ps: seq<FilePatch>, after: Tree)
    requires PlanAll(tree, safe, ps).Ok? && OneByOne(tree, safe, ps).Ok?
    requires Committed(tree, PlanAll(tree, safe, ps).value, after)
    requires forall p | p in ps :: UnbrokenHunks(p.hunks)
    ensures after == OneByOne(tree, safe, ps).value <==>
      forall j | 0 <= j < |ps| && LastToName(safe, ps, j) && !ps[j].create && !ps[j].delete ::
        FindsOriginal(tree, safe, ps, j)
  {
    hide PlanAll, OneByOne, FindsOriginal, UnbrokenHunks, LastToName, Committed;
    var plans, one := PlanAll(tree, safe, ps).value, OneByOne(tree, safe, ps).value;
    PlanAllEach(tree, safe, ps);
    SameTexts(after, one);
    forall j | 0 <= j < |ps| && LastToName(safe, ps, j)
      ensures TextOf(after, plans[j].target) == TextOf(one, plans[j].target)
        <==> ps[j].create || ps[j].delete || FindsOriginal(tree, safe, ps, j)
    {
      assert ps[j] in ps;
      DecidedByLast(tree, safe, ps, plans, after, j);
    }
    if forall j | 0 <= j < |ps| && LastToName(safe, ps, j) && !ps[j].create && !ps[j].delete ::
         FindsOriginal(tree, safe, ps, j)
    {
      forall f ensures TextOf(after, f) == TextOf(one, f) {
        SameAt(tree, safe, ps, plans, after, f);
      }
    }
  }

  lemma SameAt(tree: Tree, safe: SafePath, ps: seq<FilePatch>, plans: seq<Planned>, after: Tree, f: File)
    requires PlanAll(tree, safe, ps) == Ok(plans) && OneByOne(tree, safe, ps).Ok? && |plans| == |ps|
    requires Committed(tree, plans, after)
    requires forall j | 0 <= j < |ps| && LastToName(safe, ps, j) ::
      TextOf(after, plans[j].target) == TextOf(OneByOne(tree, safe, ps).value, plans[j].target)
    ensures TextOf(after, f) == TextOf(OneByOne(tree, safe, ps).value, f)
  {
    hide PlanAll, OneByOne, PlanFile;
    PlanAllEach(tree, safe, ps);
    forall i | 0 <= i < |ps| ensures safe(ps[i].path) == Some(plans[i].target) { PlanTarget(tree, safe, ps[i]); }
    if exists i :: 0 <= i < |ps| && safe(ps[i].path) == Some(f) {
      var j := LastNamed(safe, ps, f, |ps|);
      assert LastToName(safe, ps, j);
    } else {
      assert ps[..|ps|] == ps;
      StaysUnnamed(tree, safe, ps, f, |ps|);
      NeverNamed(tree, plans, f);
      assert Holds(after, f, Final(tree, plans, f));
    }
  }

  // ---- witnesses --------------------------------------------------------------------------------

  lemma PlanTwo(tree: Tree, safe: SafePath, p: FilePatch, q: FilePatch)
    requires PlanFile(tree, safe, p).Ok? && PlanFile(tree, safe, q).Ok?
    ensures PlanAll(tree, safe, [p, q]) == Ok([PlanFile(tree, safe, p).value, PlanFile(tree, safe, q).value])
  {
    hide PlanFile;
    var two := [p, q];
    assert two[0] == p && two[1] == q;
    PlanAllEach(tree, safe, two);
    forall i | 0 <= i < |two| ensures PlanFile(tree, safe, two[i]).Ok? {
      if i == 0 { assert two[i] == p; } else { assert two[i] == q; }
    }
    var plans := PlanAll(tree, safe, two).value;
    assert PlanFile(tree, safe, two[0]) == Ok(plans[0]) && PlanFile(tree, safe, two[1]) == Ok(plans[1]);
    assert plans == [plans[0], plans[1]];
  }

  lemma ApplyTwo(tree: Tree, safe: SafePath, p: FilePatch, q: FilePatch)
    requires PlanFile(tree, safe, p).Ok?
    ensures var first := Carried(tree, PlanFile(tree, safe, p).value);
      var second := PlanFile(first, safe, q);
      OneByOne(tree, safe, [p, q]) == if second.Err? then Err(second.error) else Ok(Carried(first, second.value))
  {
    hide PlanFile;
    var ps := [p, q];
    assert ps[..0] == [] && ps[..1] == [p] && ps[..2] == ps;
    OneByOneStep(tree, safe, ps, 0);
    OneByOneStep(tree, safe, ps, 1);
  }

  function AddFirst(path: string, line: string): FilePatch {
    FilePatch(path, false, false, [Hunk(1, ["+" + line])])
  }

  /** Two sections that each add a first line to one empty file: both are planned and
      committed, and the first is lost. */
  lemma TwoEditsOverwrite(safe: SafePath, path: string, x: string, y: string)
    requires safe(path).Some? && '\n' !in x && '\n' !in y && x != ""
    ensures var f, ps := safe(path).value, [AddFirst(path, x), AddFirst(path, y)];
      var plans := PlanAll(map[f := ""], safe, ps);
      && plans.Ok? && SafeToCommit(plans.value) && Committed(map[f := ""], plans.value, map[f := y])
      && OneByOne(map[f := ""], safe, ps) == Ok(map[f := y + "\n" + x])
  {
    hide PlanAll, OneByOne, Patched, AddFirst;
    var f := safe(path).value;
    var tree, p, q := map[f := ""], AddFirst(path, x), AddFirst(path, y);
    AddFirstPlans(tree, safe, path, "", x);
    AddFirstPlans(tree, safe, path, "", y);
    AddFirstPlans(map[f := x], safe, path, x, y);
    PlanTwo(tree, safe, p, q);
    ApplyTwo(tree, safe, p, q);
    assert Carried(tree, Planned(f, path, Some(x))) == map[f := x];
    assert Carried(map[f := x], Planned(f, path, Some(y + "\n" + x))) == map[f := y + "\n" + x];
    SecondWins(tree, f, path, x, y);
  }

  lemma SecondWins(tree: Tree, f: File, path: string, x: string, y: string)
    requires tree == map[f := ""]
    ensures var plans := [Planned(f, path, Some(x)), Planned(f, path, Some(y))];
      SafeToCommit(plans) && Committed(tree, plans, map[f := y])
  {
    var plans := [Planned(f, path, Some(x)), Planned(f, path, Some(y))];
    LastPlanIs(plans, 1);
    forall g ensures Holds(map[f := y], g, Final(tree, plans, g)) {
      if g != f { NeverNamed(tree, plans, g); }
    }
  }

  lemma AddFirstPlans(tree: Tree, safe: SafePath, path: string, text: string, line: string)
    requires safe(path).Some? && tree == map[safe(path).value := text] && '\n' !in text && '\n' !in line
    ensures PlanFile(tree, safe, AddFirst(path, line))
      == Ok(Planned(safe(path).value, path, Some(if text == "" then line else line + "\n" + text)))
  {
    hide Patched;
    FirstLineAdded(text, line);
  }

  lemma AdditionImages(line: string)
    ensures PreImage(["+" + line]) == [] && PostImage(["+" + line]) == [line]
  {
    var body: seq<string> := ["+" + line];
    assert body[..0] == [] && body[0][1..] == line;
  }

  lemma AddedBefore(lines: seq<string>, line: string)
    ensures Splice(lines, [Hunk(1, ["+" + line])], 0) == Ok([line] + lines)
  {
    hide PreImage, PostImage;
    var h := Hunk(1, ["+" + line]);
    AdditionImages(line);
    assert Matches(lines, h) && lines[0..0] == [] && lines[0..] == lines;
    assert [h][1..] == [];
    NothingSpliced(lines, 0);
    assert [] + [line] + lines == [line] + lines;
  }

  /** Adding a line before an unterminated text of at most one line. */
  lemma FirstLineAdded(text: string, line: string)
    requires '\n' !in text && '\n' !in line
    ensures Patched(text, [Hunk(1, ["+" + line])]) == Ok(if text == "" then line else line + "\n" + text)
  {
    hide Split, SplitLines, Splice, EndsWithNewline;
    OneLine(text);
    AddedBefore(SplitLines(text), line);
    JoinTwo(line, text);
  }

  lemma JoinTwo(a: string, b: string)
    ensures Join([a] + []) + "" == a && Join([a] + [b]) + "" == a + "\n" + b
  {
    assert ([a] + [b])[1..] == [b];
    assert Join([a]) == a;
  }

  lemma OneLine(text: string)
    requires '\n' !in text
    ensures SplitLines(text) == (if text == "" then [] else [text]) && !EndsWithNewline(text)
  {
    hide Split;
    NoLines();
    if text != "" {
      assert Join([text]) == text;
      SplitLinesJoined([text]);
    }
  }

  /** Two sections that delete one existing file can be planned and cannot be committed. */
  lemma TwoDeletionsStop(tree: Tree, safe: SafePath, path: string)
    requires safe(path).Some? && safe(path).value in tree
    ensures var p := FilePatch(path, false, true, []);
      var plans := PlanAll(tree, safe, [p, p]);
      plans.Ok? && !SafeToCommit(plans.value)
  {
    var p := FilePatch(path, false, true, []);
    var plan := Planned(safe(path).value, path, None);
    PlanTwo(tree, safe, p, p);
    var plans := [plan, plan];
    assert plans[..1] == [plan];
    LastPlanIs([plan], 0);
    assert DeletedTwice(plans, 1);
  }
}
