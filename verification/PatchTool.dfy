/** The `fs.apply_patch` tool: plan every file in memory, then commit
    (src/limpiador/tools/fs_tools.py, `_created_content`, `_plan_file`,
    `FsApplyPatch.run`).  `_safe_path` is an arbitrary function from a path to the
    file it denotes, or None when it leaves the root. */
module PatchTool {
  import opened Text
  import opened Hunks
  import opened PatchParser

  type File = string
  type Tree = map<File, string>
  type SafePath = string -> Option<File>

  /** One file's outcome; no content means the file is deleted. */
  datatype Planned = Planned(target: File, path: string, content: Option<string>)

  datatype Outcome =
    | Applied(changed: seq<string>)
    | Rejected(error: Failure)
    | Crashed  // an untyped FileNotFoundError out of the commit loop

  // ---- planning -----------------------------------------------------------------

  function AddedLines(body: seq<string>): seq<string> {
    if body == [] then []
    else
      var e := body[|body| - 1];
      AddedLines(body[..|body| - 1]) + if e != "" && e[0] == '+' then [e[1..]] else []
  }

  function AllAdded(hunks: seq<Hunk>): seq<string> {
    if hunks == [] then [] else AddedLines(hunks[0].body) + AllAdded(hunks[1..])
  }

  function CreatedContent(hunks: seq<Hunk>): string {
    var text := Join(AllAdded(hunks));
    if text != "" then text + "\n" else text
  }

  function AsAdditions(lines: seq<string>): (body: seq<string>)
    ensures |body| == |lines| && forall i | 0 <= i < |body| :: body[i] == "+" + lines[i]
  {
    seq(|lines|, i requires 0 <= i < |lines| => "+" + lines[i])
  }

  lemma {:induction false} AddedLinesOf(lines: seq<string>)
    ensures AddedLines(AsAdditions(lines)) == lines
    decreases |lines|
  {
    if lines != [] {
      var n := |lines| - 1;
      AddedLinesOf(lines[..n]);
      assert AsAdditions(lines)[..n] == AsAdditions(lines[..n]);
      assert ("+" + lines[n])[1..] == lines[n];
    }
  }

  /** A file created from a hunk of additions holds exactly the added lines. */
  lemma CreatedFileHolds(start: int, lines: seq<string>)
    ensures CreatedContent([Hunk(start, AsAdditions(lines))]) == if Join(lines) == "" then "" else Join(lines) + "\n"
  {
    hide AddedLines, Join;
    AddedLinesOf(lines);
    var hunk := Hunk(start, AsAdditions(lines));
    assert AllAdded([hunk][1..]) == [];
    assert AllAdded([hunk]) == AddedLines(hunk.body) + AllAdded([hunk][1..]);
    assert lines + [] == lines;
  }

  function PlanFile(tree: Tree, safe: SafePath, p: FilePatch): Result<Planned, Failure> {
    var target := safe(p.path);
    if target.None? then Err(PermissionDenied(p.path))
    else if p.delete then
      if target.value in tree then Ok(Planned(target.value, p.path, None)) else Err(NotFound(p.path))
    else if p.create then Ok(Planned(target.value, p.path, Some(CreatedContent(p.hunks))))
    else if target.value !in tree then Err(NotFound(p.path))
    else
      var text := Patched(tree[target.value], p.hunks);
      if text.Err? then Err(text.error) else Ok(Planned(target.value, p.path, Some(text.value)))
  }

  /** When one file can be planned, with what outcome, and else with which error. */
  lemma PlanFileIs(tree: Tree, safe: SafePath, p: FilePatch)
    ensures var plan, f := PlanFile(tree, safe, p), safe(p.path);
      && (plan.Ok? <==> (
            && f.Some? && (p.delete ==> f.value in tree)
            && (!p.delete && !p.create ==> f.value in tree && Splice(SplitLines(tree[f.value]), p.hunks, 0).Ok?)))
      && (plan.Ok? ==> plan.value.target == f.value && plan.value.path == p.path)
      && (plan.Ok? ==> (plan.value.content == None <==> p.delete))
      && (plan.Ok? && p.create && !p.delete ==> plan.value.content == Some(CreatedContent(p.hunks)))
      && (plan.Ok? && !p.create && !p.delete ==> Ok(plan.value.content.value) == Patched(tree[f.value], p.hunks))
      && (f.None? ==> plan == Err(PermissionDenied(p.path)))
      && (f.Some? && f.value !in tree && (p.delete || !p.create) ==> plan == Err(NotFound(p.path)))
  {
    hide Splice, CreatedContent;
  }

  /** All plans, or the first failure; every file is read from the same tree. */
  function PlanAll(tree: Tree, safe: SafePath, ps: seq<FilePatch>): Result<seq<Planned>, Failure> {
    if ps == [] then Ok([])
    else
      var first := PlanFile(tree, safe, ps[0]);
      if first.Err? then Err(first.error)
      else
        var rest := PlanAll(tree, safe, ps[1..]);
        if rest.Err? then rest else Ok([first.value] + rest.value)
  }

  lemma {:induction false} PlanAllEach(tree: Tree, safe: SafePath, ps: seq<FilePatch>)
    ensures PlanAll(tree, safe, ps).Ok? <==> forall i | 0 <= i < |ps| :: PlanFile(tree, safe, ps[i]).Ok?
    ensures PlanAll(tree, safe, ps).Ok? ==>
      && |PlanAll(tree, safe, ps).value| == |ps|
      && forall i | 0 <= i < |ps| :: PlanFile(tree, safe, ps[i]) == Ok(PlanAll(tree, safe, ps).value[i])
    decreases |ps|
  {
    hide PlanFile;
    if ps != [] {
      var tail := ps[1..];
      PlanAllEach(tree, safe, tail);
      forall i | 0 <= i < |tail| ensures tail[i] == ps[i + 1] {
      }
      if PlanAll(tree, safe, ps).Ok? {
        var r := PlanAll(tree, safe, ps).value;
        forall i | 0 <= i < |ps| ensures PlanFile(tree, safe, ps[i]) == Ok(r[i]) {
          if i > 0 { assert ps[i] == tail[i - 1] && r[i] == PlanAll(tree, safe, tail).value[i - 1]; }
        }
      } else if PlanFile(tree, safe, ps[0]).Ok? {
        var j :| 0 <= j < |tail| && !PlanFile(tree, safe, tail[j]).Ok?;
        assert !PlanFile(tree, safe, ps[j + 1]).Ok?;
      }
    }
  }

  /** No file is named by two sections. */
  ghost predicate DistinctFiles(safe: SafePath, ps: seq<FilePatch>) {
    forall i, j | 0 <= i < j < |ps| :: safe(ps[i].path) != safe(ps[j].path)
  }

  // ---- what committing a plan means, file by file -----------------------------------

  /** The last plan for a file, if any: its position plus one, else zero. */
  function LastPlan(plans: seq<Planned>, f: File): (n: nat)
    ensures n <= |plans|
    ensures n > 0 ==> plans[n - 1].target == f
    ensures forall i | n <= i < |plans| :: plans[i].target != f
  {
    if plans == [] then 0
    else if plans[|plans| - 1].target == f then |plans|
    else LastPlan(plans[..|plans| - 1], f)
  }

  /** What the tree holds at a path: a text, or nothing. */
  function TextOf(tree: Tree, f: File): Option<string> {
    if f in tree then Some(tree[f]) else None
  }

  /** What a file holds once `plans` are carried out in order. */
  function Final(tree: Tree, plans: seq<Planned>, f: File): Option<string> {
    var n := LastPlan(plans, f);
    if n > 0 then plans[n - 1].content
    else TextOf(tree, f)
  }

  ghost predicate Holds(tree: Tree, f: File, content: Option<string>) {
    if f in tree then content == Some(tree[f]) else content == None
  }

  /** The tree after committing `plans`: the last plan for each file decides. */
  ghost predicate Committed(before: Tree, plans: seq<Planned>, after: Tree) {
    forall f {:trigger Final(before, plans, f)} {:trigger f in after} :: Holds(after, f, Final(before, plans, f))
  }

  /** A file is to be deleted at position `j`, but by then it has been deleted. */
  ghost predicate DeletedTwice(plans: seq<Planned>, j: nat)
    requires j < |plans|
  {
    && plans[j].content == None
    && var n := LastPlan(plans[..j], plans[j].target);
    && n > 0 && plans[n - 1].content == None
  }

  ghost predicate SafeToCommit(plans: seq<Planned>) {
    forall j | 0 <= j < |plans| :: !DeletedTwice(plans, j)
  }

  /** The state a crash leaves: everything before the second deletion was written. */
  ghost predicate CommittedUpToCrash(before: Tree, plans: seq<Planned>, after: Tree) {
    exists j :: 0 <= j < |plans| && DeletedTwice(plans, j) && (forall i | 0 <= i < j :: !DeletedTwice(plans, i))
      && Committed(before, plans[..j], after)
  }

  lemma DistinctTargetsAreSafe(plans: seq<Planned>)
    requires forall i, j | 0 <= i < j < |plans| :: plans[i].target != plans[j].target
    ensures SafeToCommit(plans)
  {
    forall j | 0 <= j < |plans| ensures !DeletedTwice(plans, j) {
      assert forall i | 0 <= i < j :: plans[..j][i].target != plans[j].target;
    }
  }

  lemma {:induction false} OnlyPlan(plans: seq<Planned>, i: nat)
    requires forall i, j | 0 <= i < j < |plans| :: plans[i].target != plans[j].target
    requires i < |plans|
    ensures LastPlan(plans, plans[i].target) == i + 1
  {
    var n := LastPlan(plans, plans[i].target);
    assert n > 0;
    assert plans[n - 1].target == plans[i].target;
  }

  lemma FinalStep(tree: Tree, plans: seq<Planned>, j: nat, f: File)
    requires j < |plans|
    ensures Final(tree, plans[..j + 1], f) == if plans[j].target == f then plans[j].content else Final(tree, plans[..j], f)
  {
    assert plans[..j + 1][..j] == plans[..j];
    var n := LastPlan(plans[..j], f);
    if n > 0 { assert plans[..j + 1][n - 1] == plans[..j][n - 1]; }
  }

  /** Every deletion was planned for a file that exists. */
  ghost predicate DeletionsExist(tree: Tree, plans: seq<Planned>) {
    forall i | 0 <= i < |plans| && plans[i].content == None :: plans[i].target in tree
  }

  class Workspace {
    const safe: SafePath
    var files: Tree

    constructor (safe: SafePath, files: Tree)
      ensures this.safe == safe && this.files == files
    {
      this.safe := safe;
      this.files := files;
    }

    /** All or nothing: a patch that cannot be parsed or planned changes no file; a
        planned patch changes exactly the planned files to exactly their outcomes.
        The commit fails half-way only when the plan deletes a file twice. */
    method ApplyPatch(patch: string) returns (r: Outcome)
      modifies this`files
      ensures var ps := ParsedPatch(patch);
        var plans := if ps.Ok? then PlanAll(old(files), safe, ps.value) else Err(ps.error);
        && (plans.Err? ==> r == Rejected(plans.error) && files == old(files))
        && (plans.Ok? ==>
              && (r.Crashed? <==> !SafeToCommit(plans.value))
              && (r.Crashed? ==> CommittedUpToCrash(old(files), plans.value, files))
              && (SafeToCommit(plans.value) ==>
                    && r == Applied(seq(|plans.value|, i requires 0 <= i < |plans.value| => plans.value[i].path))
                    && Committed(old(files), plans.value, files)))
    {
      var ps := ParsePatch(patch);
      if ps.Err? {
        return Rejected(ps.error);
      }
      var plans := Plan(ps.value);
      if plans.Err? {
        return Rejected(plans.error);
      }
      PlannedDeletions(files, safe, ps.value, plans.value);
      r := Commit(plans.value);
    }

    method Plan(ps: seq<FilePatch>) returns (r: Result<seq<Planned>, Failure>)
      ensures r == PlanAll(files, safe, ps)
    {
      var plans: seq<Planned> := [];
      assert ps[0..] == ps;
      PrependPlans([], [], PlanAll(files, safe, ps));
      for i := 0 to |ps|
        invariant PlanAll(files, safe, ps) == Prepended(plans, PlanAll(files, safe, ps[i..]))
      {
        assert ps[i..][1..] == ps[i + 1..];
        var p := PlanFile(files, safe, ps[i]);
        if p.Err? {
          return Err(p.error);
        }
        PrependPlans(plans, [p.value], PlanAll(files, safe, ps[i + 1..]));
        plans := plans + [p.value];
      }
      assert plans + [] == plans;
      r := Ok(plans);
    }

    /** The commit loop. */
    method Commit(plans: seq<Planned>) returns (r: Outcome)
      requires DeletionsExist(files, plans)
      modifies this`files
      ensures r.Crashed? <==> !SafeToCommit(plans)
      ensures r.Crashed? ==> CommittedUpToCrash(old(files), plans, files)
      ensures !r.Crashed? ==> Committed(old(files), plans, files)
      ensures !r.Crashed? ==> r == Applied(seq(|plans|, i requires 0 <= i < |plans| => plans[i].path))
    {
      hide Final, LastPlan, DeletedTwice, Committed;
      var changed: seq<string> := [];
      NothingCommitted(files);
      for j := 0 to |plans|
        invariant forall i | 0 <= i < j :: !DeletedTwice(plans, i)
        invariant Committed(old(files), plans[..j], files)
        invariant changed == seq(j, i requires 0 <= i < j => plans[i].path)
      {
        var p := plans[j];
        CommitStep(old(files), plans, j, files);
        if p.content.None? {
          if p.target !in files {
            return Crashed;
          }
          files := files - {p.target};
        } else {
          files := files[p.target := p.content.value];
        }
        changed := changed + [p.path];
      }
      assert plans[..|plans|] == plans;
      r := Applied(changed);
    }
  }

  function Carried(tree: Tree, p: Planned): Tree {
    if p.content.None? then tree - {p.target} else tree[p.target := p.content.value]
  }

  lemma NothingCommitted(tree: Tree)
    ensures Committed(tree, [], tree)
  {
  }

  lemma CommitStep(before: Tree, plans: seq<Planned>, j: nat, now: Tree)
    requires j < |plans| && DeletionsExist(before, plans) && Committed(before, plans[..j], now)
    ensures DeletedTwice(plans, j) <==> plans[j].content == None && plans[j].target !in now
    ensures Committed(before, plans[..j + 1], Carried(now, plans[j]))
  {
    var p := plans[j];
    assert Holds(now, p.target, Final(before, plans[..j], p.target));
    DeletionMeaning(before, plans, j);
    var next := plans[..j + 1];
    forall f ensures Holds(Carried(now, p), f, Final(before, next, f)) {
      FinalStep(before, plans, j, f);
      assert Holds(now, f, Final(before, plans[..j], f));
    }
  }

  function Prepended(p: seq<Planned>, r: Result<seq<Planned>, Failure>): Result<seq<Planned>, Failure> {
    if r.Err? then r else Ok(p + r.value)
  }

  lemma PrependPlans(p: seq<Planned>, q: seq<Planned>, r: Result<seq<Planned>, Failure>)
    ensures Prepended(p, Prepended(q, r)) == Prepended(p + q, r)
    ensures Prepended([], r) == r
  {
    if r.Ok? {
      assert p + (q + r.value) == p + q + r.value;
      assert [] + r.value == r.value;
    }
  }

  lemma PlannedDeletions(tree: Tree, safe: SafePath, ps: seq<FilePatch>, plans: seq<Planned>)
    requires PlanAll(tree, safe, ps) == Ok(plans)
    ensures DeletionsExist(tree, plans)
  {
    PlanAllEach(tree, safe, ps);
    forall i | 0 <= i < |plans| && plans[i].content == None ensures plans[i].target in tree {
      assert PlanFile(tree, safe, ps[i]) == Ok(plans[i]);
    }
  }

  lemma DeletionMeaning(tree: Tree, plans: seq<Planned>, j: nat)
    requires j < |plans| && DeletionsExist(tree, plans)
    ensures DeletedTwice(plans, j) <==>
      plans[j].content == None && Final(tree, plans[..j], plans[j].target) == None
  {
    var n := LastPlan(plans[..j], plans[j].target);
    if n > 0 { assert plans[..j][n - 1] == plans[n - 1]; }
  }
}
