/** Undoing a whole patch: applying the inverse of every section to the patched tree. */
module PatchUndo {
  import opened Text
  import opened Hunks
  import opened PatchParser
  import opened PatchHeaders
  import opened PatchPrinter
  import opened PatchTool

  /** The inverse of a section: deletion for creation, and every hunk inverted. */
  function Inverse(p: FilePatch): FilePatch {
    FilePatch(p.path, p.delete, p.create, Invert(p.hunks, 0))
  }

  function InvertAll(ps: seq<FilePatch>): (r: seq<FilePatch>)
    ensures |r| == |ps| && forall i | 0 <= i < |ps| :: r[i] == Inverse(ps[i])
  {
    seq(|ps|, i requires 0 <= i < |ps| => Inverse(ps[i]))
  }

  /** A patch that can be planned, names no file twice, and has bodies made of lines. */
  ghost predicate Plannable(tree: Tree, safe: SafePath, ps: seq<FilePatch>) {
    && PlanAll(tree, safe, ps).Ok?
    && (forall p | p in ps :: UnbrokenHunks(p.hunks))
    && DistinctFiles(safe, ps)
  }

  /** The lines a body deletes; an empty entry deletes an empty line. */
  function Removed(body: seq<string>): seq<string> {
    if body == [] then []
    else
      var e := body[|body| - 1];
      Removed(body[..|body| - 1])
      + if e == "" then [""] else if e[0] == '-' then [e[1..]] else []
  }

  function AllRemoved(hunks: seq<Hunk>): seq<string> {
    if hunks == [] then [] else Removed(hunks[0].body) + AllRemoved(hunks[1..])
  }

  /** The hunks of a deletion, which the program never reads, delete exactly the lines of
      the file, and the file is one that a list of lines can stand for: empty, or ending in
      a newline that is not all of it. */
  predicate SpelledOut(hunks: seq<Hunk>, text: string) {
    if text == "" then AllRemoved(hunks) == [] || AllRemoved(hunks) == [""]
    else text != "\n" && EndsWithNewline(text) && AllRemoved(hunks) == SplitLines(text)
  }

  lemma AddedBySwap(e: string)
    ensures (if Swap(e) != "" && Swap(e)[0] == '+' then [Swap(e)[1..]] else [])
      == if e == "" then [""] else if e[0] == '-' then [e[1..]] else []
  {
    if e == "" {
      assert Swap(e)[1..] == "";
    } else {
      assert ("+" + e[1..])[1..] == e[1..];
    }
  }

  lemma AddedLast(front: seq<string>, e: string)
    ensures AddedLines(front + [e]) == AddedLines(front) + if e != "" && e[0] == '+' then [e[1..]] else []
  {
    assert (front + [e])[..|front|] == front;
  }

  lemma {:induction false} AddedByInverse(body: seq<string>)
    ensures AddedLines(InvertBody(body)) == Removed(body)
    decreases |body|
  {
    hide Swap, AddedLines;
    if body == [] {
      NothingAdded();
    } else {
      var front, e := body[..|body| - 1], body[|body| - 1];
      AddedByInverse(front);
      AddedBySwap(e);
      AddedLast(InvertBody(front), Swap(e));
    }
  }

  lemma NothingAdded()
    ensures AddedLines([]) == []
  {
  }

  lemma {:induction false} AllAddedByInverse(hunks: seq<Hunk>, shift: int)
    ensures AllAdded(Invert(hunks, shift)) == AllRemoved(hunks)
    decreases |hunks|
  {
    hide AddedLines, InvertBody, Removed;
    if hunks != [] {
      var h := hunks[0];
      AddedByInverse(h.body);
      FirstInverted(hunks, shift);
      var next := shift + |PostImage(h.body)| - |PreImage(h.body)|;
      AllAddedByInverse(hunks[1..], next);
      assert Invert(hunks, shift)[1..] == Invert(hunks[1..], next);
    }
  }

  lemma {:induction false} RemovedUnbroken(body: seq<string>)
    requires Unbroken(body)
    ensures Unbroken(Removed(body))
    decreases |body|
  {
    if body != [] {
      RemovedUnbroken(body[..|body| - 1]);
      assert body[|body| - 1] in body;
    }
  }

  lemma {:induction false} AllRemovedUnbroken(hunks: seq<Hunk>)
    requires UnbrokenHunks(hunks)
    ensures Unbroken(AllRemoved(hunks))
    decreases |hunks|
  {
    if hunks != [] {
      assert hunks[0] in hunks;
      RemovedUnbroken(hunks[0].body);
      AllRemovedUnbroken(hunks[1..]);
    }
  }

  /** Creating a file from lines gives a text exactly when the lines are the text's own. */
  lemma WrittenLines(lines: seq<string>, text: string)
    requires Unbroken(lines)
    ensures (if Join(lines) == "" then "" else Join(lines) + "\n") == text
      <==> if text == "" then lines == [] || lines == [""]
           else text != "\n" && EndsWithNewline(text) && lines == SplitLines(text)
  {
    hide Split, Join, SplitLines, EndsWithNewline, Unbroken;
    LinesDetermineText(text);
    EmptyJoin(lines);
    LoneNewline();
    EmptyJoin(SplitLines(text));
    if lines != [] { SplitLinesTerminated(lines); }
    NewlineLast(Join(lines));
    NoNewline("");
    assert Join(SplitLines(text)) + "" == Join(SplitLines(text));
    NoLines();
  }

  lemma DeletionSpelledOut(hunks: seq<Hunk>, text: string)
    requires UnbrokenHunks(hunks)
    ensures CreatedContent(Invert(hunks, 0)) == text <==> SpelledOut(hunks, text)
  {
    hide Join, SplitLines, EndsWithNewline, AllAdded, AllRemoved, Invert;
    AllAddedByInverse(hunks, 0);
    AllRemovedUnbroken(hunks);
    WrittenLines(AllRemoved(hunks), text);
  }

  /** What a caller can check before applying a section it may want to undo: a created
      file must be new, a deleted one must be spelled out by its hunks, and an edited one
      must keep its lines when written and read back. */
  ghost predicate Undoable(tree: Tree, safe: SafePath, p: FilePatch) {
    safe(p.path).Some? &&
    var f := safe(p.path).value;
    if p.create && p.delete then false
    else if p.create then f !in tree
    else if p.delete then f in tree && SpelledOut(p.hunks, tree[f])
    else f in tree && Faithful(tree[f], p.hunks)
  }

  lemma EditPlan(tree: Tree, safe: SafePath, p: FilePatch)
    requires !p.create && !p.delete && PlanFile(tree, safe, p).Ok?
    ensures safe(p.path).Some? && safe(p.path).value in tree
    ensures var f := safe(p.path).value;
      && Splice(SplitLines(tree[f]), p.hunks, 0).Ok?
      && Patched(tree[f], p.hunks).Ok?
      && PlanFile(tree, safe, p) == Ok(Planned(f, p.path, Some(Patched(tree[f], p.hunks).value)))
  {
  }

  /** The plan that puts the file of `p` back as it was. */
  ghost predicate Restores(tree: Tree, safe: SafePath, p: FilePatch, undo: Result<Planned, Failure>) {
    && safe(p.path).Some?
    && undo == Ok(Planned(safe(p.path).value, p.path, TextOf(tree, safe(p.path).value)))
  }

  /** Undoing one section puts its file back exactly when it is undoable. */
  lemma FileUndone(tree: Tree, safe: SafePath, p: FilePatch, after: Tree)
    requires UnbrokenHunks(p.hunks) && PlanFile(tree, safe, p).Ok?
    requires safe(p.path).Some? && Holds(after, safe(p.path).value, PlanFile(tree, safe, p).value.content)
    ensures Restores(tree, safe, p, PlanFile(after, safe, Inverse(p))) <==> Undoable(tree, safe, p)
  {
    hide Invert, CreatedContent, UnbrokenHunks, Splice, Faithful, SpelledOut, SplitLines, EndsWithNewline, Patched;
    if !p.create && !p.delete {
      EditUndone(tree, safe, p, after);
    } else if p.delete && !p.create {
      DeletionSpelledOut(p.hunks, tree[safe(p.path).value]);
    }
  }

  lemma EditUndone(tree: Tree, safe: SafePath, p: FilePatch, after: Tree)
    requires !p.create && !p.delete && UnbrokenHunks(p.hunks) && PlanFile(tree, safe, p).Ok?
    requires safe(p.path).Some? && Holds(after, safe(p.path).value, PlanFile(tree, safe, p).value.content)
    ensures Restores(tree, safe, p, PlanFile(after, safe, Inverse(p))) <==> Undoable(tree, safe, p)
  {
    EditPlan(tree, safe, p);
    InverseRestoresText(tree[safe(p.path).value], p.hunks);
  }

  lemma TargetsDistinct(tree: Tree, safe: SafePath, ps: seq<FilePatch>, plans: seq<Planned>)
    requires PlanAll(tree, safe, ps) == Ok(plans)
    requires DistinctFiles(safe, ps)
    ensures |plans| == |ps|
    ensures forall i | 0 <= i < |plans| :: PlanFile(tree, safe, ps[i]) == Ok(plans[i])
    ensures forall i | 0 <= i < |plans| :: safe(ps[i].path) == Some(plans[i].target) && plans[i].path == ps[i].path
    ensures forall i, j | 0 <= i < j < |plans| :: plans[i].target != plans[j].target
  {
    PlanAllEach(tree, safe, ps);
    forall i | 0 <= i < |plans|
      ensures safe(ps[i].path) == Some(plans[i].target) && plans[i].path == ps[i].path
    {
      assert PlanFile(tree, safe, ps[i]) == Ok(plans[i]);
    }
  }

  lemma PlannedContent(tree: Tree, plans: seq<Planned>, after: Tree, i: nat)
    requires forall i, j | 0 <= i < j < |plans| :: plans[i].target != plans[j].target
    requires Committed(tree, plans, after) && i < |plans|
    ensures Holds(after, plans[i].target, plans[i].content)
  {
    OnlyPlan(plans, i);
    assert Holds(after, plans[i].target, Final(tree, plans, plans[i].target));
  }

  lemma EachUndone(tree: Tree, safe: SafePath, ps: seq<FilePatch>, after: Tree, i: nat)
    requires Plannable(tree, safe, ps) && Committed(tree, PlanAll(tree, safe, ps).value, after) && i < |ps|
    ensures Restores(tree, safe, ps[i], PlanFile(after, safe, InvertAll(ps)[i])) <==> Undoable(tree, safe, ps[i])
  {
    hide Committed, Undoable, Restores, UnbrokenHunks, PlanFile, PlanAll;
    var plans := PlanAll(tree, safe, ps).value;
    TargetsDistinct(tree, safe, ps, plans);
    assert ps[i] in ps;
    PlannedContent(tree, plans, after, i);
    FileUndone(tree, safe, ps[i], after);
  }

  /** The inverse patch plans and gives back the whole tree exactly when every section
      is undoable: any tree, any patch, edits, creations and deletions alike. */
  lemma InverseRestoresTree(tree: Tree, safe: SafePath, ps: seq<FilePatch>, after: Tree)
    requires Plannable(tree, safe, ps) && Committed(tree, PlanAll(tree, safe, ps).value, after)
    ensures var undo := PlanAll(after, safe, InvertAll(ps));
      undo.Ok? && Committed(after, undo.value, tree) <==> forall p | p in ps :: Undoable(tree, safe, p)
  {
    hide Committed, Undoable, PlanFile, UnbrokenHunks, PlanAll, Invert;
    var plans := PlanAll(tree, safe, ps).value;
    var inv := InvertAll(ps);
    var undo := PlanAll(after, safe, inv);
    TargetsDistinct(tree, safe, ps, plans);
    forall i | 0 <= i < |ps|
      ensures Restores(tree, safe, ps[i], PlanFile(after, safe, inv[i])) <==> Undoable(tree, safe, ps[i])
    {
      EachUndone(tree, safe, ps, after, i);
    }
    PlanAllEach(after, safe, inv);
    if forall p | p in ps :: Undoable(tree, safe, p) {
      assert forall i | 0 <= i < |ps| :: ps[i] in ps;
      UndoCommits(tree, plans, after, undo.value);
    }
    if undo.Ok? && Committed(after, undo.value, tree) {
      forall p | p in ps ensures Undoable(tree, safe, p) {
        var i :| 0 <= i < |ps| && ps[i] == p;
        PutBack(tree, safe, ps, after, i);
      }
    }
  }

  lemma PutBack(tree: Tree, safe: SafePath, ps: seq<FilePatch>, after: Tree, i: nat)
    requires DistinctFiles(safe, ps) && PlanAll(after, safe, InvertAll(ps)).Ok? && i < |ps|
    requires Committed(after, PlanAll(after, safe, InvertAll(ps)).value, tree)
    ensures Restores(tree, safe, ps[i], PlanFile(after, safe, InvertAll(ps)[i]))
  {
    hide Committed, PlanFile, PlanAll, Invert;
    var undo := PlanAll(after, safe, InvertAll(ps)).value;
    TargetsDistinct(after, safe, InvertAll(ps), undo);
    PlannedContent(after, undo, tree, i);
  }

  lemma UndoCommits(tree: Tree, plans: seq<Planned>, after: Tree, undo: seq<Planned>)
    requires Committed(tree, plans, after) && |undo| == |plans|
    requires forall i, j | 0 <= i < j < |plans| :: plans[i].target != plans[j].target
    requires forall i | 0 <= i < |plans| ::
      undo[i].target == plans[i].target && undo[i].content == TextOf(tree, plans[i].target)
    ensures Committed(after, undo, tree)
  {
    forall f ensures Holds(tree, f, Final(after, undo, f)) {
      var n := LastPlan(undo, f);
      if n == 0 {
        assert forall i | 0 <= i < |plans| :: plans[i].target == undo[i].target != f;
        assert Holds(after, f, Final(tree, plans, f));
      }
    }
  }

  // ---- the undo as a text ---------------------------------------------------------------

  /** An added line that its deletion would print as a file header. */
  predicate DashAdded(e: string) {
    StartsWith(e, "+-- ")
  }

  ghost predicate NoDashAdded(hunks: seq<Hunk>) {
    forall h, e | h in hunks && e in h.body :: !DashAdded(e)
  }

  lemma SwappedLineKept(e: string)
    requires BodyLine(e)
    ensures BodyLine(Swap(e)) <==> !DashAdded(e)
  {
    if e != "" && e[0] == '+' {
      var t := "-" + e[1..];
      assert t[1..] == e[1..] && "--- "[1..] == "-- " && "+-- "[1..] == "-- ";
      SameAfterFirst(t, "--- ");
      SameAfterFirst(e, "+-- ");
    }
  }

  lemma {:induction false} InvertedBodyKept(body: seq<string>)
    requires KeepsBody(body)
    ensures KeepsBody(InvertBody(body)) <==> forall e | e in body :: !DashAdded(e)
    decreases |body|
  {
    hide BodyLine, DashAdded, Swap;
    if body != [] {
      var front, e := body[..|body| - 1], body[|body| - 1];
      assert body == front + [e] && e in body;
      assert forall x | x in front :: x in body;
      InvertedBodyKept(front);
      SwappedLineKept(e);
      KeepsLast(InvertBody(front), Swap(e));
      assert forall x :: x in body <==> x in front || x == e;
    }
  }

  lemma KeepsLast(front: seq<string>, e: string)
    ensures KeepsBody(front + [e]) <==> KeepsBody(front) && BodyLine(e)
  {
    hide BodyLine;
    assert forall x :: x in front + [e] <==> x in front || x == e;
  }

  lemma {:induction false} InvertedHunksKept(hunks: seq<Hunk>, shift: int)
    requires KeepsHunks(hunks)
    ensures KeepsHunks(Invert(hunks, shift)) <==> NoDashAdded(hunks)
    decreases |hunks|
  {
    hide BodyLine, DashAdded, Swap, InvertBody, KeepsBody;
    if hunks == [] {
      NothingInverted(shift);
    } else {
      var h, rest := hunks[0], hunks[1..];
      var next := shift + |PostImage(h.body)| - |PreImage(h.body)|;
      assert h in hunks && forall g | g in rest :: g in hunks;
      assert forall g :: g in hunks <==> g == h || g in rest;
      InvertedBodyKept(h.body);
      InvertedHunksKept(rest, next);
      FirstInverted(hunks, shift);
      assert Invert(hunks, shift)[1..] == Invert(rest, next);
      KeepsTail(Invert(hunks, shift));
    }
  }

  /** The printed inverse of a patch reads back exactly when no line the patch added starts
      with "-- ", and its text keeps the names and has nothing behind its hunks that runs
      into them. */
  lemma UndoReadsBack(ps: seq<FilePatch>, leading: seq<string>, doc: seq<Section>)
    requires doc != [] && (forall s | s in doc :: WellFormed(s)) && Patches(doc) == InvertAll(ps)
    requires NoHeader(leading) && Unbroken(leading + Lines(doc))
    requires forall p | p in ps :: KeepsHunks(p.hunks)
    ensures ParsedPatch(Join(leading + Lines(doc)) + "\n") == Ok(InvertAll(ps))
      <==> (forall p | p in ps :: NoDashAdded(p.hunks)) && forall s | s in doc :: WellPrinted(s)
  {
    hide Lines, WellFormed, KeepsHunks, NoDashAdded, ParsedPatch, Invert, Join, HeadersKept, Behind, NoHeader;
    ParseUndoesPrint(leading, doc);
    PatchesAt(doc);
    forall i | 0 <= i < |ps| ensures KeepsHunks(doc[i].patch.hunks) <==> NoDashAdded(ps[i].hunks) {
      assert ps[i] in ps;
      assert doc[i].patch == Patches(doc)[i] == Inverse(ps[i]);
      InvertedHunksKept(ps[i].hunks, 0);
    }
    if forall p | p in ps :: NoDashAdded(p.hunks) {
      forall s | s in doc ensures KeepsHunks(s.patch.hunks) {
        var i :| 0 <= i < |doc| && doc[i] == s;
        assert ps[i] in ps;
      }
    }
    if forall s | s in doc :: KeepsHunks(s.patch.hunks) {
      forall p | p in ps ensures NoDashAdded(p.hunks) {
        var i :| 0 <= i < |ps| && ps[i] == p;
        assert doc[i] in doc;
      }
    }
  }

  /** The part of being readable that depends on how a section is printed. */
  predicate WellPrinted(s: Section) {
    HeadersKept(s.patch, s.names) && Behind(s.patch.hunks, s.noise)
  }

  lemma {:induction false} PatchesAt(doc: seq<Section>)
    ensures forall i | 0 <= i < |doc| :: Patches(doc)[i] == doc[i].patch
    decreases |doc|
  {
    if doc != [] { PatchesAt(doc[1..]); }
  }

  /** Where the printed inverse reads back, applying it gives the tree back exactly when
      every section was undoable. */
  lemma PrintedUndoRestores(tree: Tree, safe: SafePath, ps: seq<FilePatch>, after: Tree, leading: seq<string>,
                            doc: seq<Section>)
    requires Plannable(tree, safe, ps) && Committed(tree, PlanAll(tree, safe, ps).value, after)
    requires doc != [] && (forall s | s in doc :: WellFormed(s)) && Patches(doc) == InvertAll(ps)
    requires NoHeader(leading) && Unbroken(leading + Lines(doc)) && forall s | s in doc :: WellPrinted(s)
    requires forall p | p in ps :: KeepsHunks(p.hunks) && NoDashAdded(p.hunks)
    ensures var undo := ParsedPatch(Join(leading + Lines(doc)) + "\n");
      && undo.Ok?
      && (PlanAll(after, safe, undo.value).Ok? && Committed(after, PlanAll(after, safe, undo.value).value, tree)
          <==> forall p | p in ps :: Undoable(tree, safe, p))
  {
    hide Lines, WellFormed, KeepsHunks, NoDashAdded, ParsedPatch, Undoable, Plannable, PlanAll, Committed, InvertAll,
      Join, WellPrinted, NoHeader;
    UndoReadsBack(ps, leading, doc);
    InverseRestoresTree(tree, safe, ps, after);
  }
}
