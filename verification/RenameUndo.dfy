/** Renaming back over a whole repository, at the references where the new names stand. */
module RenameUndo {
  import opened Text
  import opened Rename
  import opened RenameTool

  // ---- one file -------------------------------------------------------------------------

  /** Every site of the file holds the old name. */
  ghost predicate AllHold(lines: seq<string>, refs: seq<Reference>, old_: string)
    requires AllApart(lines, refs, |old_|)
  {
    forall i | 0 <= i < |lines| :: SitesHold(lines[i], SitesOn(refs, i + 1), old_, 0)
  }

  /** On each line of the file `refs'` names the sites of `refs`, as the names before them
      have moved them. */
  ghost predicate AtMovedSites(refs: seq<Reference>, refs': seq<Reference>, width: nat, newWidth: nat) {
    forall line: int :: Sites(Moved(SitesOn(refs, line), width, newWidth, 0), SitesOn(refs', line))
  }

  lemma LinesBack(lines: seq<string>, refs: seq<Reference>, refs': seq<Reference>, old_: string, new_: string,
                  there: seq<string>, back: seq<string>)
    requires AllApart(lines, refs, |old_|) && AtMovedSites(refs, refs', |old_|, |new_|)
    requires Renamed(lines, refs, old_, new_, there) && Renamed(there, refs', new_, old_, back)
    ensures back == lines <==> AllHold(lines, refs, old_)
  {
    hide SitesOn, Moved, Sites, SitesHold, RightToLeft;
    forall i | 0 <= i < |lines|
      ensures back[i] == lines[i] <==> SitesHold(lines[i], SitesOn(refs, i + 1), old_, 0)
    {
      RenameBack(lines[i], SitesOn(refs, i + 1), SitesOn(refs', i + 1), old_, new_);
    }
  }

  lemma FileBack(text: string, refs: seq<Reference>, refs': seq<Reference>, old_: string, new_: string,
                 there: string, back: string)
    requires '\n' !in old_ && '\n' !in new_
    requires AllApart(Split(text), refs, |old_|) && AtMovedSites(refs, refs', |old_|, |new_|)
    requires RenamedText(text, refs, old_, new_, there) && RenamedText(there, refs', new_, old_, back)
    ensures back == text <==> AllHold(Split(text), refs, old_)
  {
    hide Split, Join, Renamed, AllApart, AllHold, AtMovedSites, Unbroken;
    JoinSplit(text);
    var lines :| Renamed(Split(text), refs, old_, new_, lines) && there == Join(lines);
    SameCount(Split(text), refs, old_, new_, lines);
    UnbrokenLines(Split(text), refs, old_, new_, lines);
    SplitJoin(lines);
    var again :| Renamed(lines, refs', new_, old_, again) && back == Join(again);
    SameCount(lines, refs', new_, old_, again);
    UnbrokenLines(lines, refs', new_, old_, again);
    SplitJoin(again);
    LinesBack(Split(text), refs, refs', old_, new_, lines, again);
  }

  // ---- what a rename leaves in each file ----------------------------------------------------

  /** No two of the names denote one file. */
  ghost predicate OwnFiles(resolve: string -> Option<File>, names: seq<string>) {
    forall a, b | a in names && b in names && a != b :: resolve(a) != resolve(b)
  }

  lemma NamedFile(tree: Tree, resolve: string -> Option<File>, refs: seq<Reference>, old_: string, new_: string,
                  after: Tree, name: string)
    requires RenamedTree(tree, resolve, refs, old_, new_, after) && OwnFiles(resolve, Named(refs))
    requires name in Named(refs) && resolve(name).Some?
    ensures var f := resolve(name).value;
      f in tree && f in after && RenamedText(tree[f], RefsTo(refs, name), old_, new_, after[f])
  {
    hide Named, PlannedFor, RefsTo, RenamedText;
    var planned :| PlannedFor(tree, resolve, refs, Named(refs), old_, new_, planned) && after == tree + planned;
    EachFileRenamed(tree, resolve, refs, old_, new_, planned, name);
  }

  lemma OtherFile(tree: Tree, resolve: string -> Option<File>, refs: seq<Reference>, old_: string, new_: string,
                  after: Tree, f: File)
    requires RenamedTree(tree, resolve, refs, old_, new_, after)
    requires forall name | name in Named(refs) :: resolve(name) != Some(f)
    ensures f in after <==> f in tree
    ensures f in tree ==> after[f] == tree[f]
  {
    hide Named, RefsTo, WrittenAs;
    var planned :| PlannedFor(tree, resolve, refs, Named(refs), old_, new_, planned) && after == tree + planned;
    assert f !in planned;
  }

  // ---- the references back --------------------------------------------------------------------

  /** Every file has its sites at the moved columns. */
  ghost predicate MovedBack(refs: seq<Reference>, refs': seq<Reference>, width: nat, newWidth: nat) {
    forall name: string :: AtMovedSites(RefsTo(refs, name), RefsTo(refs', name), width, newWidth)
  }

  lemma OnLine(refs: seq<Reference>, line: int)
    ensures SitesOn(refs, line) != [] <==> exists r :: r in refs && r.line == line
  {
    hide SitesOn;
    if forall r | r in refs :: r.line != line {
      NoColumns(refs, line);
    } else {
      var r :| r in refs && r.line == line;
      SiteOn(refs, r);
    }
  }

  lemma SiteOn(refs: seq<Reference>, r: Reference)
    requires r in refs
    ensures SitesOn(refs, r.line) != []
  {
    hide ColumnsOn;
    var k :| 0 <= k < |refs| && refs[k] == r;
    ColumnsWithout(refs, k, r.line);
    assert Column(r) in multiset(ColumnsOn(refs, r.line));
    AfterOrder();
    assert multiset(SitesOn(refs, r.line)) == multiset(ColumnsOn(refs, r.line));
  }

  lemma SameLines(refs: seq<Reference>, refs': seq<Reference>, width: nat, newWidth: nat, r: Reference)
    requires AtMovedSites(refs, refs', width, newWidth) && (r in refs || r in refs')
    ensures exists x :: x in refs && x.line == r.line
    ensures exists x :: x in refs' && x.line == r.line
  {
    hide SitesOn;
    OnLine(refs, r.line);
    OnLine(refs', r.line);
    assert Sites(Moved(SitesOn(refs, r.line), width, newWidth, 0), SitesOn(refs', r.line));
  }

  lemma SameNames(refs: seq<Reference>, refs': seq<Reference>, width: nat, newWidth: nat)
    requires MovedBack(refs, refs', width, newWidth)
    ensures forall name :: name in Named(refs) <==> name in Named(refs')
  {
    hide AtMovedSites, Named;
    forall name ensures name in Named(refs) <==> name in Named(refs') {
      assert AtMovedSites(RefsTo(refs, name), RefsTo(refs', name), width, newWidth);
      if name in Named(refs) {
        var r :| r in refs && r.file == name;
        SameLines(RefsTo(refs, name), RefsTo(refs', name), width, newWidth, r);
      }
      if name in Named(refs') {
        var r :| r in refs' && r.file == name;
        SameLines(RefsTo(refs, name), RefsTo(refs', name), width, newWidth, r);
      }
    }
  }

  // ---- the whole repository ---------------------------------------------------------------------

  /** A rename that can be planned, over files with one name each, with sites that lie apart. */
  ghost predicate Clear(tree: Tree, resolve: string -> Option<File>, refs: seq<Reference>, width: nat) {
    && OwnFiles(resolve, Named(refs))
    && forall name | name in Named(refs) ::
         Plannable(tree, resolve, refs, name)
         && AllApart(Split(tree[resolve(name).value]), RefsTo(refs, name), width)
  }

  ghost predicate EverySiteHolds(tree: Tree, resolve: string -> Option<File>, refs: seq<Reference>, old_: string)
    requires Clear(tree, resolve, refs, |old_|)
  {
    forall name | name in Named(refs) :: AllHold(Split(tree[resolve(name).value]), RefsTo(refs, name), old_)
  }

  /** The way back can be planned in the renamed repository. */
  lemma BackIsPlannable(tree: Tree, resolve: string -> Option<File>, refs: seq<Reference>, refs': seq<Reference>,
                        old_: string, new_: string, after: Tree, name: string)
    requires '\n' !in new_ && Clear(tree, resolve, refs, |old_|) && MovedBack(refs, refs', |old_|, |new_|)
    requires RenamedTree(tree, resolve, refs, old_, new_, after) && name in Named(refs')
    ensures Plannable(after, resolve, refs', name)
  {
    hide AtMovedSites, Named, RenamedTree, AllApart, Split, Join, Renamed, Unbroken, RefsTo, OwnFiles;
    SameNames(refs, refs', |old_|, |new_|);
    NamedFile(tree, resolve, refs, old_, new_, after, name);
    var f := resolve(name).value;
    JoinSplit(tree[f]);
    var lines :| Renamed(Split(tree[f]), RefsTo(refs, name), old_, new_, lines) && after[f] == Join(lines);
    SameCount(Split(tree[f]), RefsTo(refs, name), old_, new_, lines);
    UnbrokenLines(Split(tree[f]), RefsTo(refs, name), old_, new_, lines);
    SplitJoin(lines);
    assert AtMovedSites(RefsTo(refs, name), RefsTo(refs', name), |old_|, |new_|);
    forall r | r in RefsTo(refs', name) ensures 1 <= r.line <= |lines| {
      SameLines(RefsTo(refs, name), RefsTo(refs', name), |old_|, |new_|, r);
    }
  }

  /** Renaming and renaming back at the moved references gives back the whole repository
      exactly when every site held the old name. */
  lemma RenameBackRestores(tree: Tree, resolve: string -> Option<File>, refs: seq<Reference>, refs': seq<Reference>,
                           old_: string, new_: string, after: Tree, back: Tree)
    requires '\n' !in old_ && '\n' !in new_
    requires Clear(tree, resolve, refs, |old_|) && MovedBack(refs, refs', |old_|, |new_|)
    requires RenamedTree(tree, resolve, refs, old_, new_, after)
    requires RenamedTree(after, resolve, refs', new_, old_, back)
    ensures back == tree <==> EverySiteHolds(tree, resolve, refs, old_)
  {
    hide AtMovedSites, Named, RenamedTree, AllApart, Split, RefsTo, AllHold, RenamedText;
    SameNames(refs, refs', |old_|, |new_|);
    forall name | name in Named(refs)
      ensures var f := resolve(name).value;
        f in back && (back[f] == tree[f] <==> AllHold(Split(tree[f]), RefsTo(refs, name), old_))
    {
      var f := resolve(name).value;
      NamedFile(tree, resolve, refs, old_, new_, after, name);
      NamedFile(after, resolve, refs', new_, old_, back, name);
      assert AtMovedSites(RefsTo(refs, name), RefsTo(refs', name), |old_|, |new_|);
      FileBack(tree[f], RefsTo(refs, name), RefsTo(refs', name), old_, new_, after[f], back[f]);
    }
    forall f | forall name | name in Named(refs) :: resolve(name) != Some(f)
      ensures (f in back <==> f in tree) && (f in tree ==> back[f] == tree[f])
    {
      OtherFile(tree, resolve, refs, old_, new_, after, f);
      OtherFile(after, resolve, refs', new_, old_, back, f);
    }
    if EverySiteHolds(tree, resolve, refs, old_) {
      forall f ensures (f in back <==> f in tree) && (f in tree ==> back[f] == tree[f]) {
      }
      assert back == tree;
    }
  }
}
