/** The `ast.rename_symbol` tool over a whole repository: every file is planned before
    any is written (src/limpiador/tools/ast_tools.py, `AstRenameSymbol.run`).
    `_resolve` is an arbitrary function from a path to the file it denotes, or None
    when there is no such file. */
module RenameTool {
  import opened Text
  import opened Sorting
  import opened Rename

  type File = string
  type Tree = map<File, string>

  datatype Failure = NoSuchFile(path: string) | LineOutside(path: string)

  datatype RenameResult = RenameResult(sitesChanged: nat, filesChanged: seq<string>)

  function RefsTo(refs: seq<Reference>, file: string): (r: seq<Reference>)
    ensures forall x :: x in r <==> x in refs && x.file == file
  {
    if refs == [] then []
    else RefsTo(refs[..|refs| - 1], file) + (if refs[|refs| - 1].file == file then [refs[|refs| - 1]] else [])
  }

  /** The file names of the references, in order of first mention. */
  function Named(refs: seq<Reference>): (r: seq<string>)
    ensures Distinct(r)
    ensures forall f :: f in r <==> exists x | x in refs :: x.file == f
  {
    if refs == [] then []
    else
      var front, x := refs[..|refs| - 1], refs[|refs| - 1];
      assert refs == front + [x];
      assert forall y :: y in refs <==> y in front || y == x;
      if x.file in Named(front) then Named(front) else Named(front) + [x.file]
  }

  /** The groups `by_file` holds after the grouping loop. */
  ghost predicate Grouped(groups: map<string, seq<Reference>>, refs: seq<Reference>) {
    && (forall f :: f in groups <==> f in Named(refs))
    && (forall f | f in groups :: groups[f] == RefsTo(refs, f))
  }

  method GroupByFile(refs: seq<Reference>) returns (groups: map<string, seq<Reference>>, names: seq<string>)
    ensures Grouped(groups, refs) && names == Named(refs)
  {
    hide Grouped, RefsTo;
    groups, names := map[], [];
    NothingGrouped(refs);
    for i := 0 to |refs|
      invariant Grouped(groups, refs[..i]) && names == Named(refs[..i])
    {
      var x := refs[i];
      GroupOneMore(groups, refs, i);
      ghost var before := groups;
      if x.file !in groups {
        groups := groups[x.file := []];
        names := names + [x.file];
      }
      groups := groups[x.file := groups[x.file] + [x]];
      assert groups == before[x.file := (if x.file in before then before[x.file] else []) + [x]];
    }
    assert refs[..|refs|] == refs;
  }

  lemma NothingGrouped(refs: seq<Reference>)
    ensures Grouped(map[], refs[..0]) && Named(refs[..0]) == []
  {
  }

  lemma GroupOneMore(groups: map<string, seq<Reference>>, refs: seq<Reference>, i: nat)
    requires i < |refs| && Grouped(groups, refs[..i])
    ensures var f := refs[i].file;
      && Named(refs[..i + 1]) == (if f in groups then Named(refs[..i]) else Named(refs[..i]) + [f])
      && Grouped(groups[f := (if f in groups then groups[f] else []) + [refs[i]]], refs[..i + 1])
  {
    hide RefsTo, Named;
    NamedGrows(refs, i);
    forall f { RefsToGrows(refs, i, f); }
    if refs[i].file !in groups { NoRefsTo(refs[..i], refs[i].file); }
  }

  lemma NamedGrows(refs: seq<Reference>, i: nat)
    requires i < |refs|
    ensures Named(refs[..i + 1])
      == if refs[i].file in Named(refs[..i]) then Named(refs[..i]) else Named(refs[..i]) + [refs[i].file]
  {
    assert refs[..i + 1][..i] == refs[..i];
  }

  lemma RefsToGrows(refs: seq<Reference>, i: nat, file: string)
    requires i < |refs|
    ensures RefsTo(refs[..i + 1], file) == RefsTo(refs[..i], file) + if refs[i].file == file then [refs[i]] else []
  {
    assert refs[..i + 1][..i] == refs[..i];
  }

  lemma NoRefsTo(refs: seq<Reference>, file: string)
    requires file !in Named(refs)
    ensures RefsTo(refs, file) == []
  {
    forall x ensures x !in RefsTo(refs, file) {
    }
  }

  // ---- planning and writing ------------------------------------------------------------

  /** One named file can be planned. */
  ghost predicate Plannable(tree: Tree, resolve: string -> Option<File>, refs: seq<Reference>, name: string) {
    && resolve(name).Some? && resolve(name).value in tree
    && InRange(Split(tree[resolve(name).value]), RefsTo(refs, name))
  }

  /** The refusal names the first file, in order of first mention, that cannot be planned. */
  ghost predicate FirstRefused(tree: Tree, resolve: string -> Option<File>, refs: seq<Reference>, names: seq<string>,
                               e: Failure) {
    exists i :: 0 <= i < |names| && !Plannable(tree, resolve, refs, names[i])
      && (forall j | 0 <= j < i :: Plannable(tree, resolve, refs, names[j]))
      && e == if resolve(names[i]).Some? && resolve(names[i]).value in tree then LineOutside(names[i])
              else NoSuchFile(names[i])
  }

  /** `text` is the file's text with the named sites renamed. */
  ghost predicate RenamedText(before: string, refs: seq<Reference>, old_: string, new_: string, text: string) {
    exists lines :: Renamed(Split(before), refs, old_, new_, lines) && text == Join(lines)
  }

  /** The file is written from the references under `name`. */
  ghost predicate WrittenAs(tree: Tree, resolve: string -> Option<File>, refs: seq<Reference>, name: string,
                            old_: string, new_: string, text: string) {
    && resolve(name).Some? && resolve(name).value in tree
    && RenamedText(tree[resolve(name).value], RefsTo(refs, name), old_, new_, text)
  }

  /** The last of `names` that denotes file `f`. */
  function LastName(names: seq<string>, resolve: string -> Option<File>, f: File): (r: Option<string>)
    ensures r.Some? ==> r.value in names && resolve(r.value) == Some(f)
    ensures r.None? ==> forall name | name in names :: resolve(name) != Some(f)
  {
    if names == [] then None
    else if resolve(names[|names| - 1]) == Some(f) then Some(names[|names| - 1])
    else LastName(names[..|names| - 1], resolve, f)
  }

  /** `planned` holds the outcome of every file denoted by `names`, and no other. */
  ghost predicate PlannedFor(tree: Tree, resolve: string -> Option<File>, refs: seq<Reference>, names: seq<string>,
                             old_: string, new_: string, planned: map<File, string>) {
    && (forall f :: f in planned <==> LastName(names, resolve, f).Some?)
    && (forall f | f in planned :: WrittenAs(tree, resolve, refs, LastName(names, resolve, f).value, old_, new_, planned[f]))
  }

  /** The planned files are overwritten and every other file is as before. */
  ghost predicate RenamedTree(before: Tree, resolve: string -> Option<File>, refs: seq<Reference>, old_: string,
                              new_: string, after: Tree) {
    exists planned ::
      PlannedFor(before, resolve, refs, Named(refs), old_, new_, planned) && after == before + planned
  }

  class Repository {
    const resolve: string -> Option<File>
    var files: Tree

    constructor (resolve: string -> Option<File>, files: Tree)
      ensures this.resolve == resolve && this.files == files
    {
      this.resolve := resolve;
      this.files := files;
    }

    /** Either every named file is planned and written, or no file changes. */
    method RenameSymbol(refs: seq<Reference>, old_: string, new_: string) returns (r: Result<RenameResult, Failure>)
      modifies this`files
      ensures r.Ok? <==> forall name | name in Named(refs) :: Plannable(old(files), resolve, refs, name)
      ensures r.Err? ==> files == old(files) && FirstRefused(files, resolve, refs, Named(refs), r.error)
      ensures r.Ok? ==> r.value.sitesChanged == |refs|
      ensures r.Ok? ==> Ascending(r.value.filesChanged) && multiset(r.value.filesChanged) == multiset(Named(refs))
      ensures r.Ok? ==> files.Keys == old(files).Keys
      ensures r.Ok? ==> RenamedTree(old(files), resolve, refs, old_, new_, files)
    {
      var groups, names := GroupByFile(refs);
      var planned := PlanRename(refs, groups, names, old_, new_);
      if planned.Err? {
        return Err(planned.error);
      }
      PlannedExist(files, resolve, refs, names, old_, new_, planned.value);
      files := files + planned.value;
      StringLeOrder();
      var changed := SortBy(names, StringLe);
      DistinctKept(names, changed);
      AscendingIs(changed);
      r := Ok(RenameResult(|refs|, changed));
    }

    /** The planning loop. */
    method PlanRename(refs: seq<Reference>, groups: map<string, seq<Reference>>, names: seq<string>, old_: string,
                      new_: string) returns (r: Result<map<File, string>, Failure>)
      requires Grouped(groups, refs) && names == Named(refs)
      ensures r.Ok? <==> forall name | name in names :: Plannable(files, resolve, refs, name)
      ensures r.Err? ==> FirstRefused(files, resolve, refs, names, r.error)
      ensures r.Ok? ==> PlannedFor(files, resolve, refs, names, old_, new_, r.value)
    {
      hide Renamed, PlannedFor, Join, Split, InRange, RefsTo, Named, Distinct;
      var planned: map<File, string> := map[];
      NothingPlanned(files, resolve, refs, names, old_, new_);
      for i := 0 to |names|
        invariant forall j | 0 <= j < i :: Plannable(files, resolve, refs, names[j])
        invariant PlannedFor(files, resolve, refs, names[..i], old_, new_, planned)
      {
        var name := names[i];
        assert name in names && groups[name] == RefsTo(refs, name);
        var target := resolve(name);
        if target.None? || target.value !in files {
          assert !Plannable(files, resolve, refs, name);
          return Err(NoSuchFile(name));
        }
        var lines := RenameLines(Split(files[target.value]), groups[name], old_, new_);
        if lines.None? {
          assert !Plannable(files, resolve, refs, name);
          return Err(LineOutside(name));
        }
        var text := Join(lines.value);
        assert WrittenAs(files, resolve, refs, name, old_, new_, text);
        PlanOneMore(files, resolve, refs, names, i, old_, new_, planned, text);
        planned := planned[target.value := text];
      }
      assert names[..|names|] == names;
      r := Ok(planned);
    }
  }

  lemma NothingPlanned(tree: Tree, resolve: string -> Option<File>, refs: seq<Reference>, names: seq<string>,
                       old_: string, new_: string)
    ensures PlannedFor(tree, resolve, refs, names[..0], old_, new_, map[])
  {
  }

  lemma PlanOneMore(tree: Tree, resolve: string -> Option<File>, refs: seq<Reference>, names: seq<string>, i: nat,
                    old_: string, new_: string, planned: map<File, string>, text: string)
    requires i < |names| && PlannedFor(tree, resolve, refs, names[..i], old_, new_, planned)
    requires resolve(names[i]).Some? && WrittenAs(tree, resolve, refs, names[i], old_, new_, text)
    ensures PlannedFor(tree, resolve, refs, names[..i + 1], old_, new_, planned[resolve(names[i]).value := text])
  {
    hide WrittenAs, LastName;
    forall f { LastNameGrows(names, i, resolve, f); }
  }

  lemma LastNameGrows(names: seq<string>, i: nat, resolve: string -> Option<File>, f: File)
    requires i < |names|
    ensures LastName(names[..i + 1], resolve, f)
      == if resolve(names[i]) == Some(f) then Some(names[i]) else LastName(names[..i], resolve, f)
  {
    assert names[..i + 1][..i] == names[..i];
  }

  lemma PlannedExist(tree: Tree, resolve: string -> Option<File>, refs: seq<Reference>, names: seq<string>,
                     old_: string, new_: string, planned: map<File, string>)
    requires PlannedFor(tree, resolve, refs, names, old_, new_, planned)
    ensures planned.Keys <= tree.Keys
  {
    forall f | f in planned ensures f in tree {
      assert WrittenAs(tree, resolve, refs, LastName(names, resolve, f).value, old_, new_, planned[f]);
    }
  }

  /** When no two names denote the same file, every named file gets all its sites:
      its text is its lines with each site substituted in one pass. */
  lemma EachFileRenamed(tree: Tree, resolve: string -> Option<File>, refs: seq<Reference>, old_: string, new_: string,
                        planned: map<File, string>, name: string)
    requires PlannedFor(tree, resolve, refs, Named(refs), old_, new_, planned)
    requires name in Named(refs) && resolve(name).Some?
    requires forall other | other in Named(refs) && other != name :: resolve(other) != resolve(name)
    ensures resolve(name).value in planned
    ensures WrittenAs(tree, resolve, refs, name, old_, new_, planned[resolve(name).value])
  {
    var names, f := Named(refs), resolve(name).value;
    assert LastName(names, resolve, f) == Some(name);
  }
}
