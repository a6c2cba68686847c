/** A file that a rename names in several spellings: the plan keeps one text per file, so the
    references of the last spelling are all that is written
    (src/limpiador/tools/ast_tools.py:580-601). */
module RenameSpellings {
  import opened Text
  import opened Sorting
  import opened Rename
  import opened RenameTool

  // ---- one line: which sites may be left out ------------------------------------------------

  /** `cs` leaves out no site of `ds` but one that holds the new text at the old width. */
  ghost predicate LosesNothing(line: string, ds: seq<nat>, cs: seq<nat>, width: nat, text: string) {
    forall d | d in multiset(ds) - multiset(cs) ::
      |text| == width && d + width <= |line| && line[d..d + width] == text
  }

  lemma {:induction false} SubstituteLength(line: string, cs: seq<nat>, width: nat, text: string, from: nat)
    requires Apart(line, cs, width, from)
    ensures from <= |line|
    ensures |Substitute(line, cs, width, text, from)| == |line| - from + |cs| * (|text| - width)
    decreases |cs|
  {
    hide Substitute;
    ApartInside(line, cs, width, from);
    SubstituteHead(line, cs, width, text, from);
    if cs != [] {
      SubstituteLength(line, cs[1..], width, text, cs[0] + width);
      var d, n := |text| - width, |cs| - 1;
      assert (n + 1) * d == n * d + d;
    }
  }

  lemma {:induction false} ApartSome(line: string, ds: seq<nat>, cs: seq<nat>, width: nat, from: nat)
    requires Apart(line, ds, width, from) && Sorted(ds, Leq) && Sorted(cs, Leq) && multiset(cs) <= multiset(ds)
    ensures Apart(line, cs, width, from)
    decreases |ds|
  {
    ApartInside(line, ds, width, from);
    if ds == [] {
      NoneOfNone(cs);
    } else {
      FirstSite(ds, cs);
      if cs != [] && cs[0] == ds[0] {
        ApartSome(line, ds[1..], cs[1..], width, ds[0] + width);
      } else {
        ApartSome(line, ds[1..], cs, width, ds[0] + width);
        ApartEarlier(line, cs, width, from, ds[0] + width);
      }
    }
  }

  lemma ApartEarlier(line: string, cs: seq<nat>, width: nat, from: nat, to: nat)
    requires from <= to && Apart(line, cs, width, to)
    ensures Apart(line, cs, width, from)
  {
  }

  lemma NoneOfNone(cs: seq<nat>)
    requires multiset(cs) <= multiset([])
    ensures cs == []
  {
    assert |cs| == |multiset(cs)| && multiset(cs) == multiset{};
  }

  /** The first of the sites is the first of those kept, or is left out. */
  lemma FirstSite(ds: seq<nat>, cs: seq<nat>)
    requires ds != [] && Sorted(ds, Leq) && Sorted(cs, Leq) && multiset(cs) <= multiset(ds)
    ensures Sorted(ds[1..], Leq) && (cs != [] ==> Sorted(cs[1..], Leq))
    ensures cs != [] && cs[0] == ds[0] ==>
      && multiset(cs[1..]) <= multiset(ds[1..])
      && multiset(ds) - multiset(cs) == multiset(ds[1..]) - multiset(cs[1..])
    ensures cs == [] || cs[0] != ds[0] ==>
      && multiset(cs) <= multiset(ds[1..])
      && multiset(ds) - multiset(cs) == multiset{ds[0]} + (multiset(ds[1..]) - multiset(cs))
  {
    hide Sorted;
    SortedTail(ds);
    WithFirst(ds);
    if cs == [] {
      TakeOther(ds[0], multiset(ds[1..]), multiset(cs));
    } else {
      SortedTail(cs);
      WithFirst(cs);
      if cs[0] == ds[0] {
        TakeSame(ds[0], multiset(ds[1..]), multiset(cs[1..]));
      } else {
        LaterOnly(ds, cs);
        TakeOther(ds[0], multiset(ds[1..]), multiset(cs));
      }
    }
  }

  lemma SortedTail(ds: seq<nat>)
    requires ds != [] && Sorted(ds, Leq)
    ensures Sorted(ds[1..], Leq)
  {
    forall i, j | 0 <= i < j < |ds| - 1 ensures Leq(ds[1..][i], ds[1..][j]) {
      assert Leq(ds[i + 1], ds[j + 1]);
    }
  }

  lemma WithFirst(ds: seq<nat>)
    requires ds != []
    ensures multiset(ds) == multiset{ds[0]} + multiset(ds[1..])
  {
    assert ds == [ds[0]] + ds[1..];
  }

  lemma TakeSame(d: nat, ds: multiset<nat>, cs: multiset<nat>)
    requires multiset{d} + cs <= multiset{d} + ds
    ensures cs <= ds && (multiset{d} + ds) - (multiset{d} + cs) == ds - cs
  {
    forall x ensures cs[x] <= ds[x] {
      assert (multiset{d} + cs)[x] <= (multiset{d} + ds)[x];
    }
  }

  lemma TakeOther(d: nat, ds: multiset<nat>, cs: multiset<nat>)
    requires cs <= multiset{d} + ds && d !in cs
    ensures cs <= ds && (multiset{d} + ds) - cs == multiset{d} + (ds - cs)
  {
    forall x ensures cs[x] <= ds[x] {
      assert cs[x] <= (multiset{d} + ds)[x];
    }
  }

  lemma LaterOnly(ds: seq<nat>, cs: seq<nat>)
    requires ds != [] && cs != [] && ds[0] != cs[0]
    requires Sorted(ds, Leq) && Sorted(cs, Leq) && multiset(cs) <= multiset(ds)
    ensures ds[0] !in multiset(cs)
  {
    assert cs[0] in multiset(ds);
    var j :| 0 <= j < |ds| && ds[j] == cs[0];
    assert Leq(ds[0], ds[j]);
    forall k | 0 <= k < |cs| ensures cs[k] != ds[0] {
      if k > 0 { assert Leq(cs[0], cs[k]); }
    }
  }

  /** Sites of the old width: leaving some out shows exactly when one of them did not hold
      the new text. */
  lemma {:induction false} LeavingOut(line: string, ds: seq<nat>, cs: seq<nat>, text: string, from: nat)
    requires Apart(line, ds, |text|, from) && Apart(line, cs, |text|, from)
    requires Sorted(ds, Leq) && Sorted(cs, Leq) && multiset(cs) <= multiset(ds)
    ensures Substitute(line, ds, |text|, text, from) == Substitute(line, cs, |text|, text, from)
      <==> LosesNothing(line, ds, cs, |text|, text)
    decreases |ds|
  {
    hide Substitute, LosesNothing, Apart, Sorted, Leq;
    var w := |text|;
    if ds == [] {
      NoneOfNone(cs);
      NothingLost(line, w, text);
    } else {
      var d := ds[0];
      FirstSite(ds, cs);
      ApartTail(line, ds, w, from);
      if cs != [] && cs[0] == d {
        ApartTail(line, cs, w, from);
        LeavingOut(line, ds[1..], cs[1..], text, d + w);
        KeptHead(line, ds, cs, text, from);
        SameLost(line, ds, cs, ds[1..], cs[1..], w, text);
      } else {
        ApartSome(line, ds[1..], cs, w, d + w);
        LeavingOut(line, ds[1..], cs, text, d + w);
        LeftHead(line, ds, cs, text, from);
        FirstLost(line, ds, cs, w, text);
      }
    }
  }

  lemma KeptHead(line: string, ds: seq<nat>, cs: seq<nat>, text: string, from: nat)
    requires Apart(line, ds, |text|, from) && Apart(line, cs, |text|, from)
    requires ds != [] && cs != [] && ds[0] == cs[0]
    ensures var w, end := |text|, ds[0] + |text|;
      && Apart(line, ds[1..], w, end) && Apart(line, cs[1..], w, end)
      && (Substitute(line, ds, w, text, from) == Substitute(line, cs, w, text, from)
          <==> Substitute(line, ds[1..], w, text, end) == Substitute(line, cs[1..], w, text, end))
  {
    hide Substitute, Apart;
    var w, d := |text|, ds[0];
    ApartInside(line, ds, w, from);
    ApartTail(line, ds, w, from);
    ApartTail(line, cs, w, from);
    SubstituteHead(line, ds, w, text, from);
    SubstituteHead(line, cs, w, text, from);
    SplitEqual(line[from..d], text, Substitute(line, ds[1..], w, text, d + w),
               text, Substitute(line, cs[1..], w, text, d + w));
  }

  lemma LeftHead(line: string, ds: seq<nat>, cs: seq<nat>, text: string, from: nat)
    requires ds != [] && Apart(line, ds, |text|, from) && Apart(line, cs, |text|, ds[0] + |text|)
    ensures var w, end := |text|, ds[0] + |text|;
      && Apart(line, ds[1..], w, end) && Apart(line, cs, w, from) && end <= |line|
      && (Substitute(line, ds, w, text, from) == Substitute(line, cs, w, text, from)
          <==> line[ds[0]..end] == text && Substitute(line, ds[1..], w, text, end) == Substitute(line, cs, w, text, end))
  {
    hide Substitute, Apart;
    var w, d := |text|, ds[0];
    ApartInside(line, ds, w, from);
    ApartTail(line, ds, w, from);
    SubstituteHead(line, ds, w, text, from);
    SubstituteCopies(line, cs, w, text, from, d + w);
    SliceInTwo(line, from, d, d + w);
    SplitEqual(line[from..d], text, Substitute(line, ds[1..], w, text, d + w),
               line[d..d + w], Substitute(line, cs, w, text, d + w));
  }

  lemma ApartTail(line: string, cs: seq<nat>, width: nat, from: nat)
    requires cs != [] && Apart(line, cs, width, from)
    ensures from <= cs[0] && Apart(line, cs[1..], width, cs[0] + width)
  {
  }

  lemma NothingLost(line: string, width: nat, text: string)
    ensures LosesNothing(line, [], [], width, text)
  {
  }

  lemma SameLost(line: string, ds: seq<nat>, cs: seq<nat>, ds': seq<nat>, cs': seq<nat>, width: nat, text: string)
    requires multiset(ds) - multiset(cs) == multiset(ds') - multiset(cs')
    ensures LosesNothing(line, ds, cs, width, text) <==> LosesNothing(line, ds', cs', width, text)
  {
  }

  lemma FirstLost(line: string, ds: seq<nat>, cs: seq<nat>, width: nat, text: string)
    requires ds != [] && |text| == width && ds[0] + width <= |line|
    requires multiset(ds) - multiset(cs) == multiset{ds[0]} + (multiset(ds[1..]) - multiset(cs))
    ensures LosesNothing(line, ds, cs, width, text)
      <==> line[ds[0]..ds[0] + width] == text && LosesNothing(line, ds[1..], cs, width, text)
  {
    var lost, more := multiset(ds) - multiset(cs), multiset(ds[1..]) - multiset(cs);
    assert forall d :: d in lost <==> d == ds[0] || d in more;
    if LosesNothing(line, ds, cs, width, text) {
      assert ds[0] in multiset(ds) - multiset(cs);
      assert forall d | d in more :: d in multiset(ds) - multiset(cs);
    }
  }

  /** For any widths. */
  lemma SomeSitesEnough(line: string, ds: seq<nat>, cs: seq<nat>, width: nat, text: string)
    requires Apart(line, ds, width, 0) && Sorted(ds, Leq) && Sorted(cs, Leq) && multiset(cs) <= multiset(ds)
    ensures Apart(line, cs, width, 0)
    ensures Substitute(line, ds, width, text, 0) == Substitute(line, cs, width, text, 0)
      <==> LosesNothing(line, ds, cs, width, text)
  {
    hide Substitute, Apart, Sorted;
    ApartSome(line, ds, cs, width, 0);
    if |text| == width {
      LeavingOut(line, ds, cs, text, 0);
    } else {
      SubstituteLength(line, ds, width, text, 0);
      SubstituteLength(line, cs, width, text, 0);
      OtherCount(ds, cs);
      if |ds| != |cs| { DifferentTotals(|ds|, |cs|, |text| - width); }
    }
  }

  lemma {:induction false} TotalGrows(a: nat, b: nat, d: int)
    requires a < b && d > 0
    ensures a * d < b * d
    decreases b
  {
    if a + 1 < b { TotalGrows(a, b - 1, d); }
    assert b * d == (b - 1) * d + d;
  }

  lemma DifferentTotals(a: nat, b: nat, d: int)
    requires a != b && d != 0
    ensures a * d != b * d
    decreases a
  {
    if a > b {
      DifferentTotals(b, a, d);
    } else if d > 0 {
      TotalGrows(a, b, d);
    } else {
      TotalGrows(a, b, -d);
      assert a * -d == -(a * d) && b * -d == -(b * d);
    }
  }

  lemma OtherCount(ds: seq<nat>, cs: seq<nat>)
    requires Sorted(ds, Leq) && Sorted(cs, Leq) && multiset(cs) <= multiset(ds)
    ensures |ds| == |cs| ==> ds == cs && multiset(ds) - multiset(cs) == multiset{}
    ensures |ds| != |cs| ==> exists d :: d in multiset(ds) - multiset(cs)
  {
    var lost := multiset(ds) - multiset(cs);
    assert multiset(ds) == multiset(cs) + lost;
    assert |multiset(ds)| == |multiset(cs)| + |lost|;
    if |ds| == |cs| {
      assert lost == multiset{};
      AfterOrder();
      SortedUnique(ds, cs, Leq);
    } else {
      assert |lost| > 0;
    }
  }

  // ---- all spellings of a file ---------------------------------------------------------------

  /** The references whose name denotes `f`, whatever its spelling. */
  function SpelledRefs(refs: seq<Reference>, resolve: string -> Option<File>, f: File): seq<Reference> {
    if refs == [] then []
    else
      SpelledRefs(refs[..|refs| - 1], resolve, f)
      + if resolve(refs[|refs| - 1].file) == Some(f) then [refs[|refs| - 1]] else []
  }

  lemma {:induction false} OneSpelling(refs: seq<Reference>, resolve: string -> Option<File>, f: File, name: string,
                                       line: int)
    requires resolve(name) == Some(f)
    ensures multiset(ColumnsOn(RefsTo(refs, name), line)) <= multiset(ColumnsOn(SpelledRefs(refs, resolve, f), line))
    decreases |refs|
  {
    hide ColumnsOn;
    if refs != [] {
      var front, r := refs[..|refs| - 1], refs[|refs| - 1];
      OneSpelling(front, resolve, f, name, line);
      ColumnsOnSplit(RefsTo(front, name), if r.file == name then [r] else [], line);
      ColumnsOnSplit(SpelledRefs(front, resolve, f), if resolve(r.file) == Some(f) then [r] else [], line);
      NoColumns([], line);
    } else {
      assert RefsTo(refs, name) == SpelledRefs(refs, resolve, f);
    }
  }

  lemma OneSpellingSites(refs: seq<Reference>, resolve: string -> Option<File>, f: File, name: string, line: int)
    requires resolve(name) == Some(f)
    ensures multiset(SitesOn(RefsTo(refs, name), line)) <= multiset(SitesOn(SpelledRefs(refs, resolve, f), line))
  {
    hide ColumnsOn, RefsTo, SpelledRefs, Sorted;
    AfterOrder();
    OneSpelling(refs, resolve, f, name, line);
  }

  /** A file with every site of every spelling renamed. */
  ghost predicate AllRenamed(tree: Tree, resolve: string -> Option<File>, refs: seq<Reference>, old_: string,
                             new_: string, f: File, text: string) {
    f in tree && RenamedText(tree[f], SpelledRefs(refs, resolve, f), old_, new_, text)
  }

  /** No line loses a site to the last spelling. */
  ghost predicate LastSpellingEnough(lines: seq<string>, all: seq<Reference>, last: seq<Reference>, width: nat,
                                     new_: string) {
    forall i | 0 <= i < |lines| :: LosesNothing(lines[i], SitesOn(all, i + 1), SitesOn(last, i + 1), width, new_)
  }

  lemma LinesAgree(lines: seq<string>, all: seq<Reference>, last: seq<Reference>, old_: string, new_: string,
                   x: seq<string>, y: seq<string>)
    requires AllApart(lines, all, |old_|)
    requires forall line: int :: multiset(SitesOn(last, line)) <= multiset(SitesOn(all, line))
    requires Renamed(lines, all, old_, new_, x) && Renamed(lines, last, old_, new_, y)
    ensures x == y <==> LastSpellingEnough(lines, all, last, |old_|, new_)
  {
    hide RightToLeft, Substitute, LosesNothing, Apart, Sorted;
    AfterOrder();
    forall i | 0 <= i < |lines|
      ensures x[i] == y[i] <==> LosesNothing(lines[i], SitesOn(all, i + 1), SitesOn(last, i + 1), |old_|, new_)
    {
      var ds, cs := SitesOn(all, i + 1), SitesOn(last, i + 1);
      SomeSitesEnough(lines[i], ds, cs, |old_|, new_);
      RightToLeftIsSubstitution(lines[i], ds, old_, new_);
      RightToLeftIsSubstitution(lines[i], cs, old_, new_);
    }
  }

  lemma TextsAgree(before: string, all: seq<Reference>, last: seq<Reference>, old_: string, new_: string,
                   x: string, y: string)
    requires AllApart(Split(before), all, |old_|) && '\n' !in new_
    requires forall line: int :: multiset(SitesOn(last, line)) <= multiset(SitesOn(all, line))
    requires RenamedText(before, all, old_, new_, x) && RenamedText(before, last, old_, new_, y)
    ensures x == y <==> LastSpellingEnough(Split(before), all, last, |old_|, new_)
  {
    hide Split, Join, Renamed, AllApart, LastSpellingEnough, Unbroken, SitesOn;
    JoinSplit(before);
    var xs :| Renamed(Split(before), all, old_, new_, xs) && x == Join(xs);
    var ys :| Renamed(Split(before), last, old_, new_, ys) && y == Join(ys);
    SameCount(Split(before), all, old_, new_, xs);
    SameCount(Split(before), last, old_, new_, ys);
    UnbrokenLines(Split(before), all, old_, new_, xs);
    UnbrokenLines(Split(before), last, old_, new_, ys);
    SplitJoin(xs);
    SplitJoin(ys);
    LinesAgree(Split(before), all, last, old_, new_, xs, ys);
  }

  /** Where the sites of all spellings of a file lie apart, the file gets every one of them
      exactly when each site that the last spelling leaves out already holds the new name. */
  lemma SpellingsRenamed(tree: Tree, resolve: string -> Option<File>, refs: seq<Reference>, old_: string, new_: string,
                         planned: map<File, string>, f: File)
    requires PlannedFor(tree, resolve, refs, Named(refs), old_, new_, planned) && f in planned && f in tree
    requires '\n' !in new_ && AllApart(Split(tree[f]), SpelledRefs(refs, resolve, f), |old_|)
    ensures LastName(Named(refs), resolve, f).Some?
    ensures AllRenamed(tree, resolve, refs, old_, new_, f, planned[f])
      <==> LastSpellingEnough(Split(tree[f]), SpelledRefs(refs, resolve, f),
                              RefsTo(refs, LastName(Named(refs), resolve, f).value), |old_|, new_)
  {
    hide Named, SpelledRefs, RefsTo, RenamedText, AllApart, LastSpellingEnough, Split, LastName, SitesOn;
    var name := LastName(Named(refs), resolve, f).value;
    assert WrittenAs(tree, resolve, refs, name, old_, new_, planned[f]);
    var all, last := SpelledRefs(refs, resolve, f), RefsTo(refs, name);
    assert resolve(name) == Some(f);
    forall line: int ensures multiset(SitesOn(last, line)) <= multiset(SitesOn(all, line)) {
      OneSpellingSites(refs, resolve, f, name, line);
    }
    var whole := SomeText(tree[f], all, old_, new_);
    TextsAgree(tree[f], all, last, old_, new_, whole, planned[f]);
    if RenamedText(tree[f], all, old_, new_, planned[f]) {
      TextsAgree(tree[f], all, last, old_, new_, planned[f], planned[f]);
    }
  }

  lemma SomeText(before: string, refs: seq<Reference>, old_: string, new_: string) returns (text: string)
    ensures RenamedText(before, refs, old_, new_, text)
  {
    hide RightToLeft, SitesOn, Split, Join;
    var lines := Split(before);
    var there := seq(|lines|, i requires 0 <= i < |lines| => RightToLeft(lines[i], SitesOn(refs, i + 1), old_, new_));
    assert Renamed(lines, refs, old_, new_, there);
    text := Join(there);
  }

  /** One file under two spellings: the site of the first is lost. */
  lemma FirstSpellingLost(tree: Tree, resolve: string -> Option<File>, refs: seq<Reference>, planned: map<File, string>)
    requires tree == map["m" := "x x"] && resolve("m") == Some("m") == resolve("./m")
    requires refs == [Reference("m", 1, Some(0)), Reference("./m", 1, Some(2))]
    requires PlannedFor(tree, resolve, refs, Named(refs), "x", "yy", planned)
    ensures "m" in planned && planned["m"] == "x yy"
  {
    hide Named, RefsTo, SitesOn, Split, Join, RightToLeft, LastName;
    TwoSpellings(refs, resolve);
    assert WrittenAs(tree, resolve, refs, "./m", "x", "yy", planned["m"]);
    SplitJoinOne("x x");
    OneSite(refs[1]);
    var lines :| Renamed(["x x"], [refs[1]], "x", "yy", lines) && planned["m"] == Join(lines);
    LastWord();
    assert lines == ["x yy"];
    SplitJoinOne("x yy");
  }

  lemma TwoSpellings(refs: seq<Reference>, resolve: string -> Option<File>)
    requires refs == [Reference("m", 1, Some(0)), Reference("./m", 1, Some(2))] && resolve("./m") == Some("m")
    ensures LastName(Named(refs), resolve, "m") == Some("./m") && RefsTo(refs, "./m") == [refs[1]]
  {
    hide Named, RefsTo;
    assert refs[..0] == [] && refs[..1] == [refs[0]] && refs[..2] == refs;
    NothingGrouped(refs);
    NamedGrows(refs, 0);
    NamedGrows(refs, 1);
    assert Named(refs) == ["m", "./m"];
    NoRefsTo(refs[..1], "./m");
    RefsToGrows(refs, 1, "./m");
  }

  lemma SplitJoinOne(line: string)
    requires '\n' !in line
    ensures Split(line) == [line] && Join([line]) == line
  {
    hide Split;
    SplitJoin([line]);
  }

  lemma LastWord()
    ensures RightToLeft("x x", [2], "x", "yy") == "x yy"
  {
    var line := "x x";
    assert RightToLeft(line, [], "x", "yy") == line;
    assert line[..2] + "yy" + line[3..] == "x yy";
  }
}
