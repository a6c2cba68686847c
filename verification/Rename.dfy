/** Renaming a symbol at a list of reference sites
    (src/limpiador/tools/ast_tools.py, `AstRenameSymbol.run` and `_replace_at`). */
module Rename {
  import opened Text
  import opened Sorting

  datatype Reference = Reference(file: string, line: int, column: Option<nat>)

  function Column(r: Reference): nat {
    if r.column.Some? then r.column.value else 0
  }

  function Clamp(n: nat, s: string): (k: nat)
    ensures k <= |s|
  {
    if n <= |s| then n else |s|
  }

  /** Python slices clamp at the end of the string, so this is total. */
  function ReplaceAt(line: string, column: nat, old_: string, new_: string): string {
    line[..Clamp(column, line)] + new_ + line[Clamp(column + |old_|, line)..]
  }

  /** Inside the line a site is replaced; what hangs over the end is cut off, and behind the
      end the new name is added. */
  lemma ReplaceAtIs(line: string, column: nat, old_: string, new_: string)
    ensures column + |old_| <= |line| ==>
      ReplaceAt(line, column, old_, new_) == line[..column] + new_ + line[column + |old_|..]
    ensures column <= |line| < column + |old_| ==> ReplaceAt(line, column, old_, new_) == line[..column] + new_
    ensures column > |line| ==> ReplaceAt(line, column, old_, new_) == line + new_
  {
    assert line[..|line|] == line && line[|line|..] == "";
  }

  // ---- one line: right-to-left splicing is one-pass substitution --------------------

  /** Sites of `width` characters, in order, apart, and inside the line after `from`. */
  predicate Apart(line: string, cs: seq<nat>, width: nat, from: nat)
    decreases |cs|
  {
    if cs == [] then from <= |line|
    else from <= cs[0] && Apart(line, cs[1..], width, cs[0] + width)
  }

  lemma {:induction false} ApartInside(line: string, cs: seq<nat>, width: nat, from: nat)
    requires Apart(line, cs, width, from)
    ensures from <= |line|
    ensures cs != [] ==> cs[0] + width <= |line|
    decreases |cs|
  {
    if cs != [] { ApartInside(line, cs[1..], width, cs[0] + width); }
  }

  /** The line from `from` on, with every site replaced by `text` in one pass. */
  function Substitute(line: string, cs: seq<nat>, width: nat, text: string, from: nat): string
    requires Apart(line, cs, width, from)
    decreases |cs|
  {
    ApartInside(line, cs, width, from);
    if cs == [] then line[from..]
    else line[from..cs[0]] + text + Substitute(line, cs[1..], width, text, cs[0] + width)
  }

  /** The sites replaced one at a time, last site first, as the loop does. */
  function RightToLeft(line: string, cs: seq<nat>, old_: string, new_: string): string {
    if cs == [] then line else ReplaceAt(RightToLeft(line, cs[1..], old_, new_), cs[0], old_, new_)
  }

  /** Text before the first site is copied. */
  lemma SubstituteCopies(line: string, cs: seq<nat>, width: nat, text: string, from: nat, to: nat)
    requires from <= to && Apart(line, cs, width, to)
    ensures Apart(line, cs, width, from) && to <= |line|
    ensures Substitute(line, cs, width, text, from) == line[from..to] + Substitute(line, cs, width, text, to)
  {
    ApartInside(line, cs, width, to);
    if cs != [] {
      SliceInTwo(line, from, to, cs[0]);
      RegroupTail(line[from..to], line[to..cs[0]], text, Substitute(line, cs[1..], width, text, cs[0] + width));
    } else {
      SliceInTwo(line, from, to, |line|);
    }
  }

  lemma SliceInTwo(s: string, a: nat, b: nat, c: nat)
    requires a <= b <= c <= |s|
    ensures s[a..c] == s[a..b] + s[b..c]
  {
  }

  lemma RegroupTail(a: string, b: string, c: string, d: string)
    ensures a + (b + c + d) == a + b + c + d
  {
  }

  lemma {:induction false} RightToLeftIsSubstitution(line: string, cs: seq<nat>, old_: string, new_: string)
    requires Apart(line, cs, |old_|, 0)
    ensures RightToLeft(line, cs, old_, new_) == Substitute(line, cs, |old_|, new_, 0)
    decreases |cs|
  {
    if cs == [] {
      assert line[0..] == line;
    } else {
      hide ReplaceAt;
      var c, w := cs[0], |old_|;
      ApartInside(line, cs, w, 0);
      SubstituteCopies(line, cs[1..], w, new_, 0, c + w);
      RightToLeftIsSubstitution(line, cs[1..], old_, new_);
      SpliceLater(line, c, old_, new_, Substitute(line, cs[1..], w, new_, c + w));
    }
  }

  /** A replacement in the part of the line that no later one has touched. */
  lemma SpliceLater(line: string, c: nat, old_: string, new_: string, rest: string)
    requires c + |old_| <= |line|
    ensures ReplaceAt(line[0..c + |old_|] + rest, c, old_, new_) == line[0..c] + new_ + rest
  {
    var later := line[0..c + |old_|] + rest;
    assert later[..c] == line[0..c] && later[c + |old_|..] == rest;
  }

  /** Where the sites end up after each has changed width. */
  function Moved(cs: seq<nat>, width: nat, newWidth: nat, shift: int): (r: seq<int>)
    ensures |r| == |cs|
    decreases |cs|
  {
    if cs == [] then [] else [cs[0] + shift] + Moved(cs[1..], width, newWidth, shift + newWidth - width)
  }

  ghost predicate Sites(cs: seq<int>, ns: seq<nat>) {
    |cs| == |ns| && forall i | 0 <= i < |cs| :: cs[i] == ns[i]
  }

  /** Substituting at the moved sites of a substituted line is the same as
      substituting the second text in the first place. */
  lemma {:induction false} SubstituteTwice(line: string, cs: seq<nat>, w: nat, text: string, back: string,
                                           from: nat, there: string, from': nat, cs': seq<nat>)
    requires Apart(line, cs, w, from) && from' <= |there|
    requires there[from'..] == Substitute(line, cs, w, text, from)
    requires Sites(Moved(cs, w, |text|, from' - from), cs')
    ensures Apart(there, cs', |text|, from')
    ensures Substitute(there, cs', |text|, back, from') == Substitute(line, cs, w, back, from)
    decreases |cs|
  {
    hide Substitute, Moved;
    ApartInside(line, cs, w, from);
    SubstituteHead(line, cs, w, text, from);
    SubstituteHead(line, cs, w, back, from);
    if cs == [] {
      SubstituteHead(there, cs', |text|, back, from');
    } else {
      MovedHead(cs, w, |text|, from' - from);
      var c := cs[0];
      var gap, rest := line[from..c], Substitute(line, cs[1..], w, text, c + w);
      var c' := from' + |gap|;
      assert cs'[0] == c';
      CutSuffix(there, from', gap, text, rest);
      var m := Moved(cs, w, |text|, from' - from);
      assert Sites(m[1..], cs'[1..]);
      SubstituteTwice(line, cs[1..], w, text, back, c + w, there, c' + |text|, cs'[1..]);
      SubstituteHead(there, cs', |text|, back, from');
    }
  }

  lemma MovedHead(cs: seq<nat>, width: nat, newWidth: nat, shift: int)
    requires cs != []
    ensures var m := Moved(cs, width, newWidth, shift);
      m[0] == cs[0] + shift && m[1..] == Moved(cs[1..], width, newWidth, shift + newWidth - width)
  {
  }

  lemma CutSuffix(s: string, k: nat, a: string, b: string, c: string)
    requires k <= |s| && s[k..] == a + b + c
    ensures |s| == k + |a| + |b| + |c|
    ensures s[k..k + |a|] == a && s[k + |a| + |b|..] == c
  {
    assert s[k..][..|a|] == a;
    assert s[k..][|a| + |b|..] == c;
  }

  ghost predicate SitesHold(line: string, cs: seq<nat>, old_: string, from: nat)
    requires Apart(line, cs, |old_|, from)
  {
    forall i | 0 <= i < |cs| :: cs[i] + |old_| <= |line| && line[cs[i]..cs[i] + |old_|] == old_
  }

  lemma {:induction false} SubstituteSame(line: string, cs: seq<nat>, old_: string, from: nat)
    requires Apart(line, cs, |old_|, from)
    ensures from <= |line|
    ensures Substitute(line, cs, |old_|, old_, from) == line[from..] <==> SitesHold(line, cs, old_, from)
    decreases |cs|
  {
    hide Substitute, SitesHold;
    ApartInside(line, cs, |old_|, from);
    SubstituteHead(line, cs, |old_|, old_, from);
    if cs == [] {
      NoSites(line, old_, from);
    } else {
      var c, w := cs[0], |old_|;
      SubstituteSame(line, cs[1..], old_, c + w);
      var rest := Substitute(line, cs[1..], w, old_, c + w);
      SliceInThree(line, from, c, c + w);
      SplitEqual(line[from..c], old_, rest, line[c..c + w], line[c + w..]);
      SitesHoldFirst(line, cs, old_, from);
    }
  }

  lemma SubstituteHead(line: string, cs: seq<nat>, width: nat, text: string, from: nat)
    requires Apart(line, cs, width, from)
    ensures from <= |line|
    ensures cs == [] ==> Substitute(line, cs, width, text, from) == line[from..]
    ensures cs != [] ==> cs[0] + width <= |line|
    ensures cs != [] ==>
      Substitute(line, cs, width, text, from)
      == line[from..cs[0]] + text + Substitute(line, cs[1..], width, text, cs[0] + width)
  {
    ApartInside(line, cs, width, from);
  }

  lemma NoSites(line: string, old_: string, from: nat)
    requires from <= |line|
    ensures SitesHold(line, [], old_, from)
  {
  }

  lemma SitesHoldFirst(line: string, cs: seq<nat>, old_: string, from: nat)
    requires cs != [] && Apart(line, cs, |old_|, from) && cs[0] + |old_| <= |line|
    ensures SitesHold(line, cs, old_, from)
      <==> line[cs[0]..cs[0] + |old_|] == old_ && SitesHold(line, cs[1..], old_, cs[0] + |old_|)
  {
    assert forall i | 1 <= i < |cs| :: cs[i] == cs[1..][i - 1];
    assert forall i | 0 <= i < |cs[1..]| :: cs[1..][i] == cs[i + 1];
  }

  lemma SliceInThree(s: string, a: nat, b: nat, c: nat)
    requires a <= b <= c <= |s|
    ensures s[a..] == s[a..b] + s[b..c] + s[c..]
  {
  }

  lemma SplitEqual(a: string, b: string, c: string, b': string, c': string)
    requires |b| == |b'|
    ensures a + b + c == a + b' + c' <==> b == b' && c == c'
  {
    if a + b + c == a + b' + c' {
      assert (a + b + c)[|a|..|a| + |b|] == b && (a + b' + c')[|a|..|a| + |b|] == b';
      assert (a + b + c)[|a| + |b|..] == c && (a + b' + c')[|a| + |b|..] == c';
    }
  }

  /** Renaming back at the moved columns restores the line exactly when every site
      held the old name: the program does not check that it does. */
  lemma RenameBack(line: string, cs: seq<nat>, cs': seq<nat>, old_: string, new_: string)
    requires Apart(line, cs, |old_|, 0) && Sites(Moved(cs, |old_|, |new_|, 0), cs')
    ensures RightToLeft(RightToLeft(line, cs, old_, new_), cs', new_, old_) == line <==> SitesHold(line, cs, old_, 0)
  {
    var there := Substitute(line, cs, |old_|, new_, 0);
    RightToLeftIsSubstitution(line, cs, old_, new_);
    assert there[0..] == there && line[0..] == line;
    SubstituteTwice(line, cs, |old_|, new_, old_, 0, there, 0, cs');
    RightToLeftIsSubstitution(there, cs', new_, old_);
    SubstituteSame(line, cs, old_, 0);
  }

  // ---- one file -------------------------------------------------------------------------

  /** `sorted(..., key=(line, column), reverse=True)`: later sites first. */
  predicate After(a: Reference, b: Reference) {
    a.line > b.line || (a.line == b.line && Column(a) >= Column(b))
  }

  predicate Leq(a: nat, b: nat) { a <= b }

  lemma AfterOrder()
    ensures TotalPreorder(After) && TotalPreorder(Leq) && Antisymmetric(Leq)
  {
  }

  /** The columns named on one line, in list order. */
  function ColumnsOn(refs: seq<Reference>, line: int): seq<nat> {
    if refs == [] then []
    else (if refs[0].line == line then [Column(refs[0])] else []) + ColumnsOn(refs[1..], line)
  }

  lemma {:induction false} ColumnsOnSplit(a: seq<Reference>, b: seq<Reference>, line: int)
    ensures ColumnsOn(a + b, line) == ColumnsOn(a, line) + ColumnsOn(b, line)
    decreases |a|
  {
    if a == [] {
      assert a + b == b;
    } else {
      hide Column;
      ColumnsOnSplit(a[1..], b, line);
      var first := if a[0].line == line then [Column(a[0])] else [];
      ColumnsOnHead(a[0], a[1..] + b, line);
      assert a + b == [a[0]] + (a[1..] + b);
      Associate(first, ColumnsOn(a[1..], line), ColumnsOn(b, line));
    }
  }

  lemma ColumnsOnHead(r: Reference, rest: seq<Reference>, line: int)
    ensures ColumnsOn([r] + rest, line) == (if r.line == line then [Column(r)] else []) + ColumnsOn(rest, line)
  {
    assert ([r] + rest)[1..] == rest;
  }

  lemma Associate<T>(a: seq<T>, b: seq<T>, c: seq<T>)
    ensures (a + b) + c == a + (b + c)
  {
  }

  /** Rearranging the references rearranges the columns of each line. */
  lemma {:induction false} ColumnsOnRearranged(a: seq<Reference>, b: seq<Reference>, line: int)
    requires multiset(a) == multiset(b)
    ensures multiset(ColumnsOn(a, line)) == multiset(ColumnsOn(b, line))
    decreases |a|
  {
    SameMembers(a, b);
    if a != [] {
      assert a[0] in b;
      var k :| 0 <= k < |b| && b[k] == a[0];
      RemoveMatching(a, b, k);
      ColumnsOnRearranged(a[1..], b[..k] + b[k + 1..], line);
      ColumnsWithout(a, 0, line);
      ColumnsWithout(b, k, line);
      assert a[..0] + a[1..] == a[1..];
    }
  }

  lemma RemoveMatching<T>(a: seq<T>, b: seq<T>, k: nat)
    requires a != [] && k < |b| && a[0] == b[k] && multiset(a) == multiset(b)
    ensures multiset(a[1..]) == multiset(b[..k] + b[k + 1..])
  {
    assert a == [a[0]] + a[1..];
    assert b == b[..k] + ([b[k]] + b[k + 1..]);
    assert multiset(a[1..]) == multiset(a) - multiset{a[0]};
    assert multiset(b[..k] + b[k + 1..]) == multiset(b) - multiset{b[k]};
  }

  lemma ColumnsWithout(b: seq<Reference>, k: nat, line: int)
    requires k < |b|
    ensures multiset(ColumnsOn(b, line))
      == multiset(if b[k].line == line then [Column(b[k])] else []) + multiset(ColumnsOn(b[..k] + b[k + 1..], line))
  {
    assert b == b[..k] + b[k..] && b[k..][1..] == b[k + 1..];
    ColumnsOnSplit(b[..k], b[k..], line);
    ColumnsOnSplit(b[..k], b[k + 1..], line);
  }

  /** The sites of one line, left to right. */
  function SitesOn(refs: seq<Reference>, line: int): (r: seq<nat>)
    ensures Sorted(r, Leq)
  {
    AfterOrder();
    SortBy(ColumnsOn(refs, line), Leq)
  }

  function Backwards(refs: seq<Reference>): (r: seq<Reference>)
    ensures multiset(r) == multiset(refs)
  {
    if refs == [] then []
    else
      assert refs == refs[..|refs| - 1] + [refs[|refs| - 1]];
      [refs[|refs| - 1]] + Backwards(refs[..|refs| - 1])
  }

  lemma {:induction false} BackwardsSorted(refs: seq<Reference>, line: int)
    requires Sorted(refs, After)
    ensures Sorted(ColumnsOn(Backwards(refs), line), Leq)
    ensures forall c | c in ColumnsOn(Backwards(refs), line) :: exists r | r in refs :: r.line == line && Column(r) == c
    decreases |refs|
  {
    if refs != [] {
      var front, r := refs[..|refs| - 1], refs[|refs| - 1];
      BackwardsSorted(front, line);
      var b := Backwards(refs);
      assert b == [r] + Backwards(front) && b[1..] == Backwards(front);
      var cs := ColumnsOn(Backwards(front), line);
      assert ColumnsOn(b, line) == (if r.line == line then [Column(r)] else []) + cs;
      forall c | c in cs ensures exists x | x in refs :: x.line == line && Column(x) == c {
        var x :| x in front && x.line == line && Column(x) == c;
        assert x in refs;
      }
      forall c | c in cs && r.line == line ensures Column(r) <= c {
        var x :| x in front && x.line == line && Column(x) == c;
        var i :| 0 <= i < |front| && front[i] == x;
        assert After(refs[i], refs[|refs| - 1]);
      }
      assert r in refs;
      SortedCons(Column(r), cs, r.line == line);
    }
  }

  lemma SortedCons(x: nat, cs: seq<nat>, added: bool)
    requires Sorted(cs, Leq) && (added ==> forall c | c in cs :: x <= c)
    ensures Sorted((if added then [x] else []) + cs, Leq)
  {
    if !added {
      assert [] + cs == cs;
    } else {
      var s := [x] + cs;
      forall i, j | 0 <= i < j < |s| ensures Leq(s[i], s[j]) {
        assert cs[j - 1] in cs && s[j] == cs[j - 1];
        if i > 0 { assert Leq(cs[i - 1], cs[j - 1]); }
      }
    }
  }

  /** The loop meets the sites of each line from right to left. */
  lemma LoopOrder(refs: seq<Reference>, line: int)
    ensures TotalPreorder(After)
    ensures ColumnsOn(Backwards(SortBy(refs, After)), line) == SitesOn(refs, line)
  {
    AfterOrder();
    var ds := SortBy(refs, After);
    BackwardsSorted(ds, line);
    ColumnsOnRearranged(Backwards(ds), refs, line);
    SortedUnique(ColumnsOn(Backwards(ds), line), SitesOn(refs, line), Leq);
  }

  lemma OneSite(r: Reference)
    ensures SitesOn([r], r.line) == [Column(r)]
  {
    hide Column;
    AfterOrder();
    assert [r][1..] == [] && ColumnsOn([r], r.line) == [Column(r)];
    SortedUnique(SitesOn([r], r.line), [Column(r)], Leq);
  }

  /** A reference without a column stands at the start of its line. */
  lemma NoColumnIsFirst(line: string, r: Reference, old_: string, new_: string)
    requires r.column == None && |old_| <= |line|
    ensures RightToLeft(line, SitesOn([r], r.line), old_, new_) == new_ + line[|old_|..]
  {
    hide SitesOn, ReplaceAt;
    OneSite(r);
    var first: seq<nat> := [0];
    assert first[1..] == [] && RightToLeft(line, [], old_, new_) == line;
    ReplaceAtIs(line, 0, old_, new_);
    assert line[..0] + new_ + line[|old_|..] == new_ + line[|old_|..];
  }

  ghost predicate InRange(lines: seq<string>, refs: seq<Reference>) {
    forall r | r in refs :: 1 <= r.line <= |lines|
  }

  /** Every line with its own sites replaced and nothing else touched. */
  ghost predicate Renamed(lines: seq<string>, refs: seq<Reference>, old_: string, new_: string, result: seq<string>) {
    |result| == |lines| &&
    forall i | 0 <= i < |lines| :: result[i] == RightToLeft(lines[i], SitesOn(refs, i + 1), old_, new_)
  }

  /** The loop over the references of one file. */
  method RenameLines(lines: seq<string>, refs: seq<Reference>, old_: string, new_: string)
    returns (r: Option<seq<string>>)
    ensures r.Some? <==> InRange(lines, refs)
    ensures r.Some? ==> Renamed(lines, refs, old_, new_, r.value)
  {
    hide RightToLeft, ReplaceAt, SitesOn, Sorted, ColumnsOn, Backwards, After, TotalPreorder, SortBy;
    AfterOrder();
    var sorted := SortBy(refs, After);
    SortKeepsElements(refs, After);
    var result := lines;
    NothingReplaced(lines, sorted, old_, new_);
    for k := 0 to |sorted|
      invariant |result| == |lines|
      invariant forall i | 0 <= i < k :: 1 <= sorted[i].line <= |lines|
      invariant ReplacedFrom(lines, sorted[..k], old_, new_, result)
    {
      var reference := sorted[k];
      if !(1 <= reference.line <= |result|) {
        assert reference in sorted;
        return None;
      }
      ReplaceOneMore(lines, sorted, k, old_, new_, result);
      result := result[reference.line - 1 :=
        ReplaceAt(result[reference.line - 1], Column(reference), old_, new_)];
    }
    assert sorted[..|sorted|] == sorted;
    forall i | 0 <= i < |lines|
      ensures result[i] == RightToLeft(lines[i], SitesOn(refs, i + 1), old_, new_)
    {
      LoopOrder(refs, i + 1);
    }
    r := Some(result);
  }

  ghost predicate ReplacedFrom(lines: seq<string>, refs: seq<Reference>, old_: string, new_: string, result: seq<string>) {
    |result| == |lines| && forall i | 0 <= i < |lines| ::
      result[i] == RightToLeft(lines[i], ColumnsOn(Backwards(refs), i + 1), old_, new_)
  }

  lemma NothingReplaced(lines: seq<string>, refs: seq<Reference>, old_: string, new_: string)
    ensures ReplacedFrom(lines, refs[..0], old_, new_, lines)
  {
  }

  lemma ReplaceOneMore(lines: seq<string>, refs: seq<Reference>, k: nat, old_: string, new_: string, result: seq<string>)
    requires k < |refs| && ReplacedFrom(lines, refs[..k], old_, new_, result)
    requires 1 <= refs[k].line <= |lines|
    ensures var n := refs[k].line - 1;
      ReplacedFrom(lines, refs[..k + 1], old_, new_, result[n := ReplaceAt(result[n], Column(refs[k]), old_, new_)])
  {
    hide ReplaceAt, RightToLeft, ColumnsOn, Backwards;
    var n := refs[k].line - 1;
    var next := result[n := ReplaceAt(result[n], Column(refs[k]), old_, new_)];
    forall i | 0 <= i < |lines|
      ensures next[i] == RightToLeft(lines[i], ColumnsOn(Backwards(refs[..k + 1]), i + 1), old_, new_)
    {
      BackwardsGrows(refs, k, i + 1);
      RightToLeftCons(lines[i], Column(refs[k]), ColumnsOn(Backwards(refs[..k]), i + 1), old_, new_);
    }
  }

  lemma RightToLeftCons(line: string, c: nat, cs: seq<nat>, old_: string, new_: string)
    ensures RightToLeft(line, [c] + cs, old_, new_) == ReplaceAt(RightToLeft(line, cs, old_, new_), c, old_, new_)
    ensures [] + cs == cs
  {
    assert ([c] + cs)[1..] == cs;
  }

  lemma BackwardsGrows(refs: seq<Reference>, k: nat, line: int)
    requires k < |refs|
    ensures ColumnsOn(Backwards(refs[..k + 1]), line)
      == (if refs[k].line == line then [Column(refs[k])] else []) + ColumnsOn(Backwards(refs[..k]), line)
  {
    assert refs[..k + 1][..k] == refs[..k];
    var b := Backwards(refs[..k + 1]);
    assert b == [refs[k]] + Backwards(refs[..k]) && b[1..] == Backwards(refs[..k]);
  }

  /** When no two sites of a line overlap, every line is the one-pass substitution of
      its sites. */
  lemma RenamedOnePass(lines: seq<string>, refs: seq<Reference>, old_: string, new_: string, result: seq<string>, i: nat)
    requires Renamed(lines, refs, old_, new_, result) && i < |lines|
    requires Apart(lines[i], SitesOn(refs, i + 1), |old_|, 0)
    ensures result[i] == Substitute(lines[i], SitesOn(refs, i + 1), |old_|, new_, 0)
  {
    RightToLeftIsSubstitution(lines[i], SitesOn(refs, i + 1), old_, new_);
  }

  /** A line with no reference is untouched. */
  lemma UnnamedLineKept(lines: seq<string>, refs: seq<Reference>, old_: string, new_: string, result: seq<string>, i: nat)
    requires Renamed(lines, refs, old_, new_, result) && i < |lines|
    requires forall r | r in refs :: r.line != i + 1
    ensures result[i] == lines[i]
  {
    NoColumns(refs, i + 1);
  }

  lemma {:induction false} NoColumns(refs: seq<Reference>, line: int)
    requires forall r | r in refs :: r.line != line
    ensures ColumnsOn(refs, line) == [] && SitesOn(refs, line) == []
    decreases |refs|
  {
    if refs != [] { NoColumns(refs[1..], line); }
  }

  ghost predicate AllApart(lines: seq<string>, refs: seq<Reference>, width: nat) {
    forall i | 0 <= i < |lines| :: Apart(lines[i], SitesOn(refs, i + 1), width, 0)
  }

  lemma {:induction false} UnbrokenLine(line: string, cs: seq<nat>, old_: string, new_: string)
    requires '\n' !in line && '\n' !in new_
    ensures '\n' !in RightToLeft(line, cs, old_, new_)
    decreases |cs|
  {
    if cs != [] { UnbrokenLine(line, cs[1..], old_, new_); }
  }

  lemma UnbrokenLines(lines: seq<string>, refs: seq<Reference>, old_: string, new_: string, there: seq<string>)
    requires Renamed(lines, refs, old_, new_, there) && Unbroken(lines) && '\n' !in new_
    ensures Unbroken(there)
  {
    hide RightToLeft, SitesOn;
    forall l | l in there ensures '\n' !in l {
      var i :| 0 <= i < |there| && there[i] == l;
      assert lines[i] in lines;
      UnbrokenLine(lines[i], SitesOn(refs, i + 1), old_, new_);
    }
  }

  lemma SameCount(lines: seq<string>, refs: seq<Reference>, old_: string, new_: string, there: seq<string>)
    requires Renamed(lines, refs, old_, new_, there) && lines != []
    ensures |there| == |lines| && there != []
  {
  }
}
