/** The meaning IEEE Std 1003.1-2017 gives the hunks of a unified diff, and exactly when
    the program's reading of them (src/limpiador/tools/fs_tools.py, `_apply_hunks`) is
    the same.  They part in two places: the standard numbers an empty old range by the
    line before it, and lets an empty body line stand for an unchanged empty line. */
module StandardDiff {
  import opened Text
  import opened Hunks
  import opened PatchParser
  import opened PatchPrinter

  /** A hunk with the number of lines its header gives the old range. */
  datatype Ranged = Ranged(hunk: Hunk, count: nat)

  /** A header without a count gives a range of one line. */
  function WithLayout(h: Hunk, l: HunkLayout): Ranged {
    Ranged(h, if l.oldCount.Some? then l.oldCount.value else 1)
  }

  function Headed(hunks: seq<Hunk>, layouts: seq<HunkLayout>): (rs: seq<Ranged>)
    requires |layouts| == |hunks|
    ensures |rs| == |hunks| && forall i | 0 <= i < |rs| :: rs[i] == WithLayout(hunks[i], layouts[i])
  {
    seq(|hunks|, i requires 0 <= i < |hunks| => WithLayout(hunks[i], layouts[i]))
  }

  function Plain(rs: seq<Ranged>): (r: seq<Hunk>)
    ensures |r| == |rs| && forall i | 0 <= i < |r| :: r[i] == rs[i].hunk
  {
    seq(|rs|, i requires 0 <= i < |rs| => rs[i].hunk)
  }

  // ---- the standard's reading ---------------------------------------------------------

  /** What a body leaves in place: an empty body line is an unchanged empty line. */
  function StandardPost(body: seq<string>): seq<string> {
    if body == [] then []
    else
      var e := body[|body| - 1];
      StandardPost(body[..|body| - 1]) + if e == "" || Produces(e) then [Content(e)] else []
  }

  /** How many lines come before the old range. */
  function Before(r: Ranged): int {
    if r.count == 0 then r.hunk.oldStart else r.hunk.oldStart - 1
  }

  predicate Fits(lines: seq<string>, r: Ranged, cursor: nat) {
    && cursor <= Before(r) && Before(r) + r.count <= |lines|
    && r.count == |PreImage(r.hunk.body)|
    && lines[Before(r)..Before(r) + r.count] == PreImage(r.hunk.body)
  }

  function StandardSplice(lines: seq<string>, rs: seq<Ranged>, cursor: nat): Option<seq<string>>
    requires cursor <= |lines|
  {
    if rs == [] then Some(lines[cursor..])
    else if !Fits(lines, rs[0], cursor) then None
    else
      var rest := StandardSplice(lines, rs[1..], Before(rs[0]) + rs[0].count);
      if rest.None? then None
      else Some(lines[cursor..Before(rs[0])] + StandardPost(rs[0].hunk.body) + rest.value)
  }

  lemma FirstStandard(lines: seq<string>, rs: seq<Ranged>, cursor: nat)
    requires cursor <= |lines| && rs != [] && StandardSplice(lines, rs, cursor).Some?
    ensures var at, end := Before(rs[0]), Before(rs[0]) + rs[0].count;
      && Fits(lines, rs[0], cursor) && StandardSplice(lines, rs[1..], end).Some?
      && StandardSplice(lines, rs, cursor).value
         == lines[cursor..at] + StandardPost(rs[0].hunk.body) + StandardSplice(lines, rs[1..], end).value
  {
  }

  // ---- when the program reads a hunk the same way ---------------------------------------

  predicate NoBlank(body: seq<string>) {
    forall e | e in body :: e != ""
  }

  /** No empty body line; and an empty old range comes after room for one more line, with
      nothing to add but copies of the line it is numbered by. */
  predicate ReadAlike(lines: seq<string>, r: Ranged, cursor: int) {
    && NoBlank(r.hunk.body)
    && (r.count == 0 ==>
          && cursor < r.hunk.oldStart <= |lines| && r.hunk.oldStart >= 1
          && forall e | e in PostImage(r.hunk.body) :: e == lines[r.hunk.oldStart - 1])
  }

  /** `cursor` is where the program's reading of the hunks before left off. */
  predicate AllReadAlike(lines: seq<string>, rs: seq<Ranged>, cursor: int)
    decreases |rs|
  {
    rs == [] ||
    (ReadAlike(lines, rs[0], cursor) && AllReadAlike(lines, rs[1..], Start(rs[0].hunk) + rs[0].count))
  }

  lemma NoBlankGrows(front: seq<string>, e: string)
    ensures NoBlank(front + [e]) <==> NoBlank(front) && e != ""
  {
    if NoBlank(front + [e]) {
      forall x | x in front ensures x != "" { assert x in front + [e]; }
      assert e in front + [e];
    }
  }

  lemma {:induction false} PostsCompared(body: seq<string>)
    ensures |PostImage(body)| <= |StandardPost(body)|
    ensures |PostImage(body)| == |StandardPost(body)| <==> NoBlank(body)
    ensures NoBlank(body) ==> PostImage(body) == StandardPost(body)
    decreases |body|
  {
    if body != [] {
      var front, e := body[..|body| - 1], body[|body| - 1];
      PostsCompared(front);
      NoBlankGrows(front, e);
      assert body == front + [e];
    }
  }

  /** The program never leaves more lines than the standard. */
  lemma {:induction false} NeverLonger(lines: seq<string>, rs: seq<Ranged>, c': nat, c: nat)
    requires c' <= c <= |lines| && StandardSplice(lines, rs, c).Some? && Splice(lines, Plain(rs), c').Ok?
    ensures |Splice(lines, Plain(rs), c').value| <= c - c' + |StandardSplice(lines, rs, c).value|
    decreases |rs|
  {
    hide StandardSplice, Splice, StandardPost, PostImage, PreImage;
    if rs == [] {
      NoHunksLeft(lines, c', c);
    } else {
      FirstStandard(lines, rs, c);
      FirstSpliced(lines, Plain(rs), c');
      PlainTail(rs);
      PostsCompared(rs[0].hunk.body);
      NeverLonger(lines, rs[1..], Start(rs[0].hunk) + rs[0].count, Before(rs[0]) + rs[0].count);
    }
  }

  lemma PlainTail(rs: seq<Ranged>)
    requires rs != []
    ensures Plain(rs)[0] == rs[0].hunk && Plain(rs)[1..] == Plain(rs[1..])
  {
  }

  lemma NoHunksLeft(lines: seq<string>, c': nat, c: nat)
    requires c' <= c <= |lines|
    ensures StandardSplice(lines, [], c) == Some(lines[c..]) && Plain([]) == []
    ensures Splice(lines, [], c') == Ok(lines[c'..]) && lines[c'..c] + lines[c..] == lines[c'..]
  {
  }

  /** Moving one line from behind some added lines to before them shows, unless they are
      all copies of it. */
  lemma {:induction false} Slide<T>(p: seq<T>, x: T, u: seq<T>, v: seq<T>)
    ensures p + u == [x] + p + v <==> u == [x] + v && forall e | e in p :: e == x
    decreases |p|
  {
    if p == [] {
      assert [x] + p + v == [x] + v && p + u == u;
    } else {
      var a, q := p[0], p[1..];
      Slide(q, x, u, v);
      assert p == [a] + q;
      assert (forall e | e in p :: e == x) <==> a == x && forall e | e in q :: e == x by {
        assert a in p && forall e | e in q :: e in p;
      }
      assert p + u == [a] + (q + u);
      assert [x] + p + v == [x] + ([a] + q + v);
      if p + u == [x] + p + v {
        assert (p + u)[0] == a && ([x] + p + v)[0] == x;
        assert (p + u)[1..] == q + u && ([x] + p + v)[1..] == [a] + q + v;
      }
    }
  }

  lemma CancelPrefix<T>(g: seq<T>, a: seq<T>, b: seq<T>)
    ensures g + a == g + b <==> a == b
  {
    if g + a == g + b {
      assert (g + a)[|g|..] == a && (g + b)[|g|..] == b;
    }
  }

  lemma CancelBoth<T>(p: seq<T>, a: seq<T>, q: seq<T>, b: seq<T>)
    requires |p| == |q|
    ensures p + a == q + b <==> p == q && a == b
  {
    if p + a == q + b {
      assert (p + a)[..|p|] == p && (q + b)[..|q|] == q;
      assert (p + a)[|p|..] == a && (q + b)[|q|..] == b;
    }
  }

  /** One hunk: the two results are equal exactly when it is read alike and the rest is
      equal.  `g` is the text up to where the program starts the hunk. */
  lemma HunkCompared(r: Ranged, x: string, g: seq<string>, code: seq<string>, std: seq<string>)
    requires var moved := if r.count == 0 then [x] else [];
      |code| <= |moved| + |std|
    ensures var body, moved := r.hunk.body, if r.count == 0 then [x] else [];
      g + PostImage(body) + code == g + moved + StandardPost(body) + std
      <==> NoBlank(body) && (r.count == 0 ==> forall e | e in PostImage(body) :: e == x) && code == moved + std
  {
    hide PostImage, StandardPost, NoBlank;
    var body, moved := r.hunk.body, if r.count == 0 then [x] else [];
    var p, q := PostImage(body), StandardPost(body);
    PostsCompared(body);
    assert g + p + code == g + (p + code) && g + moved + q + std == g + (moved + q + std);
    CancelPrefix(g, p + code, moved + q + std);
    if r.count == 0 {
      Slide(p, x, code, std);
    } else {
      assert moved + q + std == q + std && moved + std == std;
      if |p| == |q| { CancelBoth(p, code, q, std); }
    }
  }

  /** From cursors that may differ by a line the program has yet to copy. */
  lemma {:induction false} SameFrom(lines: seq<string>, rs: seq<Ranged>, c': nat, c: nat)
    requires c' <= c <= |lines| && StandardSplice(lines, rs, c).Some?
    ensures Splice(lines, Plain(rs), c') == Ok(lines[c'..c] + StandardSplice(lines, rs, c).value)
      <==> AllReadAlike(lines, rs, c')
    decreases |rs|
  {
    hide StandardSplice, Splice, StandardPost, PostImage, PreImage, NoBlank;
    if rs == [] {
      NoHunksLeft(lines, c', c);
    } else {
      var r, tail := rs[0], rs[1..];
      var start, at := Start(r.hunk), Before(r);
      FirstStandard(lines, rs, c);
      PlainTail(rs);
      var std := StandardSplice(lines, tail, at + r.count).value;
      if start >= c' {
        assert Matches(lines, r.hunk);
        SameFrom(lines, tail, start + r.count, at + r.count);
        OneSpliced(lines, Plain(rs), c');
        var rest := Splice(lines, Plain(tail), End(r.hunk));
        if rest.Ok? {
          NeverLonger(lines, tail, start + r.count, at + r.count);
          SplitAtHunk(lines, r, c', c, std);
          HunkCompared(r, if r.count == 0 then lines[at - 1] else "", lines[c'..start], rest.value, std);
        }
      } else {
        OneSpliced(lines, Plain(rs), c');
      }
    }
  }

  lemma SplitAtHunk(lines: seq<string>, r: Ranged, c': nat, c: nat, std: seq<string>)
    requires c' <= c && Fits(lines, r, c) && c' <= Start(r.hunk)
    ensures var start, at, post := Start(r.hunk), Before(r), StandardPost(r.hunk.body);
      var moved := if r.count == 0 then [lines[at - 1]] else [];
      && lines[c'..c] + (lines[c..at] + post + std) == lines[c'..start] + moved + post + std
      && lines[start + r.count..at + r.count] == moved
  {
    hide StandardPost, PreImage;
    var start, at, post := Start(r.hunk), Before(r), StandardPost(r.hunk.body);
    var moved := if r.count == 0 then [lines[at - 1]] else [];
    assert lines[c'..c] + lines[c..at] == lines[c'..at] == lines[c'..start] + moved;
    assert lines[c'..c] + (lines[c..at] + post + std) == lines[c'..c] + lines[c..at] + post + std;
  }

  lemma OneSpliced(lines: seq<string>, hunks: seq<Hunk>, cursor: nat)
    requires cursor <= |lines| && hunks != []
    ensures Start(hunks[0]) < cursor ==> Splice(lines, hunks, cursor).Err?
    ensures cursor <= Start(hunks[0]) && Matches(lines, hunks[0]) ==>
      var rest := Splice(lines, hunks[1..], End(hunks[0]));
      Splice(lines, hunks, cursor) == if rest.Err? then rest
        else Ok(lines[cursor..Start(hunks[0])] + PostImage(hunks[0].body) + rest.value)
  {
  }

  /** On a diff that fits the file by the standard, the program gives the standard's result
      exactly when every hunk is read alike: no empty body line, and no empty old range but
      one that adds copies of the line before it, with room for that line. */
  lemma ReadsLikeStandard(lines: seq<string>, rs: seq<Ranged>)
    requires StandardSplice(lines, rs, 0).Some?
    ensures Splice(lines, Plain(rs), 0) == Ok(StandardSplice(lines, rs, 0).value) <==> AllReadAlike(lines, rs, 0)
  {
    hide Splice, StandardSplice, AllReadAlike;
    SameFrom(lines, rs, 0, 0);
    assert lines[0..0] + StandardSplice(lines, rs, 0).value == StandardSplice(lines, rs, 0).value;
  }

  /** The same for hunks printed with their headers: where the program reads them back at
      all, it gives the standard's result exactly when every hunk is read alike. */
  lemma PrintedReadsLikeStandard(lines: seq<string>, hunks: seq<Hunk>, layouts: seq<HunkLayout>, rest: seq<string>)
    requires |layouts| == |hunks| && forall h | h in hunks :: h.oldStart >= 0
    requires StandardSplice(lines, Headed(hunks, layouts), 0).Some?
    ensures var parsed, rs := HunksOf(HunkLines(hunks, layouts) + rest), Headed(hunks, layouts);
      && (parsed == Ok((hunks, rest)) <==> KeepsHunks(hunks) && Behind(hunks, rest))
      && (parsed == Ok((hunks, rest)) ==>
            (Splice(lines, parsed.value.0, 0) == Ok(StandardSplice(lines, rs, 0).value) <==> AllReadAlike(lines, rs, 0)))
  {
    hide HunksOf, HunkLines, StandardSplice, Splice, AllReadAlike, KeepsHunks, Behind;
    HunksReadBack(hunks, layouts, rest);
    ReadsLikeStandard(lines, Headed(hunks, layouts));
    assert Plain(Headed(hunks, layouts)) == hunks;
  }

  /** Hunks with a non-empty old range and no empty body line are read by the standard on
      every file. */
  lemma {:induction false} OrdinaryHunksAlike(lines: seq<string>, rs: seq<Ranged>, cursor: int)
    requires forall r | r in rs :: r.count > 0 && NoBlank(r.hunk.body)
    ensures AllReadAlike(lines, rs, cursor)
    decreases |rs|
  {
    hide NoBlank;
    if rs != [] {
      assert rs[0] in rs;
      OrdinaryHunksAlike(lines, rs[1..], Start(rs[0].hunk) + rs[0].count);
    }
  }

  // ---- the two places, on inputs -----------------------------------------------------------

  lemma OneStandard(lines: seq<string>, r: Ranged)
    requires Fits(lines, r, 0)
    ensures StandardSplice(lines, [r], 0)
      == Some(lines[0..Before(r)] + StandardPost(r.hunk.body) + lines[Before(r) + r.count..])
  {
    assert [r][1..] == [];
  }

  lemma OneHunkSpliced(lines: seq<string>, h: Hunk)
    requires Matches(lines, h)
    ensures Splice(lines, [h], 0) == Ok(lines[0..Start(h)] + PostImage(h.body) + lines[End(h)..])
  {
    assert [h][1..] == [];
  }

  lemma AddsOnly(x: string)
    ensures PreImage(["+" + x]) == [] && PostImage(["+" + x]) == StandardPost(["+" + x]) == [x]
  {
    var body: seq<string> := ["+" + x];
    assert body[..0] == [] && body[0][1..] == x;
    PostsCompared(body);
  }

  /** "@@ -1,0 +2 @@" inserts after the first line; the program inserts before it. */
  lemma EmptyRangeMisplaced(a: string, b: string, x: string)
    ensures var r := Ranged(Hunk(1, ["+" + x]), 0);
      && StandardSplice([a, b], [r], 0) == Some([a, x, b])
      && Splice([a, b], [r.hunk], 0) == Ok([x, a, b])
  {
    hide StandardSplice, Splice;
    var r := Ranged(Hunk(1, ["+" + x]), 0);
    AddsOnly(x);
    var file := [a, b];
    assert file[0..1] == [a] && file[1..] == [b] && file[0..0] == [] && file[0..] == [a, b];
    OneStandard(file, r);
    OneHunkSpliced(file, r.hunk);
    assert [a] + [x] + [b] == [a, x, b] && [] + [x] + [a, b] == [x, a, b];
  }

  /** "@@ -0,0 +1 @@" fills an empty file; the program refuses it. */
  lemma EmptyFileRefused(x: string)
    ensures var r := Ranged(Hunk(0, ["+" + x]), 0);
      StandardSplice([], [r], 0) == Some([x]) && Splice([], [r.hunk], 0) == Err(Misaligned)
  {
    var r := Ranged(Hunk(0, ["+" + x]), 0);
    hide StandardSplice, StandardPost, PreImage;
    AddsOnly(x);
    var file: seq<string> := [];
    assert file[0..0] == [] && file[0..] == [];
    OneStandard(file, r);
    assert [] + [x] + [] == [x];
  }

  /** An unchanged empty line written as an empty body line is deleted. */
  lemma BlankLineDeleted(file: seq<string>)
    requires file == [""]
    ensures var r := Ranged(Hunk(1, file), 1);
      StandardSplice(file, [r], 0) == Some(file) && Splice(file, [r.hunk], 0) == Ok([])
  {
    hide StandardSplice, Splice, StandardPost, PreImage, PostImage;
    var r := Ranged(Hunk(1, file), 1);
    BlankBody(file);
    assert file[0..0] == [] && file[1..] == [] && file[0..1] == file;
    OneStandard(file, r);
    OneHunkSpliced(file, r.hunk);
    var none: seq<string> := [];
    assert none + file + none == file && none + none + none == none;
  }

  lemma BlankBody(body: seq<string>)
    requires body == [""]
    ensures PreImage(body) == StandardPost(body) == body && PostImage(body) == []
  {
    assert body[..0] == [] && body[0] == "";
    assert PreImage(body) == [""] && StandardPost(body) == [""];
  }
}
