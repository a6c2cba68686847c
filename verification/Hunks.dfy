/** Applying the hunks of a unified diff to one file
    (src/limpiador/tools/fs_tools.py, `_apply_hunks`). */
module Hunks {
  import opened Text

  /** `body` holds the raw diff lines, tag character included. */
  datatype Hunk = Hunk(oldStart: int, body: seq<string>)

  datatype Failure =
    | MalformedHeader
    | MissingNewHeader
    | NoSections
    | Misaligned
    | ContextMismatch
    | NotFound(path: string)
    | PermissionDenied(path: string)

  // ---- one line of a hunk -----------------------------------------------------

  /** Python's `tag in " -"` is also true of the empty tag of an empty entry. */
  predicate Consumes(e: string) {
    e == "" || e[0] == ' ' || e[0] == '-'
  }

  predicate Produces(e: string) {
    e != "" && e[0] != '-'
  }

  function Content(e: string): string {
    if e == "" then "" else e[1..]
  }

  /** The lines a hunk body expects to find in the file. */
  function PreImage(body: seq<string>): seq<string> {
    if body == [] then []
    else
      var e := body[|body| - 1];
      PreImage(body[..|body| - 1]) + if Consumes(e) then [Content(e)] else []
  }

  /** The lines a hunk body leaves in their place. */
  function PostImage(body: seq<string>): seq<string> {
    if body == [] then []
    else
      var e := body[|body| - 1];
      PostImage(body[..|body| - 1]) + if Produces(e) then [Content(e)] else []
  }

  lemma BodyGrows(body: seq<string>, j: nat)
    requires j < |body|
    ensures PreImage(body[..j + 1]) == PreImage(body[..j]) + if Consumes(body[j]) then [Content(body[j])] else []
    ensures PostImage(body[..j + 1]) == PostImage(body[..j]) + if Produces(body[j]) then [Content(body[j])] else []
  {
    assert body[..j + 1][..j] == body[..j];
  }

  lemma {:induction false} PreImagePrefix(body: seq<string>, j: nat)
    requires j <= |body|
    ensures PreImage(body[..j]) <= PreImage(body)
    decreases |body| - j
  {
    if j < |body| {
      BodyGrows(body, j);
      PreImagePrefix(body, j + 1);
    } else {
      assert body[..j] == body;
    }
  }

  // ---- what applying a list of hunks means ---------------------------------------

  function Start(h: Hunk): int { h.oldStart - 1 }

  function End(h: Hunk): int { Start(h) + |PreImage(h.body)| }

  /** The hunk's pre-image is what the file holds at its start. */
  predicate Matches(lines: seq<string>, h: Hunk) {
    0 <= Start(h) && End(h) <= |lines| && lines[Start(h)..End(h)] == PreImage(h.body)
  }

  /** In order, without overlap, and every pre-image in place. */
  ghost predicate Applicable(lines: seq<string>, hunks: seq<Hunk>, cursor: nat) {
    && (forall i | 0 <= i < |hunks| :: Matches(lines, hunks[i]))
    && (hunks != [] ==> cursor <= Start(hunks[0]))
    && (forall i | 0 <= i < |hunks| - 1 :: End(hunks[i]) <= Start(hunks[i + 1]))
  }

  /** The untouched gaps interleaved with the post-images, from `cursor` on. */
  function Splice(lines: seq<string>, hunks: seq<Hunk>, cursor: nat): (r: Result<seq<string>, Failure>)
    requires cursor <= |lines|
  {
    if hunks == [] then Ok(lines[cursor..])
    else
      var h := hunks[0];
      if Start(h) < cursor || Start(h) > |lines| then Err(Misaligned)
      else if !Matches(lines, h) then Err(ContextMismatch)
      else
        var rest := Splice(lines, hunks[1..], End(h));
        if rest.Err? then rest else Ok(lines[cursor..Start(h)] + PostImage(h.body) + rest.value)
  }

  /** The program's text-level result: the final newline of the original is kept. */
  function Patched(original: string, hunks: seq<Hunk>): Result<string, Failure> {
    var r := Splice(SplitLines(original), hunks, 0);
    if r.Err? then Err(r.error)
    else Ok(Join(r.value) + if EndsWithNewline(original) then "\n" else "")
  }

  /** Splicing succeeds exactly on the hunk lists that fit the file. */
  lemma {:induction false} SpliceSucceedsIff(lines: seq<string>, hunks: seq<Hunk>, cursor: nat)
    requires cursor <= |lines|
    ensures Splice(lines, hunks, cursor).Ok? <==> Applicable(lines, hunks, cursor)
    decreases |hunks|
  {
    if hunks != [] {
      var h, rest := hunks[0], hunks[1..];
      if Start(h) >= cursor && Matches(lines, h) {
        SpliceSucceedsIff(lines, rest, End(h));
        if Applicable(lines, hunks, cursor) {
          assert forall i | 0 <= i < |rest| :: rest[i] == hunks[i + 1];
        }
        if Applicable(lines, rest, End(h)) {
          forall i | 0 <= i < |hunks| ensures Matches(lines, hunks[i]) {
            if i > 0 { assert hunks[i] == rest[i - 1]; }
          }
          forall i | 0 <= i < |hunks| - 1 ensures End(hunks[i]) <= Start(hunks[i + 1]) {
            if i > 0 { assert hunks[i] == rest[i - 1] && hunks[i + 1] == rest[i]; }
          }
        }
      }
    }
  }

  /** A splice that succeeds, one hunk at a time. */
  lemma FirstSpliced(lines: seq<string>, hunks: seq<Hunk>, cursor: nat)
    requires cursor <= |lines| && hunks != [] && Splice(lines, hunks, cursor).Ok?
    ensures var h := hunks[0];
      && cursor <= Start(h) && Matches(lines, h) && Splice(lines, hunks[1..], End(h)).Ok?
      && Splice(lines, hunks, cursor).value
         == lines[cursor..Start(h)] + PostImage(h.body) + Splice(lines, hunks[1..], End(h)).value
  {
  }

  // ---- the loop of `_apply_hunks` -----------------------------------------------

  function Prepend(p: seq<string>, r: Result<seq<string>, Failure>): Result<seq<string>, Failure> {
    if r.Err? then r else Ok(p + r.value)
  }

  lemma PrependTwice(p: seq<string>, q: seq<string>, r: Result<seq<string>, Failure>)
    ensures Prepend(p, Prepend(q, r)) == Prepend(p + q, r)
  {
    if r.Ok? { assert p + (q + r.value) == p + q + r.value; }
  }

  lemma PrependBasics(p: seq<string>)
    ensures forall e :: Prepend(p, Err(e)) == Err(e)
    ensures forall v :: Prepend(p, Ok(v)) == Ok(p + v)
    ensures forall r: Result<seq<string>, Failure> :: Prepend([], r) == r
  {
    forall r: Result<seq<string>, Failure> ensures Prepend([], r) == r {
      if r.Ok? { assert [] + r.value == r.value; }
    }
  }

  lemma HunkStep(lines: seq<string>, hunks: seq<Hunk>, i: nat, cursor: nat)
    requires i < |hunks| && cursor <= |lines|
    ensures var h := hunks[i];
      Splice(lines, hunks[i..], cursor)
      == if Start(h) < cursor || Start(h) > |lines| then Err(Misaligned)
         else if !Matches(lines, h) then Err(ContextMismatch)
         else Prepend(lines[cursor..Start(h)] + PostImage(h.body), Splice(lines, hunks[i + 1..], End(h)))
  {
    hide PreImage, PostImage;
    var left := hunks[i..];
    assert left[0] == hunks[i] && left[1..] == hunks[i + 1..];
  }

  lemma NoHunksAfter(lines: seq<string>, hunks: seq<Hunk>, cursor: nat)
    requires cursor <= |lines|
    ensures Splice(lines, hunks[|hunks|..], cursor) == Ok(lines[cursor..]) && hunks[0..] == hunks
  {
  }

  method ApplyHunks(original: string, hunks: seq<Hunk>) returns (r: Result<string, Failure>)
    ensures r == Patched(original, hunks)
  {
    hide Splice, Prepend, Matches, PreImage, PostImage, SplitLines, Join, EndsWithNewline;
    var lines := SplitLines(original);
    var result: seq<string> := [];
    var cursor: nat := 0;
    PrependBasics([]);
    NoHunksAfter(lines, hunks, 0);
    for i := 0 to |hunks|
      invariant cursor <= |lines|
      invariant Splice(lines, hunks, 0) == Prepend(result, Splice(lines, hunks[i..], cursor))
    {
      var h := hunks[i];
      HunkStep(lines, hunks, i, cursor);
      PrependBasics(result);
      var start := h.oldStart - 1;
      if start < cursor || start > |lines| {
        return Err(Misaligned);
      }
      var done, consumed := ApplyBody(lines, h);
      if done.Err? {
        return Err(ContextMismatch);
      }
      PrependTwice(result, lines[cursor..start] + done.value, Splice(lines, hunks[i + 1..], consumed));
      result := result + (lines[cursor..start] + done.value);
      cursor := consumed;
    }
    NoHunksAfter(lines, hunks, cursor);
    PrependBasics(result);
    result := result + lines[cursor..];
    var text := Join(result);
    return Ok(text + if EndsWithNewline(original) then "\n" else "");
  }

  /** The first `j` entries of the hunk are matched by the lines up to `cursor`. */
  ghost predicate MatchedTo(lines: seq<string>, h: Hunk, j: nat, cursor: nat)
    requires j <= |h.body|
  {
    && 0 <= Start(h) <= cursor <= |lines|
    && lines[Start(h)..cursor] == PreImage(h.body[..j])
  }

  lemma MatchStarts(lines: seq<string>, h: Hunk)
    requires 0 <= Start(h) <= |lines|
    ensures MatchedTo(lines, h, 0, Start(h)) && PostImage(h.body[..0]) == []
  {
  }

  lemma EntryMatches(lines: seq<string>, h: Hunk, j: nat, cursor: nat)
    requires j < |h.body| && MatchedTo(lines, h, j, cursor)
    ensures Consumes(h.body[j]) && cursor < |lines| && lines[cursor] == Content(h.body[j])
      ==> MatchedTo(lines, h, j + 1, cursor + 1)
    ensures !Consumes(h.body[j]) ==> MatchedTo(lines, h, j + 1, cursor)
  {
    hide PreImage, PostImage, Consumes, Content;
    BodyGrows(h.body, j);
    if cursor < |lines| {
      assert lines[Start(h)..cursor + 1] == lines[Start(h)..cursor] + [lines[cursor]];
    }
  }

  lemma MatchedLines(lines: seq<string>, h: Hunk)
    ensures Matches(lines, h) ==> forall at | 0 <= at < |PreImage(h.body)| ::
      0 <= Start(h) + at < |lines| && lines[Start(h) + at] == PreImage(h.body)[at]
  {
    hide PreImage;
    if Matches(lines, h) {
      forall at | 0 <= at < |PreImage(h.body)| ensures lines[Start(h) + at] == PreImage(h.body)[at] {
        assert lines[Start(h)..End(h)][at] == lines[Start(h) + at];
      }
    }
  }

  lemma EntryDiffers(lines: seq<string>, h: Hunk, j: nat, cursor: nat)
    requires j < |h.body| && MatchedTo(lines, h, j, cursor) && Consumes(h.body[j])
    requires cursor >= |lines| || lines[cursor] != Content(h.body[j])
    ensures !Matches(lines, h)
  {
    hide PreImage, PostImage, Consumes, Content, Matches;
    BodyGrows(h.body, j);
    PreImagePrefix(h.body, j + 1);
    var at := cursor - Start(h);
    assert PreImage(h.body[..j + 1])[at] == Content(h.body[j]);
    assert PreImage(h.body)[at] == Content(h.body[j]);
    MatchedLines(lines, h);
  }

  lemma MatchEnds(lines: seq<string>, h: Hunk, cursor: nat)
    requires MatchedTo(lines, h, |h.body|, cursor)
    ensures Matches(lines, h) && cursor == End(h) && h.body[..|h.body|] == h.body
  {
    assert h.body[..|h.body|] == h.body;
  }

  /** The inner loop: one hunk body against the file, entry by entry. */
  method ApplyBody(lines: seq<string>, h: Hunk) returns (r: Result<seq<string>, Failure>, cursor: nat)
    requires 0 <= Start(h) <= |lines|
    ensures r == if Matches(lines, h) then Ok(PostImage(h.body)) else Err(ContextMismatch)
    ensures r.Ok? ==> cursor == End(h) <= |lines|
  {
    hide MatchedTo, Matches, PreImage, PostImage, Content;
    var body := h.body;
    var result: seq<string> := [];
    cursor := Start(h);
    MatchStarts(lines, h);
    for j := 0 to |body|
      invariant MatchedTo(lines, h, j, cursor) && result == PostImage(body[..j])
    {
      BodyGrows(body, j);
      EntryMatches(lines, h, j, cursor);
      var entry := body[j];
      if Consumes(entry) {
        if cursor >= |lines| || lines[cursor] != Content(entry) {
          EntryDiffers(lines, h, j, cursor);
          return Err(ContextMismatch), cursor;
        }
        cursor := cursor + 1;
        if entry != "" && entry[0] == ' ' {
          result := result + [Content(entry)];
        }
      } else {
        result := result + [Content(entry)];
      }
    }
    MatchEnds(lines, h, cursor);
    WithinFile(lines, h);
    r := Ok(result);
  }

  lemma WithinFile(lines: seq<string>, h: Hunk)
    requires Matches(lines, h)
    ensures End(h) <= |lines|
  {
  }

  // ---- where every line of the result comes from ----------------------------------

  /** How far the hunks before position `i` have moved the rest of the file. */
  function Shift(hunks: seq<Hunk>, i: nat): int
    requires i <= |hunks|
  {
    if i == 0 then 0
    else Shift(hunks, i - 1) + |PostImage(hunks[i - 1].body)| - |PreImage(hunks[i - 1].body)|
  }

  lemma {:induction false} ShiftTail(hunks: seq<Hunk>, i: nat)
    requires 0 < i <= |hunks|
    ensures Shift(hunks, i) == |PostImage(hunks[0].body)| - |PreImage(hunks[0].body)| + Shift(hunks[1..], i - 1)
    decreases i
  {
    if i > 1 { ShiftTail(hunks, i - 1); }
  }

  /** The file's length changes by additions minus deletions. */
  lemma {:induction false} SpliceLength(lines: seq<string>, hunks: seq<Hunk>, cursor: nat)
    requires cursor <= |lines| && Splice(lines, hunks, cursor).Ok?
    ensures |Splice(lines, hunks, cursor).value| == |lines| - cursor + Shift(hunks, |hunks|)
    decreases |hunks|
  {
    if hunks != [] {
      SpliceLength(lines, hunks[1..], End(hunks[0]));
      ShiftTail(hunks, |hunks|);
    }
  }

  /** Every post-image sits at its hunk's start, moved by the hunks before it. */
  lemma {:induction false} PostImagePlaced(lines: seq<string>, hunks: seq<Hunk>, cursor: nat, i: nat)
    requires cursor <= |lines| && Splice(lines, hunks, cursor).Ok? && i < |hunks|
    ensures var r, at, post := Splice(lines, hunks, cursor).value,
        Start(hunks[i]) - cursor + Shift(hunks, i), PostImage(hunks[i].body);
      0 <= at <= at + |post| <= |r| && r[at..at + |post|] == post
    decreases i
  {
    hide Splice, PostImage, PreImage, Shift;
    FirstSpliced(lines, hunks, cursor);
    NoShift(hunks);
    var h, rest := hunks[0], hunks[1..];
    var head := lines[cursor..Start(h)] + PostImage(h.body);
    var tail := Splice(lines, rest, End(h)).value;
    var r := Splice(lines, hunks, cursor).value;
    if i == 0 {
      SliceOfHead(lines[cursor..Start(h)], PostImage(h.body), tail);
    } else {
      ShiftTail(hunks, i);
      PostImagePlaced(lines, rest, End(h), i - 1);
      var at, n := Start(rest[i - 1]) - End(h) + Shift(rest, i - 1), |PostImage(rest[i - 1].body)|;
      SliceOfTail(head, tail, at, at + n);
    }
  }

  lemma NoShift(hunks: seq<Hunk>)
    ensures Shift(hunks, 0) == 0
  {
  }

  lemma SliceOfHead<T>(a: seq<T>, b: seq<T>, c: seq<T>)
    ensures (a + b + c)[|a|..|a| + |b|] == b
  {
  }

  lemma SliceOfTail<T>(head: seq<T>, tail: seq<T>, i: nat, j: nat)
    requires i <= j <= |tail|
    ensures (head + tail)[|head| + i..|head| + j] == tail[i..j]
  {
  }

  /** A line outside every hunk is still there, moved by the hunks above it. */
  lemma {:induction false} GapKept(lines: seq<string>, hunks: seq<Hunk>, cursor: nat, i: nat, n: nat)
    requires cursor <= |lines| && Splice(lines, hunks, cursor).Ok? && i <= |hunks|
    requires cursor <= n < |lines|
    requires i > 0 ==> End(hunks[i - 1]) <= n
    requires i < |hunks| ==> n < Start(hunks[i])
    ensures var r, at := Splice(lines, hunks, cursor).value, n - cursor + Shift(hunks, i);
      0 <= at < |r| && r[at] == lines[n]
    decreases i
  {
    hide Splice, PostImage, PreImage, Shift;
    NoShift(hunks);
    if hunks == [] {
      NothingSpliced(lines, cursor);
    } else {
      FirstSpliced(lines, hunks, cursor);
    }
    if i > 0 {
      var h, rest := hunks[0], hunks[1..];
      SpliceOrdered(lines, hunks, cursor, i - 1);
      ShiftTail(hunks, i);
      GapKept(lines, rest, End(h), i - 1, n);
    }
  }

  lemma NothingSpliced(lines: seq<string>, cursor: nat)
    requires cursor <= |lines|
    ensures Splice(lines, [], cursor) == Ok(lines[cursor..])
  {
  }

  lemma {:induction false} SpliceOrdered(lines: seq<string>, hunks: seq<Hunk>, cursor: nat, i: nat)
    requires cursor <= |lines| && Splice(lines, hunks, cursor).Ok? && i < |hunks|
    ensures cursor <= Start(hunks[i]) && End(hunks[0]) <= End(hunks[i])
    decreases i
  {
    if i > 0 {
      assert hunks[i] == hunks[1..][i - 1];
      SpliceOrdered(lines, hunks[1..], End(hunks[0]), i - 1);
    }
  }

  // ---- the inverse patch ----------------------------------------------------------

  /** Deletions become additions and the other way round.  An empty entry deletes an
      empty line, so its inverse adds one. */
  function Swap(e: string): string {
    if e == "" then "+"
    else if e[0] == ' ' then e
    else if e[0] == '-' then "+" + e[1..]
    else "-" + e[1..]
  }

  function InvertBody(body: seq<string>): (r: seq<string>)
    ensures |r| == |body|
  {
    if body == [] then [] else InvertBody(body[..|body| - 1]) + [Swap(body[|body| - 1])]
  }

  /** Each start moves by what the earlier hunks did to the file's length. */
  function Invert(hunks: seq<Hunk>, shift: int): (r: seq<Hunk>)
    ensures |r| == |hunks|
  {
    if hunks == [] then []
    else
      var h := hunks[0];
      [Hunk(h.oldStart + shift, InvertBody(h.body))]
      + Invert(hunks[1..], shift + |PostImage(h.body)| - |PreImage(h.body)|)
  }

  lemma NothingInverted(shift: int)
    ensures Invert([], shift) == []
  {
  }

  lemma FirstInverted(hunks: seq<Hunk>, shift: int)
    requires hunks != []
    ensures var h := hunks[0];
      Invert(hunks, shift) == [Hunk(h.oldStart + shift, InvertBody(h.body))]
        + Invert(hunks[1..], shift + |PostImage(h.body)| - |PreImage(h.body)|)
  {
  }

  lemma SwapSwapsRoles(e: string)
    ensures (Consumes(Swap(e)) <==> Produces(e)) && (Produces(Swap(e)) <==> Consumes(e))
    ensures Content(Swap(e)) == Content(e)
  {
  }

  lemma {:induction false} InvertSwapsImages(body: seq<string>)
    ensures PreImage(InvertBody(body)) == PostImage(body)
    ensures PostImage(InvertBody(body)) == PreImage(body)
    decreases |body|
  {
    hide Swap, Consumes, Produces, Content;
    if body != [] {
      var front, e := body[..|body| - 1], body[|body| - 1];
      InvertSwapsImages(front);
      SwapSwapsRoles(e);
      assert InvertBody(body)[..|body| - 1] == InvertBody(front);
    }
  }

  lemma CutThree<T>(s: seq<T>, c: nat, a: seq<T>, b: seq<T>, d: seq<T>)
    requires c <= |s| && s[c..] == a + b + d
    ensures |s| == c + |a| + |b| + |d|
    ensures s[c..c + |a|] == a
    ensures s[c + |a|..c + |a| + |b|] == b
    ensures s[c + |a| + |b|..] == d
  {
    assert s[c..][..|a|] == a;
    assert s[c..][|a|..|a| + |b|] == b;
    assert s[c..][|a| + |b|..] == d;
  }

  /** One step of `Splice`, run forwards. */
  lemma SpliceStep(lines: seq<string>, h: Hunk, rest: seq<Hunk>, c: nat, tail: seq<string>)
    requires c <= |lines| && c <= Start(h) && Matches(lines, h)
    requires Splice(lines, rest, End(h)) == Ok(tail)
    ensures Splice(lines, [h] + rest, c) == Ok(lines[c..Start(h)] + PostImage(h.body) + tail)
  {
    assert ([h] + rest)[1..] == rest;
  }

  lemma {:induction false} InverseFrom(lines: seq<string>, hunks: seq<Hunk>, c: nat, patched: seq<string>, c': nat)
    requires c <= |lines| && c' <= |patched|
    requires Splice(lines, hunks, c) == Ok(patched[c'..])
    ensures Splice(patched, Invert(hunks, c' - c), c') == Ok(lines[c..])
    decreases |hunks|
  {
    hide Splice, PostImage, PreImage, InvertBody, Invert;
    if hunks == [] {
      NothingSpliced(lines, c);
      NothingSpliced(patched, c');
      NothingInverted(c' - c);
    } else {
      FirstSpliced(lines, hunks, c);
      var h := hunks[0];
      var shift := c' - c;
      var at, n := Start(h) + shift, |PostImage(h.body)|;
      var rest := Splice(lines, hunks[1..], End(h)).value;
      CutThree(patched, c', lines[c..Start(h)], PostImage(h.body), rest);
      InverseFrom(lines, hunks[1..], End(h), patched, at + n);
      var h' := Hunk(h.oldStart + shift, InvertBody(h.body));
      InvertSwapsImages(h.body);
      FirstInverted(hunks, shift);
      SpliceStep(patched, h', Invert(hunks[1..], at + n - End(h)), c', lines[End(h)..]);
      PasteThree(lines, c, Start(h), End(h));
    }
  }

  lemma PasteThree<T>(s: seq<T>, a: nat, b: nat, c: nat)
    requires a <= b <= c <= |s|
    ensures s[a..b] + s[b..c] + s[c..] == s[a..]
  {
  }

  /** A patch that applied is undone by its inverse: any hunks, any lines. */
  lemma InverseRestoresLines(lines: seq<string>, hunks: seq<Hunk>, patched: seq<string>)
    requires Splice(lines, hunks, 0) == Ok(patched)
    ensures Splice(patched, Invert(hunks, 0), 0) == Ok(lines)
  {
    assert patched[0..] == patched && lines[0..] == lines;
    InverseFrom(lines, hunks, 0, patched, 0);
  }

  /** A line after the last one changes nothing but the end of the result. */
  lemma {:induction false} ExtraLine(lines: seq<string>, x: string, hunks: seq<Hunk>, c: nat)
    requires c <= |lines| && Splice(lines, hunks, c).Ok?
    ensures Splice(lines + [x], hunks, c) == Ok(Splice(lines, hunks, c).value + [x])
    decreases |hunks|
  {
    if hunks == [] {
      assert (lines + [x])[c..] == lines[c..] + [x];
    } else {
      var h := hunks[0];
      assert (lines + [x])[Start(h)..End(h)] == lines[Start(h)..End(h)];
      assert (lines + [x])[c..Start(h)] == lines[c..Start(h)];
      ExtraLine(lines, x, hunks[1..], End(h));
      var gap, rest := lines[c..Start(h)], Splice(lines, hunks[1..], End(h)).value;
      assert gap + PostImage(h.body) + (rest + [x]) == gap + PostImage(h.body) + rest + [x];
    }
  }

  ghost predicate UnbrokenHunks(hunks: seq<Hunk>) {
    forall h | h in hunks :: Unbroken(h.body)
  }

  lemma {:induction false} PostImageUnbroken(body: seq<string>)
    requires Unbroken(body)
    ensures Unbroken(PostImage(body))
    decreases |body|
  {
    if body != [] {
      PostImageUnbroken(body[..|body| - 1]);
      assert body[|body| - 1] in body;
    }
  }

  lemma {:induction false} SpliceUnbroken(lines: seq<string>, hunks: seq<Hunk>, c: nat)
    requires c <= |lines| && Splice(lines, hunks, c).Ok? && Unbroken(lines) && UnbrokenHunks(hunks)
    ensures Unbroken(Splice(lines, hunks, c).value)
    decreases |hunks|
  {
    if hunks != [] {
      assert hunks[0] in hunks;
      PostImageUnbroken(hunks[0].body);
      SpliceUnbroken(lines, hunks[1..], End(hunks[0]));
    }
  }

  /** The last line of the patched file: the file's own when no hunk reaches its end, else
      the last line the last hunk keeps or adds, else what was last before that hunk. */
  function LastLine(lines: seq<string>, hunks: seq<Hunk>): Option<string>
    decreases |hunks|
  {
    if hunks == [] then (if lines == [] then None else Some(lines[|lines| - 1]))
    else
      var h := hunks[|hunks| - 1];
      var post := PostImage(h.body);
      if lines != [] && End(h) < |lines| then Some(lines[|lines| - 1])
      else if post != [] then Some(post[|post| - 1])
      else if 0 <= Start(h) <= |lines| then LastLine(lines[..Start(h)], hunks[..|hunks| - 1])
      else None
  }

  /** The patched lines survive being written and read back: a terminated file keeps a
      line, an unterminated one does not come to end in an empty line. */
  predicate Faithful(original: string, hunks: seq<Hunk>) {
    var lines := SplitLines(original);
    if EndsWithNewline(original) then |lines| + Shift(hunks, |hunks|) > 0 else LastLine(lines, hunks) != Some("")
  }

  lemma {:induction false} LastSpliced(lines: seq<string>, hunks: seq<Hunk>, h: Hunk, c: nat)
    requires c <= |lines| && Splice(lines, hunks + [h], c).Ok?
    ensures c <= Start(h) && Matches(lines, h) && Splice(lines[..Start(h)], hunks, c).Ok?
    ensures Splice(lines, hunks + [h], c).value
      == Splice(lines[..Start(h)], hunks, c).value + PostImage(h.body) + lines[End(h)..]
    decreases |hunks|
  {
    hide Splice, PostImage, PreImage;
    var all := hunks + [h];
    FirstSpliced(lines, all, c);
    if hunks == [] {
      assert all[0] == h && all[1..] == [];
      NothingSpliced(lines, End(h));
      var upTo := lines[..Start(h)];
      NothingSpliced(upTo, c);
      assert upTo[c..] == lines[c..Start(h)];
    } else {
      var first, rest := hunks[0], hunks[1..];
      assert all[0] == first && all[1..] == rest + [h];
      LastSpliced(lines, rest, h, End(first));
      var upTo := lines[..Start(h)];
      assert upTo[Start(first)..End(first)] == lines[Start(first)..End(first)];
      assert upTo[c..Start(first)] == lines[c..Start(first)];
      SpliceStep(upTo, first, rest, c, Splice(upTo, rest, End(first)).value);
      assert [first] + rest == hunks;
      Regroup4(lines[c..Start(first)] + PostImage(first.body), Splice(upTo, rest, End(first)).value,
               PostImage(h.body), lines[End(h)..]);
    }
  }

  lemma Regroup4<T>(a: seq<T>, b: seq<T>, c: seq<T>, d: seq<T>)
    ensures a + (b + c + d) == a + b + c + d
  {
  }

  lemma {:induction false} LastLineIs(lines: seq<string>, hunks: seq<Hunk>)
    requires Splice(lines, hunks, 0).Ok?
    ensures var r := Splice(lines, hunks, 0).value;
      LastLine(lines, hunks) == if r == [] then None else Some(r[|r| - 1])
    decreases |hunks|
  {
    hide Splice, PostImage, PreImage;
    if hunks == [] {
      NothingSpliced(lines, 0);
    } else {
      var front, h := hunks[..|hunks| - 1], hunks[|hunks| - 1];
      assert hunks == front + [h];
      LastSpliced(lines, front, h, 0);
      LastLineIs(lines[..Start(h)], front);
    }
  }

  predicate Survives(terminated: bool, patched: seq<string>) {
    if terminated then patched != [] else patched == [] || patched[|patched| - 1] != ""
  }

  lemma FaithfulSurvives(original: string, hunks: seq<Hunk>)
    requires Splice(SplitLines(original), hunks, 0).Ok?
    ensures Faithful(original, hunks)
      <==> Survives(EndsWithNewline(original), Splice(SplitLines(original), hunks, 0).value)
  {
    hide Splice, SplitLines, LastLine, Shift, EndsWithNewline;
    SpliceLength(SplitLines(original), hunks, 0);
    LastLineIs(SplitLines(original), hunks);
  }

  /** On texts the inverse patch restores the original exactly when the patched
      lines are faithful. */
  lemma InverseRestoresText(original: string, hunks: seq<Hunk>)
    requires UnbrokenHunks(hunks) && Splice(SplitLines(original), hunks, 0).Ok?
    ensures Patched(Patched(original, hunks).value, Invert(hunks, 0)) == Ok(original)
      <==> Faithful(original, hunks)
  {
    hide Split, Join, SplitLines, Splice, EndsWithNewline, Invert, Faithful;
    FaithfulSurvives(original, hunks);
    var lines := SplitLines(original);
    var r := Splice(lines, hunks, 0).value;
    LinesDetermineText(original);
    SpliceUnbroken(lines, hunks, 0);
    InverseRestoresLines(lines, hunks, r);
    if EndsWithNewline(original) {
      UndoTerminated(lines, r, Invert(hunks, 0));
    } else {
      UndoUnterminated(lines, r, Invert(hunks, 0));
      assert original == Join(lines) && Patched(original, hunks) == Ok(Join(r)) by {
        assert Join(lines) + "" == Join(lines) && Join(r) + "" == Join(r);
      }
    }
  }

  /** A file emptied by its patch is not restored: what is written is a lone newline,
      which reads back as an empty line. */
  lemma EmptiedFileIsNotRestored(x: string)
    requires '\n' !in x
    ensures var hunks := [Hunk(1, ["-" + x])];
      Patched(x + "\n", hunks) == Ok("\n") && Patched("\n", Invert(hunks, 0)) != Ok(x + "\n")
  {
    hide Split, Splice, Invert;
    var hunks := [Hunk(1, ["-" + x])];
    SplitLinesTerminated([x]);
    RemovesOnly(x);
    assert Join([]) + "\n" == "\n";
    InverseRestoresText(x + "\n", hunks);
  }

  lemma RemovesOnly(x: string)
    ensures var hunks := [Hunk(1, ["-" + x])];
      Splice([x], hunks, 0) == Ok([]) && Shift(hunks, 1) == -1 && ('\n' !in x ==> UnbrokenHunks(hunks))
  {
    var h := Hunk(1, ["-" + x]);
    assert h.body[..0] == [] && ("-" + x)[1..] == x;
    assert PreImage(h.body) == [x] && PostImage(h.body) == [];
    assert Matches([x], h);
    assert [h][1..] == [] && [x][1..] == [];
  }

  lemma UndoTerminated(lines: seq<string>, r: seq<string>, inv: seq<Hunk>)
    requires Unbroken(r) && lines != [] && Splice(r, inv, 0) == Ok(lines)
    ensures Patched(Join(r) + "\n", inv) == Ok(Join(lines) + "\n") <==> r != []
  {
    if r == [] {
      LoneNewline();
      assert Join(r) + "\n" == "\n" && r + [""] == [""];
      ExtraLine(r, "", inv, 0);
      JoinSnocEmpty(lines);
    } else {
      SplitLinesTerminated(r);
    }
  }

  lemma LoneNewline()
    ensures SplitLines("\n") == [""]
  {
    assert "\n"[1..] == "";
    assert Split("\n") == ["", ""];
  }

  lemma UndoUnterminated(lines: seq<string>, r: seq<string>, inv: seq<Hunk>)
    requires Unbroken(r) && Splice(r, inv, 0) == Ok(lines)
    requires lines != [] ==> lines[|lines| - 1] != ""
    ensures Patched(Join(r), inv) == Ok(Join(lines)) <==> r == [] || r[|r| - 1] != ""
  {
    hide Split, Join, SplitLines, Splice, EndsWithNewline;
    SplitLinesJoined(r);
    if r != [] && r[|r| - 1] == "" {
      NeverShortened(lines, r[..|r| - 1], r, inv);
    } else {
      NoFinalNewline(r);
      assert Join(lines) + "" == Join(lines);
    }
  }

  lemma NeverShortened(lines: seq<string>, short: seq<string>, r: seq<string>, inv: seq<Hunk>)
    requires r == short + [""] && Splice(r, inv, 0) == Ok(lines)
    requires lines != [] ==> lines[|lines| - 1] != ""
    ensures Splice(short, inv, 0).Err?
  {
    if Splice(short, inv, 0).Ok? {
      ExtraLine(short, "", inv, 0);
    }
  }

  lemma NoFinalNewline(ls: seq<string>)
    requires Unbroken(ls) && (ls == [] || ls[|ls| - 1] != "")
    ensures !EndsWithNewline(Join(ls))
  {
    if ls != [] {
      SplitJoin(ls);
      LastPieceEmpty(Join(ls));
    }
  }
}
