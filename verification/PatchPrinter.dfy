/** Printing a list of file patches as a unified diff, with any names, counts and text
    around what the program keeps, and exactly when the parser reads it back. */
module PatchPrinter {
  import opened Text
  import opened Hunks
  import opened PatchParser
  import opened PatchHeaders

  // ---- the hunk header --------------------------------------------------------------

  /** The parts of a hunk header the program does not keep. */
  datatype HunkLayout = HunkLayout(oldCount: Option<nat>, newStart: nat, newCount: Option<nat>, section: string)

  function Count(c: Option<nat>): string {
    if c.Some? then "," + Decimal(c.value) else ""
  }

  function HeaderLine(start: nat, l: HunkLayout): string {
    "@@ -" + (Decimal(start) + (Count(l.oldCount)
      + (" +" + (Decimal(l.newStart) + (Count(l.newCount) + (" @@" + l.section))))))
  }

  lemma CountIs(c: Option<nat>)
    ensures CountPart(Count(c))
  {
    if c.Some? {
      assert Count(c)[1..] == Decimal(c.value);
      DigitsAre(Decimal(c.value));
    }
  }

  lemma ParsePrintedHeader(start: nat, l: HunkLayout)
    ensures ParseHeader(HeaderLine(start, l)) == Some(start)
    ensures StartsWith(HeaderLine(start, l), "@@")
  {
    hide Number, Decimal, Count, ParseHeader;
    CountIs(l.oldCount);
    CountIs(l.newCount);
    DigitsAre(Decimal(start));
    DigitsAre(Decimal(l.newStart));
    NumberOfDecimal(start);
    HeaderRead(HeaderLine(start, l), Decimal(start), Count(l.oldCount), Decimal(l.newStart), Count(l.newCount), l.section);
  }

  // ---- documents --------------------------------------------------------------------

  /** One file's part of a diff: the patch, how its names and hunk headers were laid out,
      and the lines (such as "diff --git") before the next file's part. */
  datatype Section = Section(patch: FilePatch, names: FileLayout, layouts: seq<HunkLayout>, noise: seq<string>)

  function HunkLines(hunks: seq<Hunk>, layouts: seq<HunkLayout>): seq<string>
    requires |layouts| == |hunks| && forall h | h in hunks :: h.oldStart >= 0
  {
    if hunks == [] then []
    else [HeaderLine(hunks[0].oldStart, layouts[0])] + hunks[0].body + HunkLines(hunks[1..], layouts[1..])
  }

  /** Not both created and deleted, and nothing in the noise is a file header. */
  ghost predicate WellFormed(s: Section) {
    && !(s.patch.create && s.patch.delete)
    && LaidOut(s.patch.path, s.names.oldName) && LaidOut(s.patch.path, s.names.newName)
    && (forall h | h in s.patch.hunks :: h.oldStart >= 0) && |s.layouts| == |s.patch.hunks|
    && NoHeader(s.noise)
  }

  ghost predicate NoHeader(ls: seq<string>) {
    forall l | l in ls :: !StartsWith(l, "--- ")
  }

  ghost function Lines(doc: seq<Section>): seq<string>
    requires forall s | s in doc :: WellFormed(s)
  {
    if doc == [] then []
    else
      var s := doc[0];
      assert WellFormed(s) by { assert s in doc; }
      [OldHeader(s.patch, s.names), NewHeader(s.patch, s.names)]
      + (HunkLines(s.patch.hunks, s.layouts) + (s.noise + Lines(doc[1..])))
  }

  function Patches(doc: seq<Section>): (r: seq<FilePatch>)
    ensures |r| == |doc|
  {
    if doc == [] then [] else [doc[0].patch] + Patches(doc[1..])
  }

  // ---- hunks read back -----------------------------------------------------------------

  ghost predicate KeepsBody(body: seq<string>) {
    forall e | e in body :: BodyLine(e)
  }

  /** Does a body end before `rest`?  The parser ignores the counts of the header, so a
      line that passes its guard is taken into the hunk. */
  predicate EndsBefore(rest: seq<string>) {
    rest == [] || !BodyLine(rest[0])
  }

  lemma {:induction false} TakeBodyOf(body: seq<string>, rest: seq<string>)
    ensures TakeBody(body + rest) == body <==> KeepsBody(body) && EndsBefore(rest)
    decreases |body|
  {
    hide BodyLine;
    if body == [] {
      assert body + rest == rest;
    } else {
      var t := body[1..];
      assert (body + rest)[0] == body[0] && (body + rest)[1..] == t + rest;
      TakeBodyOf(t, rest);
      assert body == [body[0]] + t;
    }
  }

  ghost predicate KeepsHunks(hunks: seq<Hunk>) {
    forall h | h in hunks :: KeepsBody(h.body)
  }

  lemma HeaderEndsBody(start: nat, l: HunkLayout)
    ensures !BodyLine(HeaderLine(start, l))
  {
    ParsePrintedHeader(start, l);
  }

  /** `rest` starts no further hunk and, behind a hunk, is not taken into it. */
  predicate Behind(hunks: seq<Hunk>, rest: seq<string>) {
    (rest == [] || !StartsWith(rest[0], "@@")) && (hunks == [] || EndsBefore(rest))
  }

  /** Printed hunks: the parser returns them exactly when every body line passes its guard
      and the first line behind them does not; and then it leaves the rest. */
  lemma {:induction false} HunksReadBack(hunks: seq<Hunk>, layouts: seq<HunkLayout>, rest: seq<string>)
    requires |layouts| == |hunks| && (forall h | h in hunks :: h.oldStart >= 0)
    ensures var r := HunksOf(HunkLines(hunks, layouts) + rest);
      && (r.Ok? && r.value.0 == hunks <==> KeepsHunks(hunks) && Behind(hunks, rest))
      && (r.Ok? && r.value.0 == hunks ==> r.value.1 == rest)
    decreases |hunks|
  {
    hide ParseHeader, TakeBody, BodyLine, StartsWith, HeaderLine, HunkLines, HunksOf, EndsBefore, Behind, KeepsBody;
    if hunks == [] {
      NoHunks(layouts, rest);
    } else {
      var h, header, tail := hunks[0], HeaderLine(hunks[0].oldStart, layouts[0]), hunks[1..];
      var behind := HunkLines(tail, layouts[1..]) + rest;
      var more := h.body + behind;
      FirstHunkLines(hunks, layouts, rest);
      ParsePrintedHeader(h.oldStart, layouts[0]);
      BehindFirst(hunks, layouts, rest);
      TakeBodyOf(h.body, behind);
      OneHunk(header, h.oldStart, more);
      KeepsTail(hunks);
      HunksReadBack(tail, layouts[1..], rest);
      assert more[|h.body|..] == behind;
      PrependOne(Hunk(h.oldStart, TakeBody(more)), HunksOf(more[|TakeBody(more)|..]), h, tail);
      assert [h] + tail == hunks;
    }
  }

  lemma PrependOne(h: Hunk, r: Parsed<seq<Hunk>>, first: Hunk, tail: seq<Hunk>)
    ensures var all := PrependHunks([h], r);
      && (all.Ok? <==> r.Ok?)
      && (r.Ok? ==> all.value.1 == r.value.1)
      && (r.Ok? ==> (all.value.0 == [first] + tail <==> h == first && r.value.0 == tail))
  {
    if r.Ok? {
      assert ([h] + r.value.0)[0] == h && ([h] + r.value.0)[1..] == r.value.0;
      assert ([first] + tail)[0] == first && ([first] + tail)[1..] == tail;
    }
  }

  lemma BehindFirst(hunks: seq<Hunk>, layouts: seq<HunkLayout>, rest: seq<string>)
    requires hunks != [] && |layouts| == |hunks| && forall h | h in hunks :: h.oldStart >= 0
    ensures Behind(hunks, rest)
      <==> EndsBefore(HunkLines(hunks[1..], layouts[1..]) + rest) && Behind(hunks[1..], rest)
  {
    hide BodyLine, HeaderLine;
    var tail := hunks[1..];
    if tail == [] {
      assert HunkLines(tail, layouts[1..]) + rest == rest;
    } else {
      HeaderEndsBody(tail[0].oldStart, layouts[1]);
    }
  }

  lemma OneHunk(header: string, start: nat, more: seq<string>)
    requires StartsWith(header, "@@") && ParseHeader(header) == Some(start)
    ensures var body := TakeBody(more);
      HunksOf([header] + more) == PrependHunks([Hunk(start, body)], HunksOf(more[|body|..]))
  {
    var ls, n := [header] + more, |TakeBody(more)|;
    assert ls[1..] == more && ls[1 + n..] == more[n..];
  }

  lemma FirstHunkLines(hunks: seq<Hunk>, layouts: seq<HunkLayout>, rest: seq<string>)
    requires hunks != [] && |layouts| == |hunks| && forall h | h in hunks :: h.oldStart >= 0
    ensures HunkLines(hunks, layouts) + rest
      == [HeaderLine(hunks[0].oldStart, layouts[0])]
         + (hunks[0].body + (HunkLines(hunks[1..], layouts[1..]) + rest))
  {
    hide HeaderLine;
    Regroup([HeaderLine(hunks[0].oldStart, layouts[0])], hunks[0].body, HunkLines(hunks[1..], layouts[1..]), rest);
  }

  lemma NoHunks(layouts: seq<HunkLayout>, rest: seq<string>)
    requires layouts == []
    ensures HunkLines([], layouts) + rest == rest
    ensures Behind([], rest) ==> HunksOf(rest) == Ok(([], rest))
    ensures !Behind([], rest) && HunksOf(rest).Ok? ==> HunksOf(rest).value.0 != []
  {
    hide ParseHeader, TakeBody;
  }

  lemma KeepsTail(hunks: seq<Hunk>)
    requires hunks != []
    ensures KeepsHunks(hunks) <==> KeepsBody(hunks[0].body) && KeepsHunks(hunks[1..])
  {
    assert forall h | h in hunks :: h == hunks[0] || h in hunks[1..];
  }

  // ---- sections read back ---------------------------------------------------------------

  lemma {:induction false} NoiseSkipped(noise: seq<string>, rest: seq<string>)
    requires NoHeader(noise)
    ensures SectionsOf(noise + rest) == SectionsOf(rest)
    decreases |noise|
  {
    if noise == [] {
      assert noise + rest == rest;
    } else {
      assert (noise + rest)[1..] == noise[1..] + rest;
      NoiseSkipped(noise[1..], rest);
    }
  }

  lemma FileHeaderStops(l: string)
    requires StartsWith(l, "--- ")
    ensures !BodyLine(l) && !StartsWith(l, "@@")
  {
    assert l[..4][0] == l[0] && l[..2][0] == l[0];
  }

  /** The next section's header ends a hunk, so only noise can run into it. */
  lemma SectionStops(hunks: seq<Hunk>, noise: seq<string>, doc: seq<Section>)
    requires forall s | s in doc :: WellFormed(s)
    ensures Behind(hunks, noise + Lines(doc)) <==> Behind(hunks, noise)
  {
    hide BodyLine, HunkLines, OldHeader, NewHeader;
    if noise == [] && doc != [] {
      assert doc[0] in doc;
      var header := OldHeader(doc[0].patch, doc[0].names);
      HeaderNames(doc[0].patch, doc[0].names);
      FileHeaderStops(header);
      assert (noise + Lines(doc))[0] == header;
    } else if noise == [] {
      assert noise + Lines(doc) == [];
    }
  }

  /** What a writer of the text can check: names that are kept, body lines that pass the
      guard, and no line behind the hunks that does, or that starts another. */
  ghost predicate Readable(s: Section) {
    HeadersKept(s.patch, s.names) && KeepsHunks(s.patch.hunks) && Behind(s.patch.hunks, s.noise)
  }

  /** The parser returns the printed patches exactly when every section is readable. */
  lemma {:induction false} SectionsReadBack(doc: seq<Section>)
    requires forall s | s in doc :: WellFormed(s)
    ensures SectionsOf(Lines(doc)) == Ok(Patches(doc)) <==> forall s | s in doc :: Readable(s)
    decreases |doc|
  {
    hide HunksOf, HunkLines, KeepsHunks, OldHeader, NewHeader, HeadersKept, Behind, HeadersRead, LaidOut;
    if doc != [] {
      var s, more := doc[0], doc[1..];
      assert WellFormed(s) by { assert s in doc; }
      var tail := s.noise + Lines(more);
      var ls := Lines(doc);
      assert ls[2..] == HunkLines(s.patch.hunks, s.layouts) + tail;
      SectionStops(s.patch.hunks, s.noise, more);
      HunksReadBack(s.patch.hunks, s.layouts, tail);
      NoiseSkipped(s.noise, Lines(more));
      SectionsReadBack(more);
      FirstSection(s, ls);
      ReadableFirst(doc);
      var hunks := HunksOf(ls[2..]);
      if hunks.Ok? {
        var read := HeadersRead(s.patch, s.names, hunks.value.0);
        ComparePrepended(read, s.patch, SectionsOf(hunks.value.1), Patches(more));
        OnePatch(s, hunks.value.0);
      }
    }
  }

  lemma OnePatch(s: Section, hunks: seq<Hunk>)
    requires WellFormed(s)
    ensures HeadersRead(s.patch, s.names, hunks) == s.patch
      <==> HeadersKept(s.patch, s.names) && hunks == s.patch.hunks
  {
    hide HeadersKept, OldHeader, NewHeader, Strip, LaidOut;
    HeadersReadBack(s.patch, s.names, hunks);
    assert HeadersRead(s.patch, s.names, hunks).hunks == hunks;
  }

  lemma ComparePrepended(p: FilePatch, q: FilePatch, r: Result<seq<FilePatch>, Failure>, rest: seq<FilePatch>)
    ensures PrependPatches([p], r) == Ok([q] + rest) <==> p == q && r == Ok(rest)
  {
    if r.Ok? {
      assert ([p] + r.value)[0] == p && ([q] + rest)[0] == q;
      assert ([p] + r.value)[1..] == r.value && ([q] + rest)[1..] == rest;
    }
  }

  lemma ReadableFirst(doc: seq<Section>)
    requires doc != []
    ensures (forall s | s in doc :: Readable(s)) <==> Readable(doc[0]) && forall s | s in doc[1..] :: Readable(s)
  {
    hide Readable;
    assert forall x | x in doc :: x == doc[0] || x in doc[1..];
  }

  lemma FirstSection(s: Section, ls: seq<string>)
    requires |ls| >= 2 && ls[0] == OldHeader(s.patch, s.names) && ls[1] == NewHeader(s.patch, s.names)
    ensures var hunks := HunksOf(ls[2..]);
      SectionsOf(ls) == if hunks.Err? then Err(hunks.error)
                        else PrependPatches([HeadersRead(s.patch, s.names, hunks.value.0)], SectionsOf(hunks.value.1))
  {
    hide HunksOf, OldHeader, NewHeader, Strip, SectionPatch;
    HeaderNames(s.patch, s.names);
  }

  /** Parsing undoes printing, whatever the layout and the lines between sections, exactly
      when every section is readable. */
  lemma ParseUndoesPrint(leading: seq<string>, doc: seq<Section>)
    requires doc != [] && forall s | s in doc :: WellFormed(s)
    requires NoHeader(leading) && Unbroken(leading + Lines(doc))
    ensures ParsedPatch(Join(leading + Lines(doc)) + "\n") == Ok(Patches(doc)) <==> forall s | s in doc :: Readable(s)
  {
    hide SectionsOf, Readable, WellFormed, Split;
    SplitLinesTerminated(leading + Lines(doc));
    NoiseSkipped(leading, Lines(doc));
    SectionsReadBack(doc);
  }

  // ---- sections that are not read back ------------------------------------------------

  const GIT := FileLayout(NameLayout("a/", ""), NameLayout("b/", ""))

  /** The guard loses patches: deleting the line "-- x" prints as "--- x", which the
      parser takes for the next file header. */
  lemma DashLineIsLost()
    ensures var patch := FilePatch("f", false, false, [Hunk(1, ["--- x"])]);
      var doc := [Section(patch, GIT, [HunkLayout(None, 1, None, "")], [])];
      WellFormed(doc[0]) && ParsedPatch(Join(Lines(doc)) + "\n") != Ok(Patches(doc))
  {
    hide HeaderLine, ParsedPatch, KeepsHunks, OldHeader, NewHeader, HeadersKept, Behind;
    var hunk, layout := Hunk(1, ["--- x"]), HunkLayout(None, 1, None, "");
    var patch := FilePatch("f", false, false, [hunk]);
    var doc := [Section(patch, GIT, [layout], [])];
    ShortNames(patch);
    OneSectionLines(doc[0]);
    HeaderIsOneLine(1, layout);
    OneHunkLines(hunk, layout);
    DashLineEndsBody(hunk);
    assert hunk in doc[0].patch.hunks && doc[0] in doc;
    assert [] + Lines(doc) == Lines(doc);
    ParseUndoesPrint([], doc);
  }

  lemma ShortNames(p: FilePatch)
    requires p.path == "f" && !p.create && !p.delete
    ensures '\n' !in OldHeader(p, GIT) && '\n' !in NewHeader(p, GIT)
  {
  }

  lemma OneSectionLines(s: Section)
    requires WellFormed(s) && s.noise == []
    ensures Lines([s])
      == [OldHeader(s.patch, s.names), NewHeader(s.patch, s.names)] + HunkLines(s.patch.hunks, s.layouts)
  {
    assert [s][1..] == [];
    assert Lines([]) == [];
  }

  lemma OneHunkLines(h: Hunk, l: HunkLayout)
    requires h.oldStart >= 0
    ensures HunkLines([h], [l]) == [HeaderLine(h.oldStart, l)] + h.body
  {
    assert [h][1..] == [] && [l][1..] == [];
    assert HunkLines([], []) == [];
  }

  lemma DashLineEndsBody(h: Hunk)
    requires h.body == ["--- x"]
    ensures !KeepsBody(h.body) && !KeepsHunks([h])
  {
    assert "--- x"[..4] == "--- ";
    assert h.body[0] in h.body;
    assert h in [h];
  }

  lemma HeaderIsOneLine(start: nat, l: HunkLayout)
    requires l == HunkLayout(None, start, None, "")
    ensures '\n' !in HeaderLine(start, l)
  {
    assert forall c | c in Decimal(start) :: IsDigit(c);
  }

  /** A line that passes the guard behind the last hunk becomes its last line, and the
      parser goes on behind it: here `after` is what stops it. */
  lemma LineIsTaken(start: nat, l: HunkLayout, body: seq<string>, line: string, after: seq<string>)
    requires KeepsBody(body) && BodyLine(line) && Behind([Hunk(start, body)], after)
    ensures HunksOf([HeaderLine(start, l)] + body + [line] + after) == Ok(([Hunk(start, body + [line])], after))
  {
    hide HeaderLine, BodyLine, Behind, HunksOf, HunkLines;
    var longer := Hunk(start, body + [line]);
    OneHunkLines(longer, l);
    assert [HeaderLine(start, l)] + body + [line] + after == HunkLines([longer], [l]) + after;
    assert KeepsBody(longer.body);
    BehindOne(start, body, longer.body, after);
    HunksReadBack([longer], [l], after);
  }

  lemma BehindOne(start: nat, body: seq<string>, longer: seq<string>, after: seq<string>)
    requires Behind([Hunk(start, body)], after)
    ensures Behind([Hunk(start, longer)], after)
  {
  }

  /** A blank line behind a complete hunk deletes an empty line of the file. */
  lemma BlankLineIsTaken(a: string, b: string, l: HunkLayout)
    requires !StartsWith(a, "-- ")
    ensures var hunk := Hunk(1, ["-" + a]);
      var taken := Hunk(1, hunk.body + [""]);
      && HunksOf([HeaderLine(1, l)] + hunk.body + [""] + []) == Ok(([taken], []))
      && Splice([a, "", b], [hunk], 0) == Ok(["", b])
      && Splice([a, "", b], [taken], 0) == Ok([b])
  {
    hide HeaderLine, HunksOf, BodyLine, Splice, PreImage, PostImage;
    var hunk := Hunk(1, ["-" + a]);
    var taken := Hunk(1, hunk.body + [""]);
    Deletion(a);
    BlankDeleted(hunk.body);
    BlankPasses();
    LineIsTaken(1, l, hunk.body, "", []);
    var file := [a, "", b];
    assert file[0..1] == [a] && file[0..2] == [a, ""];
    assert file[1..] == ["", b] && file[2..] == [b];
    RemovedAtStart(file, hunk);
    RemovedAtStart(file, taken);
  }

  lemma Deletion(a: string)
    requires !StartsWith(a, "-- ")
    ensures KeepsBody(["-" + a]) && PreImage(["-" + a]) == [a] && PostImage(["-" + a]) == []
  {
    var e := "-" + a;
    assert e[1..] == a;
    SameAfterFirst(e, "--- ");
    assert "--- "[1..] == "-- ";
    OtherFirst(e, "@@");
    var body := [e];
    assert body[..0] == [] && BodyLine(e);
    assert PreImage(body) == [a] && PostImage(body) == [];
  }

  lemma BlankPasses()
    ensures BodyLine("")
  {
  }

  lemma BlankDeleted(body: seq<string>)
    ensures PreImage(body + [""]) == PreImage(body) + [""] && PostImage(body + [""]) == PostImage(body)
  {
    assert (body + [""])[..|body|] == body;
  }

  lemma RemovedAtStart(file: seq<string>, h: Hunk)
    requires h.oldStart == 1 && PreImage(h.body) <= file && PostImage(h.body) == []
    ensures Splice(file, [h], 0) == Ok(file[|PreImage(h.body)|..])
  {
    hide PreImage, PostImage;
    assert file[0..End(h)] == PreImage(h.body) && Matches(file, h);
    assert [h][1..] == [] && file[0..0] == [];
    var none, rest: seq<string> := [], file[End(h)..];
    assert Splice(file, [], End(h)) == Ok(rest) && none + none + rest == rest;
  }

  /** The line "-- " in front of the version number that ends a mailed patch is taken for
      the deletion of a line "- ": the hunk then asks the file for one line more. */
  lemma SignatureIsTaken(start: nat, l: HunkLayout, body: seq<string>, version: string)
    requires KeepsBody(body) && version != "" && IsDigit(version[0])
    ensures HunksOf([HeaderLine(start, l)] + body + ["-- "] + [version])
      == Ok(([Hunk(start, body + ["-- "])], [version]))
    ensures PreImage(body + ["-- "]) == PreImage(body) + ["- "] && PostImage(body + ["-- "]) == PostImage(body)
  {
    hide HeaderLine, HunksOf, PreImage, PostImage;
    Signature(version);
    assert Behind([Hunk(start, body)], [version]);
    LineIsTaken(start, l, body, "-- ", [version]);
    SignatureDeleted(body);
  }

  lemma Signature(version: string)
    requires version != "" && IsDigit(version[0])
    ensures BodyLine("-- ") && !BodyLine(version) && !StartsWith(version, "@@")
  {
    OtherFirst("-- ", "@@");
    OtherFirst(version, "@@");
  }

  lemma SignatureDeleted(body: seq<string>)
    ensures PreImage(body + ["-- "]) == PreImage(body) + ["- "] && PostImage(body + ["-- "]) == PostImage(body)
  {
    var e := "-- ";
    assert (body + [e])[..|body|] == body && e[1..] == "- ";
  }
}
