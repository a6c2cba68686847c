/** Reading a unified diff (src/limpiador/tools/fs_tools.py, `_parse_hunk` and
    `_parse_patch`).  The format is the "Diff -u or -U Output Format" of the `diff`
    utility, IEEE Std 1003.1-2017. */
module PatchParser {
  import opened Text
  import opened Hunks

  datatype FilePatch = FilePatch(path: string, create: bool, delete: bool, hunks: seq<Hunk>)

  // ---- the hunk header: ^@@ -(\d+)(?:,\d+)? \+\d+(?:,\d+)? @@ ---------------------

  function LeadingDigits(s: string): (n: nat)
    ensures n <= |s|
    ensures forall i | 0 <= i < n :: IsDigit(s[i])
    ensures n < |s| ==> !IsDigit(s[n])
  {
    if s == "" || !IsDigit(s[0]) then 0 else 1 + LeadingDigits(s[1..])
  }

  /** What is left after an optional ",count". */
  function SkipCount(s: string): string {
    if s != "" && s[0] == ',' && LeadingDigits(s[1..]) > 0 then s[1 + LeadingDigits(s[1..])..] else s
  }

  /** The captured old start, or None when the line is no hunk header. */
  function ParseHeader(line: string): Option<nat> {
    if !StartsWith(line, "@@ -") then None
    else
      var r := line[4..];
      var n := LeadingDigits(r);
      if n == 0 then None
      else
        var new_ := SkipCount(r[n..]);
        if !StartsWith(new_, " +") || LeadingDigits(new_[2..]) == 0 then None
        else if !StartsWith(SkipCount(new_[2 + LeadingDigits(new_[2..])..]), " @@") then None
        else Some(Number(r[..n]))
  }

  // ---- which lines are hunk headers ------------------------------------------------------

  predicate Digits(d: string) {
    d != "" && forall i | 0 <= i < |d| :: d[i] in "0123456789"
  }

  predicate CountPart(c: string) {
    c != "" ==> c[0] == ',' && Digits(c[1..])
  }

  /** "@@ -", the old start, perhaps a comma and a count, " +", the new start, perhaps a
      comma and a count, " @@" and anything. */
  predicate HeaderForm(line: string, start: string, count: string, newStart: string, newCount: string, rest: string) {
    && Digits(start) && CountPart(count) && Digits(newStart) && CountPart(newCount)
    && line == "@@ -" + (start + (count + (" +" + (newStart + (newCount + (" @@" + rest))))))
  }

  lemma DigitIs(c: char)
    ensures IsDigit(c) <==> c in "0123456789"
  {
  }

  lemma DigitsAre(d: string)
    ensures (forall i | 0 <= i < |d| :: IsDigit(d[i])) <==> forall i | 0 <= i < |d| :: d[i] in "0123456789"
  {
    hide IsDigit;
    forall i | 0 <= i < |d| ensures IsDigit(d[i]) <==> d[i] in "0123456789" {
      DigitIs(d[i]);
    }
  }

  lemma {:induction false} LeadingDigitsOf(d: string, rest: string)
    requires forall i | 0 <= i < |d| :: IsDigit(d[i])
    requires rest == "" || !IsDigit(rest[0])
    ensures LeadingDigits(d + rest) == |d|
    decreases |d|
  {
    if d == "" {
      assert d + rest == rest;
    } else {
      assert (d + rest)[1..] == d[1..] + rest;
      LeadingDigitsOf(d[1..], rest);
    }
  }

  lemma SkipCountOf(c: string, rest: string)
    requires CountPart(c) && rest != "" && rest[0] == ' '
    ensures SkipCount(c + rest) == rest && (c + rest)[0] in " ,"
  {
    if c != "" {
      var d, s := c[1..], c + rest;
      DigitsAre(d);
      assert s[1..] == d + rest;
      LeadingDigitsOf(d, rest);
      assert s[1 + |d|..] == rest;
    } else {
      assert c + rest == rest;
    }
  }

  /** Digits and an optional count before a blank. */
  lemma RangeRead(d: string, c: string, rest: string)
    requires Digits(d) && CountPart(c) && rest != "" && rest[0] == ' '
    ensures var s := d + (c + rest);
      LeadingDigits(s) == |d| && s[..|d|] == d && SkipCount(s[|d|..]) == rest
  {
    DigitsAre(d);
    SkipCountOf(c, rest);
    LeadingDigitsOf(d, c + rest);
    assert (d + (c + rest))[..|d|] == d && (d + (c + rest))[|d|..] == c + rest;
  }

  lemma HeaderRead(line: string, start: string, count: string, newStart: string, newCount: string, rest: string)
    requires HeaderForm(line, start, count, newStart, newCount, rest)
    ensures forall i | 0 <= i < |start| :: IsDigit(start[i])
    ensures ParseHeader(line) == Some(Number(start)) && StartsWith(line, "@@")
  {
    hide Number, LeadingDigits, SkipCount, Digits, CountPart;
    assert Digits(start) && start != "" && newStart != "" by { NotEmpty(start); NotEmpty(newStart); }
    DigitsOf(start);
    var tail := " @@" + rest;
    var range := newStart + (newCount + tail);
    RangeRead(newStart, newCount, tail);
    RangeRead(start, count, " +" + range);
    assert line[4..] == start + (count + (" +" + range));
    assert line[..4] == "@@ -" && line[..2] == "@@";
    assert (" +" + range)[2..] == range && (" +" + range)[..2] == " +" && tail[..3] == " @@";
  }

  lemma NotEmpty(d: string)
    requires Digits(d)
    ensures d != ""
  {
  }

  lemma DigitsOf(d: string)
    requires Digits(d)
    ensures forall i | 0 <= i < |d| :: IsDigit(d[i])
  {
    DigitsAre(d);
  }

  lemma CountCut(s: string) returns (c: string)
    ensures CountPart(c) && s == c + SkipCount(s)
  {
    if s != "" && s[0] == ',' && LeadingDigits(s[1..]) > 0 {
      var n := LeadingDigits(s[1..]);
      c := s[..1 + n];
      assert c[1..] == s[1..][..n];
      DigitsAre(c[1..]);
    } else {
      c := "";
    }
  }

  lemma NumberCut(s: string) returns (d: string)
    requires LeadingDigits(s) > 0
    ensures Digits(d) && s == d + s[LeadingDigits(s)..]
  {
    d := s[..LeadingDigits(s)];
    DigitsAre(d);
  }

  lemma HeaderOnly(line: string) returns (start: string, count: string, newStart: string, newCount: string, rest: string)
    requires ParseHeader(line).Some?
    ensures HeaderForm(line, start, count, newStart, newCount, rest)
  {
    hide Number, LeadingDigits, SkipCount, Digits, CountPart;
    var r := line[4..];
    start := NumberCut(r);
    count := CountCut(r[LeadingDigits(r)..]);
    var s := SkipCount(r[LeadingDigits(r)..]);
    newStart := NumberCut(s[2..]);
    newCount := CountCut(s[2..][LeadingDigits(s[2..])..]);
    var t := SkipCount(s[2 + LeadingDigits(s[2..])..]);
    rest := t[3..];
    assert s[2..][LeadingDigits(s[2..])..] == s[2 + LeadingDigits(s[2..])..];
    assert line == "@@ -" + r && s == " +" + s[2..] && t == " @@" + rest;
  }

  /** A line is read as a hunk header exactly when it has this form, and then as the number
      of its old start; every other line is malformed. */
  lemma HeaderIs(line: string)
    ensures ParseHeader(line).Some?
      <==> exists start, count, newStart, newCount, rest :: HeaderForm(line, start, count, newStart, newCount, rest)
  {
    hide ParseHeader, HeaderForm;
    if ParseHeader(line).Some? {
      var start, count, newStart, newCount, rest := HeaderOnly(line);
    }
    if start, count, newStart, newCount, rest :| HeaderForm(line, start, count, newStart, newCount, rest) {
      HeaderRead(line, start, count, newStart, newCount, rest);
    }
  }

  // ---- the grammar, on the remaining lines ----------------------------------------

  /** The guard under which the parser keeps a line in the current hunk. */
  predicate BodyLine(e: string) {
    !StartsWith(e, "--- ") && !StartsWith(e, "@@") && (e == "" || e[0] == ' ' || e[0] == '+' || e[0] == '-')
  }

  /** An empty line, or one that starts with a blank, a plus or a minus, but not with three
      minuses and a blank. */
  lemma BodyLineIs(e: string)
    ensures BodyLine(e)
      <==> e == "" || e[0] == ' ' || e[0] == '+'
           || (e[0] == '-' && !(|e| >= 4 && e[1] == '-' && e[2] == '-' && e[3] == ' '))
  {
    if e != "" {
      FirstCharacter(e);
      if |e| >= 4 { assert e[..4] == [e[0], e[1], e[2], e[3]]; }
    }
  }

  lemma FirstCharacter(e: string)
    requires e != ""
    ensures e[0] != '@' ==> !StartsWith(e, "@@")
    ensures e[0] != '-' ==> !StartsWith(e, "--- ")
  {
    if e[0] != '@' { OtherFirst(e, "@@"); }
    if e[0] != '-' { OtherFirst(e, "--- "); }
  }

  function TakeBody(ls: seq<string>): (r: seq<string>)
    ensures r <= ls
  {
    if ls == [] || !BodyLine(ls[0]) then [] else [ls[0]] + TakeBody(ls[1..])
  }

  type Parsed<T> = Result<(T, seq<string>), Failure>

  function HunksOf(ls: seq<string>): (r: Parsed<seq<Hunk>>)
    ensures r.Ok? ==> |r.value.1| <= |ls|
    decreases |ls|
  {
    if ls == [] || !StartsWith(ls[0], "@@") then Ok(([], ls))
    else
      var start := ParseHeader(ls[0]);
      if start.None? then Err(MalformedHeader)
      else
        var body := TakeBody(ls[1..]);
        var rest := HunksOf(ls[1 + |body|..]);
        if rest.Err? then rest else Ok(([Hunk(start.value, body)] + rest.value.0, rest.value.1))
  }

  function StripPrefix(path: string): string {
    if StartsWith(path, "a/") || StartsWith(path, "b/") then path[2..] else path
  }

  const DEV_NULL := "/dev/null"

  function SectionPatch(oldName: string, newName: string, hunks: seq<Hunk>): FilePatch {
    FilePatch(StripPrefix(if newName == DEV_NULL then oldName else newName),
      oldName == DEV_NULL, newName == DEV_NULL, hunks)
  }

  /** The names of an edited, a created and a deleted file as Git prints them. */
  lemma KindsRead(path: string, hunks: seq<Hunk>)
    ensures SectionPatch("a/" + path, "b/" + path, hunks) == FilePatch(path, false, false, hunks)
    ensures SectionPatch("/dev/null", "b/" + path, hunks) == FilePatch(path, true, false, hunks)
    ensures SectionPatch("a/" + path, "/dev/null", hunks) == FilePatch(path, false, true, hunks)
  {
    var a, b := "a/" + path, "b/" + path;
    assert a[..2] == "a/" && a[2..] == path && b[..2] == "b/" && b[2..] == path;
    assert a[0] != '/' && b[0] != '/';
  }

  function SectionsOf(ls: seq<string>): Result<seq<FilePatch>, Failure>
    decreases |ls|
  {
    if ls == [] then Ok([])
    else if !StartsWith(ls[0], "--- ") then SectionsOf(ls[1..])
    else if |ls| < 2 || !StartsWith(ls[1], "+++ ") then Err(MissingNewHeader)
    else
      var hunks := HunksOf(ls[2..]);
      if hunks.Err? then Err(hunks.error)
      else
        var rest := SectionsOf(hunks.value.1);
        if rest.Err? then rest
        else Ok([SectionPatch(Strip(ls[0][4..]), Strip(ls[1][4..]), hunks.value.0)] + rest.value)
  }

  function ParsedPatch(text: string): Result<seq<FilePatch>, Failure> {
    var r := SectionsOf(SplitLines(text));
    if r.Ok? && r.value == [] then Err(NoSections) else r
  }

  // ---- what the parser returns is made of lines ----------------------------------------

  lemma {:induction false} TailsUnbroken(ls: seq<string>, n: nat)
    requires Unbroken(ls) && n <= |ls|
    ensures Unbroken(ls[n..])
  {
    forall l | l in ls[n..] ensures l in ls {
    }
  }

  lemma {:induction false} HunksUnbroken(ls: seq<string>)
    requires Unbroken(ls) && HunksOf(ls).Ok?
    ensures UnbrokenHunks(HunksOf(ls).value.0) && Unbroken(HunksOf(ls).value.1)
    decreases |ls|
  {
    hide ParseHeader;
    if ls != [] && StartsWith(ls[0], "@@") {
      var body := TakeBody(ls[1..]);
      TailsUnbroken(ls, 1);
      assert Unbroken(body) by { assert body <= ls[1..]; }
      TailsUnbroken(ls, 1 + |body|);
      HunksUnbroken(ls[1 + |body|..]);
    }
  }

  lemma {:induction false} SectionsUnbroken(ls: seq<string>)
    requires Unbroken(ls) && SectionsOf(ls).Ok?
    ensures forall p | p in SectionsOf(ls).value :: UnbrokenHunks(p.hunks)
    decreases |ls|
  {
    hide UnbrokenHunks, HunksOf, Strip;
    if ls != [] {
      if !StartsWith(ls[0], "--- ") {
        TailsUnbroken(ls, 1);
        SectionsUnbroken(ls[1..]);
      } else {
        TailsUnbroken(ls, 2);
        HunksUnbroken(ls[2..]);
        SectionsUnbroken(HunksOf(ls[2..]).value.1);
      }
    }
  }

  /** Every body the parser returns is made of lines, whatever the text. */
  lemma ParsedBodiesAreLines(text: string)
    requires ParsedPatch(text).Ok?
    ensures forall p | p in ParsedPatch(text).value :: UnbrokenHunks(p.hunks)
  {
    hide UnbrokenHunks, SectionsOf, SplitLines;
    LinesDetermineText(text);
    SectionsUnbroken(SplitLines(text));
  }

  // ---- the parser's loops ------------------------------------------------------------

  lemma TakeBodyAt(lines: seq<string>, i: nat)
    requires i <= |lines|
    ensures TakeBody(lines[i..]) ==
      if i < |lines| && BodyLine(lines[i]) then [lines[i]] + TakeBody(lines[i + 1..]) else []
  {
    if i < |lines| { assert lines[i..][1..] == lines[i + 1..]; }
  }

  lemma MoveAcross<T>(p: seq<T>, x: T, q: seq<T>)
    ensures p + ([x] + q) == p + [x] + q
  {
  }

  function HunkAt(lines: seq<string>, at: nat): Result<Hunk, Failure>
    requires at < |lines|
  {
    var start := ParseHeader(lines[at]);
    if start.None? then Err(MalformedHeader) else Ok(Hunk(start.value, TakeBody(lines[at + 1..])))
  }

  method ParseHunk(lines: seq<string>, at: nat) returns (r: Result<Hunk, Failure>, index: nat)
    requires at < |lines|
    ensures at < index <= |lines|
    ensures r == HunkAt(lines, at)
    ensures r.Ok? ==> index == at + 1 + |TakeBody(lines[at + 1..])|
  {
    hide TakeBody, StartsWith, ParseHeader;
    index := at + 1;
    var start := ParseHeader(lines[at]);
    if start.None? {
      return Err(MalformedHeader), index;
    }
    var body: seq<string> := [];
    while index < |lines|
      invariant index == at + 1 + |body| <= |lines|
      invariant TakeBody(lines[at + 1..]) == body + TakeBody(lines[index..])
    {
      TakeBodyAt(lines, index);
      var entry := lines[index];
      if StartsWith(entry, "--- ") || StartsWith(entry, "@@")
         || !(entry == "" || entry[0] == ' ' || entry[0] == '+' || entry[0] == '-') {
        break;
      }
      MoveAcross(body, entry, TakeBody(lines[index + 1..]));
      body := body + [entry];
      index := index + 1;
    }
    TakeBodyAt(lines, index);
    assert body + [] == body;
    r := Ok(Hunk(start.value, body));
  }

  function PrependHunks(p: seq<Hunk>, r: Parsed<seq<Hunk>>): Parsed<seq<Hunk>> {
    if r.Err? then r else Ok((p + r.value.0, r.value.1))
  }

  lemma PrependHunksTwice(p: seq<Hunk>, q: seq<Hunk>, r: Parsed<seq<Hunk>>)
    ensures PrependHunks(p, PrependHunks(q, r)) == PrependHunks(p + q, r)
    ensures PrependHunks([], r) == r
  {
    if r.Ok? {
      assert p + (q + r.value.0) == p + q + r.value.0;
      assert [] + r.value.0 == r.value.0;
    }
  }

  lemma HunksAt(lines: seq<string>, i: nat)
    requires i <= |lines|
    ensures i == |lines| || !StartsWith(lines[i], "@@") ==> HunksOf(lines[i..]) == Ok(([], lines[i..]))
    ensures i < |lines| && StartsWith(lines[i], "@@") ==>
      var hunk := HunkAt(lines, i);
      var n := i + 1 + |TakeBody(lines[i + 1..])|;
      n <= |lines| &&
      HunksOf(lines[i..]) == if hunk.Err? then Err(hunk.error) else PrependHunks([hunk.value], HunksOf(lines[n..]))
  {
    hide ParseHeader, TakeBody, StartsWith;
    if i < |lines| && StartsWith(lines[i], "@@") {
      var n := 1 + |TakeBody(lines[i + 1..])|;
      assert lines[i..][1..] == lines[i + 1..];
      assert lines[i..][n..] == lines[i + n..];
    }
  }

  method ParseHunks(lines: seq<string>, at: nat) returns (r: Result<seq<Hunk>, Failure>, index: nat)
    requires at <= |lines|
    ensures at <= index <= |lines|
    ensures HunksOf(lines[at..]) == if r.Ok? then Ok((r.value, lines[index..])) else Err(r.error)
  {
    hide HunksOf, TakeBody, HunkAt, PrependHunks;
    var hunks: seq<Hunk> := [];
    index := at;
    PrependHunksTwice([], [], HunksOf(lines[at..]));
    while index < |lines| && StartsWith(lines[index], "@@")
      invariant at <= index <= |lines|
      invariant HunksOf(lines[at..]) == PrependHunks(hunks, HunksOf(lines[index..]))
      decreases |lines| - index
    {
      HunksAt(lines, index);
      var hunk, next := ParseHunk(lines, index);
      if hunk.Err? {
        PrependError(hunks, hunk.error);
        return Err(hunk.error), index;
      }
      PrependHunksTwice(hunks, [hunk.value], HunksOf(lines[next..]));
      hunks := hunks + [hunk.value];
      index := next;
    }
    HunksAt(lines, index);
    PrependNothing(hunks, lines[index..]);
    r := Ok(hunks);
  }

  lemma PrependError(p: seq<Hunk>, e: Failure)
    ensures PrependHunks(p, Err(e)) == Err(e)
  {
  }

  lemma PrependNothing(p: seq<Hunk>, rest: seq<string>)
    ensures PrependHunks(p, Ok(([], rest))) == Ok((p, rest))
  {
    assert p + [] == p;
  }

  function PrependPatches(p: seq<FilePatch>, r: Result<seq<FilePatch>, Failure>): Result<seq<FilePatch>, Failure> {
    if r.Err? then r else Ok(p + r.value)
  }

  lemma PrependPatchesTwice(p: seq<FilePatch>, q: seq<FilePatch>, r: Result<seq<FilePatch>, Failure>)
    ensures PrependPatches(p, PrependPatches(q, r)) == PrependPatches(p + q, r)
    ensures PrependPatches([], r) == r
  {
    if r.Ok? {
      assert p + (q + r.value) == p + q + r.value;
      assert [] + r.value == r.value;
    }
  }

  lemma SectionsAt(lines: seq<string>, i: nat)
    requires i < |lines|
    ensures !StartsWith(lines[i], "--- ") ==> SectionsOf(lines[i..]) == SectionsOf(lines[i + 1..])
    ensures StartsWith(lines[i], "--- ") && (i + 1 >= |lines| || !StartsWith(lines[i + 1], "+++ ")) ==>
      SectionsOf(lines[i..]) == Err(MissingNewHeader)
    ensures StartsWith(lines[i], "--- ") && i + 1 < |lines| && StartsWith(lines[i + 1], "+++ ") ==>
      var hunks := HunksOf(lines[i + 2..]);
      SectionsOf(lines[i..]) ==
        if hunks.Err? then Err(hunks.error)
        else PrependPatches([SectionPatch(Strip(lines[i][4..]), Strip(lines[i + 1][4..]), hunks.value.0)],
                            SectionsOf(hunks.value.1))
  {
    assert lines[i..][1..] == lines[i + 1..];
    if i + 1 < |lines| { assert lines[i..][2..] == lines[i + 2..]; }
  }

  method ParsePatch(text: string) returns (r: Result<seq<FilePatch>, Failure>)
    ensures r == ParsedPatch(text)
  {
    hide SectionsOf, HunksOf, Strip, SectionPatch;
    var lines := SplitLines(text);
    var patches: seq<FilePatch> := [];
    var index := 0;
    assert lines[0..] == lines;
    PrependPatchesTwice([], [], SectionsOf(lines));
    while index < |lines|
      invariant 0 <= index <= |lines|
      invariant SectionsOf(lines) == PrependPatches(patches, SectionsOf(lines[index..]))
      decreases |lines| - index
    {
      SectionsAt(lines, index);
      if !StartsWith(lines[index], "--- ") {
        index := index + 1;
        continue;
      }
      var oldName := Strip(lines[index][4..]);
      if index + 1 >= |lines| || !StartsWith(lines[index + 1], "+++ ") {
        return Err(MissingNewHeader);
      }
      var newName := Strip(lines[index + 1][4..]);
      var hunks, next := ParseHunks(lines, index + 2);
      if hunks.Err? {
        return Err(hunks.error);
      }
      var patch := SectionPatch(oldName, newName, hunks.value);
      PrependPatchesTwice(patches, [patch], SectionsOf(lines[next..]));
      patches := patches + [patch];
      index := next;
    }
    NoLinesLeft();
    assert lines[index..] == [];
    assert patches + [] == patches;
    if patches == [] {
      return Err(NoSections);
    }
    r := Ok(patches);
  }

  lemma NoLinesLeft()
    ensures SectionsOf([]) == Ok([])
  {
  }
}
