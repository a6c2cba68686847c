/** The two lines of a unified diff that name a file, with or without the "a/" and "b/"
    of Git and with whatever is printed behind the name, such as the time of day that
    IEEE Std 1003.1-2017 puts there; and exactly which of them the parser reads back. */
module PatchHeaders {
  import opened Text
  import opened Hunks
  import opened PatchParser

  /** What stands around one printed name. */
  datatype NameLayout = NameLayout(prefix: string, suffix: string)

  datatype FileLayout = FileLayout(oldName: NameLayout, newName: NameLayout)

  /** Without a prefix a name starts with a character that can be seen, and what stands
      behind a name is set off by a blank. */
  predicate LaidOut(path: string, l: NameLayout) {
    && (l.prefix == "" || l.prefix == "a/" || l.prefix == "b/")
    && (l.prefix == "" ==> path != "" && !Whitespace(path[0]))
    && (l.suffix != "" ==> Whitespace(l.suffix[0]))
  }

  function Name(path: string, gone: bool, l: NameLayout): string {
    (if gone then DEV_NULL else l.prefix + path) + l.suffix
  }

  function OldHeader(p: FilePatch, l: FileLayout): string {
    "--- " + Name(p.path, p.create, l.oldName)
  }

  function NewHeader(p: FilePatch, l: FileLayout): string {
    "+++ " + Name(p.path, p.delete, l.newName)
  }

  /** Nothing but blanks behind the name, which does not end in one, and no directory in it
      that the parser takes for a prefix. */
  predicate NameKept(path: string, l: NameLayout) {
    && Blank(l.suffix) && EndsFull(path)
    && (l.prefix == "" ==> !StartsWith(path, "a/") && !StartsWith(path, "b/"))
  }

  /** A name that reads as the absence of a file. */
  predicate LooksNull(path: string, l: NameLayout) {
    l.prefix == "" && TrimEnd(path + l.suffix) == DEV_NULL
  }

  /** The path comes from the new name, or from the old one of a deleted file; the name of
      a missing file has only blanks behind it, and no other name looks like it. */
  predicate HeadersKept(p: FilePatch, l: FileLayout) {
    if p.create then Blank(l.oldName.suffix) && NameKept(p.path, l.newName) && !LooksNull(p.path, l.newName)
    else if p.delete then Blank(l.newName.suffix) && NameKept(p.path, l.oldName) && !LooksNull(p.path, l.oldName)
    else NameKept(p.path, l.newName) && !LooksNull(p.path, l.newName) && !LooksNull(p.path, l.oldName)
  }

  // ---- one name -----------------------------------------------------------------------

  /** Nothing is lost behind a name that does not end in a blank. */
  lemma {:induction false} TrimKept(path: string, suffix: string)
    ensures TrimEnd(path + suffix) == path <==> Blank(suffix) && EndsFull(path)
    decreases |suffix|
  {
    hide Whitespace, TrimEnd;
    TrimLast(path);
    TrimBlank(suffix);
    TrimLast(suffix);
    if suffix == "" {
      assert path + suffix == path;
    } else {
      var front, c := suffix[..|suffix| - 1], suffix[|suffix| - 1];
      assert path + suffix == (path + front) + [c];
      assert (path + suffix)[..|path + suffix| - 1] == path + front;
      TrimLast(path + suffix);
      TrimBlank(front);
      if Whitespace(c) { TrimKept(path, front); }
    }
  }

  lemma PrefixedName(path: string, l: NameLayout)
    requires l.prefix == "a/" || l.prefix == "b/"
    ensures var name := Strip(l.prefix + path + l.suffix);
      name == l.prefix + TrimEnd(path + l.suffix) && name != DEV_NULL && StripPrefix(name) == TrimEnd(path + l.suffix)
  {
    hide TrimEnd, Strip;
    var rest := path + l.suffix;
    assert l.prefix + path + l.suffix == l.prefix + rest;
    assert !Whitespace(l.prefix[0]) && !Whitespace(l.prefix[1]);
    StripEnd(l.prefix + rest);
    TrimBehind(l.prefix, rest);
    var name := l.prefix + TrimEnd(rest);
    assert name[..2] == l.prefix && name[2..] == TrimEnd(rest);
    assert name[0] != DEV_NULL[0];
  }

  /** What is added behind a text that stays when two characters are taken from the front
      is made of those characters. */
  lemma AddedIsTaken(path: string, rest: string, c: char)
    requires |path + rest| >= 2 && (path + rest)[2..] == path && c in rest
    ensures c == (path + rest)[0] || c == (path + rest)[1]
  {
    var name := path + rest;
    var front := [name[0], name[1]];
    assert name == front + path;
    assert multiset(name)[c] == multiset(front)[c] + multiset(path)[c];
    assert multiset(name)[c] == multiset(path)[c] + multiset(rest)[c];
    assert multiset(rest)[c] > 0;
    assert c in front;
  }

  lemma PrefixFull(name: string)
    requires StartsWith(name, "a/") || StartsWith(name, "b/")
    ensures |name| >= 2 && !Whitespace(name[0]) && !Whitespace(name[1])
  {
    assert name[0] == name[..2][0] && name[1] == name[..2][1];
  }

  /** Text set off by a blank cannot make up for a stripped prefix. */
  lemma NoPeriod(path: string, rest: string)
    requires rest != "" && Whitespace(rest[0])
    ensures StripPrefix(path + rest) != path
  {
    hide Whitespace, StartsWith;
    var name := path + rest;
    if StartsWith(name, "a/") || StartsWith(name, "b/") {
      PrefixFull(name);
      if name[2..] == path { AddedIsTaken(path, rest, rest[0]); }
    }
  }

  lemma BareName(path: string, suffix: string)
    requires path != "" && !Whitespace(path[0]) && (suffix != "" ==> Whitespace(suffix[0]))
    ensures Strip(path + suffix) == TrimEnd(path + suffix)
    ensures StripPrefix(Strip(path + suffix)) == path <==> NameKept(path, NameLayout("", suffix))
  {
    hide Strip, StripPrefix, Whitespace, TrimEnd;
    StripEnd(path + suffix);
    TrimKept(path, suffix);
    TrimBlank(suffix);
    if EndsFull(path) {
      TrimBehind(path, suffix);
      if !Blank(suffix) { NoPeriod(path, TrimEnd(suffix)); }
      WholeName(path);
    } else {
      StrippedEndsFull(TrimEnd(path + suffix));
    }
  }

  lemma WholeName(path: string)
    ensures StripPrefix(path) == path <==> !StartsWith(path, "a/") && !StartsWith(path, "b/")
  {
  }

  lemma StrippedEndsFull(name: string)
    requires EndsFull(name)
    ensures EndsFull(StripPrefix(name))
  {
  }

  /** A name reads back as its path exactly when it is kept. */
  lemma NameRead(path: string, l: NameLayout)
    requires LaidOut(path, l)
    ensures var name := Strip(Name(path, false, l));
      && (StripPrefix(name) == path <==> NameKept(path, l))
      && (name == DEV_NULL <==> LooksNull(path, l))
  {
    hide Strip, StripPrefix, Whitespace, TrimEnd;
    if l.prefix == "" {
      assert l.prefix + path == path;
      BareName(path, l.suffix);
    } else {
      PrefixedName(path, l);
      TrimKept(path, l.suffix);
    }
  }

  lemma NullRead(path: string, l: NameLayout)
    ensures Strip(Name(path, true, l)) == DEV_NULL + TrimEnd(l.suffix)
    ensures Strip(Name(path, true, l)) == DEV_NULL <==> Blank(l.suffix)
  {
    hide Strip, TrimEnd;
    StripEnd(DEV_NULL + l.suffix);
    TrimBehind(DEV_NULL, l.suffix);
    TrimBlank(l.suffix);
  }

  // ---- both names ----------------------------------------------------------------------

  /** The file and kind that the parser makes of the headers of `p`. */
  function HeadersRead(p: FilePatch, l: FileLayout, hunks: seq<Hunk>): FilePatch {
    SectionPatch(Strip(OldHeader(p, l)[4..]), Strip(NewHeader(p, l)[4..]), hunks)
  }

  lemma HeaderNames(p: FilePatch, l: FileLayout)
    ensures StartsWith(OldHeader(p, l), "--- ") && OldHeader(p, l)[4..] == Name(p.path, p.create, l.oldName)
    ensures StartsWith(NewHeader(p, l), "+++ ") && NewHeader(p, l)[4..] == Name(p.path, p.delete, l.newName)
  {
  }

  /** The file headers of an ordinary, created or deleted file read back as its path and
      kind exactly when they are kept. */
  lemma HeadersReadBack(p: FilePatch, l: FileLayout, hunks: seq<Hunk>)
    requires !(p.create && p.delete) && LaidOut(p.path, l.oldName) && LaidOut(p.path, l.newName)
    ensures HeadersRead(p, l, hunks) == p.(hunks := hunks) <==> HeadersKept(p, l)
  {
    hide Strip, StripPrefix, Name, OldHeader, NewHeader, NameKept, LooksNull, Blank;
    HeaderNames(p, l);
    NameRead(p.path, l.oldName);
    NameRead(p.path, l.newName);
    NullRead(p.path, l.oldName);
    NullRead(p.path, l.newName);
  }

  /** A tab behind the names, which Git puts behind a name that holds a blank, changes nothing. */
  lemma TabIsDropped(p: FilePatch, hunks: seq<Hunk>)
    requires !(p.create && p.delete) && EndsFull(p.path)
    ensures HeadersRead(p, FileLayout(NameLayout("a/", "\t"), NameLayout("b/", "\t")), hunks) == p.(hunks := hunks)
  {
    hide EndsFull, HeadersRead;
    HeadersReadBack(p, FileLayout(NameLayout("a/", "\t"), NameLayout("b/", "\t")), hunks);
  }

  // ---- headers that are misread ---------------------------------------------------------

  lemma TrimmedBehind(name: string, time: string)
    requires EndsFull(name) && time != "" && EndsFull(time)
    ensures TrimEnd(name + ("\t" + time)) == name + ("\t" + time)
  {
    hide Whitespace;
    var s := name + ("\t" + time);
    assert s[|s| - 1] == time[|time| - 1];
  }

  /** With the time of the standard behind the names, the time becomes part of the path, and
      a creation or a deletion is taken for an edit. */
  lemma TimesAreRead(p: FilePatch, time: string, hunks: seq<Hunk>)
    requires time != "" && EndsFull(time) && EndsFull(p.path) && !(p.create && p.delete)
    ensures var behind := "\t" + time;
      var l := FileLayout(NameLayout("a/", behind), NameLayout("b/", behind));
      HeadersRead(p, l, hunks) == FilePatch((if p.delete then DEV_NULL else p.path) + behind, false, false, hunks)
  {
    hide Strip, TrimEnd, Whitespace, StripPrefix, Name, OldHeader, NewHeader;
    var behind := "\t" + time;
    var l := FileLayout(NameLayout("a/", behind), NameLayout("b/", behind));
    HeaderNames(p, l);
    TimedName(p.path, p.create, l.oldName, time);
    TimedName(p.path, p.delete, l.newName, time);
  }

  lemma TimedName(path: string, gone: bool, l: NameLayout, time: string)
    requires (l.prefix == "a/" || l.prefix == "b/") && l.suffix == "\t" + time
    requires time != "" && EndsFull(time) && EndsFull(path)
    ensures Strip(Name(path, gone, l)) != DEV_NULL
    ensures StripPrefix(Strip(Name(path, gone, l))) == (if gone then DEV_NULL else path) + l.suffix
  {
    hide Strip, TrimEnd, Whitespace, StripPrefix;
    if gone {
      NullRead(path, l);
      TrimmedBehind("", time);
      assert "" + ("\t" + time) == l.suffix;
      NullKeepsPrefix(l.suffix);
    } else {
      PrefixedName(path, l);
      TrimmedBehind(path, time);
    }
  }

  lemma NullKeepsPrefix(suffix: string)
    ensures StripPrefix(DEV_NULL + suffix) == DEV_NULL + suffix
    ensures suffix != "" ==> DEV_NULL + suffix != DEV_NULL
  {
    var name := DEV_NULL + suffix;
    assert name[..2][0] == '/';
    if suffix != "" { assert |name| > |DEV_NULL|; }
  }

  /** Printed without a prefix, a file in a directory "a" loses it. */
  lemma DirectoryIsStripped(path: string, hunks: seq<Hunk>)
    requires EndsFull(path)
    ensures var l := FileLayout(NameLayout("", ""), NameLayout("", ""));
      HeadersRead(FilePatch("a/" + path, false, false, hunks), l, hunks) == FilePatch(path, false, false, hunks)
  {
    hide Strip, TrimEnd, Whitespace, StripPrefix, Name, OldHeader, NewHeader;
    var l, name := NameLayout("", ""), "a/" + path;
    HeaderNames(FilePatch(name, false, false, hunks), FileLayout(l, l));
    PlainName(name, l);
    PrefixedName(path, NameLayout("a/", ""));
    assert "a/" + path + "" == name && path + "" == path;
    TrimLast(path);
  }

  lemma PlainName(name: string, l: NameLayout)
    requires l == NameLayout("", "")
    ensures Name(name, false, l) == name
  {
  }
}
