/** Text as lines, with "\n" as the only line break: `str.split("\n")`,
    `"\n".join` and `str.splitlines`. */
module Text {

  datatype Result<+T, +E> = Ok(value: T) | Err(error: E)

  datatype Option<+T> = None | Some(value: T)

  /** `str.startswith`. */
  predicate StartsWith(s: string, prefix: string) {
    |prefix| <= |s| && s[..|prefix|] == prefix
  }

  lemma SameAfterFirst(e: string, prefix: string)
    requires e != "" && prefix != "" && e[0] == prefix[0]
    ensures StartsWith(e, prefix) <==> StartsWith(e[1..], prefix[1..])
  {
    if StartsWith(e, prefix) {
      assert e[1..][..|prefix| - 1] == e[..|prefix|][1..];
    }
    if StartsWith(e[1..], prefix[1..]) {
      assert e[..|prefix|] == [e[0]] + e[1..][..|prefix| - 1];
      assert prefix == [prefix[0]] + prefix[1..];
    }
  }

  lemma StartsWithIs(s: string, prefix: string)
    ensures StartsWith(s, prefix) <==> exists rest :: s == prefix + rest
  {
    if StartsWith(s, prefix) { assert s == prefix + s[|prefix|..]; }
  }

  lemma OtherFirst(e: string, prefix: string)
    requires e != "" && prefix != "" && e[0] != prefix[0]
    ensures !StartsWith(e, prefix)
  {
    assert |prefix| <= |e| ==> e[..|prefix|][0] == e[0];
  }

  predicate EndsWithNewline(t: string) {
    t != "" && t[|t| - 1] == '\n'
  }

  function Split(t: string): (r: seq<string>)
    ensures |r| >= 1
  {
    if t == "" then [""]
    else
      var r := Split(t[1..]);
      if t[0] == '\n' then [""] + r else [[t[0]] + r[0]] + r[1..]
  }

  lemma Regroup<T>(a: seq<T>, b: seq<T>, c: seq<T>, d: seq<T>)
    ensures a + b + c + d == a + (b + (c + d))
  {
  }

  function Join(ls: seq<string>): string {
    if ls == [] then ""
    else if |ls| == 1 then ls[0]
    else ls[0] + "\n" + Join(ls[1..])
  }

  /** `splitlines`: a final empty piece is not a line. */
  function SplitLines(t: string): seq<string> {
    var r := Split(t);
    if r[|r| - 1] == "" then r[..|r| - 1] else r
  }

  ghost predicate Unbroken(ls: seq<string>) {
    forall l | l in ls :: '\n' !in l
  }

  lemma {:induction false} JoinSplit(t: string)
    ensures Join(Split(t)) == t
    ensures Unbroken(Split(t))
  {
    if t != "" {
      JoinSplit(t[1..]);
      var r := Split(t[1..]);
      assert t == [t[0]] + t[1..];
      if t[0] == '\n' {
        assert ([""] + r)[1..] == r;
      } else {
        var u := [[t[0]] + r[0]] + r[1..];
        assert u[1..] == r[1..];
        forall l | l in u ensures '\n' !in l { assert l == [t[0]] + r[0] || l in r; }
      }
    }
  }

  /** Prepending a piece that has no newline only changes the first piece. */
  lemma {:induction false} SplitPrepend(a: string, t: string)
    requires '\n' !in a
    ensures Split(a + t) == [a + Split(t)[0]] + Split(t)[1..]
  {
    if a == "" {
      assert a + t == t;
      assert "" + Split(t)[0] == Split(t)[0];
    } else {
      var rest := a[1..] + t;
      SplitPrepend(a[1..], t);
      assert a + t == [a[0]] + rest;
      SplitSecond(a[0], rest);
      Reassociate(a, Split(t)[0]);
    }
  }

  lemma SplitSecond(c: char, t: string)
    requires c != '\n'
    ensures Split([c] + t) == [[c] + Split(t)[0]] + Split(t)[1..]
  {
    assert ([c] + t)[1..] == t;
  }

  lemma Reassociate(a: string, b: string)
    requires a != ""
    ensures [a[0]] + (a[1..] + b) == a + b
  {
  }

  lemma {:induction false} SplitJoin(ls: seq<string>)
    requires ls != [] && Unbroken(ls)
    ensures Split(Join(ls)) == ls
  {
    hide Split;
    var first, rest := ls[0], ls[1..];
    if |ls| == 1 {
      SplitPrepend(first, "");
      EmptyPiece();
      assert first + "" == first && [first] + [] == ls;
    } else {
      SplitJoin(rest);
      SplitNewline(Join(rest));
      SplitPrepend(first, "\n" + Join(rest));
      assert first + ("\n" + Join(rest)) == first + "\n" + Join(rest);
      assert first + "" == first && [first] + rest == ls;
      assert ([""] + rest)[1..] == rest;
    }
  }

  lemma EmptyPiece()
    ensures Split("") == [""] && [""][1..] == []
  {
  }

  lemma SplitNewline(t: string)
    ensures Split("\n" + t) == [""] + Split(t)
  {
    assert ("\n" + t)[1..] == t;
  }

  lemma {:induction false} JoinSnocEmpty(ls: seq<string>)
    requires ls != []
    ensures Join(ls + [""]) == Join(ls) + "\n"
  {
    if |ls| == 1 {
      assert (ls + [""])[1..] == [""];
    } else {
      JoinSnocEmpty(ls[1..]);
      assert (ls + [""])[1..] == ls[1..] + [""];
    }
  }

  /** Lines written with a final newline read back as themselves. */
  lemma SplitLinesTerminated(ls: seq<string>)
    requires Unbroken(ls) && ls != []
    ensures SplitLines(Join(ls) + "\n") == ls
  {
    JoinSnocEmpty(ls);
    SplitJoin(ls + [""]);
  }

  /** A list of lines without its last one, when that one is empty. */
  function Trimmed(ls: seq<string>): seq<string> {
    if ls != [] && ls[|ls| - 1] == "" then ls[..|ls| - 1] else ls
  }

  /** Lines written without a final newline lose a final empty line. */
  lemma SplitLinesJoined(ls: seq<string>)
    requires Unbroken(ls)
    ensures SplitLines(Join(ls)) == Trimmed(ls)
  {
    hide Split, Join, Unbroken;
    if ls == [] {
      NoLines();
    } else {
      SplitJoin(ls);
    }
  }

  lemma NoLines()
    ensures Join([]) == "" && Split("") == [""] && SplitLines("") == []
  {
  }

  /** A text is its lines, plus a newline when it ends with one. */
  lemma LinesDetermineText(t: string)
    ensures Unbroken(SplitLines(t))
    ensures t == Join(SplitLines(t)) + (if EndsWithNewline(t) then "\n" else "")
    ensures EndsWithNewline(t) ==> SplitLines(t) != []
    ensures !EndsWithNewline(t) && SplitLines(t) != [] ==> SplitLines(t)[|SplitLines(t)| - 1] != ""
  {
    hide Split, Join, EndsWithNewline;
    if t == "" {
      NoLines();
      NoNewline(t);
    } else {
      JoinSplit(t);
      LastPieceEmpty(t);
      var r := Split(t);
      if r[|r| - 1] == "" {
        assert r == r[..|r| - 1] + [""];
        JoinSnocEmpty(r[..|r| - 1]);
      }
    }
  }

  lemma NoNewline(t: string)
    requires t == ""
    ensures !EndsWithNewline(t) && Join([]) + "" == t
  {
  }

  lemma NewlineLast(t: string)
    ensures EndsWithNewline(t + "\n")
    ensures t + "\n" == "\n" <==> t == ""
  {
    if t + "\n" == "\n" { assert |t + "\n"| == |t| + 1; }
  }

  lemma EmptyJoin(ls: seq<string>)
    requires Unbroken(ls)
    ensures Join(ls) == "" <==> ls == [] || ls == [""]
  {
    if ls != [] && Join(ls) == "" {
      SplitJoin(ls);
      NoLines();
    }
  }

  lemma {:induction false} LastPieceEmpty(t: string)
    ensures var r := Split(t); r[|r| - 1] == "" <==> t == "" || EndsWithNewline(t)
    ensures EndsWithNewline(t) ==> |Split(t)| > 1
    ensures |Split(t)| > 1 || t != "" || Split(t) == [""]
  {
    if t != "" { LastPieceEmpty(t[1..]); }
  }

  // ---- blanks and numerals -------------------------------------------------------------

  predicate IsSpace(c: char) {
    c in " \t\n\r" || '\U{0B}' <= c <= '\U{0C}' || '\U{1C}' <= c <= '\U{1F}' || c == '\U{85}' || c == '\U{A0}'
  }

  /** `str.strip`. */
  function Strip(s: string): string {
    if s == "" then ""
    else if IsSpace(s[0]) then Strip(s[1..])
    else if IsSpace(s[|s| - 1]) then Strip(s[..|s| - 1])
    else s
  }

  /** The blanks of `str.strip`, one by one. */
  predicate Whitespace(c: char) {
    c in [' ', '\t', '\n', '\r', '\U{0B}', '\U{0C}', '\U{1C}', '\U{1D}', '\U{1E}', '\U{1F}', '\U{85}', '\U{A0}']
  }

  lemma SpaceIs(c: char)
    ensures IsSpace(c) <==> Whitespace(c)
  {
  }

  predicate Blank(s: string) {
    forall c | c in s :: Whitespace(c)
  }

  /** A text without the blanks at its end. */
  function TrimEnd(s: string): (r: string)
    ensures r <= s && (r != "" ==> !Whitespace(r[|r| - 1]))
  {
    if s != "" && Whitespace(s[|s| - 1]) then TrimEnd(s[..|s| - 1]) else s
  }

  /** The last character, if any, is no blank. */
  predicate EndsFull(s: string) {
    s == "" || !Whitespace(s[|s| - 1])
  }

  lemma {:induction false} StripEnd(s: string)
    requires s != "" && !Whitespace(s[0])
    ensures Strip(s) == TrimEnd(s)
    decreases |s|
  {
    hide IsSpace, Whitespace;
    SpaceIs(s[0]);
    SpaceIs(s[|s| - 1]);
    if Whitespace(s[|s| - 1]) { StripEnd(s[..|s| - 1]); }
  }

  lemma {:induction false} TrimBehind(name: string, suffix: string)
    requires EndsFull(name)
    ensures TrimEnd(name + suffix) == name + TrimEnd(suffix)
    decreases |suffix|
  {
    hide Whitespace, TrimEnd;
    TrimLast(name);
    TrimLast(suffix);
    if suffix == "" {
      assert name + suffix == name && name + "" == name;
    } else {
      var front, c := suffix[..|suffix| - 1], suffix[|suffix| - 1];
      var s := name + suffix;
      assert s == (name + front) + [c];
      assert s[..|s| - 1] == name + front;
      TrimLast(s);
      TrimBehind(name, front);
    }
  }

  lemma TrimLast(s: string)
    ensures TrimEnd(s) == if s != "" && Whitespace(s[|s| - 1]) then TrimEnd(s[..|s| - 1]) else s
  {
    hide Whitespace;
  }

  lemma {:induction false} TrimBlank(s: string)
    ensures TrimEnd(s) == "" <==> Blank(s)
    decreases |s|
  {
    if s != "" {
      var front, c := s[..|s| - 1], s[|s| - 1];
      assert s == front + [c] && c in s;
      TrimBlank(front);
      assert forall x :: x in s <==> x in front || x == c;
    }
  }

  /** Stripping takes exactly the blanks around a text whose ends are none. */
  lemma {:induction false} StripIs(front: string, text: string, behind: string)
    requires text != "" && !Whitespace(text[0]) && EndsFull(text) && Blank(front) && Blank(behind)
    ensures Strip(front + text + behind) == text
    decreases |front|
  {
    hide IsSpace, Whitespace, TrimEnd;
    if front == "" {
      assert front + text + behind == text + behind;
      StripEnd(text + behind);
      TrimBehind(text, behind);
      TrimBlank(behind);
      assert text + "" == text;
    } else {
      assert (front + text + behind)[1..] == front[1..] + text + behind;
      SpaceIs(front[0]);
      StripIs(front[1..], text, behind);
    }
  }

  lemma {:induction false} StripBlank(s: string)
    requires Blank(s)
    ensures Strip(s) == ""
    decreases |s|
  {
    hide IsSpace, Whitespace;
    if s != "" {
      SpaceIs(s[0]);
      StripBlank(s[1..]);
    }
  }

  predicate IsDigit(c: char) { '0' <= c <= '9' }

  function Digit(d: nat): (c: char)
    requires d < 10
    ensures IsDigit(c) && c as int - '0' as int == d
  {
    '0' + d as char
  }

  function Decimal(n: nat): (s: string)
    ensures s != "" && forall i | 0 <= i < |s| :: IsDigit(s[i])
  {
    if n < 10 then [Digit(n)] else Decimal(n / 10) + [Digit(n % 10)]
  }

  function Number(digits: string): nat
    requires forall i | 0 <= i < |digits| :: IsDigit(digits[i])
  {
    if digits == "" then 0
    else
      assert IsDigit(digits[|digits| - 1]);
      10 * Number(digits[..|digits| - 1]) + (digits[|digits| - 1] as int - '0' as int)
  }

  lemma {:induction false} NumberOfDecimal(n: nat)
    ensures Number(Decimal(n)) == n
  {
    var s := Decimal(n);
    if n < 10 {
      assert s[..|s| - 1] == "";
      assert Number("") == 0;
    } else {
      NumberOfDecimal(n / 10);
      assert s[..|s| - 1] == Decimal(n / 10);
    }
  }

  /** Leading zeros do not change the number. */
  lemma {:induction false} LeadingZero(d: string)
    requires forall i | 0 <= i < |d| :: IsDigit(d[i])
    ensures forall i | 0 <= i < |"0" + d| :: IsDigit(("0" + d)[i])
    ensures Number("0" + d) == Number(d)
    decreases |d|
  {
    var s := "0" + d;
    if d == "" {
      assert s == "0" && s[..0] == "" && Number("") == 0;
    } else {
      LeadingZero(d[..|d| - 1]);
      assert s[..|s| - 1] == "0" + d[..|d| - 1];
    }
  }
}
