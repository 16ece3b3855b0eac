/** Remarks fields as lines: every reader and writer of a remarks text splits it at
    newlines, trims each line and drops the blank ones. */
module Lines {
  import opened Text

  /** strings.Split(s, "\n") */
  function SplitLines(s: string): (lines: seq<string>)
    ensures |lines| > 0
  {
    if s == "" then [""]
    else if s[0] == '\n' then [""] + SplitLines(s[1..])
    else
      var rest := SplitLines(s[1..]);
      [[s[0]] + rest[0]] + rest[1..]
  }

  /** strings.ReplaceAll(s, "\r\n", "\n") */
  function ReplaceCRLF(s: string): string {
    if s == "" then ""
    else if |s| >= 2 && s[0] == '\r' && s[1] == '\n' then "\n" + ReplaceCRLF(s[2..])
    else [s[0]] + ReplaceCRLF(s[1..])
  }

  function RawLines(text: string): seq<string> {
    SplitLines(ReplaceCRLF(text))
  }

  function CleanLine(line: string): seq<string> {
    if TrimSpace(line) == "" then [] else [TrimSpace(line)]
  }

  /** The trimmed lines that are not blank. */
  function Clean(lines: seq<string>): seq<string> {
    if |lines| == 0 then [] else CleanLine(lines[0]) + Clean(lines[1..])
  }

  function LinesOf(text: string): seq<string> {
    Clean(RawLines(text))
  }

  predicate SingleLine(s: string) {
    '\n' !in s
  }

  predicate SingleLines(lines: seq<string>) {
    forall i :: 0 <= i < |lines| ==> SingleLine(lines[i])
  }

  /** Lines as reading yields them: trimmed, not blank, one line each. */
  predicate CleanLines(lines: seq<string>) {
    forall i :: 0 <= i < |lines| ==> lines[i] != "" && Trimmed(lines[i]) && SingleLine(lines[i])
  }

  // ----- splitting and joining -----

  lemma {:induction false} SplitSingle(s: string)
    requires SingleLine(s)
    ensures SplitLines(s) == [s]
  {
    if s != "" {
      SplitSingle(s[1..]);
      assert [s[0]] + s[1..] == s;
    }
  }

  lemma {:induction false} SplitAfter(s: string, rest: string)
    requires SingleLine(s)
    ensures SplitLines(s + "\n" + rest) == [s] + SplitLines(rest)
  {
    var t := s + "\n" + rest;
    if s == "" {
      assert t == "\n" + rest;
      assert t[1..] == rest;
    } else {
      SplitAfter(s[1..], rest);
      assert t[1..] == s[1..] + "\n" + rest;
      assert [s[0]] + s[1..] == s;
    }
  }

  lemma {:induction false} SplitJoined(lines: seq<string>)
    requires SingleLines(lines) && |lines| > 0
    ensures SplitLines(Join(lines, "\n")) == lines
  {
    if |lines| == 1 {
      SplitSingle(lines[0]);
    } else {
      SplitJoined(lines[1..]);
      SplitAfter(lines[0], Join(lines[1..], "\n"));
      assert lines == [lines[0]] + lines[1..];
    }
  }

  lemma {:induction false} SplitIsSingleLines(s: string)
    ensures SingleLines(SplitLines(s))
  {
    if s != "" { SplitIsSingleLines(s[1..]); }
  }

  // ----- a carriage return before a newline never matters -----

  /** Line by line equal, up to one carriage return at the end. */
  predicate SameUpToCR(a: seq<string>, b: seq<string>) {
    |a| == |b| && forall i :: 0 <= i < |a| ==> a[i] == b[i] || a[i] == b[i] + "\r"
  }

  lemma LongerFirstLine(c: char, a: seq<string>, b: seq<string>)
    requires SameUpToCR(a, b) && |a| > 0
    ensures SameUpToCR([[c] + a[0]] + a[1..], [[c] + b[0]] + b[1..])
  {
    if a[0] != b[0] {
      assert [c] + a[0] == ([c] + b[0]) + "\r";
    }
  }

  lemma MoreLines(first: string, second: string, a: seq<string>, b: seq<string>)
    requires SameUpToCR(a, b) && (first == second || first == second + "\r")
    ensures SameUpToCR([first] + a, [second] + b)
  {
  }

  lemma {:induction false} SplitUpToCR(s: string)
    ensures SameUpToCR(SplitLines(s), SplitLines(ReplaceCRLF(s)))
  {
    if s == "" {
    } else if |s| >= 2 && s[0] == '\r' && s[1] == '\n' {
      var t := ReplaceCRLF(s[2..]);
      SplitUpToCR(s[2..]);
      SplitAfter("\r", s[2..]);
      assert s == "\r" + "\n" + s[2..];
      SplitAfter("", t);
      assert "" + "\n" + t == "\n" + t;
      assert "\r" == "" + "\r";
      MoreLines("\r", "", SplitLines(s[2..]), SplitLines(t));
    } else {
      SplitUpToCR(s[1..]);
      var t := ReplaceCRLF(s[1..]);
      assert ([s[0]] + t)[1..] == t;
      if s[0] == '\n' {
        MoreLines("", "", SplitLines(s[1..]), SplitLines(t));
      } else {
        LongerFirstLine(s[0], SplitLines(s[1..]), SplitLines(t));
      }
    }
  }

  lemma {:induction false} CleanUpToCR(a: seq<string>, b: seq<string>)
    requires SameUpToCR(a, b)
    ensures Clean(a) == Clean(b)
  {
    if |a| > 0 {
      TrimDropsRight(b[0], "\r");
      CleanUpToCR(a[1..], b[1..]);
    }
  }

  lemma {:induction false} CarriageReturnsDoNotMatter(text: string)
    ensures LinesOf(text) == Clean(SplitLines(text))
  {
    SplitUpToCR(text);
    CleanUpToCR(SplitLines(text), RawLines(text));
  }

  // ----- writing lines and reading them -----

  /** Joining single lines and reading the text gives the same lines, trimmed. */
  lemma {:induction false} JoinedLines(lines: seq<string>)
    requires SingleLines(lines)
    ensures LinesOf(Join(lines, "\n")) == Clean(lines)
  {
    CarriageReturnsDoNotMatter(Join(lines, "\n"));
    if |lines| > 0 {
      SplitJoined(lines);
    } else {
      assert SplitLines("") == [""];
    }
  }

  lemma {:induction false} CleanConcat(a: seq<string>, b: seq<string>)
    ensures Clean(a + b) == Clean(a) + Clean(b)
  {
    hide CleanLine;
    if |a| == 0 {
      assert a + b == b;
    } else {
      CleanConcat(a[1..], b);
      assert (a + b)[1..] == a[1..] + b;
      Regroup(CleanLine(a[0]), Clean(a[1..]), Clean(b));
    }
  }

  lemma SubLineIsSingle(left: string, s: string, right: string)
    requires SingleLine(left + s + right)
    ensures SingleLine(s)
  {
  }

  lemma TrimmedIsSingle(s: string)
    requires SingleLine(s)
    ensures SingleLine(TrimSpace(s))
  {
    var l, r := TrimSpaceDecomposes(s);
    SubLineIsSingle(l, TrimSpace(s), r);
  }

  lemma {:induction false} CleanIsClean(lines: seq<string>)
    requires SingleLines(lines)
    ensures CleanLines(Clean(lines))
  {
    if |lines| > 0 {
      CleanIsClean(lines[1..]);
      var l, r := TrimSpaceDecomposes(lines[0]);
      TrimmedIsSingle(lines[0]);
    }
  }

  lemma LinesAreClean(text: string)
    ensures CleanLines(LinesOf(text))
  {
    SplitIsSingleLines(ReplaceCRLF(text));
    CleanIsClean(RawLines(text));
  }

  lemma {:induction false} CleanIsFixed(lines: seq<string>)
    requires CleanLines(lines)
    ensures Clean(lines) == lines
  {
    if |lines| > 0 {
      TrimmedIsFixed(lines[0]);
      CleanIsFixed(lines[1..]);
    }
  }

  // ----- white space around a whole text -----

  /** The lines of a text with one more rune at its end. */
  function LastLonger(lines: seq<string>, c: char): seq<string>
    requires |lines| > 0
  {
    if c == '\n' then lines + [""] else lines[..|lines| - 1] + [lines[|lines| - 1] + [c]]
  }

  lemma LastLongerCons(first: string, rest: seq<string>, c: char)
    requires |rest| > 0
    ensures LastLonger([first] + rest, c) == [first] + LastLonger(rest, c)
  {
  }

  lemma LastLongerFirst(d: char, rest: seq<string>, c: char)
    requires |rest| > 0
    ensures var r := LastLonger(rest, c); LastLonger([[d] + rest[0]] + rest[1..], c) == [[d] + r[0]] + r[1..]
  {
    if |rest| == 1 && c != '\n' {
      assert [d] + (rest[0] + [c]) == [d] + rest[0] + [c];
    }
  }

  lemma {:induction false} SplitSnoc(s: string, c: char)
    ensures SplitLines(s + [c]) == LastLonger(SplitLines(s), c)
  {
    if s == "" {
      assert s + [c] == [c];
      assert [c][1..] == "";
      assert [c] + "" == "" + [c];
    } else {
      SplitSnoc(s[1..], c);
      assert (s + [c])[1..] == s[1..] + [c];
      if s[0] == '\n' {
        LastLongerCons("", SplitLines(s[1..]), c);
      } else {
        LastLongerFirst(s[0], SplitLines(s[1..]), c);
      }
    }
  }

  lemma {:induction false} CleanWithoutFirstSpace(s: string)
    requires s != "" && IsSpace(s[0])
    ensures Clean(SplitLines(s)) == Clean(SplitLines(s[1..]))
  {
    var rest := SplitLines(s[1..]);
    if s[0] == '\n' {
      assert ([""] + rest)[1..] == rest;
    } else {
      TrimDropsLeft([s[0]], rest[0]);
      assert ([[s[0]] + rest[0]] + rest[1..])[1..] == rest[1..];
    }
  }

  lemma {:induction false} CleanWithoutLastSpace(s: string)
    requires s != "" && IsSpace(s[|s| - 1])
    ensures Clean(SplitLines(s)) == Clean(SplitLines(s[..|s| - 1]))
  {
    var front, c := s[..|s| - 1], s[|s| - 1];
    var lines := SplitLines(front);
    var last := |lines| - 1;
    assert s == front + [c];
    SplitSnoc(front, c);
    if c == '\n' {
      CleanConcat(lines, [""]);
    } else {
      TrimDropsRight(lines[last], [c]);
      CleanConcat(lines[..last], [lines[last] + [c]]);
      CleanConcat(lines[..last], [lines[last]]);
      assert lines == lines[..last] + [lines[last]];
    }
  }

  lemma {:induction false} CleanOfTrimLeft(s: string)
    ensures Clean(SplitLines(TrimLeft(s))) == Clean(SplitLines(s))
  {
    if s != "" && IsSpace(s[0]) {
      CleanOfTrimLeft(s[1..]);
      CleanWithoutFirstSpace(s);
    }
  }

  lemma {:induction false} CleanOfTrimRight(s: string)
    ensures Clean(SplitLines(TrimRight(s))) == Clean(SplitLines(s))
  {
    if s != "" && IsSpace(s[|s| - 1]) {
      CleanOfTrimRight(s[..|s| - 1]);
      CleanWithoutLastSpace(s);
    }
  }

  /** Trimming a text does not change its lines. */
  lemma {:induction false} LinesOfTrimmed(text: string)
    ensures LinesOf(TrimSpace(text)) == LinesOf(text)
    ensures Clean(SplitLines(TrimSpace(text))) == Clean(SplitLines(text))
  {
    CleanOfTrimLeft(text);
    CleanOfTrimRight(TrimLeft(text));
    CarriageReturnsDoNotMatter(text);
    CarriageReturnsDoNotMatter(TrimSpace(text));
  }

  lemma CleanSnoc(lines: seq<string>, line: string)
    ensures Clean(lines + [line]) == Clean(lines) + CleanLine(line)
  {
    CleanConcat(lines, [line]);
    assert CleanLine(line) + [] == CleanLine(line);
  }
}
