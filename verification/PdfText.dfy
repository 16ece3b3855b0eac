/** Literal strings and page content streams of the archive report
    (internal/mobileapi/server.go, buildPDFTextStream and escapePDFText), with a
    reader for them that follows ISO 32000-1, section 7.3.4.2. */
module PdfText {
  import opened Text

  const MAX_LINE_RUNES: nat := 132

  // ----- the writer -----

  function EscapeRune(c: char): string {
    if c == '\\' || c == '(' || c == ')' then ['\\', c]
    else if c == '\n' || c == '\r' || c == '\t' then " "
    else if 32 as char <= c <= 126 as char then [c]
    else "?"
  }

  function EscapeRunes(s: string): string {
    if s == "" then "" else EscapeRune(s[0]) + EscapeRunes(s[1..])
  }

  function FirstRunes(s: string): string {
    if |s| <= MAX_LINE_RUNES then s else s[..MAX_LINE_RUNES]
  }

  function EscapedLine(line: string): string {
    EscapeRunes(FirstRunes(TrimSpace(line)))
  }

  lemma {:induction false} EscapeSnoc(s: string, c: char)
    ensures EscapeRunes(s + [c]) == EscapeRunes(s) + EscapeRune(c)
  {
    if s == "" {
      assert (s + [c])[1..] == "";
      assert EscapeRune(c) + "" == EscapeRune(c);
    } else {
      assert (s + [c])[1..] == s[1..] + [c];
      EscapeSnoc(s[1..], c);
    }
  }

  method EscapePDFText(value: string) returns (escaped: string)
    ensures escaped == EscapedLine(value)
  {
    var trimmed := TrimSpace(value);
    escaped := "";
    var count := 0;
    while count < |trimmed|
      invariant count <= |trimmed| && count <= MAX_LINE_RUNES
      invariant escaped == EscapeRunes(trimmed[..count])
    {
      if count >= MAX_LINE_RUNES {
        break;
      }
      var r := trimmed[count];
      count := count + 1;
      assert trimmed[..count] == trimmed[..count - 1] + [r];
      EscapeSnoc(trimmed[..count - 1], r);
      if r == '\\' || r == '(' || r == ')' {
        escaped := escaped + "\\" + [r];
      } else if r == '\n' || r == '\r' || r == '\t' {
        escaped := escaped + " ";
      } else if 32 as char <= r <= 126 as char {
        escaped := escaped + [r];
      } else {
        escaped := escaped + "?";
      }
    }
    assert trimmed[..count] == FirstRunes(trimmed);
  }

  const STREAM_HEAD: string := "BT\n/F1 8 Tf\n36 555 Td\n11 TL\n"
  const SHOW_END: string := " Tj\nT*\n"
  const STREAM_END: string := "ET"

  function ShowLine(line: string): string {
    "(" + EscapedLine(line) + ")" + SHOW_END
  }

  function ShowLines(lines: seq<string>): string {
    if |lines| == 0 then "" else ShowLine(lines[0]) + ShowLines(lines[1..])
  }

  function ContentStream(lines: seq<string>): string {
    STREAM_HEAD + ShowLines(lines) + STREAM_END
  }

  lemma {:induction false} ShowSnoc(lines: seq<string>, line: string)
    ensures ShowLines(lines + [line]) == ShowLines(lines) + ShowLine(line)
  {
    if |lines| == 0 {
      assert (lines + [line])[1..] == [];
      assert ShowLine(line) + "" == ShowLine(line);
    } else {
      assert (lines + [line])[1..] == lines[1..] + [line];
      ShowSnoc(lines[1..], line);
    }
  }

  method BuildPDFTextStream(lines: seq<string>) returns (stream: string)
    ensures stream == ContentStream(lines)
  {
    stream := STREAM_HEAD;
    for i := 0 to |lines|
      invariant stream == STREAM_HEAD + ShowLines(lines[..i])
    {
      assert lines[..i + 1] == lines[..i] + [lines[i]];
      ShowSnoc(lines[..i], lines[i]);
      var escaped := EscapePDFText(lines[i]);
      var shown := "(" + escaped + ")" + SHOW_END;
      Regroup(STREAM_HEAD, ShowLines(lines[..i]), shown);
      stream := stream + shown;
    }
    assert lines[..|lines|] == lines;
    stream := stream + STREAM_END;
  }

  // ----- what a line becomes -----

  /** The rune a reader sees: controls that separate become a space, anything else
      outside printable ASCII becomes a question mark. */
  function SanitisedRune(c: char): (r: char)
    ensures 32 as char <= r <= 126 as char
  {
    if c == '\n' || c == '\r' || c == '\t' then ' '
    else if 32 as char <= c <= 126 as char then c
    else '?'
  }

  function Sanitised(line: string): (s: string)
    ensures |s| <= MAX_LINE_RUNES
  {
    var shown := FirstRunes(TrimSpace(line));
    seq(|shown|, i requires 0 <= i < |shown| => SanitisedRune(shown[i]))
  }

  function SanitisedLines(lines: seq<string>): (r: seq<string>)
    ensures |r| == |lines|
  {
    seq(|lines|, i requires 0 <= i < |lines| => Sanitised(lines[i]))
  }

  // ----- the reader -----

  /** Consumes a fixed token. */
  function Expect(s: string, token: string): Option<string> {
    if HasPrefix(s, token) then Some(s[|token|..]) else None
  }

  predicate IsOctal(c: char) { '0' <= c <= '7' }

  /** How many octal digits, at most three, an escape takes. */
  function OctalRun(s: string, most: nat): (k: nat)
    ensures k <= most && k <= |s|
    ensures forall i :: 0 <= i < k ==> IsOctal(s[i])
  {
    if most == 0 || s == "" || !IsOctal(s[0]) then 0 else 1 + OctalRun(s[1..], most - 1)
  }

  function OctalValue(s: string): nat
    requires forall i :: 0 <= i < |s| ==> IsOctal(s[i])
  {
    if s == "" then 0 else assert IsOctal(s[|s| - 1]); 8 * OctalValue(s[..|s| - 1]) + (s[|s| - 1] as int - '0' as int)
  }

  function Prepend(c: string, r: Option<(string, string)>): Option<(string, string)> {
    match r
    case None => None
    case Some((text, rest)) => Some((c + text, rest))
  }

  /** Reads a literal string after its opening parenthesis: balanced parentheses
      nest, a backslash starts an escape. Yields the text and what follows. */
  function ReadLiteral(s: string, depth: nat): Option<(string, string)>
    decreases |s|
  {
    if s == "" then None
    else if s[0] == ')' then
      if depth == 0 then Some(("", s[1..])) else Prepend(")", ReadLiteral(s[1..], depth - 1))
    else if s[0] == '(' then Prepend("(", ReadLiteral(s[1..], depth + 1))
    else if s[0] != '\\' then Prepend([s[0]], ReadLiteral(s[1..], depth))
    else if |s| == 1 then None
    else ReadEscape(s, depth)
  }

  function ReadEscape(s: string, depth: nat): Option<(string, string)>
    requires |s| >= 2
    decreases |s|, 0
  {
    var e := s[1];
    if IsOctal(e) then
      var k := OctalRun(s[1..], 3);
      Prepend([(OctalValue(s[1..1 + k]) % 256) as char], ReadLiteral(s[1 + k..], depth))
    else
      var text :=
        if e == 'n' then "\n" else if e == 'r' then "\r" else if e == 't' then "\t"
        else if e == 'b' then [8 as char] else if e == 'f' then [12 as char]
        else if e == '\n' then "" else [e];
      Prepend(text, ReadLiteral(s[2..], depth))
  }

  /** Reads the show operators of a content stream up to its end. */
  function ReadShows(s: string): Option<seq<string>>
    decreases |s|
  {
    if s == STREAM_END then Some([])
    else
      var open :- Expect(s, "(");
      var (text, afterText) :- ReadLiteral(open, 0);
      var next :- Expect(afterText, SHOW_END);
      if |next| >= |s| then None
      else
        var rest :- ReadShows(next);
        Some([text] + rest)
  }

  function ReadContent(stream: string): Option<seq<string>> {
    var shows :- Expect(stream, STREAM_HEAD);
    ReadShows(shows)
  }

  // ----- reading undoes writing -----

  lemma ExpectToken(token: string, rest: string)
    ensures Expect(token + rest, token) == Some(rest)
  {
    PrefixOfConcat(token, rest);
  }

  function SanitisedRunes(s: string): string {
    seq(|s|, i requires 0 <= i < |s| => SanitisedRune(s[i]))
  }

  lemma ReadOneRune(c: char, tail: string)
    ensures ReadLiteral(EscapeRune(c) + tail, 0) == Prepend([SanitisedRune(c)], ReadLiteral(tail, 0))
  {
    var e := EscapeRune(c);
    assert (e + tail)[|e|..] == tail;
    assert (e + tail)[0] == e[0];
    if |e| == 2 {
      assert (e + tail)[1] == c;
    }
  }

  /** An escaped text, closed by a parenthesis, reads back as its sanitised runes. */
  lemma {:induction false} LiteralRoundTrip(s: string, rest: string)
    ensures ReadLiteral(EscapeRunes(s) + ")" + rest, 0) == Some((SanitisedRunes(s), rest))
  {
    if s == "" {
      assert EscapeRunes(s) + ")" + rest == ")" + rest;
      assert (")" + rest)[1..] == rest;
      assert SanitisedRunes(s) == "";
    } else {
      var tail := EscapeRunes(s[1..]) + ")" + rest;
      assert EscapeRunes(s) + ")" + rest == EscapeRune(s[0]) + tail;
      ReadOneRune(s[0], tail);
      LiteralRoundTrip(s[1..], rest);
      assert SanitisedRunes(s) == [SanitisedRune(s[0])] + SanitisedRunes(s[1..]);
    }
  }

  lemma ReadShown(line: string, rest: string)
    ensures ShowLine(line) + rest != STREAM_END
    ensures Expect(ShowLine(line) + rest, "(") == Some(EscapedLine(line) + ")" + (SHOW_END + rest))
    ensures ReadLiteral(EscapedLine(line) + ")" + (SHOW_END + rest), 0) == Some((Sanitised(line), SHOW_END + rest))
  {
    var inner := EscapedLine(line) + ")" + (SHOW_END + rest);
    assert ShowLine(line) + rest == "(" + inner;
    ExpectToken("(", inner);
    assert (ShowLine(line) + rest)[0] == '(';
    LiteralRoundTrip(FirstRunes(TrimSpace(line)), SHOW_END + rest);
  }

  lemma {:induction false} ShowsRoundTrip(lines: seq<string>)
    ensures ReadShows(ShowLines(lines) + STREAM_END) == Some(SanitisedLines(lines))
  {
    var s := ShowLines(lines) + STREAM_END;
    if |lines| == 0 {
      assert s == STREAM_END;
      assert SanitisedLines(lines) == [];
    } else {
      var rest := ShowLines(lines[1..]) + STREAM_END;
      ShowsRoundTrip(lines[1..]);
      Regroup(ShowLine(lines[0]), ShowLines(lines[1..]), STREAM_END);
      ReadShown(lines[0], rest);
      ExpectToken(SHOW_END, rest);
      assert SanitisedLines(lines) == [Sanitised(lines[0])] + SanitisedLines(lines[1..]);
    }
  }

  /** Reading a page's content stream gives back its lines, sanitised, in order. */
  lemma ContentRoundTrip(lines: seq<string>)
    ensures ReadContent(ContentStream(lines)) == Some(SanitisedLines(lines))
  {
    Regroup(STREAM_HEAD, ShowLines(lines), STREAM_END);
    ExpectToken(STREAM_HEAD, ShowLines(lines) + STREAM_END);
    ShowsRoundTrip(lines);
  }
}
