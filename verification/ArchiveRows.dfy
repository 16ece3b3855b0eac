/** What the archive report shows, column by column and heading by heading
    (internal/mobileapi/server.go:1435-1461), down to the lines read from its file. */
module ArchiveRows {
  import opened Text
  import opened PdfText
  import opened PdfFile
  import opened Pdf
  import opened Archive

  predicate Spaces(s: string) {
    forall i :: 0 <= i < |s| ==> s[i] == ' '
  }

  /** The text stands at this column. */
  predicate At(line: string, column: nat, text: string) {
    column + |text| <= |line| && line[column..column + |text|] == text
  }

  predicate Blank(line: string, from: nat, to: nat) {
    from <= to <= |line| && Spaces(line[from..to])
  }

  // ----- one record -----

  /** The seven fields in their order, with two spaces or more between neighbours. */
  predicate Spelled(line: string, r: Record, gaps: seq<string>) {
    && |gaps| == 6
    && (forall i :: 0 <= i < 6 ==> |gaps[i]| >= 2 && Spaces(gaps[i]))
    && line == r.createdLabel + (gaps[0] + (r.recordType + (gaps[1] + (r.supplierName + (gaps[2] + (r.itemCode
       + (gaps[3] + (r.sentText + (gaps[4] + (r.acceptedText + (gaps[5] + r.status)))))))))))
  }

  ghost predicate IsRow(line: string, r: Record) {
    exists gaps :: Spelled(line, r, gaps)
  }

  /** Texts as wide as their columns at most, and numbers of ten runes. */
  predicate Fits(r: Record) {
    && |r.createdLabel| <= 19 && |r.recordType| <= 16 && |r.supplierName| <= 28 && |r.itemCode| <= 20
    && |r.sentText| == 10 && |r.acceptedText| == 10
  }

  /** Where each field stands, and that nothing else does. */
  predicate InColumns(line: string, r: Record) {
    && At(line, 0, r.createdLabel) && Blank(line, |r.createdLabel|, 21)
    && At(line, 21, r.recordType) && Blank(line, 21 + |r.recordType|, 39)
    && At(line, 39, r.supplierName) && Blank(line, 39 + |r.supplierName|, 69)
    && At(line, 69, r.itemCode) && Blank(line, 69 + |r.itemCode|, 91)
    && At(line, 91, r.sentText) && Blank(line, 101, 103)
    && At(line, 103, r.acceptedText) && Blank(line, 113, 115)
    && At(line, 115, r.status) && |line| == 115 + |r.status|
  }

  lemma PadGap(s: string, width: nat) returns (gap: string)
    ensures PadRight(s, width) + "  " == s + gap && Spaces(gap) && |gap| >= 2
    ensures |s| <= width ==> |s| + |gap| == width + 2
  {
    gap := (if |s| < width then seq(width - |s|, _ => ' ') else "") + "  ";
  }

  /** The printed line with its gaps, those of padded fields as wide as the padding. */
  lemma RowGaps(r: Record) returns (gaps: seq<string>)
    ensures Spelled(RecordLine(r), r, gaps)
    ensures |gaps[4]| == |gaps[5]| == 2
    ensures |r.createdLabel| <= 19 ==> |r.createdLabel| + |gaps[0]| == 21
    ensures |r.recordType| <= 16 ==> |r.recordType| + |gaps[1]| == 18
    ensures |r.supplierName| <= 28 ==> |r.supplierName| + |gaps[2]| == 30
    ensures |r.itemCode| <= 20 ==> |r.itemCode| + |gaps[3]| == 22
  {
    hide PadRight;
    var g0 := PadGap(r.createdLabel, 19);
    var g1 := PadGap(r.recordType, 16);
    var g2 := PadGap(r.supplierName, 28);
    var g3 := PadGap(r.itemCode, 20);
    gaps := [g0, g1, g2, g3, "  ", "  "];
    RowParts(r, g0, g1, g2, g3);
  }

  lemma RowParts(r: Record, g0: string, g1: string, g2: string, g3: string)
    requires PadRight(r.createdLabel, 19) + "  " == r.createdLabel + g0 && PadRight(r.recordType, 16) + "  " == r.recordType + g1
    requires PadRight(r.supplierName, 28) + "  " == r.supplierName + g2 && PadRight(r.itemCode, 20) + "  " == r.itemCode + g3
    ensures RecordLine(r) == r.createdLabel + (g0 + (r.recordType + (g1 + (r.supplierName + (g2 + (r.itemCode
       + (g3 + (r.sentText + ("  " + (r.acceptedText + ("  " + r.status)))))))))))
  {
    hide PadRight;
    var tail := r.sentText + ("  " + (r.acceptedText + ("  " + r.status)));
    var p0, p1, p2, p3 := PadRight(r.createdLabel, 19), PadRight(r.recordType, 16), PadRight(r.supplierName, 28), PadRight(r.itemCode, 20);
    SevenParts(p0, p1, p2, p3, r.sentText, r.acceptedText, r.status);
    Regroup(p0, "  ", p1 + ("  " + (p2 + ("  " + (p3 + ("  " + tail))))));
    Regroup(p1, "  ", p2 + ("  " + (p3 + ("  " + tail))));
    Regroup(p2, "  ", p3 + ("  " + tail));
    Regroup(p3, "  ", tail);
    Regroup(r.itemCode, g3, tail);
    Regroup(r.supplierName, g2, r.itemCode + (g3 + tail));
    Regroup(r.recordType, g1, r.supplierName + (g2 + (r.itemCode + (g3 + tail))));
    Regroup(r.createdLabel, g0, r.recordType + (g1 + (r.supplierName + (g2 + (r.itemCode + (g3 + tail))))));
  }

  lemma SevenParts(a: string, b: string, c: string, d: string, e: string, f: string, g: string)
    ensures a + "  " + b + "  " + c + "  " + d + "  " + e + "  " + f + "  " + g
      == a + ("  " + (b + ("  " + (c + ("  " + (d + ("  " + (e + ("  " + (f + ("  " + g)))))))))))
  {
    SpacedPair(a, b, "  " + (c + ("  " + (d + ("  " + (e + ("  " + (f + ("  " + g)))))))));
    SpacedPair(a + "  " + b, c, "  " + (d + ("  " + (e + ("  " + (f + ("  " + g)))))));
    SpacedPair(a + "  " + b + "  " + c, d, "  " + (e + ("  " + (f + ("  " + g)))));
    SpacedPair(a + "  " + b + "  " + c + "  " + d, e, "  " + (f + ("  " + g)));
    SpacedPair(a + "  " + b + "  " + c + "  " + d + "  " + e, f, "  " + g);
    SpacedPair(a + "  " + b + "  " + c + "  " + d + "  " + e + "  " + f, g, "");
    assert a + "  " + b + "  " + c + "  " + d + "  " + e + "  " + f + "  " + g + ""
      == a + "  " + b + "  " + c + "  " + d + "  " + e + "  " + f + "  " + g && g + "" == g;
  }

  lemma SpacedPair(a: string, b: string, rest: string)
    ensures a + "  " + b + rest == a + ("  " + (b + rest))
  {
    Regroup(a + "  ", b, rest);
    Regroup(a, "  ", b + rest);
  }

  /** A row of any widths shows the seven fields in order. */
  lemma RowIsSpelled(r: Record)
    ensures IsRow(RecordLine(r), r)
  {
    hide RecordLine, Spelled;
    var gaps := RowGaps(r);
  }

  /** Two neighbouring pieces of a line. */
  lemma Pieces(front: string, text: string, gap: string, rest: string)
    requires Spaces(gap)
    ensures var line := front + (text + (gap + rest));
      At(line, |front|, text) && Blank(line, |front| + |text|, |front| + |text| + |gap|)
    ensures front + (text + (gap + rest)) == (front + text + gap) + rest
  {
    var line := front + (text + (gap + rest));
    assert line[|front|..|front| + |text|] == text;
    assert line[|front| + |text|..|front| + |text| + |gap|] == gap;
  }

  /** A row of texts that fit their columns has each field in its own. */
  lemma {:induction false} RowInColumns(r: Record)
    requires Fits(r)
    ensures InColumns(RecordLine(r), r)
  {
    hide RecordLine, Spaces, At, Blank;
    var g := RowGaps(r);
    var r6 := r.status;
    var r5 := r.acceptedText + (g[5] + r6);
    var r4 := r.sentText + (g[4] + r5);
    var r3 := r.itemCode + (g[3] + r4);
    var r2 := r.supplierName + (g[2] + r3);
    var r1 := r.recordType + (g[1] + r2);
    var f1 := "" + r.createdLabel + g[0];
    var f2 := f1 + r.recordType + g[1];
    var f3 := f2 + r.supplierName + g[2];
    var f4 := f3 + r.itemCode + g[3];
    var f5 := f4 + r.sentText + g[4];
    var f6 := f5 + r.acceptedText + g[5];
    var line := RecordLine(r);
    assert line == "" + (r.createdLabel + (g[0] + r1));
    Pieces("", r.createdLabel, g[0], r1);
    Pieces(f1, r.recordType, g[1], r2);
    Pieces(f2, r.supplierName, g[2], r3);
    Pieces(f3, r.itemCode, g[3], r4);
    Pieces(f4, r.sentText, g[4], r5);
    Pieces(f5, r.acceptedText, g[5], r6);
    LastPiece(f6, r.status);
  }

  lemma LastPiece(front: string, text: string)
    ensures At(front + text, |front|, text)
  {
  }

  lemma WordAt(front: string, word: string, gap: string, rest: string)
    ensures At(front + (word + gap) + rest, |front|, word)
  {
    var line := front + (word + gap) + rest;
    assert line[|front|..|front| + |word|] == word;
  }

  /** A piece of a line of seven, behind those before it. */
  lemma SevenAt(a: string, b: string, c: string, d: string, e: string, f: string, g: string)
    ensures var all := a + b + c + d + e + f + g;
      && all == "" + a + (b + c + d + e + f + g) && all == a + b + (c + d + e + f + g) && all == a + b + c + (d + e + f + g)
      && all == a + b + c + d + (e + f + g) && all == a + b + c + d + e + (f + g) && all == a + b + c + d + e + f + g + ""
  {
    Regroup(a + b + c + d + e, f, g);
    Regroup(a + b + c + d, e, f);
    Regroup(a + b + c + d, e + f, g);
    Regroup(a + b + c, d, e);
    Regroup(a + b + c, d + e, f);
    Regroup(a + b + c, d + e + f, g);
    Regroup(a + b, c, d);
    Regroup(a + b, c + d, e);
    Regroup(a + b, c + d + e, f);
    Regroup(a + b, c + d + e + f, g);
    Regroup(a, b, c);
    Regroup(a, b + c, d);
    Regroup(a, b + c + d, e);
    Regroup(a, b + c + d + e, f);
    Regroup(a, b + c + d + e + f, g);
    assert "" + a == a;
  }

  lemma WordsAt(words: seq<string>, gaps: seq<string>, line: string)
    requires |words| == |gaps| == 7
    requires line == (words[0] + gaps[0]) + (words[1] + gaps[1]) + (words[2] + gaps[2]) + (words[3] + gaps[3])
      + (words[4] + gaps[4]) + (words[5] + gaps[5]) + (words[6] + gaps[6])
    ensures var l := (i: int) requires 0 <= i < 7 => |words[i]| + |gaps[i]|;
      && At(line, 0, words[0]) && At(line, l(0), words[1]) && At(line, l(0) + l(1), words[2])
      && At(line, l(0) + l(1) + l(2), words[3]) && At(line, l(0) + l(1) + l(2) + l(3), words[4])
      && At(line, l(0) + l(1) + l(2) + l(3) + l(4), words[5]) && At(line, l(0) + l(1) + l(2) + l(3) + l(4) + l(5), words[6])
  {
    hide At;
    var a, b, c, d := words[0] + gaps[0], words[1] + gaps[1], words[2] + gaps[2], words[3] + gaps[3];
    var e, f, g := words[4] + gaps[4], words[5] + gaps[5], words[6] + gaps[6];
    SevenAt(a, b, c, d, e, f, g);
    WordAt("", words[0], gaps[0], b + c + d + e + f + g);
    WordAt(a, words[1], gaps[1], c + d + e + f + g);
    WordAt(a + b, words[2], gaps[2], d + e + f + g);
    WordAt(a + b + c, words[3], gaps[3], e + f + g);
    WordAt(a + b + c + d, words[4], gaps[4], f + g);
    WordAt(a + b + c + d + e, words[5], gaps[5], g);
    WordAt(a + b + c + d + e + f, words[6], gaps[6], "");
  }

  const HEAD_WORDS: seq<string> := ["Date", "Type", "Party", "Item", "Sent", "Accepted", "Status"]

  lemma HeadIsWords() returns (gaps: seq<string>)
    ensures |gaps| == 7 && |gaps[0]| == 17 && |gaps[1]| == 14 && |gaps[2]| == 25 && |gaps[3]| == 17 && |gaps[4]| == 8 && |gaps[5]| == 4
    ensures TABLE_HEAD == (HEAD_WORDS[0] + gaps[0]) + (HEAD_WORDS[1] + gaps[1]) + (HEAD_WORDS[2] + gaps[2]) + (HEAD_WORDS[3] + gaps[3])
      + (HEAD_WORDS[4] + gaps[4]) + (HEAD_WORDS[5] + gaps[5]) + (HEAD_WORDS[6] + gaps[6])
  {
    gaps := ["                 ", "              ", "                         ", "                 ", "        ", "    ", ""];
    assert "Date                 " == "Date" + gaps[0] && "Type              " == "Type" + gaps[1];
    assert "Party                         " == "Party" + gaps[2] && "Item                 " == "Item" + gaps[3];
    assert "Sent        " == "Sent" + gaps[4] && "Accepted    " == "Accepted" + gaps[5] && "Status" == "Status" + gaps[6];
  }

  /** The table head names the seven columns, from left to right. */
  lemma HeadOverColumns()
    ensures At(TABLE_HEAD, 0, "Date") && At(TABLE_HEAD, 21, "Type") && At(TABLE_HEAD, 39, "Party") && At(TABLE_HEAD, 69, "Item")
    ensures At(TABLE_HEAD, 90, "Sent") && At(TABLE_HEAD, 102, "Accepted") && At(TABLE_HEAD, 114, "Status")
  {
    hide At, TABLE_HEAD;
    var gaps := HeadIsWords();
    WordsAt(HEAD_WORDS, gaps, TABLE_HEAD);
  }

  // ----- the whole report -----

  /** A heading: its name and its value, a dash for a blank date. */
  predicate Heading(line: string, name: string, value: string) {
    line == name + value
  }

  predicate DateHeading(line: string, name: string, date: string) {
    if TrimSpace(date) == "" then line == name + "-" else line == name + TrimSpace(date)
  }

  /** The lines of a report, from the headings to the last record. */
  ghost predicate IsReport(lines: seq<string>, data: Report) {
    var n := if |data.totals| > 0 then 1 + |data.totals| else 0;
    && |lines| == 8 + n + |data.items|
    && Heading(lines[0], "Werka Archive Report", "")
    && Heading(lines[1], "Kind: ", data.kind) && Heading(lines[2], "Period: ", data.period)
    && DateHeading(lines[3], "From: ", data.from) && DateHeading(lines[4], "To: ", data.to)
    && (data.recordCount >= 0 ==> Heading(lines[5], "Records: ", Decimal(data.recordCount)))
    && (data.recordCount < 0 ==> Heading(lines[5], "Records: -", Decimal(-data.recordCount)))
    && (|data.totals| > 0 ==> Heading(lines[6], "Totals:", ""))
    && (forall i :: 0 <= i < |data.totals| ==> lines[7 + i] == "  " + data.totals[i].uom + ": " + data.totals[i].qtyText)
    && Heading(lines[6 + n], "", "") && Heading(lines[7 + n], "", TABLE_HEAD)
    && (forall i :: 0 <= i < |data.items| ==>
          IsRow(lines[8 + n + i], data.items[i]) && (Fits(data.items[i]) ==> InColumns(lines[8 + n + i], data.items[i])))
  }

  lemma LinesAreReport(data: Report)
    ensures IsReport(ReportLines(data), data)
  {
    hide RecordLine, IsRow, InColumns, Fits, TrimSpace, Decimal;
    assert TABLE_HEAD == "" + TABLE_HEAD && "Werka Archive Report" == "Werka Archive Report" + "" && "Totals:" == "Totals:" + "";
    forall i | 0 <= i < |data.items|
      ensures IsRow(RecordLine(data.items[i]), data.items[i])
      ensures Fits(data.items[i]) ==> InColumns(RecordLine(data.items[i]), data.items[i])
    {
      RowIsSpelled(data.items[i]);
      if Fits(data.items[i]) { RowInColumns(data.items[i]); }
    }
    hide TABLE_HEAD;
    PlaceLines(data);
  }

  lemma PlaceLines(data: Report)
    ensures var lines := ReportLines(data); var n := if |data.totals| > 0 then 1 + |data.totals| else 0;
      && |lines| == 8 + n + |data.items|
      && (forall i :: 0 <= i < 6 ==> lines[i] == HeadLines(data)[i])
      && (|data.totals| > 0 ==> lines[6] == "Totals:")
      && (forall i :: 0 <= i < |data.totals| ==> lines[7 + i] == TotalLine(data.totals[i]))
      && lines[6 + n] == "" && lines[7 + n] == TABLE_HEAD
      && (forall i :: 0 <= i < |data.items| ==> lines[8 + n + i] == RecordLine(data.items[i]))
  {
    hide RecordLine, TotalLine;
  }

  /** The pages read from the file of a report of at most 10^10 bytes are the headings, the
      totals and one row for each record, in their order, as a reader of the file sees them. */
  lemma {:induction false} ReportReadsBack(data: Report)
    ensures |PdfOf(ReportLines(data))| <= Pow10(10) ==>
      var pages := ReadPdf(PdfOf(ReportLines(data)));
      pages.Some? && exists lines :: IsReport(lines, data) && Concat(pages.value) == SanitisedLines(lines)
  {
    hide PdfOf, ReadPdf, ReportLines, IsReport, SanitisedLines, Pow10;
    LinesAreReport(data);
    if |PdfOf(ReportLines(data))| <= Pow10(10) { PdfRoundTrip(ReportLines(data)); }
  }

  /** What a reader of the file sees of any line: its first 132 runes once trimmed, with
      separators as spaces and other runes as question marks. */
  lemma WhatIsSeen(line: string)
    ensures var t, s := TrimSpace(line), Sanitised(line);
      && |s| == (if |t| < 132 then |t| else 132)
      && forall i :: 0 <= i < |s| ==>
           && (' ' <= t[i] <= '~' ==> s[i] == t[i])
           && (t[i] in "\n\r\t" ==> s[i] == ' ')
           && (!(' ' <= t[i] <= '~') && t[i] !in "\n\r\t" ==> s[i] == '?')
  {
    hide TrimSpace;
    assert "\n\r\t" == ['\n', '\r', '\t'];
  }

  /** So a printable line without white space at its ends and of at most 132 runes is seen
      as it was written, its columns where the report puts them. */
  lemma PrintableIsKept(line: string)
    requires |line| <= 132 && Trimmed(line) && forall i :: 0 <= i < |line| ==> ' ' <= line[i] <= '~'
    ensures Sanitised(line) == line
  {
    TrimmedIsFixed(line);
  }
}
