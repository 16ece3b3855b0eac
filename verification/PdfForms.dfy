/** The printed forms of the archive report's file, token by token, as any PDF reader has to
    find them (internal/mobileapi/server.go:1469-1516). */
module PdfForms {
  import opened Text
  import opened PdfText
  import opened PdfObjects
  import opened PdfFile

  // ----- the five kinds of objects -----

  lemma CatalogForm(id: nat)
    ensures CatalogBody(id) == "<< /Type /Catalog /Pages " + (Decimal(id) + " 0 R") + " >>"
  {
    hide Decimal;
  }

  lemma FontForm()
    ensures FONT_BODY == "<< /Type /Font /Subtype" + " /Type1 /BaseFont" + " /Courier >>"
  {
  }

  lemma PageForm(id: nat)
    ensures PageBody(2, 3, id) == "<< /Type /Page /Parent " + (Decimal(2) + " 0 R") + (" /MediaBox [0 0 842 595]" + " /Resources << /Font << /F1 ")
      + (Decimal(3) + " 0 R") + " >> >> /Contents " + (Decimal(id) + " 0 R") + " >>"
  {
    hide Decimal;
  }

  lemma PagesForm(kids: seq<nat>)
    ensures PagesBody(kids) == "<< /Type /Pages /Kids [" + Join(Refs(kids), " ") + "] /Count " + Decimal(|kids|) + " >>"
    ensures forall i :: 0 <= i < |kids| ==> Refs(kids)[i] == Decimal(kids[i]) + " 0 R"
  {
    hide Decimal, Join;
  }

  lemma StreamForm(stream: string)
    ensures StreamBody(stream) == "<< /Length " + Decimal(|stream|) + " >>\nstream\n" + stream + "\nendstream"
  {
    hide Decimal;
  }

  // ----- a page's operators -----

  /** A page's operators: eight-point type from 36 by 555 down, eleven points a line, each
      line shown and followed by a line break. */
  lemma ContentForms(lines: seq<string>, line: string)
    ensures ContentStream(lines) == "BT\n/F1 8 Tf\n36 555 Td\n11 TL\n" + ShowLines(lines) + "ET"
    ensures ShowLine(line) == "(" + EscapedLine(line) + ")" + " Tj\nT*\n"
    ensures |lines| > 0 ==> ShowLines(lines) == ShowLine(lines[0]) + ShowLines(lines[1..])
  {
    hide EscapedLine;
  }

  /** The file: header, objects, table, trailer. */
  lemma FileForms(id: nat, body: string, offset: nat, bodies: seq<string>, count: nat)
    ensures ObjectText(id, body) == Decimal(id) + " 0 obj\n" + body + "\nendobj\n"
    ensures XrefEntry(offset) == ZeroPad(Decimal(offset), 10) + " 00000 n \n"
    ensures "%PDF-1.4\n" <= FileText(bodies)
    ensures XrefTable([]) == "xref\n0 " + Decimal(1) + "\n" + "0000000000 65535 f \n" + ""
    ensures Trailer(count, offset) == "trailer\n<< /Size " + Decimal(count + 1) + " /Root " + (Decimal(1) + " 0 R") + " >>\n"
      + "startxref\n" + Decimal(offset) + "\n%%EOF\n"
  {
    hide Decimal, ZeroPad, ObjectsText, XrefEntries, XrefTable, Trailer;
    FileStart(bodies);
    TableForm();
    TrailerForm(count, offset);
  }

  lemma FileStart(bodies: seq<string>)
    ensures "%PDF-1.4\n" <= FileText(bodies)
  {
    hide ObjectsText, Tail;
    Regroup(HEADER, ObjectsText(bodies, |bodies|), Tail(bodies));
    PrefixOfConcat("%PDF-1.4\n", ObjectsText(bodies, |bodies|) + Tail(bodies));
  }

  lemma TableForm()
    ensures XrefTable([]) == "xref\n0 " + Decimal(1) + "\n" + "0000000000 65535 f \n" + ""
  {
    hide Decimal;
  }

  lemma TrailerForm(count: nat, offset: nat)
    ensures Trailer(count, offset) == "trailer\n<< /Size " + Decimal(count + 1) + " /Root " + (Decimal(1) + " 0 R") + " >>\n"
      + "startxref\n" + Decimal(offset) + "\n%%EOF\n"
  {
    hide Decimal;
  }
}
