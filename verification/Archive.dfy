/** The lines of the archive report and the whole response body
    (internal/mobileapi/server.go:1435-1466, 1536-1541). */
module Archive {
  import opened Text
  import opened PdfText
  import opened PdfFile
  import opened Pdf

  /** The quantity texts are the results of %.4g and %10.4g. */
  datatype Total = Total(uom: string, qtyText: string)
  datatype Record = Record(
    createdLabel: string, recordType: string, supplierName: string, itemCode: string,
    sentText: string, acceptedText: string, status: string)
  datatype Report = Report(
    kind: string, period: string, from: string, to: string,
    recordCount: int, totals: seq<Total>, items: seq<Record>)

  function EmptyDash(value: string): string {
    if TrimSpace(value) == "" then "-" else TrimSpace(value)
  }

  function FormatInt(n: int): string {
    if n < 0 then "-" + Decimal(-n) else Decimal(n)
  }

  /** %-Ns */
  function PadRight(s: string, width: nat): string {
    if |s| < width then s + seq(width - |s|, _ => ' ') else s
  }

  function TotalLine(t: Total): string {
    "  " + t.uom + ": " + t.qtyText
  }

  function RecordLine(r: Record): string {
    PadRight(r.createdLabel, 19) + "  " + PadRight(r.recordType, 16) + "  "
    + PadRight(r.supplierName, 28) + "  " + PadRight(r.itemCode, 20) + "  "
    + r.sentText + "  " + r.acceptedText + "  " + r.status
  }

  const TABLE_HEAD: string :=
    "Date                 " + "Type              " + "Party                         " + "Item                 "
    + "Sent        " + "Accepted    " + "Status"

  function HeadLines(data: Report): seq<string> {
    [ "Werka Archive Report",
      "Kind: " + data.kind,
      "Period: " + data.period,
      "From: " + EmptyDash(data.from),
      "To: " + EmptyDash(data.to),
      "Records: " + FormatInt(data.recordCount) ]
  }

  function TotalLines(totals: seq<Total>): (lines: seq<string>)
    ensures |lines| == |totals|
  {
    seq(|totals|, i requires 0 <= i < |totals| => TotalLine(totals[i]))
  }

  function RecordLines(items: seq<Record>): (lines: seq<string>)
    ensures |lines| == |items|
  {
    seq(|items|, i requires 0 <= i < |items| => RecordLine(items[i]))
  }

  function ReportLines(data: Report): seq<string> {
    HeadLines(data)
    + (if |data.totals| > 0 then ["Totals:"] + TotalLines(data.totals) else [])
    + ["", TABLE_HEAD]
    + RecordLines(data.items)
  }

  method BuildReportLines(data: Report) returns (lines: seq<string>)
    ensures lines == ReportLines(data)
  {
    lines := HeadLines(data);
    if |data.totals| > 0 {
      var totals := ["Totals:"];
      for i := 0 to |data.totals|
        invariant totals == ["Totals:"] + TotalLines(data.totals)[..i]
      {
        totals := totals + [TotalLine(data.totals[i])];
      }
      lines := lines + totals;
    }
    lines := lines + ["", TABLE_HEAD];
    var records: seq<string> := [];
    for i := 0 to |data.items|
      invariant records == RecordLines(data.items)[..i]
    {
      records := records + [RecordLine(data.items[i])];
    }
    lines := lines + records;
  }

  method BuildArchivePDF(data: Report) returns (out: string)
    ensures out == PdfOf(ReportLines(data))
  {
    var lines := BuildReportLines(data);
    out := WritePdf(lines);
  }
}
