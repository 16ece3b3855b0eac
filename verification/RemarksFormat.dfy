/** The remarks lines as other programs read and write them: the marker of each line, and the
    lines of a whole update (internal/erpnext/purchase_receipt.go:904-945,
    1043-1049, internal/erpnext/delivery_note.go:14-18, 646-661). */
module RemarksFormat {
  import opened Text
  import opened Quantity
  import opened Remarks
  import opened RemarksCodec

  /** Which lines each family owns. */
  lemma FamilyIff(line: string)
    ensures InFamily(line, Customer) <==>
      HasPrefix(line, "AC:") || HasPrefix(line, "AR:") || HasPrefix(line, "AQ:") || HasPrefix(line, "AT:") || HasPrefix(line, "AX:")
    ensures InFamily(line, Accord) <==>
      HasPrefix(line, "Accord Qabul:") || HasPrefix(line, "Accord Qaytarildi:") || HasPrefix(line, "Accord Sabab:")
      || HasPrefix(line, "Accord Izoh:") || HasPrefix(line, "Accord Supplier Tasdiq:")
    ensures InFamily(line, Unannounced) <==>
      HasPrefix(line, "Accord Werka Aytilmagan:") || HasPrefix(line, "Accord Werka Aytilmagan Sabab:")
  {
    hide HasPrefix;
  }

  lemma FiveLines(a: string, b: string, c: string, d: string, e: string)
    ensures [a] + [b] + [c] + [d] + [e] == [a, b, c, d, e] && [a, b] + [c] + [d] == [a, b, c, d] && [a] + [b] == [a, b]
  {
  }

  /** A decision with all its parts. */
  lemma CustomerFormat(u: Update)
    requires u.CustomerDecision? && NormalizeCustomerState(u.state) != "" && TrimSpace(u.reason) != "" && TrimSpace(u.comment) != ""
    requires u.accepted > 0.0 && u.returned > 0.0
    ensures CustomerLines(u) == [
      "AC:" + NormalizeCustomerState(u.state),
      "AR:" + TrimSpace(u.reason),
      "AQ:" + FormatQty(u.accepted) + " " + TrimSpace(u.uom),
      "AT:" + FormatQty(u.returned) + " " + TrimSpace(u.uom),
      "AX:" + TrimSpace(u.comment)]
  {
    hide TrimSpace, FormatQty, NormalizeCustomerState;
    FiveLines("AC:" + NormalizeCustomerState(u.state), "AR:" + TrimSpace(u.reason), "AQ:" + FormatQty(u.accepted) + " " + TrimSpace(u.uom),
              "AT:" + FormatQty(u.returned) + " " + TrimSpace(u.uom), "AX:" + TrimSpace(u.comment));
  }

  /** An accord note with all its parts. */
  lemma AccordFormat(u: Update)
    requires u.AccordDecision? && TrimSpace(u.reason) != "" && TrimSpace(u.comment) != ""
    ensures AccordNoteLines(u) == [
      "Accord Qabul: " + FormatQty(u.accepted) + " " + u.uom,
      "Accord Qaytarildi: " + FormatQty(NotedReturn(u)) + " " + u.uom,
      "Accord Sabab: " + TrimSpace(u.reason),
      "Accord Izoh: " + TrimSpace(u.comment)]
  {
    hide TrimSpace, FormatQty, NotedReturn;
    assert "Accord Qabul:" + " " == "Accord Qabul: " && "Accord Qaytarildi:" + " " == "Accord Qaytarildi: ";
    assert "Accord Sabab:" + " " == "Accord Sabab: " && "Accord Izoh:" + " " == "Accord Izoh: ";
    FiveLines("Accord Qabul: " + FormatQty(u.accepted) + " " + u.uom, "Accord Qaytarildi: " + FormatQty(NotedReturn(u)) + " " + u.uom,
              "Accord Sabab: " + TrimSpace(u.reason), "Accord Izoh: " + TrimSpace(u.comment), "");
  }

  /** An unannounced delivery with its reason. */
  lemma UnannouncedFormat(u: Update)
    requires u.WerkaUnannounced? && TrimSpace(u.state) != "" && TrimSpace(u.reason) != ""
    ensures UnannouncedLines(u)
      == ["Accord Werka Aytilmagan: " + TrimSpace(u.state), "Accord Werka Aytilmagan Sabab: " + TrimSpace(u.reason)]
  {
    hide TrimSpace;
    assert "Accord Werka Aytilmagan:" + " " == "Accord Werka Aytilmagan: ";
    assert "Accord Werka Aytilmagan Sabab:" + " " == "Accord Werka Aytilmagan Sabab: ";
    FiveLines("Accord Werka Aytilmagan: " + TrimSpace(u.state), "Accord Werka Aytilmagan Sabab: " + TrimSpace(u.reason), "", "", "");
  }
}
