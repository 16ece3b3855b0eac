# Verified model of the mobile server

A Dafny model of the parts of this Go backend that carry logic of their own: the
archive report it prints as a PDF file, the customer's response to a delivery and
the remarks text that stores it, Fernet tokens, the supplier login with its
lockout, the limit on access codes, two worker pools, the search score, the
sessions, the push tokens, the item import and the three views of the warehouse
worker's home screen. Check it with `dafny verify dfyconfig.toml`.

| file | what it models |
|---|---|
| `Text.dfy`, `Clock.dfy` | the Go string helpers (white space, trimming, prefixes, decimal numerals, lowering) and its zero time |
| `Sorting.dfy`, `Runs.dfy` | Go's string order and sort.Slice; runs of a state machine whose steps may be impossible |
| `PdfText.dfy`, `PdfObjects.dfy`, `PdfFile.dfy`, `PdfForms.dfy`, `Pdf.dfy`, `Archive.dfy`, `ArchiveRows.dfy` | the report writer from escaped lines to cross-reference table, a reader for its files, and the columns it finds there |
| `Lines.dfy`, `Quantity.dfy`, `Remarks.dfy`, `RemarksCodec.dfy`, `RemarksFormat.dfy`, `RemarksReadBack.dfy` | the remarks text shared by three families of marked lines |
| `RemarksTexts.dfy`, `RemarksAnswers.dfy`, `RemarksRuns.dfy` | the same with texts of several lines: what readers answer, and what runs of updates leave |
| `Delivery.dfy`, `DeliveryModes.dfy` | the customer's response as a state machine over one note and its returns, and mode by mode |
| `Fernet.dfy`, `FernetFrame.dfy` | padding, block chaining, the token frame, and the frame byte by byte |
| `AuthRepository.dfy`, `Lockout.dfy` | the sorted credentials file and the login service over it |
| `CodeRegen.dfy` | the window and cooldown on access codes |
| `WorkerPool.dfy`, `BulkMove.dfy` | all interleavings of the two worker pools |
| `Transliteration.dfy`, `SearchKey.dfy`, `SearchRunes.dfy`, `Search.dfy`, `SearchLimits.dfy` | search keys and scores, and how many fields they bear |
| `Sessions.dfy`, `PushTokens.dfy` | the two persistent maps |
| `ImportRows.dfy`, `Importer.dfy`, `ImportLimits.dfy` | the import rule "one item, one customer", and the files on which it stops half way |
| `Werka.dfy` | summary, breakdown and details |

Loops, arrays and fields of the source are loops, arrays and fields here; each such
method is proved equal to a function of its inputs, and the properties are lemmas
about that function over all inputs, all runs or all interleavings.

What comes from outside is a parameter with its law stated: the block cipher is a
permutation of blocks, the MAC has a fixed size and base64 decodes what it encoded
(`Fernet.Lawful`); the Unicode tables lower the letters of the transliteration table
as Unicode does, and lowering is idempotent (`SearchKey.Lawful`); ParseFloat reads the
numerals that %.4f prints by place value and anything else as anything
(`Quantity.ReadsPrinted`); the refusal of a customer is any client search and any ERP
(`Importer.Policy`); the password comparison, clock readings, random tokens and schedules
are arguments. ERP and disk are plain state that a successful call updates. Times are
integer nanoseconds; quantities are reals, and those read back may also be infinite or
no number.

Places where the code is narrower than its intent are stated as such, with the exact
condition and an input:

- a reason or comment with a line feed does not read back, and a later line of one text
  can speak for another, for a quantity or for another family (`ReasonReadsBackIff`,
  `CommentReadsBackIff`, `QuantitiesReadBackIff`, `RunEffectIff`, `CommentSpeaksReason`,
  `SpeakingCommentUnbalances`, `CommentSpeaksUnannounced`), or be left behind when an
  update is repeated (`ApplyIdempotentIff`, `SecondLineIsLeft`);
- the 32-bit count of failed logins ends the lockout when it wraps (`SpacingIff`);
- the advertised retry time may be up to a second short (`RetryIsEnoughIff`);
- an import stops half way at an item ERP holds but does not list (`ConflictStops`,
  `HalfImportedExample`), and an import done once may be refused the second time when
  customers fill a page, or create a customer again (`SecondImportIff`, `DoneAgainIff`,
  `PushedOffExample`, `CreatedTwice`);
- a match beyond the thirteenth field may be lost and a best tier beyond the sixth
  (`ThirteenIsExact`, `SixIsExact`).

## Model

| member | source | states |
|---|---|---|
| PdfText.EscapePDFText | internal/mobileapi/server.go:1518-1542 | the loop over runes, with its cut at 132 and its escapes, writes exactly the escaped form of the trimmed line |
| PdfText.BuildPDFTextStream | internal/mobileapi/server.go:1506-1516 | a page content stream is the fixed head, one show operator per line in order, and the end token |
| PdfText.LiteralRoundTrip | internal/mobileapi/server.go:1523-1540 | a reader of literal strings (section 7.3.4.2 of ISO 32000-1: nesting, escapes, octal codes) undoes the escapes, whatever follows the closing parenthesis |
| PdfText.ContentRoundTrip | internal/mobileapi/server.go:1506-1542 | reading a content stream gives each line back once, in order, trimmed, cut at 132 runes, separators as spaces and other runes as question marks |
| PdfObjects.CatalogRoundTrip | internal/mobileapi/server.go:1472 | the catalog reads back as a reference to the page tree |
| PdfObjects.PagesRoundTrip | internal/mobileapi/server.go:1485 | `/Kids` reads back as the page ids in order and `/Count` is their number |
| PdfObjects.PageRoundTrip | internal/mobileapi/server.go:1482 | a page reads back its parent, font and contents references |
| PdfObjects.StreamRoundTrip | internal/mobileapi/server.go:1483 | `/Length` is the length of the stream: cutting that many characters leaves `endstream` |
| PdfFile.WriteObjects | internal/mobileapi/server.go:1487-1493 | the writing loop produces the objects in order and stores in the array exactly the position at which each began |
| PdfFile.WriteXref | internal/mobileapi/server.go:1495-1499 | the table lists the stored offsets, one entry each, after the free entry |
| PdfForms.FileForms | internal/mobileapi/server.go:1487-1501 | the tokens of the file: header, objects, table, trailer |
| PdfForms.PageForm | internal/mobileapi/server.go:1482 | the text of a page object, and likewise for the other four kinds (`CatalogForm`, `FontForm`, `PagesForm`, `StreamForm`) |
| PdfForms.ContentForms | internal/mobileapi/server.go:1506-1516 | the operators of a page: eight-point type from 36 by 555 down, eleven points a line |
| PdfFile.XrefEntryWidth | internal/mobileapi/server.go:1498 | an entry has the 20 bytes of section 7.5.4 of ISO 32000-1 if and only if its offset is below 10^10 |
| PdfFile.OffsetIsExact | internal/mobileapi/server.go:1490-1493 | at the recorded offset of an object the file holds `id 0 obj`, that body, and nothing before it |
| PdfFile.OffsetsFit | internal/mobileapi/server.go:1490-1498 | in a file of at most 10^10 bytes every offset is below 10^10 |
| PdfFile.StartXrefIsExact | internal/mobileapi/server.go:1494-1501 | the number read before the end marker is the position of `xref` |
| PdfFile.XrefRoundTrip | internal/mobileapi/server.go:1494-1501 | following `startxref` yields the table with every recorded offset and the catalog as root |
| PdfFile.ObjectRoundTrip | internal/mobileapi/server.go:1491-1499 | following the table to any object yields that object |
| Pdf.BuildObjects | internal/mobileapi/server.go:1463-1485 | the in-place filling of the object array, pages first and page tree last, yields the catalog, page tree, font, and a page and a stream for each 46 lines |
| Pdf.OnePageRoundTrip | internal/mobileapi/server.go:1473-1484 | the references of a page lead to written objects of the right kind: the page tree, the font, and its own stream |
| Pdf.PagesPartition | internal/mobileapi/server.go:1463-1480 | the pages put one after the other are all the lines, none lost or repeated |
| Pdf.PageSizes | internal/mobileapi/server.go:1463-1480 | every page but the last has 46 lines, and the last one to 46 |
| Pdf.PdfRoundTrip | internal/mobileapi/server.go:1463-1504 | for every list of lines whose file stays within 10^10 bytes, a reader that starts at `startxref` gets back every line once, in order, sanitised, in pages of at most 46 |
| Pdf.FileIsAscii | internal/mobileapi/server.go:1434-1542 | every character written is ASCII, so positions counted in characters are byte offsets |
| Archive.BuildArchivePDF | internal/mobileapi/server.go:1434-1504 | the response body is the file for the report lines built from heading, totals and records |
| ArchiveRows.RowIsSpelled | internal/mobileapi/server.go:1450-1461 | a row shows date, type, party, item, sent, accepted and status in this order, two spaces or more between neighbours, whatever their widths |
| ArchiveRows.RowInColumns | internal/mobileapi/server.go:1450-1461 | texts that fit stand at columns 0, 21, 39, 69, 91, 103 and 115, with only spaces between |
| ArchiveRows.HeadOverColumns | internal/mobileapi/server.go:1449 | the table head names the seven columns at 0, 21, 39, 69, 90, 102 and 114 |
| ArchiveRows.ReportReadsBack | internal/mobileapi/server.go:1434-1504 | the pages read back are the headings with their values, the totals, the table head and one such row for each record, in order |
| ArchiveRows.WhatIsSeen | internal/mobileapi/server.go:1518-1542 | what a reader sees of any line, rune by rune: the first 132 of the trimmed line, separators as spaces, other runes as question marks |
| ArchiveRows.PrintableIsKept | internal/mobileapi/server.go:1518-1542 | so a printable trimmed line of at most 132 runes is seen as it was written |
| Lines.CarriageReturnsDoNotMatter | internal/erpnext/delivery_note.go:630 | the split after replacing CR LF keeps the same trimmed lines as splitting at line feeds alone |
| Lines.LinesOfTrimmed | internal/erpnext/delivery_note.go:630-635 | storing a text trimmed does not change the lines read from it |
| Quantity.PlaceValueOfFormatted | internal/erpnext/delivery_note.go:652-656 | the numeral that %.4f prints denotes, digit by digit, the quantity rounded half to even at four decimals |
| Quantity.QtyRoundTrip | internal/erpnext/delivery_note.go:697-717 | so any ParseFloat that reads printed numerals by place value reads a printed quantity as that rounded quantity, whatever else it accepts |
| Quantity.PlaceValuesArePrinted | internal/erpnext/delivery_note.go:707 | such a reading exists |
| Quantity.RoundedError | internal/erpnext/delivery_note.go:652-656 | that rounding moves a quantity by at most 0.00005 and keeps its sign |
| Quantity.RoundedToEven | internal/erpnext/delivery_note.go:652-656 | the result is a whole number of ten-thousandths, an even one if two were as near |
| Remarks.FamiliesAreDisjoint | internal/erpnext/purchase_receipt.go:904-912 | no line carries a marker of two families |
| RemarksFormat.FamilyIff | internal/erpnext/purchase_receipt.go:904-911 | which lines each family owns, by their markers |
| RemarksFormat.CustomerFormat | internal/erpnext/delivery_note.go:646-661 | the five lines of a decision |
| RemarksFormat.AccordFormat | internal/erpnext/purchase_receipt.go:932-944 | the four lines of an accord note |
| RemarksFormat.UnannouncedFormat | internal/erpnext/purchase_receipt.go:1043-1049 | the two lines of an unannounced delivery |
| RemarksReadBack.StateIff | internal/erpnext/delivery_note.go:741-754 | which words name which state of a decision |
| RemarksReadBack.AccordNoteIff | internal/erpnext/purchase_receipt.go:914-931 | a note is refused exactly when something is missing and the returned quantity is negative or more than 0.0001 above what is missing, and empty when nothing is missing |
| Remarks.UpsertEffect | internal/erpnext/delivery_note.go:629-662 | an upsert replaces its own family and leaves every other family and every foreign line, with their order |
| RemarksCodec.KeepForeign | internal/erpnext/delivery_note.go:632-645 | the filtering loop keeps exactly the trimmed non-blank lines outside the family |
| RemarksCodec.UpsertCustomerDecisionPayloadInRemarks | internal/erpnext/delivery_note.go:629-662 | the customer upsert is the replacement of its family by the lines of the decision |
| RemarksCodec.UpsertAccordDecisionInRemarks | internal/erpnext/purchase_receipt.go:947-968 | the accord upsert likewise, for a note that was accepted |
| RemarksCodec.UpsertWerkaUnannouncedInRemarks | internal/erpnext/purchase_receipt.go:1030-1051 | the unannounced upsert likewise |
| RemarksCodec.ExtractValue | internal/erpnext/delivery_note.go:675-684 | the extraction loop returns the value on the first line that carries the marker |
| RemarksCodec.ExtractQuantities | internal/erpnext/delivery_note.go:697-717 | for any ParseFloat, the extraction loop returns what it yields for the first fields of the last lines that carry the two markers, infinities and NaN included |
| RemarksReadBack.RunEffect | internal/erpnext/delivery_note.go:629-662 | after any sequence of single-line upserts of any family, each family holds the lines of its own last update and foreign lines are as at the start |
| RemarksReadBack.ApplyIdempotent | internal/erpnext/purchase_receipt.go:947-968 | repeating an upsert leaves the text character for character |
| RemarksReadBack.CustomerReadsBack | internal/erpnext/delivery_note.go:664-717 | after any such sequence state, reason, comment and both quantities read back as in the last customer decision, quantities at four decimals |
| RemarksReadBack.AccordReadsBack | internal/erpnext/purchase_receipt.go:991-1011 | after any such sequence the accord quantities read back as in the last accepted accord note |
| RemarksReadBack.UnannouncedReadsBack | internal/erpnext/purchase_receipt.go:1053-1073 | after any such sequence state and reason read back as in the last unannounced update, the state lowered, for every lower-casing of runes |
| RemarksReadBack.StateUnderAnyLowering | internal/erpnext/delivery_note.go:741-754 | the state of a decision is read the same under every lower-casing that treats ASCII letters as Go does and turns no other rune into one of theirs |
| RemarksTexts.AppliedLines | internal/erpnext/delivery_note.go:629-662 | the lines of a text after any update, its texts having any number of lines: the others, then each marked line followed by the later lines of its text |
| RemarksTexts.AnyReads | internal/erpnext/delivery_note.go:664-717 | of those, a reader cannot tell the lines of other markers from their later lines alone |
| RemarksAnswers.ReasonReadsBackIff | internal/erpnext/delivery_note.go:675-684 | for every decision: a reason that is not blank reads back if and only if it is one line once trimmed, a blank one if and only if no later line of unit or comment speaks for it |
| RemarksAnswers.CommentSpeaksReason | internal/erpnext/delivery_note.go:675-684 | a comment for which a blank reason does not read back |
| RemarksAnswers.CommentReadsBackIff | internal/erpnext/delivery_note.go:686-695 | for every decision: a comment reads back if and only if it is one line once trimmed, or a later line of reason or unit that carries its marker first says the same |
| RemarksAnswers.StateReadsBackIff | internal/erpnext/delivery_note.go:664-673 | for every decision: a state reads back unless it is unknown and the first later line with its marker names a known one |
| RemarksAnswers.AnyQuantities | internal/erpnext/delivery_note.go:648-717 | for every decision and every ParseFloat, what the two quantity readers return: the written quantities, changed only by later lines read after them |
| RemarksAnswers.QuantitiesReadBackIff | internal/erpnext/delivery_note.go:648-717 | the quantities read back as written if and only if no later line of reason, unit or comment changes them, as ParseFloat reads it |
| RemarksAnswers.QuietTexts | internal/erpnext/delivery_note.go:648-717 | which holds, for every ParseFloat, when no line after the first of these texts starts with a quantity marker |
| RemarksAnswers.CommentSpeaks | internal/erpnext/delivery_note.go:697-717 | comments for which it fails: their second line is read as the accepted quantity, whatever word it names and whatever was written |
| RemarksAnswers.AccordQuantitiesReadBackIff | internal/erpnext/purchase_receipt.go:991-1011 | the same equivalence for the quantities of an accord note |
| RemarksRuns.RunHolds | internal/erpnext/delivery_note.go:629-662 | after any sequence of updates with any texts each family holds its own lines of its last update and those that later updates of other families added, and lines of no family are only ever added |
| RemarksRuns.RunEffectIff | internal/erpnext/delivery_note.go:629-662 | a family reads as its last update if and only if that one keeps to its family and no later update of another speaks for it |
| RemarksRuns.ForeignStaysIff | internal/erpnext/delivery_note.go:629-662 | lines of no family are as at the start if and only if no update has a stray one |
| RemarksRuns.StraysAreFree | internal/erpnext/delivery_note.go:629-662 | what an update adds to other families, or to none, are later lines of its texts |
| RemarksRuns.ApplyIdempotentIff | internal/erpnext/delivery_note.go:629-662 | repeating an update leaves the text character for character if and only if every later line of its texts carries a marker of its own family |
| RemarksRuns.SingleKeeps | internal/erpnext/delivery_note.go:629-662 | which holds for texts of one line |
| RemarksRuns.SecondLineIsLeft | internal/erpnext/delivery_note.go:629-662 | comments for which it fails: a second line without a marker is left behind each time |
| RemarksRuns.CommentSpeaksUnannounced | internal/erpnext/purchase_receipt.go:1053-1062 | a customer comment whose second line is read as the state of an unannounced delivery |
| Delivery.DeliveryDesk.CustomerRespondDelivery | internal/core/service.go:1943-2036 | one response: refused without any write, or return, remarks and state written in that order, and the reported quantities those of the updated draft |
| DeliveryModes.StatusMeans | internal/core/service.go:2038-2055 | a status in terms of the document and the two stored numbers |
| DeliveryModes.StoredNumber | internal/core/service.go:2274-2284 | a stored number is that of its digits and sign within 64 bits, and the fallback for a blank or any other text |
| DeliveryModes.TakenIff | internal/core/service.go:2123-2236 | for each mode, in terms of the request and the note, exactly when a response is taken |
| DeliveryModes.AcceptAllEffect | internal/core/service.go:2141-2151 | accepting all leaves the note accepted, without a return, its fields written |
| DeliveryModes.RejectAllEffect | internal/core/service.go:2152-2165 | rejecting all leaves it rejected, with one return of exactly the quantity sent |
| DeliveryModes.AcceptPartEffect | internal/core/service.go:2166-2184 | accepting a part leaves it partial, with one return of the other part |
| DeliveryModes.ClaimEffect | internal/core/service.go:2185-2217 | a claim on an accepted note rejects it if it is for all, within 0.0001, and else leaves it partial, with one return of what was claimed |
| DeliveryModes.ShownEffect | internal/core/service.go:2973-2997 | after each mode both the stored and the reported quantities are those asked for, within the rounding of four decimals |
| DeliveryModes.ShownMeans | internal/core/service.go:2973-2997 | what is shown for any note, status by status, from the numbers read in its remarks, what ERP took back and what was sent |
| DeliveryModes.StateIsWritten | internal/core/service.go:1980-1990 | the remarks name the new state, whatever the texts of the response |
| Delivery.DecisionIsSound | internal/core/service.go:2123-2236 | an accepted decision has positive parts that add up to the quantity within 0.0001 and moves the note along an allowed edge |
| Delivery.TakenQuantity | internal/core/service.go:1957-1980 | what ERP takes back is positive and never above the quantity sent, although the request is only checked to 0.0001 |
| Delivery.StepEffect | internal/core/service.go:1943-2036 | a response either changes nothing or makes one allowed status move, with exactly one return unless the note becomes accepted |
| Delivery.RunConserves | internal/core/service.go:1943-2036 | over any run of responses the returns only grow, there is one exactly when the note is partial or rejected, and the quantity sent never changes |
| Delivery.AtMostOneReturn | internal/core/service.go:1943-2036 | in any run on a note without returns at most one return is made, and never for more than was sent |
| Delivery.FinalIsFinal | internal/core/service.go:2123-2217 | once partial or rejected, no later run changes anything |
| Delivery.ReadBackBound | internal/core/service.go:2973-2997 | the read-back arithmetic, with its fallbacks and quantities that print as 0.0000, adds up to the quantity sent within 0.0002 |
| Delivery.ResponseReadsBack | internal/core/service.go:2990-2997 | after any accepted response none of whose later lines changes a quantity, both the reported and the stored quantities add up to the quantity sent within 0.0002 |
| Delivery.RunReadsBack | internal/core/service.go:2973-2997 | over any run of such responses the shown quantities add up from the first accepted response on |
| Delivery.QuietTextsRun | internal/core/service.go:2973-2997 | a run is such whenever no line after the first of the unit, the reasons and the comments starts with a quantity marker |
| Delivery.SpeakingCommentUnbalances | internal/core/service.go:2973-2997 | responses for which it fails: of ten sent, four accepted and six returned are shown as six and whatever the second line of the comment names |
| Fernet.Pkcs7Unpad | internal/erpdb/credentials.go:226-240 | the scan of the last bytes accepts exactly well-formed padding and removes it |
| Fernet.UnpadIffPadded | internal/erpdb/credentials.go:215-240 | unpadding yields s if and only if the text is s padded, the block size is positive and the padding fits a byte |
| Fernet.DecryptEncrypted | internal/erpdb/credentials.go:136-138 | chained decryption undoes chained encryption for any block permutation |
| Fernet.EncryptDecrypted | internal/erpdb/credentials.go:190-191 | and the other way round |
| Fernet.EncryptFernet | internal/erpdb/credentials.go:118-153 | the token built byte by byte is the base64 form of the sealed frame, or the key error |
| Fernet.DecryptFernet | internal/erpdb/credentials.go:155-198 | the checks in their order give the text of the frame or the first error |
| FernetFrame.XorByteAt | internal/erpdb/credentials.go:136-138 | bit i of an exclusive or is one exactly when the two bits differ |
| FernetFrame.PaddedIff | internal/erpdb/credentials.go:215-224 | a padded text is the text and n bytes of value n, 1 to 16, in whole blocks |
| FernetFrame.EncryptedIsChained | internal/erpdb/credentials.go:136-138 | each cipher block is the encryption of its text block with the bits flipped of the cipher block before it, of the vector for the first |
| Fernet.OpensIffSealed | internal/erpdb/credentials.go:155-198 | a raw token opens to a text if and only if it is that text sealed, for some time and some vector |
| FernetFrame.OpensIffToken | internal/erpdb/credentials.go:155-198 | which is, byte by byte: 0x80, eight bytes of time, a vector of sixteen, the padded text chained under the second half of the key, and the MAC of all that under the first half |
| FernetFrame.EncryptedIsToken | internal/erpdb/credentials.go:118-153 | what encrypting writes is such a token, its eight bytes being the time modulo 2^64, most significant first |
| FernetFrame.OpenFails | internal/erpdb/credentials.go:160-190 | which error a raw token gives: size and version, then the MAC, then whole blocks, then padding |
| FernetFrame.KeyIff | internal/erpdb/credentials.go:200-213 | a key is the trimmed text in base64 if it has 32 bytes |
| FernetFrame.LawsCanHold | internal/erpdb/credentials.go:118-198 | a library that meets the laws asked for |
| Fernet.EncryptThenDecrypt | internal/erpdb/credentials.go:118-198 | decrypting an encrypted text with the same key gives it back |
| AuthRepository.KeptTime | internal/suplier/auth_codec.go:20-23 | a stored time keeps its second from 1970 on, zero stays zero, and storing again changes nothing |
| AuthRepository.DecodeSupplierAuths | internal/suplier/auth_codec.go:40-72 | the decoding loop turns the records of the file into the list it stores |
| AuthRepository.SortByPhone | internal/suplier/auth_file_repository.go:103-105 | the sort before writing yields an ordered permutation of its input |
| Sorting.SortSlice | internal/suplier/auth_file_repository.go:103-105 | for any comparison that is an order, some permutation of the input in which nothing is out of order |
| AuthRepository.SearchPhone | internal/suplier/auth_file_repository.go:39-41 | the binary search returns the first index whose phone is not below the one sought |
| AuthRepository.SearchFinds | internal/suplier/auth_file_repository.go:39-45 | on a strictly sorted list that index holds the phone if and only if the list has it |
| AuthRepository.SortedListIsUnique | internal/suplier/auth_file_repository.go:103-105 | two strictly sorted lists with the same records are the same list, so any sorting algorithm would do |
| AuthRepository.AuthFileRepository.FindByPhone | internal/suplier/auth_file_repository.go:25-46 | lookup by binary search is lookup in the map of the stored list |
| AuthRepository.AuthFileRepository.Upsert | internal/suplier/auth_file_repository.go:61-86 | an upsert keeps the list strictly sorted and changes the map at one phone, to the record as the file keeps it |
| AuthRepository.WritesAreLastWrites | internal/suplier/auth_file_repository.go:61-86 | after any sequence of upserts a phone maps to its own last write as kept |
| AuthRepository.UpsertAll | internal/suplier/auth_file_repository.go:25-86 | any run of upserts from an empty file followed by a lookup finds exactly the last write for that phone |
| Lockout.AuthService.Authenticate | internal/suplier/auth_service.go:97-144 | the stored book and the answer after a login are those of the transition function, in every branch |
| Lockout.AuthService.Register | internal/suplier/auth_service.go:51-95 | likewise for a registration, which keeps the first registration time |
| Lockout.LoginAnswers | internal/suplier/auth_service.go:97-144 | what a login answers: unknown, locked, the record, or a wrong password, the fifth of which is answered as locked; without a check nothing changes |
| Lockout.LoginClears | internal/suplier/auth_service.go:133-144 | a login succeeds if and only if the phone is known and unlocked and the password right, and then count and lock are cleared, the time is kept and the password stays |
| Lockout.RegistrationStarts | internal/suplier/auth_service.go:59-95 | only a phone without a password can be registered; it starts unlocked with no failures and keeps its first registration time to the second |
| Lockout.FailedIsKept | internal/suplier/auth_service.go:115-131 | one failed check adds one to the stored count, and from the fifth on the record read back is locked up to the second in which fifteen minutes end, and no longer |
| Lockout.FailuresAreSpaced | internal/suplier/auth_service.go:115-131 | in any run without a login of a phone, among any calls for other phones, each failed check once the count has reached five comes more than 899 seconds after the one before, as long as count and checks are at most INT32_MAX + 2 |
| Lockout.GuessingTakesTime | internal/suplier/auth_service.go:115-131 | from any stored count, one that has wrapped included, k failed checks take more than (k - f) * 899 seconds, where f is what is left up to the fifth, and one from there on; count and k being at most INT32_MAX + 2 |
| Lockout.CountWraps | internal/suplier/auth_codec.go:22 | when the stored count has just become negative, two wrong tries at one moment are both checked |
| Lockout.UnspacedRun | internal/suplier/auth_codec.go:22 | for every known phone and every number of checks beyond INT32_MAX + 2, stored count included, a run with that many failures that is not spaced |
| Lockout.SpacingIff | internal/suplier/auth_service.go:115-131 | so the spacing holds in all runs with k failures if and only if the stored count plus k is at most INT32_MAX + 2 |
| CodeRegen.BumpCodeRegenState | internal/core/admin_suppliers.go:975-991 | the assignments to the state give the specified next state, or a refusal exactly while locked |
| CodeRegen.AtMostThreePerWindow | internal/core/admin_suppliers.go:975-991 | over any run at non-decreasing times windows are a minute apart, open with a grant, and hold at most three |
| CodeRegen.SixSpanAWindow | internal/core/admin_suppliers.go:975-991 | any six grants in a row span a minute or more |
| CodeRegen.AtMostFivePerMinute | internal/core/admin_suppliers.go:975-991 | any half-open minute, wherever it starts, contains at most five grants |
| CodeRegen.FiveIsReached | internal/core/admin_suppliers.go:975-991 | five is reached by a concrete run, so the bound is tight |
| CodeRegen.RetryIsSound | internal/core/admin_suppliers.go:993-1006 | after any run the retry time is 0 exactly when a request would go through, never above 60, and one second more than advertised always unlocks |
| CodeRegen.RetryIs | internal/core/admin_suppliers.go:993-1006 | the retry time is the whole seconds left, and one when less than a second is |
| CodeRegen.RetryIsEnoughIff | internal/core/admin_suppliers.go:997-1006 | the advertised time alone unlocks if and only if the time left is under a second or whole seconds |
| WorkerPool.NeverTwice | internal/mobileapi/server.go:1170-1207 | in every interleaving at every moment no line index is with two workers or called twice, and each finished call has written its own slot |
| WorkerPool.WaitMeansDone | internal/mobileapi/server.go:1204-1209 | the wait ends only when every index was called exactly once and its slot holds what that call answered |
| WorkerPool.NoDeadlock | internal/mobileapi/server.go:1163-1209 | as long as the handler has not returned some step is possible |
| WorkerPool.RunsAreBounded | internal/mobileapi/server.go:1163-1209 | every run is bounded, and every run that returned has the same length |
| WorkerPool.CreateBatch | internal/mobileapi/server.go:1163-1241 | under any complete schedule the workers writing into the shared array leave the slice the two lists are cut from |
| WorkerPool.SelectPartitions | internal/mobileapi/server.go:1211-1240 | the created and the failed lists are in increasing line order and each line is in exactly one |
| WorkerPool.BatchReport | internal/mobileapi/server.go:1174-1240 | after any complete run each line stands in one list, and is created with the record of its call, or failed with the error and code of its kind, exactly as its call answered |
| BulkMove.AtMostEightInFlight | internal/core/admin_suppliers.go:354-369 | in every interleaving at most eight calls are in flight and a send into the result channel never blocks |
| BulkMove.EightAreReached | internal/core/admin_suppliers.go:354-369 | with eight codes or more, eight are reached |
| BulkMove.NoDeadlock | internal/core/admin_suppliers.go:354-380 | until all answers are received some step is possible |
| BulkMove.RunsAreBounded | internal/core/admin_suppliers.go:354-380 | every run has at most four steps per code |
| BulkMove.EveryCodeIsReported | internal/core/admin_suppliers.go:371-389 | updated and failed codes together are the requested codes as a multiset, each on the side its own call answered |
| BulkMove.NormalizedCodes | internal/core/admin_suppliers.go:1097-1112 | the requested codes are distinct and are exactly the trimmed non-blank input codes |
| BulkMove.NormalizeItemCodes | internal/core/admin_suppliers.go:1097-1112 | the loop with its set of seen codes keeps each code at its first place |
| BulkMove.AdminMoveItemsToGroup | internal/core/admin_suppliers.go:343-391 | the call refuses empty codes or group, and otherwise reports the two lists of its run |
| Transliteration.CapitalSpelling | internal/erpnext/client.go:681-725 | every capital of the table is spelled like its small letter up to case, letter by letter |
| SearchKey.NormalizeForSearch | internal/erpnext/client.go:530-561 | trim, lower case, two replacements and the scanning loop compute the search key |
| SearchRunes.KeyKeepsRunes | internal/erpnext/client.go:530-561 | a key with its spaces taken out is, in order, exactly the letters and digits of the lowered, spelled and replaced text |
| SearchRunes.NeighboursInKey | internal/erpnext/client.go:530-561 | two neighbouring ones stand side by side in the key exactly when they do in that text, and with one space between them otherwise |
| SearchRunes.KeyHasNone | internal/erpnext/client.go:540-546 | no key holds an x or an apostrophe |
| SearchRunes.LawsCanHold | internal/erpnext/client.go:548-556 | Unicode tables that meet the laws asked for |
| SearchKey.KeyIsNeat | internal/erpnext/client.go:530-561 | a key has letters, digits and single spaces only, none at either end |
| SearchKey.NormalizedTwice | internal/erpnext/client.go:530-561 | normalising is idempotent |
| SearchKey.BothSpellingsMatch | internal/erpnext/client.go:530-561 | a text and its Latin transliteration have the same key |
| Search.SearchSkeleton | internal/erpnext/client.go:663-679 | the loop drops exactly the five vowels |
| Search.HasWordPrefix | internal/erpnext/client.go:654-661 | the loop finds a word that starts with the needle if there is one |
| Search.SearchValueScore | internal/erpnext/client.go:609-652 | the branches return the tier of a value |
| Search.ScoreHeights | internal/erpnext/client.go:609-652 | what each height of a score means, as equivalences: equal, prefix, word prefix, contained, the same without spaces, and in the skeleton |
| Search.ScoreIff | internal/erpnext/client.go:609-652 | a value scores above zero if and only if the space-free key contains the space-free query, or a query skeleton of at least three bytes is in the value skeleton |
| Search.SearchQueryScore | internal/erpnext/client.go:563-584 | the loop over fields returns the best score with ten off per field |
| Search.BestIsMaximum | internal/erpnext/client.go:563-584 | no field exceeds the total and some field reaches it |
| Search.PositiveIff | internal/erpnext/client.go:563-584 | the total is positive if and only if some score exceeds ten times its index; with at most 13 fields, if and only if some field matches |
| SearchLimits.LateMatchIsLost | internal/erpnext/client.go:563-584 | with any larger number of fields it fails: only the last one matches and the total is zero |
| SearchLimits.ThirteenIsExact | internal/erpnext/client.go:563-584 | so any match of n fields counts, for all queries and values, if and only if n is at most 13 |
| Search.BestTierFirstIndex | internal/erpnext/client.go:563-584 | with at most six fields the total is the best tier less ten times the first index that reaches it |
| SearchLimits.LateTierIsLost | internal/erpnext/client.go:563-584 | with any larger number of fields it fails: the last one has the best tier and the total is the score of the first |
| SearchLimits.SixIsExact | internal/erpnext/client.go:563-584 | so the best tier at its first index decides, for all queries and values of n fields, if and only if n is at most 6 |
| Search.SpellingsScoreTheSame | internal/erpnext/client.go:563-584 | a query scores the same in both spellings, and so does any field |
| Sessions.SessionManager.Create | internal/core/service.go:2629-2648 | a created token enters the history and memory and file follow it |
| Sessions.SessionManager.Get | internal/core/service.go:2650-2668 | the answer is the one the history of effective calls gives, and dropping an expired record changes no answer |
| Sessions.SessionManager.Delete | internal/core/service.go:2670-2683 | a deleted token is gone, also when the file still holds an expired record of it |
| Sessions.SessionManager.Update | internal/core/service.go:2685-2699 | an update takes effect on every live token, on none that is gone, and on an expired one only while its record is still seen |
| Sessions.SessionManager.Restart | internal/core/service.go:2720-2741 | a new process over the same file sees the same history |
| Sessions.AcceptedIff | internal/core/service.go:2650-2668 | a token is accepted with a principal if and only if a write of that principal is the last call that concerns it and now is within the lifetime of that write |
| Sessions.RestartsChangeNothing | internal/core/service.go:2720-2741 | with a file, restarts anywhere in a history change no answer |
| PushTokens.PushTokenStore.MoveTokenToKey | internal/core/push_token_store.go:79-118 | clearing the token from every list in whatever order the map is ranged over, and appending it to one, is the move of the specification |
| PushTokens.PushTokenStore.Delete | internal/core/push_token_store.go:55-77 | a delete filters one list and drops it when empty |
| PushTokens.MovedKeepsOneHome | internal/core/push_token_store.go:79-118 | a moved token sits under its new key only, and every list is otherwise as it was, in order |
| PushTokens.DeletedKeepsOneHome | internal/core/push_token_store.go:55-77 | a deleted token leaves its key, and everything else stays |
| PushTokens.EveryTokenIsHome | internal/core/push_token_store.go:55-118 | after any run of moves and deletes no list is empty and each token sits once, under the key of its last move unless it was deleted from there |
| PushTokens.PushTokenStore.Put | internal/core/push_token_store.go:29-53 | a put filters the token from one list and appends it there |
| PushTokens.PlacedKeepsOnce | internal/core/push_token_store.go:29-53 | a put token is under its key, once, and all other lists stay |
| PushTokens.EveryListHoldsATokenOnce | internal/core/push_token_store.go:29-118 | after any run of puts, moves and deletes no list is empty or holds a token twice |
| ImportRows.EntriesIff | internal/importacp/importacp.go:193-232 | a file is refused if and only if two of its rows give one item two agents; otherwise entries have distinct names and stand for the non-blank rows, no more and no less |
| ImportRows.EntryPrice | internal/importacp/importacp.go:201-215 | the price of an entry is the first non-zero price among the rows of its item |
| ImportRows.NormalizeRows | internal/importacp/importacp.go:193-232 | the map and order list of the loop compute those entries, or the refusal |
| Importer.TargetIsAgent | internal/importacp/importacp.go:305-347 | the customer chosen for an entry exists and answers, by id or name, to its agent |
| Importer.EnsureCustomers | internal/importacp/importacp.go:305-347 | the two loops over customers and entries choose those customers and create the missing ones |
| Importer.PreflightConflicts | internal/importacp/importacp.go:349-372 | a conflict is reported if and only if some named item that the lookup finds is linked to another customer |
| Importer.ResolveExistingItems | internal/importacp/importacp.go:156-191 | asked for a hundred at a time, exactly the named items that ERP holds enabled as stock items are found |
| Importer.Run | internal/importacp/importacp.go:61-141 | the whole import ends in the outcome and ERP state of the specification, also when ERP refuses a customer or an item half way |
| Importer.ImportLinks | internal/importacp/importacp.go:107-141 | after a finished import each named item is linked to a customer that answers to its agent and to nobody else, at its price, with its barcode; a new one has the name as its code and the group asked for, a found one keeps both |
| Importer.ImportKeepsOthers | internal/importacp/importacp.go:107-141 | however an import ends, items that no entry names are untouched |
| Importer.ConflictStops | internal/importacp/importacp.go:98-141 | a found link that disagrees stops the import before any item is created, linked or priced; if all agree it finishes if and only if ERP hides none of the named items, and otherwise stops at the first hidden one with the entries before it done |
| Importer.AllOrNothing | internal/importacp/importacp.go:61-141 | so an import that does not finish leaves the items alone, unless ERP refuses to create an item it holds but does not list |
| ImportLimits.HalfImported | internal/importacp/importacp.go:98-141 | a file of a new item and a hidden one: the first is imported, the second refused, whoever it is linked to |
| ImportLimits.HalfImportedExample | internal/importacp/importacp.go:98-141 | such a file and ERP, the hidden item being linked to another customer |
| Importer.ErpServer.EnsureCustomer | internal/erpnext/customer.go:114-154 | a customer is refused if the rows of the client search hold one of that name or ERP rejects it, and otherwise created |
| Importer.SecondImportIff | internal/importacp/importacp.go:61-141 | importing a finished file again changes nothing in ERP, however it ends, if and only if every agent is found on the page a search returns or the first that is not is refused |
| Importer.SecondImportChangesNothing | internal/importacp/importacp.go:61-141 | so it changes nothing whenever nobody is created under a name or id that exists |
| Importer.DoneAgainIff | internal/importacp/importacp.go:305-347 | the second import finishes and changes nothing if and only if every agent is found on the page a search returns, as the customer its item is linked to |
| Importer.DoneAgainOnOnePage | internal/importacp/importacp.go:305-347 | in particular whenever all customers fit the page of 500 |
| ImportLimits.PushedOff | internal/importacp/importacp.go:305-347 | and not when the first import pushes an agent off a full page: then the second one is refused, or creates that customer again |
| ImportLimits.PushedOffExample | internal/importacp/importacp.go:305-347 | a page and file on which it is refused |
| ImportLimits.CreatedTwice | internal/erpnext/customer.go:126-134 | a page and file on which it is created again, the search of twenty rows being full of others |
| Werka.DeliveredIsNoDraft | internal/core/service.go:914-934 | a visible delivery is never shown as a draft, which is why the summary may ignore that status |
| Werka.WerkaSummary | internal/core/service.go:645-687 | the counters count the visible records of each kind |
| Werka.WerkaStatusBreakdown | internal/core/service.go:689-773 | there is one entry per supplier key, it shows the first names, the first unit and the totals of exactly the records of that key, and entries come by falling count, then by name |
| Werka.GroupedBySupplier | internal/core/service.go:708-712 | records are grouped by supplier, by the name where there is no reference |
| Werka.WerkaStatusDetails | internal/core/service.go:775-818 | the details are the visible records of the kind, of the supplier if one is named, the newest first |
| Werka.ResponseIsListed | internal/core/service.go:2936-2971 | a note that a customer responded to is listed with the outcome and the accepted quantity of the response |
| Werka.AllThreeAgree | internal/core/service.go:645-818 | counter, group counts and unfiltered details agree for every kind, and so do the sent and accepted totals |

## Left out

- HTTP routing, JSON, authorisation, the ERPNext REST client, SQL, FCM and Gemini: plumbing around the modelled logic.
- Failed writes: every modelled write succeeds, except that ERP refuses a second item of the same name and may refuse a customer. In particular a return whose later writes fail leaves a note pending, so the claims about returns are for completed responses.
- Concurrent requests to one session manager, store or repository: each call runs under its lock, so runs are sequences of calls. File locking and the temporary-file rename are one write.
- `RemarksReadBack.RunEffect` and the other rows of that file: texts are single lines; the rows of `RemarksTexts`, `RemarksAnswers` and `RemarksRuns` say what holds for any texts.
- `Delivery.ResponseReadsBack`: a response one of whose later lines changes a quantity is excluded, as `SpeakingCommentUnbalances` shows it must be, and so is a note with an earlier ERP returned quantity, which the fallback would show instead.
- `Delivery.DeliveryDesk.CreateReturn`: ERP is taken to return the note's whole quantity when the quantities are nearly equal, as the call without a quantity does, and to add what it took to the note's returned quantity.
- `Quantity.QtyRoundTrip`: finite quantities are reals, so binary rounding and overflow in sums are not captured.
- `Archive.BuildArchivePDF`: the texts that %.4g yields for quantities are inputs, and invalid UTF-8 is not modelled: texts are sequences of runes.
- `Lockout.AuthService.Authenticate`: phones are already normalised, and bcrypt is its verdict and its hash.
- `Lockout.GuessingTakesTime`: bounded by the width of the stored count, which `SpacingIff` shows to be the exact bound of the spacing.
- FlatBuffers bytes: the file is the list of its records with the field types of the schema.
- `CodeRegen.AtMostFivePerMinute`: for one request at a time; saving the state is not atomic with reading it. `scheduleSupplierCodePersist` is left out for the same reason.
- `WorkerPool.BatchReport`: the record of a created issue is opaque and push notifications are left out.
- `SearchKey.NormalizeForSearch`: texts are runes, and lowering is one rune at a time, as strings.ToLower does outside the special case of invalid UTF-8.
- `Search.PositiveIff`: SQL search and paging are left out.
- `Sessions.SessionManager.Create`: the random token is an argument and may be any text.
- `PushTokens.EveryTokenIsHome`: runs of moves and deletes; a put may place a token under a second key, so runs with puts keep only what `EveryListHoldsATokenOnce` states.
- `Importer.Run`: a dry run, the CSV reader and the printed summary are left out, and ERP calls fail only where ERP or the client refuses a customer or ERP an item it holds; strings.EqualFold is equality after strings.ToLower; a new ERP customer gets its name as its id and comes first in a search; disabled customers and mobile numbers, which the customer search also reads, are not modelled.
- `Importer.SecondImportChangesNothing`: customers have non-blank ids, as ERP's primary keys are.
- `Werka.WerkaStatusBreakdown` and `Werka.WerkaStatusDetails`: the mapping of a purchase receipt to its record is left out, strings.EqualFold is equality after strings.ToLower, and totals are exact sums.
- `UpsertSupplierAcknowledgmentInRemarks`: it filters another prefix than it writes, so it does not replace its own line.
- The linear-scan supplier repository, profile stores, paging, archive filters and `importitems`: they repeat the stores above in easier form.
