/**
 * The printer record of printer_utils.py (`PrinterInfo`), the label catalog
 * lookup `get_label_width`, and the status/media probe `get_printer_status`,
 * which rewrites a printer's status and label fields in place.
 */
module Printers {
  import opened Wrappers
  import opened Text

  /** One label of the driver's catalog: its identifier and printable width in dots. */
  datatype LabelSpec = LabelSpec(identifier: string, printableWidth: int)

  /** Media widths (mm) the probe and the resolver recognise; each maps to its own decimal string. */
  const MediaWidths: seq<nat> := [12, 29, 38, 50, 54, 62, 102, 103, 104]

  /** What the `brother_ql ... status` command produced: its output lines, or the text of the exception it raised. */
  datatype ProbeOutcome = Output(lines: seq<string>) | ProbeFailed(message: string)

  /** Index of the first catalog label whose identifier is `labelType`. */
  function FirstLabel(labels: seq<LabelSpec>, labelType: string): (r: Option<nat>)
    ensures r.Some? ==> r.value < |labels| && labels[r.value].identifier == labelType
    ensures r.Some? ==> forall j :: 0 <= j < r.value ==> labels[j].identifier != labelType
    ensures r.None? ==> forall j :: 0 <= j < |labels| ==> labels[j].identifier != labelType
  {
    if |labels| == 0 then None
    else if labels[0].identifier == labelType then Some(0)
    else
      match FirstLabel(labels[1..], labelType)
      case None => None
      case Some(i) => Some(i + 1)
  }

  /** `get_label_width`: printable width of the first matching label; None stands for the `ValueError` it raises. */
  function GetLabelWidth(labels: seq<LabelSpec>, labelType: string): (r: Option<int>)
    ensures r.None? <==> forall j :: 0 <= j < |labels| ==> labels[j].identifier != labelType
    ensures r.Some? ==> exists i :: 0 <= i < |labels| && labels[i].identifier == labelType
                          && labels[i].printableWidth == r.value
                          && forall j :: 0 <= j < i ==> labels[j].identifier != labelType
  {
    match FirstLabel(labels, labelType)
    case None => None
    case Some(i) => Some(labels[i].printableWidth)
  }

  /** A value snapshot of every field of a `PrinterInfo`; `labelHeight` None is Python's `None`. */
  datatype PrinterRecord = PrinterRecord(
    identifier: string, backend: string, protocol: string,
    vendorId: string, productId: string, serialNumber: string,
    name: string, model: string, status: string,
    labelType: string, labelSize: string, labelWidth: int, labelHeight: Option<int>)

  /** A freshly constructed `PrinterInfo`, with the dataclass defaults for the fields not given. */
  function NewRecord(identifier: string, backend: string, model: string, protocol: string,
                     vendorId: string, productId: string, serialNumber: string): PrinterRecord
  {
    PrinterRecord(identifier, backend, protocol, vendorId, productId, serialNumber,
                  "Brother QL Printer", model, "unknown", "unknown", "unknown", 0, Some(0))
  }

  /** The effect of one `Media size:` line whose remainder (trimmed) is `size`. */
  function MediaLine(r: PrinterRecord, size: string, labels: seq<LabelSpec>): PrinterRecord
  {
    var sized := r.(labelSize := size);
    match ParseDecimal(Strip(Split(size, "x")[0]))
    case None => sized
    case Some(w) =>
      if w in MediaWidths then
        var typed := sized.(labelType := NatToString(w));
        match GetLabelWidth(labels, NatToString(w))
        case None => typed
        case Some(px) => typed.(labelWidth := px, labelHeight := None)
      else sized
  }

  /** The effect of one line of status output. */
  function ProbeLine(r: PrinterRecord, line: string, labels: seq<LabelSpec>): PrinterRecord
  {
    var phased := if Contains(line, "Phase:") then r.(status := Strip(Split(line, "Phase:")[1])) else r;
    if Contains(line, "Media size:") then MediaLine(phased, Strip(Split(line, "Media size:")[1]), labels)
    else phased
  }

  /** The effect of the status output lines, first to last. */
  function ProbeLines(r: PrinterRecord, lines: seq<string>, labels: seq<LabelSpec>): PrinterRecord
  {
    if lines == [] then r
    else ProbeLine(ProbeLines(r, lines[..|lines| - 1], labels), Last(lines), labels)
  }

  /** The record after `get_printer_status` with the given command outcome. */
  function Probe(r: PrinterRecord, outcome: ProbeOutcome, labels: seq<LabelSpec>): PrinterRecord
  {
    match outcome
    case Output(lines) => ProbeLines(r, lines, labels)
    case ProbeFailed(message) =>
      r.(status := message, labelType := "unknown", labelSize := "unknown", labelWidth := 0, labelHeight := Some(0))
  }

  /** `PrinterInfo`: the identity fields never change after construction; the probe rewrites the rest. */
  class PrinterInfo {
    const identifier: string
    const backend: string
    const protocol: string
    const vendorId: string
    const productId: string
    const serialNumber: string
    const model: string
    var name: string
    var status: string
    var labelType: string
    var labelSize: string
    var labelWidth: int
    var labelHeight: Option<int>

    function Record(): PrinterRecord
      reads this
    {
      PrinterRecord(identifier, backend, protocol, vendorId, productId, serialNumber,
                    name, model, status, labelType, labelSize, labelWidth, labelHeight)
    }

    constructor (identifier: string, backend: string, model: string, protocol: string,
                 vendorId: string, productId: string, serialNumber: string)
      ensures Record() == NewRecord(identifier, backend, model, protocol, vendorId, productId, serialNumber)
    {
      this.identifier, this.backend, this.protocol := identifier, backend, protocol;
      this.vendorId, this.productId, this.serialNumber := vendorId, productId, serialNumber;
      this.model := model;
      name, status := "Brother QL Printer", "unknown";
      labelType, labelSize := "unknown", "unknown";
      labelWidth, labelHeight := 0, Some(0);
    }

    /** `get_printer_status`: update status and label fields from the probe outcome, line by line. */
    method GetPrinterStatus(outcome: ProbeOutcome, labels: seq<LabelSpec>)
      modifies this
      ensures Record() == Probe(old(Record()), outcome, labels)
    {
      match outcome {
        case ProbeFailed(message) =>
          status := message;
          labelType := "unknown";
          labelSize := "unknown";
          labelWidth := 0;
          labelHeight := Some(0);
        case Output(lines) =>
          var i := 0;
          while i < |lines|
            invariant 0 <= i <= |lines|
            invariant Record() == ProbeLines(old(Record()), lines[..i], labels)
          {
            ApplyLine(lines[i], labels);
            assert lines[..i + 1][..i] == lines[..i];
            i := i + 1;
          }
          assert lines[..i] == lines;
      }
    }

    /** The body of the loop over the status output: one line's effect on the fields. */
    method ApplyLine(line: string, labels: seq<LabelSpec>)
      modifies this
      ensures Record() == ProbeLine(old(Record()), line, labels)
    {
      if Contains(line, "Phase:") {
        status := Strip(Split(line, "Phase:")[1]);
      }
      if Contains(line, "Media size:") {
        ApplyMediaSize(Strip(Split(line, "Media size:")[1]), labels);
      }
    }

    /** The `Media size:` branch of the loop body: size, then type and width when the width is known. */
    method ApplyMediaSize(size: string, labels: seq<LabelSpec>)
      modifies this
      ensures Record() == MediaLine(old(Record()), size, labels)
    {
      labelSize := size;
      var sizeStr := Strip(Split(labelSize, "x")[0]);
      match ParseDecimal(sizeStr) {
        case None =>
        case Some(w) =>
          if w in MediaWidths {
            labelType := NatToString(w);
            match GetLabelWidth(labels, labelType) {
              case None =>
              case Some(px) =>
                labelWidth := px;
                labelHeight := None;
            }
          }
      }
    }
  }

  /** The fields the probe never touches. */
  predicate SameIdentity(a: PrinterRecord, b: PrinterRecord)
  {
    a.identifier == b.identifier && a.backend == b.backend && a.protocol == b.protocol
    && a.vendorId == b.vendorId && a.productId == b.productId && a.serialNumber == b.serialNumber
    && a.name == b.name && a.model == b.model
  }

  /** The probe changes only status and label fields, whatever the outcome. */
  lemma {:induction false} ProbeKeepsIdentity(r: PrinterRecord, outcome: ProbeOutcome, labels: seq<LabelSpec>)
    ensures SameIdentity(r, Probe(r, outcome, labels))
  {
    if outcome.Output? {
      ProbeLinesKeepIdentity(r, outcome.lines, labels);
    }
  }

  lemma {:induction false} ProbeLinesKeepIdentity(r: PrinterRecord, lines: seq<string>, labels: seq<LabelSpec>)
    ensures SameIdentity(r, ProbeLines(r, lines, labels))
  {
    if lines != [] {
      ProbeLinesKeepIdentity(r, lines[..|lines| - 1], labels);
      ProbeLineKeepsIdentity(ProbeLines(r, lines[..|lines| - 1], labels), Last(lines), labels);
    }
  }

  /** One line of output changes only status and label fields. */
  lemma ProbeLineKeepsIdentity(r: PrinterRecord, line: string, labels: seq<LabelSpec>)
    ensures SameIdentity(r, ProbeLine(r, line, labels))
  {
    var phased := if Contains(line, "Phase:") then r.(status := Strip(Split(line, "Phase:")[1])) else r;
    assert SameIdentity(r, phased);
    if Contains(line, "Media size:") {
      MediaLineKeepsIdentity(phased, Strip(Split(line, "Media size:")[1]), labels);
    }
  }

  lemma MediaLineKeepsIdentity(r: PrinterRecord, size: string, labels: seq<LabelSpec>)
    ensures SameIdentity(r, MediaLine(r, size, labels))
  {
    match ParseDecimal(Strip(Split(size, "x")[0]))
    case None =>
    case Some(w) =>
      if w in MediaWidths {
        match GetLabelWidth(labels, NatToString(w))
        case None =>
        case Some(px) =>
      }
  }

  /** Index of the last line containing `marker`, if any. */
  function LastLineWith(lines: seq<string>, marker: string): (r: Option<nat>)
    ensures r.Some? ==> r.value < |lines| && Contains(lines[r.value], marker)
    ensures r.Some? ==> forall j :: r.value < j < |lines| ==> !Contains(lines[j], marker)
    ensures r.None? ==> forall j :: 0 <= j < |lines| ==> !Contains(lines[j], marker)
  {
    if lines == [] then None
    else if Contains(Last(lines), marker) then Some(|lines| - 1)
    else LastLineWith(lines[..|lines| - 1], marker)
  }

  /**
   * The status after a successful probe comes from the last `Phase:` line,
   * trimmed; with no such line the status is left as it was.
   */
  lemma {:induction false} ProbeStatusFromLastPhase(r: PrinterRecord, lines: seq<string>, labels: seq<LabelSpec>)
    ensures ProbeLines(r, lines, labels).status ==
            match LastLineWith(lines, "Phase:")
            case None => r.status
            case Some(i) => Strip(Split(lines[i], "Phase:")[1])
  {
    if lines != [] {
      var init := lines[..|lines| - 1];
      ProbeStatusFromLastPhase(r, init, labels);
      ProbeLineStatus(ProbeLines(r, init, labels), Last(lines), labels);
      match LastLineWith(init, "Phase:")
      case None =>
      case Some(i) => assert lines[i] == init[i];
    }
  }

  lemma ProbeLineStatus(r: PrinterRecord, line: string, labels: seq<LabelSpec>)
    ensures ProbeLine(r, line, labels).status ==
            if Contains(line, "Phase:") then Strip(Split(line, "Phase:")[1]) else r.status
  {
  }

  /**
   * The label size after a successful probe is the trimmed remainder of the
   * last `Media size:` line; with no such line it is left as it was.
   */
  lemma {:induction false} ProbeSizeFromLastMedia(r: PrinterRecord, lines: seq<string>, labels: seq<LabelSpec>)
    ensures ProbeLines(r, lines, labels).labelSize ==
            match LastLineWith(lines, "Media size:")
            case None => r.labelSize
            case Some(i) => Strip(Split(lines[i], "Media size:")[1])
  {
    if lines != [] {
      var init := lines[..|lines| - 1];
      ProbeSizeFromLastMedia(r, init, labels);
      ProbeLineSize(ProbeLines(r, init, labels), Last(lines), labels);
      match LastLineWith(init, "Media size:")
      case None =>
      case Some(i) => assert lines[i] == init[i];
    }
  }

  lemma ProbeLineSize(r: PrinterRecord, line: string, labels: seq<LabelSpec>)
    ensures ProbeLine(r, line, labels).labelSize ==
            if Contains(line, "Media size:") then Strip(Split(line, "Media size:")[1]) else r.labelSize
  {
  }

  /** The record invariant: an unresolved label type never comes with a pixel width. */
  predicate WidthNeedsType(r: PrinterRecord)
  {
    r.labelType == "unknown" ==> r.labelWidth == 0
  }

  lemma NatToStringNotUnknown(n: nat)
    ensures NatToString(n) != "unknown"
  {
    var s := NatToString(n);
    assert IsDigit(s[0]);
    assert !IsDigit("unknown"[0]);
  }

  /** Every probe keeps that invariant, and a newly constructed record has it. */
  lemma {:induction false} ProbeKeepsWidthNeedsType(r: PrinterRecord, outcome: ProbeOutcome, labels: seq<LabelSpec>)
    requires WidthNeedsType(r)
    ensures WidthNeedsType(Probe(r, outcome, labels))
  {
    if outcome.Output? {
      ProbeLinesKeepWidthNeedsType(r, outcome.lines, labels);
    }
  }

  lemma {:induction false} ProbeLinesKeepWidthNeedsType(r: PrinterRecord, lines: seq<string>, labels: seq<LabelSpec>)
    requires WidthNeedsType(r)
    ensures WidthNeedsType(ProbeLines(r, lines, labels))
  {
    if lines != [] {
      var before := ProbeLines(r, lines[..|lines| - 1], labels);
      ProbeLinesKeepWidthNeedsType(r, lines[..|lines| - 1], labels);
      var line := Last(lines);
      if Contains(line, "Media size:") {
        var size := Strip(Split(line, "Media size:")[1]);
        match ParseDecimal(Strip(Split(size, "x")[0])) {
          case None =>
          case Some(w) => NatToStringNotUnknown(w);
        }
      }
    }
  }

  /**
   * One `Media size:` line whose leading number is a recognised width sets the
   * label type to that number; a catalog hit also sets the pixel width and
   * clears the height, a catalog miss leaves both as they were.
   */
  lemma MediaLineRecognised(r: PrinterRecord, size: string, labels: seq<LabelSpec>, w: nat)
    requires ParseDecimal(Strip(Split(size, "x")[0])) == Some(w) && w in MediaWidths
    ensures MediaLine(r, size, labels).labelType == NatToString(w)
    ensures MediaLine(r, size, labels).labelSize == size
    ensures GetLabelWidth(labels, NatToString(w)).Some? ==>
              MediaLine(r, size, labels).labelWidth == GetLabelWidth(labels, NatToString(w)).value
              && MediaLine(r, size, labels).labelHeight.None?
    ensures GetLabelWidth(labels, NatToString(w)).None? ==>
              MediaLine(r, size, labels).labelWidth == r.labelWidth
              && MediaLine(r, size, labels).labelHeight == r.labelHeight
  {
  }

  /** A width that does not parse, or is not recognised, changes only the label size. */
  lemma MediaLineUnrecognised(r: PrinterRecord, size: string, labels: seq<LabelSpec>)
    requires ParseDecimal(Strip(Split(size, "x")[0])).None?
             || ParseDecimal(Strip(Split(size, "x")[0])).value !in MediaWidths
    ensures MediaLine(r, size, labels) == r.(labelSize := size)
  {
  }

  /** A failed status command resets every label field to its sentinel and reports the error as the status. */
  lemma ProbeFailureResets(r: PrinterRecord, message: string, labels: seq<LabelSpec>)
    ensures var p := Probe(r, ProbeFailed(message), labels);
            p.status == message && p.labelType == "unknown" && p.labelSize == "unknown"
            && p.labelWidth == 0 && p.labelHeight == Some(0) && SameIdentity(r, p)
  {
  }

  /** The scenario "Media size: 62x100": label type "62", the catalog width, no height. */
  lemma MediaSize62(r: PrinterRecord, labels: seq<LabelSpec>, px: int)
    requires GetLabelWidth(labels, "62") == Some(px)
    ensures var p := ProbeLine(r, "Media size: 62x100", labels);
            p.labelType == "62" && p.labelSize == "62x100" && p.labelWidth == px && p.labelHeight.None?
  {
    var line := "Media size: 62x100";
    MediaRemainder62();
    NoPhase62();
    MediaWidth62();
    assert ProbeLine(r, line, labels) == MediaLine(r, "62x100", labels);
  }

  lemma MediaRemainder62()
    ensures Contains("Media size: 62x100", "Media size:")
    ensures Strip(Split("Media size: 62x100", "Media size:")[1]) == "62x100"
  {
    SplitMedia62();
    StripMedia62();
  }

  lemma StripMedia62()
    ensures Strip(" 62x100") == "62x100"
  {
    var s := " 62x100";
    assert s[1..] == "62x100";
    assert LeadingSpaces(s[1..]) == 0;
    assert LeadingSpaces(s) == 1;
    assert TrailingSpaces(s[1..]) == 0;
  }

  lemma SplitMedia62()
    ensures Contains("Media size: 62x100", "Media size:")
    ensures Split("Media size: 62x100", "Media size:") == ["", " 62x100"]
  {
    var line := "Media size: 62x100";
    assert line[..11] == "Media size:";
    assert line[11..] == " 62x100";
    assert IndexOf(" 62x100", "Media size:") == None;
  }

  lemma NoPhase62()
    ensures !Contains("Media size: 62x100", "Phase:")
  {
    MissingFirstChar("Media size: 62x100", "Phase:");
  }

  lemma MediaWidth62()
    ensures ParseDecimal(Strip(Split("62x100", "x")[0])) == Some(62)
    ensures NatToString(62) == "62"
  {
    SplitSize62();
    Decimal62();
  }

  lemma SplitSize62()
    ensures Split("62x100", "x")[0] == "62"
  {
    assert "62x100" == Join(["62", "100"], "x");
    SplitJoin(["62", "100"], 'x');
  }

  lemma Decimal62()
    ensures ParseDecimal(Strip("62")) == Some(62)
    ensures NatToString(62) == "62"
  {
    Strip62();
    ParseNatToString(62);
    Digits62();
  }

  lemma Strip62()
    ensures Strip("62") == "62"
  {
    StripUnspaced("62");
  }

  lemma Digits62()
    ensures NatToString(62) == "62"
  {
    assert NatToString(6) == "6";
  }
}
