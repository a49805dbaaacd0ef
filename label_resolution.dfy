/**
 * Which label type to use: `get_printer_label_info`, which asks the first
 * discovered printer for its loaded media and falls back on per-model and
 * global defaults, and `get_label_type`, which caches the first answer in the
 * session.
 */
module LabelResolution {
  import opened Wrappers
  import opened Text
  import opened Printers

  /** What running the status command gave: exit code and standard output, or an exception. */
  datatype StatusRun = Completed(returnCode: int, stdout: string) | StatusRaised(message: string)

  /** A `(label_type, status_message)` pair; `labelType` None is Python's `None`. */
  datatype LabelInfo = LabelInfo(labelType: Option<string>, status: string)

  const ErrorStatus: string := "Error getting printer status, using default"

  /** The pair returned from the `except` branch. */
  const ErrorInfo: LabelInfo := LabelInfo(Some("62"), ErrorStatus)

  /** A line holding `Media size:` also holds a `:`, so its `split(':')[1]` exists. */
  lemma MediaLineHasColon(line: string)
    requires Contains(line, "Media size:")
    ensures Contains(line, ":")
  {
    IndexOfSpec(line, "Media size:");
    var k := IndexOf(line, "Media size:").value;
    assert line[k + 10..k + 11] == "Media size:"[10..11];
    OccursContains(line, ":", k + 10);
  }

  /**
   * The width one status line reports: the text after its first `:`, up to
   * the first `x`, trimmed and read as a decimal number. None when the line
   * has no `Media size:` or the number does not parse.
   */
  function MediaWidthOf(line: string): Option<nat>
  {
    if Contains(line, "Media size:") then
      MediaLineHasColon(line);
      ParseDecimal(Strip(Split(Split(line, ":")[1], "x")[0]))
    else None
  }

  /** The last value present in `ws`. */
  function LastPresent(ws: seq<Option<nat>>): Option<nat>
  {
    if ws == [] then None
    else if Last(ws).Some? then Last(ws)
    else LastPresent(ws[..|ws| - 1])
  }

  /** The last present value is present at some index with none after it; None means none is present. */
  lemma {:induction false} LastPresentSpec(ws: seq<Option<nat>>)
    ensures LastPresent(ws).Some? ==> exists i :: 0 <= i < |ws| && ws[i] == LastPresent(ws)
                                                  && forall j :: i < j < |ws| ==> ws[j].None?
    ensures LastPresent(ws).None? ==> forall j :: 0 <= j < |ws| ==> ws[j].None?
  {
    if ws != [] {
      var n := |ws| - 1;
      var init := ws[..n];
      if ws[n].None? {
        assert LastPresent(ws) == LastPresent(init);
        LastPresentSpec(init);
        if LastPresent(init).Some? {
          var i :| 0 <= i < |init| && init[i] == LastPresent(init) && forall j :: i < j < |init| ==> init[j].None?;
          assert ws[i] == init[i];
          assert forall j :: i < j < |ws| ==> ws[j].None? by {
            forall j | i < j < |ws| ensures ws[j].None? {
              if j < n { assert ws[j] == init[j]; }
            }
          }
        } else {
          forall j | 0 <= j < |ws| ensures ws[j].None? {
            if j < n { assert ws[j] == init[j]; }
          }
        }
      } else {
        assert ws[n] == LastPresent(ws);
      }
    }
  }

  /** The width each line reports. */
  function LineWidths(lines: seq<string>): (ws: seq<Option<nat>>)
    ensures |ws| == |lines|
  {
    seq(|lines|, i requires 0 <= i < |lines| => MediaWidthOf(lines[i]))
  }

  /** The width of the last line that reports one: each parsable line overwrites the earlier ones. */
  function DetectedWidth(lines: seq<string>): Option<nat>
  {
    LastPresent(LineWidths(lines))
  }

  /** The detected width is that of a reporting line with no reporting line after it; None means no line reports one. */
  lemma DetectedWidthSpec(lines: seq<string>)
    ensures DetectedWidth(lines).Some? ==> exists i :: 0 <= i < |lines| && MediaWidthOf(lines[i]) == DetectedWidth(lines)
                                                       && forall j :: i < j < |lines| ==> MediaWidthOf(lines[j]).None?
    ensures DetectedWidth(lines).None? ==> forall j :: 0 <= j < |lines| ==> MediaWidthOf(lines[j]).None?
  {
    var ws := LineWidths(lines);
    LastPresentSpec(ws);
    assert forall j :: 0 <= j < |lines| ==> ws[j] == MediaWidthOf(lines[j]);
  }

  /** The loop over the output lines of the status command. */
  method DetectMediaWidth(lines: seq<string>) returns (width: Option<nat>)
    ensures width == DetectedWidth(lines)
  {
    ghost var ws := LineWidths(lines);
    width := None;
    var i := 0;
    while i < |lines|
      invariant 0 <= i <= |lines|
      invariant width == LastPresent(ws[..i])
    {
      assert ws[..i + 1][..i] == ws[..i];
      var w := MediaWidthOf(lines[i]);
      if w.Some? {
        width := w;
      }
      i := i + 1;
    }
    assert ws[..i] == ws;
  }

  /** The per-model defaults: "102" for the wide-format models, "62" for the others listed. */
  function ModelDefault(model: string): (r: Option<string>)
    ensures r.Some? ==> r.value == "62" || r.value == "102"
  {
    if model in ["QL-500", "QL-550", "QL-560", "QL-570", "QL-580N", "QL-650TD",
                 "QL-700", "QL-710W", "QL-720NW", "QL-800", "QL-810W", "QL-820NWB"] then Some("62")
    else if model in ["QL-1050", "QL-1060N"] then Some("102")
    else None
  }

  /** The detected label type when the command succeeded with output naming a catalogued width. */
  function Detection(run: StatusRun): Option<nat>
  {
    if run.Completed? && run.returnCode == 0 && run.stdout != "" then
      match DetectedWidth(Split(run.stdout, "\n"))
      case Some(w) => if w in MediaWidths then Some(w) else None
      case None => None
    else None
  }

  /** The pair for a detected width. */
  function DetectedInfo(w: nat): LabelInfo
  {
    LabelInfo(Some(NatToString(w)), "Detected " + NatToString(w) + " (" + NatToString(w) + "mm)")
  }

  /**
   * The priority chain for one printer of the given model: detected media
   * width, then the model's default, then "62"; an exception from the status
   * command gives the error pair.
   */
  function LabelPriority(run: StatusRun, model: string): LabelInfo
  {
    if run.StatusRaised? then ErrorInfo
    else
      match Detection(run)
      case Some(w) => DetectedInfo(w)
      case None =>
        match ModelDefault(model)
        case Some(t) => LabelInfo(Some(t), "Using default for " + model)
        case None => LabelInfo(Some("62"), "Using safe default width")
  }

  /**
   * `get_printer_label_info` with the first discovered printer standing for
   * the record that is asked for its model and identifier.
   */
  function GetPrinterLabelInfo(found: seq<PrinterRecord>, status: (string, string) -> StatusRun): LabelInfo
  {
    if found == [] then LabelInfo(None, "No printer found")
    else LabelPriority(status(found[0].model, found[0].identifier), found[0].model)
  }

  /**
   * `get_printer_label_info` as written: the discovered list itself is
   * indexed with `'model'`, which raises, so any printer found ends in the
   * error pair.
   */
  function GetPrinterLabelInfoAsWritten(found: seq<PrinterRecord>): LabelInfo
  {
    if found == [] then LabelInfo(None, "No printer found") else ErrorInfo
  }

  /**
   * The chain as written past the detection step, for the record of the
   * printer asked. This code is reached only once the list indexing before it
   * stops raising, by taking the first printer found as `printer_info`. Then
   * `'model' in printer_info` finds no `__contains__` or `__iter__` on the
   * record and falls back to `__getitem__(0)`, that is `getattr(record, 0)`,
   * which raises `TypeError`: every undetected case ends in the error pair.
   */
  function LabelPriorityAsWritten(run: StatusRun, model: string): LabelInfo
  {
    if run.StatusRaised? then ErrorInfo
    else
      match Detection(run)
      case Some(w) => DetectedInfo(w)
      case None => ErrorInfo
  }

  /** A label type named by the priority chain is always one of the catalogued media widths. */
  predicate KnownLabelType(t: string)
  {
    exists w :: w in MediaWidths && NatToString(w) == t
  }

  lemma DefaultsKnown()
    ensures KnownLabelType("62") && KnownLabelType("102")
  {
    assert NatToString(62) == "62";
    assert NatToString(102) == "102";
  }

  /** The chain always names a catalogued label type, and only when no printer is found does it name none. */
  lemma GetPrinterLabelInfoKnown(found: seq<PrinterRecord>, status: (string, string) -> StatusRun)
    ensures GetPrinterLabelInfo(found, status).labelType.None? <==> found == []
    ensures GetPrinterLabelInfo(found, status).labelType.Some? ==>
              KnownLabelType(GetPrinterLabelInfo(found, status).labelType.value)
  {
    DefaultsKnown();
  }

  /** A "Detected" status is reported exactly when the command succeeded and named a catalogued width. */
  lemma DetectedIff(run: StatusRun, model: string)
    ensures StartsWith(LabelPriority(run, model).status, "Detected ") <==> Detection(run).Some?
    ensures Detection(run).Some? ==> LabelPriority(run, model).labelType == Some(NatToString(Detection(run).value))
  {
    var info := LabelPriority(run, model);
    if Detection(run).None? {
      assert info.status[0] != 'D';
    }
  }

  /** Without a detected width the model's default wins over the global "62". */
  lemma ModelDefaultWins(run: StatusRun, model: string)
    requires run.Completed? && Detection(run).None?
    ensures ModelDefault(model).Some? ==> LabelPriority(run, model) == LabelInfo(ModelDefault(model), "Using default for " + model)
    ensures ModelDefault(model).None? ==> LabelPriority(run, model) == LabelInfo(Some("62"), "Using safe default width")
  {
  }

  /** Where the loaded media is detected, the as-written chain agrees with the intended one; elsewhere it gives the error pair. */
  lemma AsWrittenPriority(run: StatusRun, model: string)
    ensures Detection(run).Some? ==> LabelPriorityAsWritten(run, model) == LabelPriority(run, model)
    ensures Detection(run).None? ==> LabelPriorityAsWritten(run, model) == ErrorInfo
  {
  }

  /** As written, no printer found and the error pair are the only outcomes. */
  lemma AsWrittenLabelInfo(found: seq<PrinterRecord>)
    ensures GetPrinterLabelInfoAsWritten(found) == (if found == [] then LabelInfo(None, "No printer found") else ErrorInfo)
  {
  }

  /** A QL-1050 whose status command fails: as written the error pair, intended its "102" default. */
  lemma QL1050Differs(r: PrinterRecord, status: (string, string) -> StatusRun)
    requires r.model == "QL-1050" && status(r.model, r.identifier) == Completed(1, "")
    ensures GetPrinterLabelInfoAsWritten([r]) == ErrorInfo
    ensures GetPrinterLabelInfo([r], status) == LabelInfo(Some("102"), "Using default for QL-1050")
    ensures LabelPriorityAsWritten(Completed(1, ""), "QL-1050") == ErrorInfo
  {
  }

  /** The first-call choice of `get_label_type`: a truthy detected type, else a non-empty configured one, else "62". */
  function ChooseLabelType(detected: LabelInfo, configured: string): (string, string)
  {
    if detected.labelType.Some? && detected.labelType.value != "" then (detected.labelType.value, detected.status)
    else if configured != "" then (configured, "Using configured label_type from config.toml")
    else ("62", "Using default label type 62")
  }

  /** What `get_label_type` returns given the session's cached pair. */
  function ResolveLabelType(cache: Option<(string, string)>, detected: LabelInfo, configured: string): (string, string)
  {
    match cache
    case Some(pair) => pair
    case None => ChooseLabelType(detected, configured)
  }

  /** The chosen type is never empty: it is the detected, the configured or the default one. */
  lemma ChooseNonEmpty(detected: LabelInfo, configured: string)
    ensures ChooseLabelType(detected, configured).0 != ""
    ensures var t := ChooseLabelType(detected, configured).0;
            t == detected.labelType.GetOr("") || t == configured || t == "62"
  {
  }

  /** A `LabelInfo` whose type Python treats as true. */
  predicate Truthy(detected: LabelInfo)
  {
    detected.labelType.Some? && detected.labelType.value != ""
  }

  /** A truthy detection decides the pair, whatever is configured. */
  lemma DetectionFirst(detected: LabelInfo, configured1: string, configured2: string)
    requires Truthy(detected)
    ensures ChooseLabelType(detected, configured1) == ChooseLabelType(detected, configured2)
    ensures ChooseLabelType(detected, configured1).0 == detected.labelType.value
  {
  }

  /** Without a truthy detection, a configured type decides the pair, whatever else was detected. */
  lemma ConfigurationSecond(detected1: LabelInfo, detected2: LabelInfo, configured: string)
    requires !Truthy(detected1) && !Truthy(detected2) && configured != ""
    ensures ChooseLabelType(detected1, configured) == ChooseLabelType(detected2, configured)
    ensures ChooseLabelType(detected1, configured).0 == configured
  {
  }

  /** The session cache of `get_label_type`. */
  class LabelTypeResolver {
    var cache: Option<(string, string)>
    /** How many times the printer has been asked for its loaded label. */
    ghost var probes: nat

    constructor()
      ensures cache == None && probes == 0
    {
      cache := None;
      probes := 0;
    }

    /**
     * A call: a cached pair is returned as it is, without asking the printer;
     * otherwise the printer is asked once, and a pair is chosen and cached.
     */
    method GetLabelType(detected: LabelInfo, configured: string) returns (labelType: string, status: string)
      modifies this
      ensures (labelType, status) == ResolveLabelType(old(cache), detected, configured)
      ensures cache == Some((labelType, status))
      ensures probes == if old(cache).Some? then old(probes) else old(probes) + 1
    {
      if cache.Some? {
        labelType, status := cache.value.0, cache.value.1;
        return;
      }
      probes := probes + 1;
      labelType, status := ChooseLabelType(detected, configured).0, ChooseLabelType(detected, configured).1;
      cache := Some((labelType, status));
    }
  }

  /** The answers to a series of calls, each seeing the cache the previous one left. */
  function ResolveAll(cache: Option<(string, string)>, calls: seq<(LabelInfo, string)>): seq<(string, string)>
    decreases |calls|
  {
    if calls == [] then []
    else
      var pair := ResolveLabelType(cache, calls[0].0, calls[0].1);
      [pair] + ResolveAll(Some(pair), calls[1..])
  }

  /** Once the first call has answered, every later call gives the same pair, whatever is detected or configured. */
  lemma {:induction false} ResolveSticky(cache: Option<(string, string)>, calls: seq<(LabelInfo, string)>)
    requires |calls| > 0
    ensures var answers := ResolveAll(cache, calls);
            forall k :: 0 <= k < |answers| ==> answers[k] == answers[0]
    decreases |calls|
  {
    var pair := ResolveLabelType(cache, calls[0].0, calls[0].1);
    if |calls| > 1 {
      ResolveSticky(Some(pair), calls[1..]);
      assert ResolveAll(Some(pair), calls[1..])[0] == pair;
    }
  }
}
