/**
 * Printing: the conversion request and result classification of
 * `process_print_job`, and the polling of a queued job in `print_image`.
 */
module PrintJobs {
  import opened Wrappers
  import opened Printers

  /** How the conversion and the USB send ended. */
  datatype SendOutcome =
    | Sent(success: bool)                 // `send` returned
    | UsbError(errno: int, text: string)  // `usb.core.USBError`
    | OtherError(text: string)            // any other exception, from the raster, `convert` or `send`

  /** The arguments given to `convert`. */
  datatype ConvertRequest = ConvertRequest(
    model: string, images: seq<string>, labelType: string, rotate: int, threshold: int,
    dither: bool, compress: bool, red: bool, dpi600: bool, hq: bool, cut: bool)

  /** The `(success, error_message)` pair; `error` None is Python's `None`. */
  datatype JobResult = JobResult(success: bool, error: Option<string>)

  /** The conversion of one job: the job's own values and fixed options for everything else. */
  function PrintRequest(printer: PrinterRecord, tempFilePath: string, rotate: int, dither: bool, labelType: string)
    : (req: ConvertRequest)
    ensures req.model == printer.model && req.images == [tempFilePath] && req.labelType == labelType
    ensures req.rotate == rotate && req.dither == dither
    ensures req.threshold == 70 && req.compress && !req.red && !req.dpi600 && !req.hq && req.cut
  {
    ConvertRequest(printer.model, [tempFilePath], labelType, rotate, 70, dither, true, false, false, false, true)
  }

  /** The pair returned for an outcome. */
  function Classify(outcome: SendOutcome): JobResult
  {
    match outcome
    case Sent(true) => JobResult(true, None)
    case Sent(false) => JobResult(false, Some("Failed to print using Python API"))
    case UsbError(errno, text) =>
      if errno == 110 then JobResult(true, Some("Print completed (timeout is normal)"))
      else JobResult(false, Some("USBError encountered: " + text))
    case OtherError(text) => JobResult(false, Some("Unexpected error during printing: " + text))
  }

  /** `process_print_job`; `run` stands for conversion and sending, as a function of the request. */
  function ProcessPrintJob(printer: PrinterRecord, tempFilePath: string, rotate: int, dither: bool,
                           labelType: string, run: ConvertRequest -> SendOutcome): JobResult
  {
    Classify(run(PrintRequest(printer, tempFilePath, rotate, dither, labelType)))
  }

  /**
   * A job succeeds exactly when `send` reported success or the USB transfer
   * timed out; it carries no message exactly when `send` reported success;
   * a failure always carries a non-empty message.
   */
  lemma ClassifySpec(outcome: SendOutcome)
    ensures Classify(outcome).success <==> outcome == Sent(true) || (outcome.UsbError? && outcome.errno == 110)
    ensures Classify(outcome).error.None? <==> outcome == Sent(true)
    ensures !Classify(outcome).success ==> Classify(outcome).error.Some? && Classify(outcome).error.value != ""
  {
  }

  /** Every job converts with the same fixed options, whatever its printer, image, rotation, dithering or label. */
  lemma FixedConvertOptions(p1: PrinterRecord, f1: string, r1: int, d1: bool, l1: string,
                            p2: PrinterRecord, f2: string, r2: int, d2: bool, l2: string)
    ensures var a, b := PrintRequest(p1, f1, r1, d1, l1), PrintRequest(p2, f2, r2, d2, l2);
            a.(model := b.model, images := b.images, labelType := b.labelType, rotate := b.rotate, dither := b.dither) == b
  {
  }

  /** A job status as the queue reports it. */
  datatype JobStatus = JobStatus(status: string, error: string)

  /** How `print_image` ended. */
  datatype PrintOutcome =
    | NoPrinter            // nothing discovered: returns False before queuing
    | Printed              // the job completed: returns True
    | JobFailed(error: string)  // the job settled in any other state: returns False
    | StillWaiting         // every observed status was still pending or processing

  predicate Waiting(s: JobStatus)
  {
    s.status == "pending" || s.status == "processing"
  }

  /** The first observation that is no longer pending or processing. */
  function FirstSettled(observed: seq<JobStatus>): (r: Option<nat>)
    ensures r.Some? ==> r.value < |observed| && !Waiting(observed[r.value])
    ensures r.Some? ==> forall j :: 0 <= j < r.value ==> Waiting(observed[j])
    ensures r.None? ==> forall j :: 0 <= j < |observed| ==> Waiting(observed[j])
  {
    if observed == [] then None
    else if !Waiting(observed[0]) then Some(0)
    else
      match FirstSettled(observed[1..])
      case None => None
      case Some(k) => Some(k + 1)
  }

  /** The outcome of `print_image` given the printers found and the successive statuses of its job. */
  function PrintImageOutcome(found: seq<PrinterRecord>, observed: seq<JobStatus>): PrintOutcome
  {
    if found == [] then NoPrinter
    else
      match FirstSettled(observed)
      case None => StillWaiting
      case Some(k) => if observed[k].status == "completed" then Printed else JobFailed(observed[k].error)
  }

  /** The polling loop of `print_image`: read the status until it leaves pending/processing. */
  method PrintImage(found: seq<PrinterRecord>, observed: seq<JobStatus>) returns (outcome: PrintOutcome)
    ensures outcome == PrintImageOutcome(found, observed)
  {
    if found == [] {
      return NoPrinter;
    }
    if observed == [] {
      return StillWaiting;
    }
    var i := 0;
    var status := observed[0];
    while Waiting(status)
      invariant 0 <= i < |observed| && status == observed[i]
      invariant forall j :: 0 <= j < i ==> Waiting(observed[j])
      decreases |observed| - i
    {
      if i + 1 == |observed| {
        return StillWaiting;
      }
      i := i + 1;
      status := observed[i];
    }
    if status.status == "completed" {
      outcome := Printed;
    } else {
      outcome := JobFailed(status.error);
    }
  }

  /** `print_image` returns True exactly when a printer was found and the job's first settled status is "completed". */
  lemma PrintedIff(found: seq<PrinterRecord>, observed: seq<JobStatus>)
    ensures PrintImageOutcome(found, observed) == Printed <==>
              found != [] && exists k :: 0 <= k < |observed| && observed[k].status == "completed"
                                         && forall j :: 0 <= j < k ==> Waiting(observed[j])
  {
    if found != [] && PrintImageOutcome(found, observed) != Printed {
      forall k | 0 <= k < |observed| && observed[k].status == "completed"
        ensures exists j :: 0 <= j < k && !Waiting(observed[j])
      {
        var s := FirstSettled(observed);
        assert s.Some? && s.value < k;
      }
    }
  }

  /** Statuses observed after the job settled make no difference. */
  lemma LaterStatusesIgnored(found: seq<PrinterRecord>, observed: seq<JobStatus>, later: seq<JobStatus>)
    requires FirstSettled(observed).Some?
    ensures PrintImageOutcome(found, observed + later) == PrintImageOutcome(found, observed)
  {
    var k := FirstSettled(observed).value;
    var all := observed + later;
    assert forall j :: 0 <= j < |observed| ==> all[j] == observed[j];
    assert FirstSettled(all) == Some(k) by {
      FirstSettledAt(all, k);
    }
  }

  /** An index that is settled with only waiting statuses before it is the first settled one. */
  lemma FirstSettledAt(observed: seq<JobStatus>, k: nat)
    requires k < |observed| && !Waiting(observed[k]) && forall j :: 0 <= j < k ==> Waiting(observed[j])
    ensures FirstSettled(observed) == Some(k)
  {
  }
}
