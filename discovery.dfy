/**
 * `find_and_parse_printer` of printer_utils.py: walk the backends in order,
 * parse every device identifier, look its product id up in the model catalog,
 * build and probe a printer record for it, and collect the records.
 */
module Discovery {
  import opened Wrappers
  import opened Text
  import opened Printers

  /** What a backend's device listing gave: identifier strings, or the exception that ended it. */
  datatype BackendListing = Devices(identifiers: seq<string>) | ListFailed(message: string)

  /** One entry of the driver's model catalog. */
  datatype ModelEntry = ModelEntry(productId: nat, identifier: string)

  /** The backends tried, in this order. */
  const Backends: seq<string> := ["pyusb", "linux_kernel"]

  /** The parts of a device identifier `protocol/bus/vendor:product/serial`. */
  datatype DeviceAddress = DeviceAddress(protocol: string, vendorId: string, productId: string, serialNumber: string)

  /** Splits an identifier; None when it has fewer than four `/`-segments or its third segment is not `vendor:product`. */
  function ParseIdentifier(identifier: string): Option<DeviceAddress>
  {
    var parts := Split(identifier, "/");
    if |parts| < 4 then None
    else
      var halves := Split(parts[2], ":");
      if |halves| != 2 then None
      else Some(DeviceAddress(parts[0], halves[0], halves[1], parts[3]))
  }

  /** An identifier assembled from its parts parses back into exactly those parts. */
  lemma ParseIdentifierRoundTrip(protocol: string, bus: string, vendorId: string, productId: string, serialNumber: string)
    requires '/' !in protocol && '/' !in bus && '/' !in vendorId && '/' !in productId && '/' !in serialNumber
    requires ':' !in vendorId && ':' !in productId
    ensures ParseIdentifier(protocol + "/" + bus + "/" + vendorId + ":" + productId + "/" + serialNumber)
            == Some(DeviceAddress(protocol, vendorId, productId, serialNumber))
  {
    var device := vendorId + ":" + productId;
    assert device == Join([vendorId, productId], ":");
    assert '/' !in device;
    var parts := [protocol, bus, device, serialNumber];
    assert Join(parts, "/") == protocol + "/" + bus + "/" + vendorId + ":" + productId + "/" + serialNumber by {
      assert Join(parts[2..], "/") == device + "/" + serialNumber;
      assert Join(parts[1..], "/") == bus + "/" + (device + "/" + serialNumber);
    }
    SplitJoin(parts, '/');
    SplitJoin([vendorId, productId], ':');
  }

  /** The identifiers of the example device, whatever its product id, split into their parts. */
  lemma ExampleDevice(productId: string)
    requires '/' !in productId && ':' !in productId
    ensures ParseIdentifier("usb/0x04f9/04f9:" + productId + "/000H2G258173")
            == Some(DeviceAddress("usb", "04f9", productId, "000H2G258173"))
  {
    assert "usb" + "/" + "0x04f9" + "/" + "04f9" + ":" + productId + "/" + "000H2G258173"
           == "usb/0x04f9/04f9:" + productId + "/000H2G258173" by {
      assert "usb" + "/" + "0x04f9" + "/" + "04f9" + ":" == "usb/0x04f9/04f9:";
      assert "/" + "000H2G258173" == "/000H2G258173";
    }
    ParseIdentifierRoundTrip("usb", "0x04f9", "04f9", productId, "000H2G258173");
  }

  /** The example identifier of a QL-570 splits into protocol, vendor, product and serial. */
  lemma ExampleIdentifier()
    ensures ParseIdentifier("usb/0x04f9/04f9:2028/000H2G258173")
            == Some(DeviceAddress("usb", "04f9", "2028", "000H2G258173"))
  {
    assert "usb/0x04f9/04f9:" + "2028" + "/000H2G258173" == "usb/0x04f9/04f9:2028/000H2G258173";
    ExampleDevice("2028");
  }

  /** The identifier of the first catalog entry with the given product id. */
  function ModelFor(catalog: seq<ModelEntry>, productId: int): (r: Option<string>)
    ensures r.Some? ==> exists i :: 0 <= i < |catalog| && catalog[i].productId == productId
                          && catalog[i].identifier == r.value
                          && forall j :: 0 <= j < i ==> catalog[j].productId != productId
    ensures r.None? ==> forall j :: 0 <= j < |catalog| ==> catalog[j].productId != productId
  {
    if |catalog| == 0 then None
    else if catalog[0].productId == productId then Some(catalog[0].identifier)
    else
      var r := ModelFor(catalog[1..], productId);
      assert forall j :: 1 <= j < |catalog| ==> catalog[j] == catalog[1..][j - 1];
      r
  }

  /** Catalog product ids are natural numbers, so a negative id finds no entry. */
  lemma NegativeNotCatalogued(catalog: seq<ModelEntry>, productId: int)
    requires productId < 0
    ensures ModelFor(catalog, productId).None?
  {
  }

  /** The display name `model - H<serial after its last 'H'> - <label size>`. */
  function DisplayName(model: string, serialNumber: string, labelSize: string): string
  {
    model + " - H" + Last(Split(serialNumber, "H")) + " - " + labelSize
  }

  /** What one device identifier does to the scan. */
  datatype Step = Skip | Abort | Add(printer: PrinterRecord, model: string)

  /**
   * One device: a malformed identifier, or a product id that `int(…, 16)`
   * refuses, skips it; an
   * unmatched product id reuses the model of an earlier device, and with none
   * the unbound name aborts the rest of this backend; otherwise a record is
   * built, probed and named.
   */
  function DeviceStep(backend: string, identifier: string, catalog: seq<ModelEntry>,
                      probe: (string, string) -> ProbeOutcome, labels: seq<LabelSpec>,
                      lastModel: Option<string>): Step
  {
    match ParseIdentifier(identifier)
    case None => Skip
    case Some(addr) =>
      match ParseHex(addr.productId)
      case None => Skip
      case Some(pid) =>
        var model := match ModelFor(catalog, pid) case Some(m) => Some(m) case None => lastModel;
        match model
        case None => Abort
        case Some(m) => Add(AddedRecord(backend, identifier, addr, m, probe, labels), m)
  }

  /** The record appended for an accepted device: constructed, probed, then named. */
  function AddedRecord(backend: string, identifier: string, addr: DeviceAddress, model: string,
                       probe: (string, string) -> ProbeOutcome, labels: seq<LabelSpec>): PrinterRecord
  {
    var created := NewRecord(identifier, backend, model, addr.protocol, addr.vendorId, addr.productId, addr.serialNumber);
    var probed := Probe(created, probe(model, identifier), labels);
    probed.(name := DisplayName(model, addr.serialNumber, probed.labelSize))
  }

  /** The scan's state: printers found so far and the last model bound. */
  datatype ScanState = ScanState(found: seq<PrinterRecord>, lastModel: Option<string>)

  /** The pass over one backend's devices, from `st` on. */
  function ScanDevices(st: ScanState, backend: string, ids: seq<string>, catalog: seq<ModelEntry>,
                       probe: (string, string) -> ProbeOutcome, labels: seq<LabelSpec>): ScanState
    decreases |ids|
  {
    if ids == [] then st
    else
      match DeviceStep(backend, ids[0], catalog, probe, labels, st.lastModel)
      case Skip => ScanDevices(st, backend, ids[1..], catalog, probe, labels)
      case Abort => st
      case Add(p, m) => ScanDevices(ScanState(st.found + [p], Some(m)), backend, ids[1..], catalog, probe, labels)
  }

  /** The passes over the remaining backends, from `st` on. */
  function ScanBackends(st: ScanState, backends: seq<string>, listFor: string -> BackendListing,
                        catalog: seq<ModelEntry>, probe: (string, string) -> ProbeOutcome,
                        labels: seq<LabelSpec>): ScanState
    decreases |backends|
  {
    if backends == [] then st
    else
      match listFor(backends[0])
      case ListFailed(_) => ScanBackends(st, backends[1..], listFor, catalog, probe, labels)
      case Devices(ids) =>
        ScanBackends(ScanDevices(st, backends[0], ids, catalog, probe, labels), backends[1..], listFor, catalog, probe, labels)
  }

  /** The printers `find_and_parse_printer` returns. */
  function Discover(listFor: string -> BackendListing, catalog: seq<ModelEntry>,
                    probe: (string, string) -> ProbeOutcome, labels: seq<LabelSpec>): seq<PrinterRecord>
  {
    ScanBackends(ScanState([], None), Backends, listFor, catalog, probe, labels).found
  }

  /** The records of a list of printer objects. */
  function Records(ps: seq<PrinterInfo>): (rs: seq<PrinterRecord>)
    reads set p | p in ps
    ensures |rs| == |ps|
  {
    if ps == [] then [] else Records(ps[..|ps| - 1]) + [Last(ps).Record()]
  }

  /**
   * `find_and_parse_printer`. Backend listings, the status command and the
   * two catalogs are inputs; one `PrinterInfo` is allocated per accepted
   * device, appended, then probed and named in place.
   */
  method FindAndParsePrinter(listFor: string -> BackendListing, catalog: seq<ModelEntry>,
                             probe: (string, string) -> ProbeOutcome, labels: seq<LabelSpec>)
    returns (found: seq<PrinterInfo>)
    ensures Records(found) == Discover(listFor, catalog, probe, labels)
    ensures forall j :: 0 <= j < |found| ==> fresh(found[j])
  {
    found := [];
    var model: Option<string> := None;
    var b := 0;
    while b < |Backends|
      invariant 0 <= b <= |Backends|
      invariant forall j :: 0 <= j < |found| ==> fresh(found[j])
      invariant ScanBackends(ScanState(Records(found), model), Backends[b..], listFor, catalog, probe, labels)
                == ScanBackends(ScanState([], None), Backends, listFor, catalog, probe, labels)
    {
      var backendName := Backends[b];
      assert Backends[b..][1..] == Backends[b + 1..];
      match listFor(backendName) {
        case ListFailed(_) =>
        case Devices(ids) =>
          ghost var before := found;
          found, model := ScanBackend(backendName, ids, catalog, probe, labels, found, model);
          assert forall j :: 0 <= j < |found| ==> fresh(found[j]) by {
            forall j | 0 <= j < |found|
              ensures fresh(found[j])
            {
              if j < |before| {
                assert found[j] == found[..|before|][j] == before[j];
              }
            }
          }
      }
      b := b + 1;
    }
    assert Backends[b..] == [];
  }

  /**
   * The body of the `try` for one backend: the loop over its devices. An
   * abort ends the loop early; the printers appended so far are kept.
   */
  method ScanBackend(backendName: string, ids: seq<string>, catalog: seq<ModelEntry>,
                     probe: (string, string) -> ProbeOutcome, labels: seq<LabelSpec>,
                     found0: seq<PrinterInfo>, model0: Option<string>)
    returns (found: seq<PrinterInfo>, model: Option<string>)
    ensures ScanState(Records(found), model)
            == ScanDevices(ScanState(Records(found0), model0), backendName, ids, catalog, probe, labels)
    ensures |found| >= |found0| && found[..|found0|] == found0
    ensures forall j :: |found0| <= j < |found| ==> fresh(found[j])
  {
    found, model := found0, model0;
    ghost var target := ScanDevices(ScanState(Records(found0), model0), backendName, ids, catalog, probe, labels);
    var i := 0;
    while i < |ids|
      invariant 0 <= i <= |ids|
      invariant |found| >= |found0| && found[..|found0|] == found0
      invariant forall j :: |found0| <= j < |found| ==> fresh(found[j])
      invariant ScanDevices(ScanState(Records(found), model), backendName, ids[i..], catalog, probe, labels) == target
    {
      assert ids[i..][1..] == ids[i + 1..];
      ghost var before := found;
      ghost var st := ScanState(Records(found), model);
      var aborted;
      ghost var step;
      found, model, aborted, step := ProcessDevice(backendName, ids[i], catalog, probe, labels, found, model);
      ScanDevicesCons(st, backendName, ids[i..], catalog, probe, labels, step);
      assert found[..|found0|] == before[..|found0|];
      assert forall j :: |found0| <= j < |found| ==> fresh(found[j]) by {
        forall j | |found0| <= j < |found|
          ensures fresh(found[j])
        {
          if j < |before| {
            assert found[j] == before[j];
          } else {
            assert j == |before|;
          }
        }
      }
      if aborted {
        break;
      }
      ghost var next := if step.Skip? then st else ScanState(st.found + [step.printer], Some(step.model));
      assert ScanDevices(st, backendName, ids[i..], catalog, probe, labels)
             == ScanDevices(next, backendName, ids[i + 1..], catalog, probe, labels);
      assert ScanState(Records(found), model) == next;
      assert ScanDevices(ScanState(Records(found), model), backendName, ids[i + 1..], catalog, probe, labels) == target;
      i := i + 1;
    }
    if i == |ids| {
      assert ids[i..] == [];
    }
  }

  /** The device loop unrolled once, in terms of the first device's step. */
  lemma ScanDevicesCons(st: ScanState, backend: string, ids: seq<string>, catalog: seq<ModelEntry>,
                        probe: (string, string) -> ProbeOutcome, labels: seq<LabelSpec>, step: Step)
    requires ids != [] && step == DeviceStep(backend, ids[0], catalog, probe, labels, st.lastModel)
    ensures ScanDevices(st, backend, ids, catalog, probe, labels) ==
            match step
            case Skip => ScanDevices(st, backend, ids[1..], catalog, probe, labels)
            case Abort => st
            case Add(p, m) => ScanDevices(ScanState(st.found + [p], Some(m)), backend, ids[1..], catalog, probe, labels)
  {
  }

  /** One pass of the device loop: skip the device, abort the backend, or append a new printer. */
  method ProcessDevice(backendName: string, identifier: string, catalog: seq<ModelEntry>,
                       probe: (string, string) -> ProbeOutcome, labels: seq<LabelSpec>,
                       found: seq<PrinterInfo>, model: Option<string>)
    returns (found': seq<PrinterInfo>, model': Option<string>, aborted: bool, ghost step: Step)
    ensures step == DeviceStep(backendName, identifier, catalog, probe, labels, model)
    ensures |found| <= |found'| <= |found| + 1 && found'[..|found|] == found
    ensures |found'| == |found| + 1 ==> fresh(found'[|found|])
    ensures aborted <==> step.Abort?
    ensures !step.Add? ==> found' == found && model' == model
    ensures step.Add? ==> model' == Some(step.model) && Records(found') == Records(found) + [step.printer]
  {
    step := DeviceStep(backendName, identifier, catalog, probe, labels, model);
    found', model', aborted := found, model, false;
    var parts := Split(identifier, "/");
    if |parts| < 4 {
      DeviceStepSkipped(backendName, identifier, catalog, probe, labels, model);
      return;
    }
    var protocol, deviceInfo, serialNumber := parts[0], parts[2], parts[3];
    var halves := Split(deviceInfo, ":");
    if |halves| != 2 {
      DeviceStepSkipped(backendName, identifier, catalog, probe, labels, model);
      return;
    }
    var vendorId, productId := halves[0], halves[1];
    var addr := DeviceAddress(protocol, vendorId, productId, serialNumber);
    assert ParseIdentifier(identifier) == Some(addr);
    var productIdInt := ParseHex(productId);
    if productIdInt.None? {
      DeviceStepSkipped(backendName, identifier, catalog, probe, labels, model);
      return;
    }
    DeviceStepParsed(backendName, identifier, catalog, probe, labels, model, addr, productIdInt.value);
    model' := LookupModel(catalog, productIdInt.value, model);
    if model'.None? {
      aborted := true;
      return;
    }
    found' := AppendPrinter(found, backendName, identifier, addr, model'.value, probe, labels);
  }

  /** A device whose identifier or product id does not parse is skipped. */
  lemma DeviceStepSkipped(backend: string, identifier: string, catalog: seq<ModelEntry>,
                          probe: (string, string) -> ProbeOutcome, labels: seq<LabelSpec>, lastModel: Option<string>)
    requires ParseIdentifier(identifier).None? || ParseHex(ParseIdentifier(identifier).value.productId).None?
    ensures DeviceStep(backend, identifier, catalog, probe, labels, lastModel) == Skip
  {
  }

  /**
   * Creates the `PrinterInfo` for an accepted device, appends it to `found`,
   * then probes and names it through that reference.
   */
  method AppendPrinter(found: seq<PrinterInfo>, backendName: string, identifier: string, addr: DeviceAddress,
                       model: string, probe: (string, string) -> ProbeOutcome, labels: seq<LabelSpec>)
    returns (found': seq<PrinterInfo>)
    ensures |found'| == |found| + 1 && found'[..|found|] == found && fresh(found'[|found|])
    ensures Records(found') == Records(found) + [AddedRecord(backendName, identifier, addr, model, probe, labels)]
  {
    var printerInfo := new PrinterInfo(identifier, backendName, model, addr.protocol, addr.vendorId,
                                       addr.productId, addr.serialNumber);
    found' := found + [printerInfo];
    printerInfo.GetPrinterStatus(probe(printerInfo.model, printerInfo.identifier), labels);
    printerInfo.name := DisplayName(printerInfo.model, addr.serialNumber, printerInfo.labelSize);
    assert found'[..|found|] == found;
  }

  /**
   * The search of the model catalog: binds `model` to the identifier of the
   * first entry with the product id, and leaves it as it was on a miss.
   */
  method LookupModel(catalog: seq<ModelEntry>, productId: int, current: Option<string>)
    returns (model: Option<string>)
    ensures model == match ModelFor(catalog, productId) case Some(m) => Some(m) case None => current
  {
    model := current;
    var k := 0;
    while k < |catalog|
      invariant 0 <= k <= |catalog|
      invariant model == current
      invariant forall j :: 0 <= j < k ==> catalog[j].productId != productId
    {
      if catalog[k].productId == productId {
        model := Some(catalog[k].identifier);
        break;
      }
      k := k + 1;
    }
  }

  // Properties of the scan

  /**
   * The step for one identifier: malformed identifiers and non-hex product
   * ids are skipped; an uncatalogued product reuses the model bound by an
   * earlier device and aborts the backend when there is none; otherwise a
   * record is added whose model is the first catalog match.
   */
  lemma DeviceStepCases(backend: string, identifier: string, catalog: seq<ModelEntry>,
                        probe: (string, string) -> ProbeOutcome, labels: seq<LabelSpec>, lastModel: Option<string>)
    ensures var step := DeviceStep(backend, identifier, catalog, probe, labels, lastModel);
            var addr := ParseIdentifier(identifier);
            && (step.Skip? <==> addr.None? || ParseHex(addr.value.productId).None?)
            && (step.Abort? <==> addr.Some? && ParseHex(addr.value.productId).Some?
                                 && ModelFor(catalog, ParseHex(addr.value.productId).value).None? && lastModel.None?)
            && (step.Add? ==> addr.Some? && ParseHex(addr.value.productId).Some?
                              && (var found := ModelFor(catalog, ParseHex(addr.value.productId).value);
                                  if found.Some? then step.model == found.value else lastModel == Some(step.model))
                              && step.printer == AddedRecord(backend, identifier, addr.value, step.model, probe, labels))
  {
  }

  /** `model` names some catalog entry, or is still unbound. */
  predicate FromCatalog(model: Option<string>, catalog: seq<ModelEntry>)
  {
    model.Some? ==> exists i :: 0 <= i < |catalog| && catalog[i].identifier == model.value
  }

  /**
   * A record the scan can produce: its identity fields are the parts of its
   * identifier, its product id is hexadecimal, its backend is one of the
   * backends, its model is a catalog identifier and its name is built from
   * model, serial number and the probed label size.
   */
  predicate Accepted(r: PrinterRecord, catalog: seq<ModelEntry>)
  {
    && ParseIdentifier(r.identifier) == Some(DeviceAddress(r.protocol, r.vendorId, r.productId, r.serialNumber))
    && ParseHex(r.productId).Some?
    && r.backend in Backends
    && FromCatalog(Some(r.model), catalog)
    && r.name == DisplayName(r.model, r.serialNumber, r.labelSize)
  }

  /** The fields of an added record come from its identifier, backend and model. */
  lemma AddedRecordFields(backend: string, identifier: string, addr: DeviceAddress, model: string,
                          probe: (string, string) -> ProbeOutcome, labels: seq<LabelSpec>)
    ensures var r := AddedRecord(backend, identifier, addr, model, probe, labels);
            && r.identifier == identifier && r.backend == backend && r.model == model
            && DeviceAddress(r.protocol, r.vendorId, r.productId, r.serialNumber) == addr
            && r.name == DisplayName(model, addr.serialNumber, r.labelSize)
  {
    var created := NewRecord(identifier, backend, model, addr.protocol, addr.vendorId, addr.productId, addr.serialNumber);
    ProbeKeepsIdentity(created, probe(model, identifier), labels);
  }

  /** The display name holds the model, then the serial's text after its last `H`, then the label size. */
  lemma DisplayNameSpec(model: string, serialNumber: string, labelSize: string)
    ensures exists suffix :: DisplayName(model, serialNumber, labelSize) == model + " - H" + suffix + " - " + labelSize
                             && 'H' !in suffix && EndsWith(serialNumber, suffix)
  {
    var suffix := Last(Split(serialNumber, "H"));
    LastPartSpec(serialNumber, "H");
    CharContains(suffix, 'H');
    assert DisplayName(model, serialNumber, labelSize) == model + " - H" + suffix + " - " + labelSize;
  }

  /** One step keeps the scan's invariant: accepted records and a catalogued last model. */
  lemma StepSound(st: ScanState, backend: string, identifier: string, catalog: seq<ModelEntry>,
                  probe: (string, string) -> ProbeOutcome, labels: seq<LabelSpec>)
    requires backend in Backends && FromCatalog(st.lastModel, catalog)
    ensures var step := DeviceStep(backend, identifier, catalog, probe, labels, st.lastModel);
            step.Add? ==> Accepted(step.printer, catalog) && FromCatalog(Some(step.model), catalog)
  {
    var step := DeviceStep(backend, identifier, catalog, probe, labels, st.lastModel);
    if step.Add? {
      DeviceStepCases(backend, identifier, catalog, probe, labels, st.lastModel);
      var addr := ParseIdentifier(identifier).value;
      AddedRecordFields(backend, identifier, addr, step.model, probe, labels);
    }
  }

  /** The pass over one backend appends only accepted records and keeps the last model catalogued. */
  lemma {:induction false} ScanDevicesSound(st: ScanState, backend: string, ids: seq<string>, catalog: seq<ModelEntry>,
                                            probe: (string, string) -> ProbeOutcome, labels: seq<LabelSpec>)
    requires backend in Backends && FromCatalog(st.lastModel, catalog)
    requires forall j :: 0 <= j < |st.found| ==> Accepted(st.found[j], catalog)
    ensures var out := ScanDevices(st, backend, ids, catalog, probe, labels);
            && FromCatalog(out.lastModel, catalog)
            && forall j :: 0 <= j < |out.found| ==> Accepted(out.found[j], catalog)
    decreases |ids|
  {
    if ids != [] {
      var step := DeviceStep(backend, ids[0], catalog, probe, labels, st.lastModel);
      StepSound(st, backend, ids[0], catalog, probe, labels);
      match step
      case Skip => ScanDevicesSound(st, backend, ids[1..], catalog, probe, labels);
      case Abort =>
      case Add(p, m) =>
        var next := ScanState(st.found + [p], Some(m));
        assert forall j :: 0 <= j < |next.found| ==> Accepted(next.found[j], catalog);
        ScanDevicesSound(next, backend, ids[1..], catalog, probe, labels);
    }
  }

  /** The passes over the remaining backends keep the same invariant. */
  lemma {:induction false} ScanBackendsSound(st: ScanState, backends: seq<string>, listFor: string -> BackendListing,
                                             catalog: seq<ModelEntry>, probe: (string, string) -> ProbeOutcome,
                                             labels: seq<LabelSpec>)
    requires forall k :: 0 <= k < |backends| ==> backends[k] in Backends
    requires FromCatalog(st.lastModel, catalog)
    requires forall j :: 0 <= j < |st.found| ==> Accepted(st.found[j], catalog)
    ensures forall j :: 0 <= j < |ScanBackends(st, backends, listFor, catalog, probe, labels).found| ==>
              Accepted(ScanBackends(st, backends, listFor, catalog, probe, labels).found[j], catalog)
    decreases |backends|
  {
    if backends != [] {
      match listFor(backends[0])
      case ListFailed(_) => ScanBackendsSound(st, backends[1..], listFor, catalog, probe, labels);
      case Devices(ids) =>
        var mid := ScanDevices(st, backends[0], ids, catalog, probe, labels);
        assert ScanBackends(st, backends, listFor, catalog, probe, labels)
               == ScanBackends(mid, backends[1..], listFor, catalog, probe, labels);
        ScanDevicesSound(st, backends[0], ids, catalog, probe, labels);
        assert forall k :: 0 <= k < |backends[1..]| ==> backends[1..][k] in Backends;
        ScanBackendsSound(mid, backends[1..], listFor, catalog, probe, labels);
    }
  }

  /** Every printer discovered is an accepted record. */
  lemma DiscoverSound(listFor: string -> BackendListing, catalog: seq<ModelEntry>,
                      probe: (string, string) -> ProbeOutcome, labels: seq<LabelSpec>)
    ensures forall j :: 0 <= j < |Discover(listFor, catalog, probe, labels)| ==>
              Accepted(Discover(listFor, catalog, probe, labels)[j], catalog)
  {
    ScanBackendsSound(ScanState([], None), Backends, listFor, catalog, probe, labels);
  }

  /** Records appended by one backend are never removed: the scan only extends the list. */
  lemma {:induction false} ScanDevicesExtends(st: ScanState, backend: string, ids: seq<string>, catalog: seq<ModelEntry>,
                                              probe: (string, string) -> ProbeOutcome, labels: seq<LabelSpec>)
    ensures var out := ScanDevices(st, backend, ids, catalog, probe, labels);
            |out.found| >= |st.found| && out.found[..|st.found|] == st.found
    decreases |ids|
  {
    if ids != [] {
      match DeviceStep(backend, ids[0], catalog, probe, labels, st.lastModel)
      case Skip => ScanDevicesExtends(st, backend, ids[1..], catalog, probe, labels);
      case Abort =>
      case Add(p, m) =>
        var next := ScanState(st.found + [p], Some(m));
        ScanDevicesExtends(next, backend, ids[1..], catalog, probe, labels);
        assert next.found[..|st.found|] == st.found;
    }
  }

  /** A failing or aborted backend keeps the printers found before it; later backends only add. */
  lemma {:induction false} ScanBackendsExtends(st: ScanState, backends: seq<string>, listFor: string -> BackendListing,
                                               catalog: seq<ModelEntry>, probe: (string, string) -> ProbeOutcome,
                                               labels: seq<LabelSpec>)
    ensures var out := ScanBackends(st, backends, listFor, catalog, probe, labels);
            |out.found| >= |st.found| && out.found[..|st.found|] == st.found
    decreases |backends|
  {
    if backends != [] {
      match listFor(backends[0])
      case ListFailed(_) => ScanBackendsExtends(st, backends[1..], listFor, catalog, probe, labels);
      case Devices(ids) =>
        var mid := ScanDevices(st, backends[0], ids, catalog, probe, labels);
        ScanDevicesExtends(st, backends[0], ids, catalog, probe, labels);
        ScanBackendsExtends(mid, backends[1..], listFor, catalog, probe, labels);
        var out := ScanBackends(mid, backends[1..], listFor, catalog, probe, labels);
        assert out.found[..|st.found|] == out.found[..|mid.found|][..|st.found|];
    }
  }

  /** Whether the pass over `ids` ends early in an abort. */
  function Aborts(st: ScanState, backend: string, ids: seq<string>, catalog: seq<ModelEntry>,
                  probe: (string, string) -> ProbeOutcome, labels: seq<LabelSpec>): bool
    decreases |ids|
  {
    if ids == [] then false
    else
      match DeviceStep(backend, ids[0], catalog, probe, labels, st.lastModel)
      case Skip => Aborts(st, backend, ids[1..], catalog, probe, labels)
      case Abort => true
      case Add(p, m) => Aborts(ScanState(st.found + [p], Some(m)), backend, ids[1..], catalog, probe, labels)
  }

  /** The pass over `a + b` is the pass over `a`, continued over `b` unless it aborted within `a`. */
  lemma {:induction false} ScanDevicesAppend(st: ScanState, backend: string, a: seq<string>, b: seq<string>,
                                             catalog: seq<ModelEntry>, probe: (string, string) -> ProbeOutcome,
                                             labels: seq<LabelSpec>)
    ensures ScanDevices(st, backend, a + b, catalog, probe, labels)
            == if Aborts(st, backend, a, catalog, probe, labels) then ScanDevices(st, backend, a, catalog, probe, labels)
               else ScanDevices(ScanDevices(st, backend, a, catalog, probe, labels), backend, b, catalog, probe, labels)
    decreases |a|
  {
    if a == [] {
      assert a + b == b;
    } else {
      assert (a + b)[1..] == a[1..] + b;
      match DeviceStep(backend, a[0], catalog, probe, labels, st.lastModel)
      case Skip => ScanDevicesAppend(st, backend, a[1..], b, catalog, probe, labels);
      case Abort =>
      case Add(p, m) => ScanDevicesAppend(ScanState(st.found + [p], Some(m)), backend, a[1..], b, catalog, probe, labels);
    }
  }

  /**
   * An unmatched device with no model bound earlier ends the backend's pass
   * there: the devices after it are never looked at.
   */
  lemma AbortEndsBackend(st: ScanState, backend: string, ids: seq<string>, k: nat, catalog: seq<ModelEntry>,
                         probe: (string, string) -> ProbeOutcome, labels: seq<LabelSpec>)
    requires k < |ids|
    requires DeviceStep(backend, ids[k], catalog, probe, labels,
                        ScanDevices(st, backend, ids[..k], catalog, probe, labels).lastModel).Abort?
    ensures ScanDevices(st, backend, ids, catalog, probe, labels)
            == ScanDevices(st, backend, ids[..k], catalog, probe, labels)
  {
    assert ids == ids[..k] + ids[k..];
    ScanDevicesAppend(st, backend, ids[..k], ids[k..], catalog, probe, labels);
    var mid := ScanDevices(st, backend, ids[..k], catalog, probe, labels);
    assert ScanDevices(mid, backend, ids[k..], catalog, probe, labels) == mid;
  }

  /** A device whose identifier and product id both parse: the catalog's model, else the earlier one, else the abort. */
  lemma DeviceStepParsed(backend: string, identifier: string, catalog: seq<ModelEntry>,
                         probe: (string, string) -> ProbeOutcome, labels: seq<LabelSpec>,
                         lastModel: Option<string>, addr: DeviceAddress, pid: int)
    requires ParseIdentifier(identifier) == Some(addr) && ParseHex(addr.productId) == Some(pid)
    ensures var step := DeviceStep(backend, identifier, catalog, probe, labels, lastModel);
            var found := ModelFor(catalog, pid);
            && (found.Some? ==> step == Add(AddedRecord(backend, identifier, addr, found.value, probe, labels), found.value))
            && (found.None? && lastModel.Some? ==>
                  step == Add(AddedRecord(backend, identifier, addr, lastModel.value, probe, labels), lastModel.value))
            && (found.None? && lastModel.None? ==> step.Abort?)
  {
  }

  /** A QL-570 on its usual identifier, with the catalog entry for product 0x2028, is added under that model. */
  lemma QL570Discovered(probe: (string, string) -> ProbeOutcome, labels: seq<LabelSpec>, lastModel: Option<string>)
    ensures var step := DeviceStep("pyusb", "usb/0x04f9/04f9:2028/000H2G258173",
                                   [ModelEntry(0x2028, "QL-570")], probe, labels, lastModel);
            step.Add? && step.model == "QL-570"
            && step.printer.serialNumber == "000H2G258173" && step.printer.productId == "2028"
  {
    var identifier := "usb/0x04f9/04f9:2028/000H2G258173";
    var addr := DeviceAddress("usb", "04f9", "2028", "000H2G258173");
    ExampleIdentifier();
    Hex2028();
    DeviceStepParsed("pyusb", identifier, [ModelEntry(0x2028, "QL-570")], probe, labels, lastModel, addr, 0x2028);
    AddedRecordFields("pyusb", identifier, addr, "QL-570", probe, labels);
  }

  lemma HexValue2028()
    ensures AllHex("2028") && HexValue("2028") == 0x2028
  {
    assert AllHex("2028");
    assert "2028"[..3] == "202" && "202"[..2] == "20" && "20"[..1] == "2" && "2"[..0] == "";
    assert HexValue("20") == 32;
  }

  lemma Hex2028()
    ensures ParseHex("2028") == Some(0x2028)
  {
    HexValue2028();
    ParseHexPlain("2028");
  }

  lemma SignedHex2028()
    ensures ParseHex("+2028") == Some(0x2028)
  {
    HexValue2028();
    ParseHexPlus("2028");
    assert "+" + "2028" == "+2028";
  }

  /** A product id written with a sign is still read as hex: `04f9:+2028` is the QL-570 too. */
  lemma SignedProductIdDiscovered(probe: (string, string) -> ProbeOutcome, labels: seq<LabelSpec>, lastModel: Option<string>)
    ensures var step := DeviceStep("pyusb", "usb/0x04f9/04f9:+2028/000H2G258173",
                                   [ModelEntry(0x2028, "QL-570")], probe, labels, lastModel);
            step.Add? && step.model == "QL-570" && step.printer.productId == "+2028"
  {
    var identifier := "usb/0x04f9/04f9:+2028/000H2G258173";
    var addr := DeviceAddress("usb", "04f9", "+2028", "000H2G258173");
    SignedIdentifier();
    SignedHex2028();
    DeviceStepParsed("pyusb", identifier, [ModelEntry(0x2028, "QL-570")], probe, labels, lastModel, addr, 0x2028);
    AddedRecordFields("pyusb", identifier, addr, "QL-570", probe, labels);
  }

  lemma SignedIdentifier()
    ensures ParseIdentifier("usb/0x04f9/04f9:+2028/000H2G258173")
            == Some(DeviceAddress("usb", "04f9", "+2028", "000H2G258173"))
  {
    assert "usb/0x04f9/04f9:" + "+2028" + "/000H2G258173" == "usb/0x04f9/04f9:+2028/000H2G258173";
    ExampleDevice("+2028");
  }

  /**
   * A negative product id parses but matches no catalog entry: the device
   * takes the model bound for an earlier one, or, with none, aborts the
   * backend.
   */
  lemma NegativeProductId(catalog: seq<ModelEntry>, probe: (string, string) -> ProbeOutcome,
                          labels: seq<LabelSpec>, lastModel: Option<string>)
    ensures var step := DeviceStep("pyusb", "usb/0x04f9/04f9:-1/000H2G258173", catalog, probe, labels, lastModel);
            && (lastModel.None? ==> step.Abort?)
            && (lastModel.Some? ==> step.Add? && step.model == lastModel.value)
  {
    var identifier := "usb/0x04f9/04f9:-1/000H2G258173";
    var addr := DeviceAddress("usb", "04f9", "-1", "000H2G258173");
    NegativeIdentifier();
    MinusOne();
    NegativeNotCatalogued(catalog, -1);
    DeviceStepParsed("pyusb", identifier, catalog, probe, labels, lastModel, addr, -1);
  }

  lemma NegativeIdentifier()
    ensures ParseIdentifier("usb/0x04f9/04f9:-1/000H2G258173")
            == Some(DeviceAddress("usb", "04f9", "-1", "000H2G258173"))
  {
    assert "usb/0x04f9/04f9:" + "-1" + "/000H2G258173" == "usb/0x04f9/04f9:-1/000H2G258173";
    ExampleDevice("-1");
  }

  lemma MinusOne()
    ensures ParseHex("-1") == Some(-1)
  {
    assert AllHex("1") && "1"[..0] == "";
    ParseHexMinus("1");
    assert "-" + "1" == "-1";
  }
}
