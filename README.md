# Sticker Factory — a Dafny model of its core

Sticker Factory is a Streamlit web application for printing images and text
on Brother QL label printers. This project models its core in Dafny 4:

- **Printer utilities** (`printer_utils.py`):
  - the `PrinterInfo` record;
  - USB discovery of printers (`find_and_parse_printer`);
  - the status probe that reads the loaded media (`get_printer_status`);
  - the label-type priority chain (`get_printer_label_info`) and the per-session label-type cache (`get_label_type`);
  - the label-width lookup (`get_label_width`);
  - the classification of a print job's outcome (`process_print_job`);
  - the job polling loop (`print_image`).
- **The application** (`printit.py`):
  - the startup label-width loop;
  - the listing of saved images (`list_saved_images`): hidden-name filter, duplicate filter by file size, newest first, limit;
  - the font search (`get_fonts`);
  - the way Python binds the arguments of the `print_image(image, rotate=0, dither=False)` wrapper that every tab calls.
- **The History tab** (`tabs/history.py`): search filter, pagination, the gallery's session state, the grid and the print call.
- **The Sticker tab** (`tabs/sticker.py`): the HTTPS-only URL fetch, the button captions and the three print calls.
- **The Sticker Pro tab** (`tabs/sticker_pro.py`):
  - option interplay (rotation disabled by a target width, dithering only for "Original");
  - the threshold level;
  - the chain of image transforms;
  - the button caption, the print call and the URL fetch.

The tools the program runs (`brother_ql`, the USB stack, HTTP, the file
system, the clock) are parameters of the model: a command's outcome, a
directory listing, a response, or a sequence of observed job statuses.

Modules:

- `Wrappers`: Option and Result.
- `Text`: the Python string operations the code relies on (`in`, `find`, `split`, `strip`, `lower`, `int()`, `int(x, 16)`, `str(n)`).
- `Printers`, `Discovery`, `LabelResolution`, `PrintJobs`: the printer utilities.
- `LabelWidth`, `SavedImages`, `Fonts`, `PrintCalls`: the application.
- `History`, `Sticker`, `StickerPro`: the tabs.

Where the code updates an object in place, the model does so too:

- `PrinterInfo` is a class whose probe method rewrites its fields.
- The History gallery's session state is the class `HistorySession`.
- The label-type cache is the class `LabelTypeResolver`.
- Loops become methods with invariants, proved against the functions that specify them. Examples: `DetectMediaWidth`, `PrintImage`, `DedupBySize`, `GetFonts`, `PrintButtonLabel`, `GridCells`.

## Model

| member | source | states |
|---|---|---|
| Printers.MediaLine | printer_utils.py:113-128 | defines one `Media size:` line's effect: the size is stored; a width that parses and is catalogued sets the label type, then the pixel width and no height when the catalog has it |
| Printers.ProbeLine | printer_utils.py:110-129 | defines one output line's effect: a `Phase:` line sets the status, then a `Media size:` line is handled as above |
| Printers.Probe | printer_utils.py:105-137 | defines the probe: a successful command applies its lines in order; a failure stores the error and resets the label fields |
| Printers.FirstLabel | printer_utils.py:194-197 | the index found holds the first catalog label with that identifier; None exactly when no label has it |
| Printers.GetLabelWidth | printer_utils.py:192-200 | a width exactly when some catalog label has the identifier; otherwise the `ValueError` case |
| Printers.PrinterInfo.constructor | printer_utils.py:19-39 | a new record holds the given identity fields and the dataclass defaults for status and label fields |
| Printers.PrinterInfo.GetPrinterStatus | printer_utils.py:105-137 | the new record is the probe of the old one under the command outcome, applied line by line |
| Printers.PrinterInfo.ApplyLine | printer_utils.py:110-129 | one output line's effect: a `Phase:` line sets the status, a `Media size:` line sets the size, type and pixel dimensions |
| Printers.PrinterInfo.ApplyMediaSize | printer_utils.py:113-127 | the `Media size:` branch leaves the record as the functional `MediaLine` gives it: size always, type and width only for a known width |
| Printers.ProbeKeepsIdentity | printer_utils.py:105-137 | whatever the outcome, the probe never changes identifier, backend, model, protocol, vendor, product or serial |
| Printers.ProbeLinesKeepIdentity | printer_utils.py:108-129 | the same for the loop over the output lines |
| Printers.LastLineWith | printer_utils.py:108-129 | the index of the last line containing a marker, with no such line after it; None when no line has it |
| Printers.ProbeStatusFromLastPhase | printer_utils.py:110-112 | after the loop the status is the text of the last `Phase:` line, or unchanged when there is none |
| Printers.ProbeSizeFromLastMedia | printer_utils.py:113-115 | after the loop the label size is the remainder of the last `Media size:` line, or unchanged when there is none |
| Printers.ProbeLineStatus | printer_utils.py:110-111 | one line sets the status exactly when it holds `Phase:`, to its trimmed remainder |
| Printers.ProbeLineSize | printer_utils.py:113-115 | one line sets the label size exactly when it holds `Media size:` |
| Printers.NatToStringNotUnknown | printer_utils.py:118-124 | a width written as a string is never the `unknown` sentinel |
| Printers.ProbeKeepsWidthNeedsType | printer_utils.py:105-137 | every probe keeps the invariant that an `unknown` label type never comes with a pixel width |
| Printers.ProbeLinesKeepWidthNeedsType | printer_utils.py:113-129 | the same invariant across the output lines |
| Printers.MediaLineRecognised | printer_utils.py:116-128 | a recognised width sets the label type to that width; the pixel width comes from the catalog with no height, and when the catalog lacks the type the width and height are left as they were |
| Printers.MediaLineUnrecognised | printer_utils.py:116-129 | a width that does not parse changes only the label size |
| Printers.ProbeFailureResets | printer_utils.py:131-137 | a failed command sets the error as the status and resets every label field to its sentinel |
| Printers.MediaSize62 | printer_utils.py:113-129 | the line `Media size: 62x100` gives label type "62", the catalog's width for it, and no height |
| Discovery.DeviceStep | printer_utils.py:57-94 | defines one device's handling: skip, abort of the backend, or an added printer with its model |
| Discovery.ScanDevices | printer_utils.py:57-101 | defines one backend's pass over its devices, ending early on an abort |
| Discovery.ScanBackends | printer_utils.py:48-101 | defines the passes over the backends in order; a backend whose listing fails is passed over |
| Discovery.Discover | printer_utils.py:42-102 | defines the printers found, starting from none and no model |
| Discovery.ParseIdentifierRoundTrip | printer_utils.py:57-72 | an identifier assembled from protocol, bus, `vendor:product` and serial splits back into exactly those parts |
| Discovery.ExampleIdentifier | printer_utils.py:57-72 | the example identifier of a QL-570 splits into its protocol, vendor, product and serial |
| Discovery.ModelFor | printer_utils.py:74-83 | a model exactly when some catalog entry has the product id, and it is that entry's; None when none has it |
| Discovery.NegativeNotCatalogued | printer_utils.py:75-79 | a negative product id matches no catalog entry, since catalog ids are natural numbers |
| Discovery.DisplayNameSpec | printer_utils.py:95-96 | the name is the model, then `- H` and the serial's text after its last `H`, then the label size |
| Discovery.FindAndParsePrinter | printer_utils.py:42-102 | the records of the fresh printer objects returned are those the backend and device scan specifies |
| Discovery.ScanBackend | printer_utils.py:54-101 | one backend's pass only appends fresh printers and threads the last matched model |
| Discovery.ProcessDevice | printer_utils.py:57-94 | one device is skipped, aborts its backend, or appends one printer; the model variable changes only on an append |
| Discovery.DeviceStepSkipped | printer_utils.py:58-83 | a device whose identifier or product id does not parse is skipped |
| Discovery.AppendPrinter | printer_utils.py:85-96 | the appended object is fresh, and its record is constructed, probed and then named |
| Discovery.LookupModel | printer_utils.py:74-83 | the model found in the catalog, or the variable's previous value when there is none |
| Discovery.ScanDevicesCons | printer_utils.py:57-101 | the device loop unrolled once: skip continues, abort ends the backend, add appends then continues |
| Discovery.DeviceStepCases | printer_utils.py:57-94 | a malformed identifier, or a product id that `int(…, 16)` refuses, is skipped; an uncatalogued product with no earlier match aborts the backend; otherwise the device is added under the catalog's model, or the previous device's model when the catalog has none |
| Discovery.AddedRecordFields | printer_utils.py:85-96 | an added record's identifier, backend, model, protocol, vendor, product and serial come from the device |
| Discovery.StepSound | printer_utils.py:57-94 | one device step adds only accepted records and keeps the last model in the catalog |
| Discovery.ScanDevicesSound | printer_utils.py:57-101 | a backend's pass appends only accepted records |
| Discovery.ScanBackendsSound | printer_utils.py:54-101 | the passes over the backends keep that invariant |
| Discovery.DiscoverSound | printer_utils.py:42-102 | every printer returned has a supported backend and a model taken from the catalog |
| Discovery.ScanDevicesExtends | printer_utils.py:57-101 | a pass only appends: printers found before stay, in place |
| Discovery.ScanBackendsExtends | printer_utils.py:54-101 | a failing or aborted backend keeps what earlier backends found |
| Discovery.ScanDevicesAppend | printer_utils.py:57-101 | the pass over `a + b` is the pass over `a` continued over `b`, unless it aborted within `a` |
| Discovery.AbortEndsBackend | printer_utils.py:74-101 | after an aborting device the backend's later devices are never examined |
| Discovery.QL570Discovered | printer_utils.py:57-96 | a QL-570 with product id 0x2028 is added under that model |
| Discovery.DeviceStepParsed | printer_utils.py:74-94 | once the identifier and product id parse, the catalog's model is used, else the previous device's model, else the backend aborts |
| Discovery.SignedProductIdDiscovered | printer_utils.py:69-94 | a product id written `+2028` is read as 0x2028, so that device is added as a QL-570 |
| Discovery.NegativeProductId | printer_utils.py:74-94 | a product id `-1` parses but matches no catalog entry: the device takes the previous device's model, or aborts the backend when there is none |
| LabelResolution.Detection | printer_utils.py:149-173 | defines the detected width: the command succeeded with output, and the last `Media size:` line that parses names a catalogued width |
| LabelResolution.LabelPriority | printer_utils.py:165-189 | defines the corrected chain: the error pair if the command raised, then the detected width, then the model's default, then "62" |
| LabelResolution.LabelPriorityAsWritten | printer_utils.py:165-189 | defines the chain as written: any undetected case gives the error pair |
| LabelResolution.GetPrinterLabelInfo | printer_utils.py:140-189 | defines the corrected `get_printer_label_info`: no printer, or the chain for the first printer found |
| LabelResolution.GetPrinterLabelInfoAsWritten | printer_utils.py:142-147 | defines `get_printer_label_info` as written: no printer, or the error pair |
| LabelResolution.MediaLineHasColon | printer_utils.py:158-159 | a `Media size:` line always has a second `:`-segment to read |
| LabelResolution.LastPresentSpec | printer_utils.py:154-163 | the value kept is present at some index with none after it; None means none is present |
| LabelResolution.DetectedWidthSpec | printer_utils.py:154-163 | the width detected comes from a reporting line with no reporting line after it; None when no line reports one |
| LabelResolution.DetectMediaWidth | printer_utils.py:154-163 | the loop over the status output returns the detected width |
| LabelResolution.ModelDefault | printer_utils.py:176-183 | a per-model default is always "62" or "102" |
| LabelResolution.GetPrinterLabelInfoKnown | printer_utils.py:140-189 | the corrected chain names a catalogued media width, and names none only when no printer is found |
| LabelResolution.DetectedIff | printer_utils.py:165-173 | the status reads "Detected ..." exactly when the command succeeded and named a catalogued width, which becomes the label type |
| LabelResolution.ModelDefaultWins | printer_utils.py:175-185 | without detection the model's default wins, with the status "Using default for <model>", and otherwise "62" with the safe-default status |
| LabelResolution.AsWrittenPriority | printer_utils.py:165-189 | as written, the chain agrees with the corrected one when media is detected, and otherwise gives the error pair |
| LabelResolution.AsWrittenLabelInfo | printer_utils.py:142-147 | as written, "no printer found" and the error pair are the only outcomes |
| LabelResolution.QL1050Differs | printer_utils.py:142-189 | a QL-1050 whose status command fails gets the error pair as written and its "102" default as intended |
| LabelResolution.ChooseLabelType | printer_utils.py:328-348 | defines the uncached choice: detected type, then the configured one, then "62", each with its status |
| LabelResolution.ResolveLabelType | printer_utils.py:319-348 | defines one call against the cache: the cached pair if there is one, else the choice |
| LabelResolution.ChooseNonEmpty | printer_utils.py:328-348 | the chosen label type is never empty: it is the detected one, the configured one, or "62" |
| LabelResolution.DetectionFirst | printer_utils.py:328-333 | a detected type decides the answer, whatever is configured |
| LabelResolution.ConfigurationSecond | printer_utils.py:335-340 | without a detection, a configured type decides the answer, whatever else was detected |
| LabelResolution.LabelTypeResolver.constructor | printer_utils.py:321-323 | a new session has no cached label type and has not asked the printer yet |
| LabelResolution.LabelTypeResolver.GetLabelType | printer_utils.py:319-348 | a cached pair is returned unchanged without asking the printer; otherwise the printer is asked once and a pair is chosen; either way the pair is cached |
| LabelResolution.ResolveSticky | printer_utils.py:319-348 | after the first call, every later call in the session gives the same pair, whatever is detected or configured |
| PrintJobs.Classify | printer_utils.py:290-316 | defines a job's result from the outcome of `send`: success, a USB timeout taken as success, or a failure with its message |
| PrintJobs.ProcessPrintJob | printer_utils.py:246-316 | defines `process_print_job` as the classification of converting and sending the job's request |
| PrintJobs.PrintImageOutcome | printer_utils.py:203-243 | defines `print_image`'s outcome: no printer, or the first settled status's success or error |
| PrintJobs.PrintRequest | printer_utils.py:263-275 | the job's own model, file, label, rotation and dither flag; fixed threshold 70, compression, cut, no red, no 600 dpi, no high quality |
| PrintJobs.FixedConvertOptions | printer_utils.py:263-275 | every job converts with the same fixed options, whatever its inputs |
| PrintJobs.ClassifySpec | printer_utils.py:290-316 | success exactly for an acknowledged send or USB errno 110; no error only for an acknowledged send; a failure always carries a non-empty message |
| PrintJobs.FirstSettled | printer_utils.py:233-243 | the first status that is neither pending nor processing, with only waiting ones before it |
| PrintJobs.PrintImage | printer_utils.py:203-243 | the polling loop returns the outcome given by the first settled status, or no printer |
| PrintJobs.PrintedIff | printer_utils.py:214-243 | `print_image` reports success exactly when a printer exists and the first settled status is "completed" |
| PrintJobs.LaterStatusesIgnored | printer_utils.py:233-243 | statuses observed after the job settles change nothing |
| PrintJobs.FirstSettledAt | printer_utils.py:233-243 | a settled status with only waiting ones before it is the one the loop stops at |
| LabelWidth.SelectLabelWidth | printit.py:35-41 | the catalog width of the resolved label type, or the first catalog label's width when the type is not catalogued |
| SavedImages.SortByTime | printit.py:76 | defines the newest-first sort by insertion |
| SavedImages.DedupStep | printit.py:62-74 | defines one file's step of the loop: a new size adds it; a newer file replaces the kept one |
| SavedImages.SavedEntries | printit.py:47-76 | defines the listing: visible files, de-duplicated by size when asked, sorted newest first and cut to the limit; None when a time lookup raises |
| SavedImages.Visible | printit.py:52-55 | filtering never lengthens the list |
| SavedImages.VisibleSpec | printit.py:52-55 | a file is kept exactly when it was globbed and its lower-cased name does not hold `write_something` |
| SavedImages.InsertByTimeCount | printit.py:76 | an insertion adds the one entry and nothing else |
| SavedImages.InsertByTimeSpec | printit.py:76 | inserting into a newest-first list keeps it newest first |
| SavedImages.SortByTimeSpec | printit.py:76 | the sort puts the newest first and is a permutation of its input |
| SavedImages.Take | printit.py:76 | the slice is the first `min(n, limit)` entries |
| SavedImages.SlotOf | printit.py:64-66 | the position of a size among the dictionary's keys, or None when it is not a key |
| SavedImages.ListSavedImages | printit.py:47-76 | the paths of the entries the listing specifies, or the exception |
| SavedImages.DedupBySize | printit.py:60-74 | the loop builds the dictionary the fold specifies |
| SavedImages.FindSlot | printit.py:64-66 | the key lookup agrees with the dictionary's contents |
| SavedImages.DedupStepKeeps | printit.py:60-74 | one step keeps the keys distinct and each value a file of its key's size |
| SavedImages.DedupFoldKeeps | printit.py:60-74 | after the loop the keys are distinct and each value is one of the files seen |
| SavedImages.DedupFoldAppend | printit.py:60-74 | the loop over `temp/` then `labels/` is the loop over the first continued over the second |
| SavedImages.SizeFailureSkipped | printit.py:72-74 | a file whose size lookup raises leaves the dictionary as if it had never been globbed |
| SavedImages.TimeFailureStep | printit.py:66-74 | with de-duplication, a file whose time lookup raises is skipped when its size is already a key, and is kept without its time being read when its size is new |
| SavedImages.PoolFromVisible | printit.py:57-74 | every entry that goes into the sort is a visible file |
| SavedImages.SortedPrefixSpec | printit.py:76 | the listed entries are newest first and each comes from the pool |
| SavedImages.SavedEntriesSpec | printit.py:47-76 | every listed entry is a visible globbed file; at most `limit` are listed, newest first |
| SavedImages.AllListedUnderLimit | printit.py:57-58 | without de-duplication, under the limit, the listing is a permutation of the visible files |
| SavedImages.MissingTimeRaises | printit.py:57-76 | without de-duplication the listing raises exactly when a visible file's time is missing |
| SavedImages.DedupFoldUntimed | printit.py:63-74 | after the loop, some kept file has no readable time exactly when some file is the first of its size and its time lookup fails; every size read is a key |
| SavedImages.DedupMissingTimeRaises | printit.py:62-76 | with de-duplication the listing raises exactly when a de-duplicated value has no readable time, that is, exactly when a visible file is the first of its size and has no readable time |
| SavedImages.DedupDistinct | printit.py:60-76 | with de-duplication no two listed entries share a file size |
| SavedImages.DistinctSizesPermuted | printit.py:76 | distinct sizes survive the sort's reordering |
| SavedImages.DedupStepInv | printit.py:60-74 | one step keeps, for each size, the newest file seen, the first one on a tie |
| SavedImages.DedupFoldSpec | printit.py:60-74 | after the loop each value is the newest file of its size, the first one on a tie |
| SavedImages.DedupKeepsNewest | printit.py:60-76 | with de-duplication each listed entry is the newest visible file of its size |
| Fonts.FontList | printit.py:78-123 | defines the font list: the default font, then `fonts/`, then the system directories, de-duplicated, or the default font alone |
| Fonts.GetFonts | printit.py:78-123 | the method returns the font list the search specifies |
| Fonts.AppendLocalFonts | printit.py:86-91 | the loop appends the `fonts/` entries in listing order |
| Fonts.AppendWalkFiles | printit.py:108-114 | the loop over a walked directory's files is the specified fold |
| Fonts.DedupFonts | printit.py:116-123 | the loop with the `seen` set gives the order-preserving de-duplication |
| Fonts.UniqueFirstSpec | printit.py:116-123 | de-duplication keeps exactly the fonts listed, once each, and keeps the first one first |
| Fonts.UniqueFirstOfDistinct | printit.py:116-123 | a list without duplicates is unchanged |
| Fonts.UniqueFirstPrefix | printit.py:116-123 | each font keeps its first-occurrence order |
| Fonts.FontListSpec | printit.py:78-123 | the list is never empty and no font appears twice; it holds exactly the candidates, or the default font alone when there are none; the default font comes first when it exists |
| Fonts.AddFilesExtends | printit.py:108-114 | a walked directory only appends |
| Fonts.AddWalkExtends | printit.py:104-114 | the walk only appends |
| Fonts.AddSystemFontsExtends | printit.py:96-114 | the system directories only append, so the local fonts come first |
| Fonts.CandidatesStartWith | printit.py:82-114 | the first candidate stays first |
| Fonts.AddFilesDistinct | printit.py:110-113 | a walked directory adds no path already listed and no path twice |
| Fonts.AddFilesTtf | printit.py:110-113 | every path a walked directory adds is a `.ttf` file in any letter case |
| Fonts.LocalFontsSpec | printit.py:86-91 | `fonts/` contributes exactly its `.ttf` names other than the default font |
| PrintCalls.Bind | printit.py:189 | defines the binding of `print_image(image, rotate=0, dither=False)`: positional arguments that fit, then keywords, then too many positionals, then a missing `image` |
| PrintCalls.Positional | printit.py:189 | positional arguments fill `image`, `rotate`, `dither` from the left, and nothing else |
| PrintCalls.KeywordAfterBoundFails | printit.py:189 | a keyword naming a parameter that is already bound always gives a TypeError |
| PrintCalls.PositionalAndKeywordFails | printit.py:189 | passing a parameter both by position and by keyword gives a TypeError, whatever the values |
| PrintCalls.FreshKeywordsBind | printit.py:189 | distinct known keywords that no positional argument took all bind, each under its own name |
| PrintCalls.ImageThenKeywords | printit.py:189-192 | `print_image(img, rotate=r, dither=d)` binds exactly `img`, `r` and `d` |
| PrintCalls.KeywordErrorFirst | printit.py:189 | with four positional arguments and an unknown keyword, the keyword is what is reported |
| PrintCalls.TooManyPositional | printit.py:189 | four positional arguments are reported as too many |
| History.FilterImages | tabs/history.py:46-49 | the search never lengthens the list |
| History.FilterImagesSpec | tabs/history.py:46-49 | an image is shown exactly when its lower-cased base name contains the lower-cased query |
| History.FilterImagesAppend | tabs/history.py:46-49 | the search keeps the gallery's order |
| History.EmptyQueryKeepsAll | tabs/history.py:46-49 | the empty search shows every image |
| History.TotalPages | tabs/history.py:52 | there is always at least one page |
| History.TotalPagesSpec | tabs/history.py:52 | one page for no images; otherwise the ceiling of the count over the page size |
| History.PageSlice | tabs/history.py:68-73 | a page holds at most the page size |
| History.PageSliceSpec | tabs/history.py:68-73 | item `j` of a page is image `page * k + j`, and a page never reaches past the list |
| History.PageOfIndex | tabs/history.py:68-73 | image `i` appears on page `i / k` at position `i % k` |
| History.PageNotEmpty | tabs/history.py:52-73 | a page in range shows at least one image when there are images |
| History.PreviousPage | tabs/history.py:57-59 | defines the Previous click: one page back when not on the first page |
| History.NextPage | tabs/history.py:63-65 | defines the Next click: one page on when not on the last page of the filtered list |
| History.ToggleFilterAsWritten | tabs/history.py:31-43 | defines the checkbox as written: the setting is stored and nothing is reloaded |
| History.ToggleFilter | tabs/history.py:31-43 | defines the corrected checkbox: a change reloads with the new setting and goes back to page 0 |
| History.ToggleFilterStale | tabs/history.py:31-43 | as written, changing the duplicate checkbox never reloads the list; as intended it reloads and goes back to page 0 |
| History.ToggleFilterExample | tabs/history.py:31-43 | switching de-duplication off still shows the de-duplicated list as written, and the full one as intended |
| History.PageInRangeKept | tabs/history.py:34-65 | Previous and Next keep the page within range; Refresh and the corrected checkbox restore it |
| History.ClicksMoveByOne | tabs/history.py:57-65 | each button moves exactly one page, and only when it is enabled; the list is untouched |
| History.HistorySession.constructor | tabs/history.py:14-21 | the first render lists with duplicates filtered, on page 0 |
| History.HistorySession.Previous | tabs/history.py:57-59 | the Previous click's new state |
| History.HistorySession.Next | tabs/history.py:63-65 | the Next click's new state, bounded by the filtered list's pages |
| History.HistorySession.Refresh | tabs/history.py:34-37 | a reload with the current setting, back to page 0 |
| History.HistorySession.SetFilter | tabs/history.py:31-43 | the corrected checkbox: a change reloads and goes back to page 0 |
| History.Grid | tabs/history.py:80-85 | the grid has one cell per image on the page |
| History.GridCells | tabs/history.py:80-85 | the row and column loops visit the page's images in order, cell `t` in column `t % 3` |
| History.GridVisitsOnce | tabs/history.py:80-85 | each image of the page is visited exactly once, in a column below 3 |
| History.GalleryPrintCall | tabs/history.py:102 | defines the gallery's call `print_image(grayscale_image, dither=True)` |
| History.GalleryPrintCallSpec | tabs/history.py:99-102 | a gallery print sends the grayscale image, dithered, unrotated |
| Sticker.FetchImageFromUrl | tabs/sticker.py:9-30 | an image is only ever returned for the URL asked for |
| Sticker.NonHttpsNoRequest | tabs/sticker.py:11-13 | a non-HTTPS URL is refused before any request |
| Sticker.FetchImageIff | tabs/sticker.py:9-30 | an image exactly for an HTTPS URL whose response succeeds, says `image/...` and decodes |
| Sticker.ContentTypeChecked | tabs/sticker.py:22-25 | a missing or non-image content type gives no image |
| Sticker.ButtonText | tabs/sticker.py:63-68 | the caption built word by word is the caption for the two options |
| Sticker.ButtonLabelSpec | tabs/sticker.py:63-68 | every caption starts with "Print ", ends with "Image", and tells all four settings apart |
| Sticker.PrintCallAsWritten | tabs/sticker.py:70-198 | defines the three print calls as written, the upload branch with the extra `printer_info` argument |
| Sticker.PrintCallFor | tabs/sticker.py:70-198 | defines the three print calls as intended, each `print_image(image, rotate=..., dither=...)` |
| Sticker.UploadPrintFails | tabs/sticker.py:152-154 | as written, printing an upload always fails with "multiple values for argument 'rotate'"; the other branches are unaffected |
| Sticker.PrintCallSpec | tabs/sticker.py:70-198 | as intended, every branch prints the image, rotated by 90 exactly when ticked, with the chosen dither flag |
| StickerPro.EffectiveRotationSpec | tabs/sticker_pro.py:171-172 | rotation by 90 exactly when the box is ticked and no target width is set |
| StickerPro.ThresholdLevel | tabs/sticker_pro.py:146-147 | the level is the floor of `percent * 255 / 100`, at most 255 |
| StickerPro.ThresholdLevelSpec | tabs/sticker_pro.py:146-147 | the level is monotone in the percentage; 0, 50 and 100 give 0, 127 and 255 |
| StickerPro.ProLabel | tabs/sticker_pro.py:159-169 | defines the button caption: the choice, then each option in effect, the width last |
| StickerPro.InPush | tabs/sticker_pro.py:159-169 | a conditional append adds its element exactly when its condition holds |
| StickerPro.ConcatPush | tabs/sticker_pro.py:159-169 | a conditional `+=` on the caption is a conditional append to its parts |
| StickerPro.PrintButtonLabel | tabs/sticker_pro.py:159-169 | the caption grown by `+=` is the specified caption |
| StickerPro.LabelSuffixesSpec | tabs/sticker_pro.py:159-169 | each option shows in the caption exactly when it is in effect, the width last |
| StickerPro.ProLabelStarts | tabs/sticker_pro.py:159 | the caption always begins with "Print <choice> Image" |
| StickerPro.Pipeline | tabs/sticker_pro.py:76-149 | defines the transforms applied, in order, for the options chosen |
| StickerPro.ProcessImage | tabs/sticker_pro.py:76-149 | the image reassigned through the chain is the specified transform sequence |
| StickerPro.PushOrdered | tabs/sticker_pro.py:76-149 | appending a later transform keeps the order |
| StickerPro.PipelineOrdered | tabs/sticker_pro.py:76-149 | every transform happens at most once, in the fixed order |
| StickerPro.PipelineSpec | tabs/sticker_pro.py:76-149 | always converted to RGB; resized exactly for a positive width; ends with the label preparation or the slider's threshold |
| StickerPro.ProPrintCall | tabs/sticker_pro.py:171-176 | defines the print call for the choice: the grayscale image or the thresholded one, with the rotation in effect |
| StickerPro.ProPrintCallSpec | tabs/sticker_pro.py:171-176 | "Original" prints the grayscale image with the chosen dither flag; "Threshold" prints the thresholded image, never dithered; both rotate as in effect |
| StickerPro.ProUrlImage | tabs/sticker_pro.py:53-71 | an image is only ever returned for the URL asked for |
| StickerPro.ProUrlGuards | tabs/sticker_pro.py:55-65 | a non-HTTPS URL is refused without a request; a non-image content type gives no image |
| StickerPro.ProUrlAgreesWithSticker | tabs/sticker_pro.py:53-71 | this tab accepts exactly the URLs and responses the Sticker tab accepts |
| Text.Split | printer_utils.py:58 | defines `str.split` with a non-empty separator: cut at every non-overlapping occurrence, left to right; two or more pieces exactly when the separator occurs |
| Text.Strip | printer_utils.py:111 | defines `str.strip`: the input without leading and trailing whitespace |
| Text.StripSpec | printer_utils.py:111 | the result is a middle slice of the input that neither starts nor ends with whitespace, and everything cut away on either side is whitespace |
| Text.Lower | printit.py:54 | defines `str.lower` on ASCII letters: same length, each letter lowered, every other character kept |
| Text.ParseDecimal | printer_utils.py:117 | defines `int()` on decimal digits: a value exactly for a non-empty string of digits |
| Text.ParseHex | printer_utils.py:75 | defines `int(s, 16)`: whitespace stripped, an optional sign, an optional `0x` with one optional underscore after it, then hex digits with single underscores between them; anything else is the `ValueError` |
| Text.HexRun | printer_utils.py:75 | the digit part of `int(s, 16)`: when accepted, the digits it gives are all hex digits, the underscores between them dropped |
| Text.ParseHexPlain | printer_utils.py:75 | plain hex digits read as their value |
| Text.ParseHexPlus | printer_utils.py:75 | a `+` in front changes nothing |
| Text.ParseHexMinus | printer_utils.py:75 | a `-` in front negates the value |
| Text.ParseHexPrefix | printer_utils.py:75 | a `0x` prefix changes nothing |
| Text.ParseHexUnderscore | printer_utils.py:75 | one underscore between two runs of digits is ignored |
| Text.ParseHexSpaces | printer_utils.py:75 | surrounding whitespace is ignored |
| Text.ParseHexMisplacedUnderscores | printer_utils.py:75 | an underscore at either end, or two in a row, is refused |
| Text.ParseHexNoDigits | printer_utils.py:75 | a bare `0x`, the empty string and a space after the sign are refused |

## Left out

- Running the external tools is not modelled: `brother_ql` discovery and status commands, `convert`, `send`, and the USB stack. Their outcomes are parameters of the model: a backend listing, a `ProbeOutcome`, a `StatusRun` or a `SendOutcome`.
- Concurrency:
  - the job queue, its worker thread and the time-outs behind the job statuses are left out;
  - `PrintImage` takes the successive statuses it would observe;
  - the `sleep` between polls is left out.
- The Streamlit user interface is left out: widgets, columns, reruns, messages, the preview border and the tab dispatch. Widget values are parameters.
- Pixel work is left out:
  - PIL conversions, resizing, mirroring, inversion, histogram equalization, thresholding and dithering;
  - `StickerPro.ProcessImage` records which transforms are applied, and in what order, not the pixels.
- HTTP is left out:
  - the request in both URL fetches is a `Response` parameter;
  - the image decode appears only as a possible error.
- Uploads are not modelled: PDF rendering and the decoding of uploaded files.
- The file system is a parameter:
  - globbing, `os.path.getsize`, `os.path.getmtime`, `os.listdir`, `os.path.exists` and `os.walk` are inputs;
  - `SavedImages` takes the two glob results already concatenated;
  - modification times are integers, not floats.
- Not part of this model: `safe_filename`, `find_url`, `generate_image`, `img_concat_v`, the text, cat, dog, webcam and FAQ tabs, `config.py` and `logging_config.py`.
- `Text`: `str.lower` and `str.strip` are modelled on ASCII letters and whitespace only; Unicode case mapping is not.
- `Text.ParseHex`: the Unicode whitespace and non-ASCII digits that `int()` also accepts are not modelled.
- `Text.ParseDecimal` accepts decimal digits only, not signs, underscores or surrounding whitespace. The code strips before it parses.
- `Fonts.FontList`: `os.path.join` is modelled for POSIX paths only, and a failure inside `os.walk` is not modelled.
- `History.NextPage`: the page size is required to be positive (`requires k > 0`), as it is in `History.TotalPages`, `History.PageInRange` and `History.HistorySession.Next`. The tab reads it from the secrets file, `items_per_page` with default 5 (tabs/history.py:24). A zero there raises `ZeroDivisionError` at tabs/history.py:52, and a negative one gives a meaningless slice; neither is modelled.
- `History.GalleryPrintCall` and `Sticker.PrintCallFor` name the images by their variable names. What the image holds is not modelled.
- `PrintCalls.Bind` models only the binding of arguments. The wrapper's call onward with the resolved label type (printit.py:191-192) is not modelled; as written it names the undefined `print_image_util` (see the missing names below).
- `SavedImages.SortByTimeSpec` proves the order and the permutation, not stability. Stability is built into `InsertByTime`.
- `Discovery.FindAndParsePrinter`: the debug logging is not modelled.
- `Discovery.FindAndParsePrinter`: `print_image` hands the print queue the whole list that discovery returns (printer_utils.py:214, printer_utils.py:225). `process_print_job` then reads `printer_info["model"]` as if it were one record (printer_utils.py:257). A list passed through unchanged would therefore raise `TypeError` there, and every job would end in the `except Exception` branch (printer_utils.py:311). `PrintJobs.ProcessPrintJob` assumes that the queue, which is not part of this model, hands it a single printer record.
- Missing names: the model assumes the imports that the code leaves out.
  - printer_utils.py:19 uses `@dataclass` without importing it, so importing printer_utils raises `NameError`, and so does the import at printit.py:22. `Printers.PrinterInfo` assumes the decorator is in scope.
  - The wrapper `print_image` at printit.py:189-192 calls `print_image_util`, which is neither defined nor imported. The import at printit.py:22-25 brings in `print_image`, and the wrapper shadows it. As written, every tab's print raises `NameError`. `PrintCalls.Bind` and the print-call lemmas model only the binding of the wrapper's arguments, as if the call went through.
  - `preper_image` at printit.py:174-176 calls `prepare_image`, which is likewise neither defined nor imported. Image preparation is not modelled in any case.

## Findings

| source | as written | input that shows it | evidently intended | confidence | as-written member | corrected member |
|---|---|---|---|---|---|---|
| printer_utils.py:142-147 | the list of printers found is indexed with the string `'model'`, which raises `TypeError`, so every call with a printer goes to the error branch | any non-empty list of printers, e.g. one QL-570 | use the first printer found: its model and identifier | high, not executed | LabelResolution.GetPrinterLabelInfoAsWritten (LabelResolution.AsWrittenLabelInfo) | LabelResolution.GetPrinterLabelInfo (LabelResolution.GetPrinterLabelInfoKnown) |
| printer_utils.py:175 | a latent defect behind the one at line 147: once that indexing stops raising by taking the first printer found as `printer_info`, `'model' in printer_info` finds no `__contains__` or `__iter__` on `PrinterInfo` and falls back to `__getitem__(0)`, that is `getattr(record, 0)`, which raises `TypeError`; so whenever no media is detected the error pair is returned instead of the model's default (were line 147 fixed instead by indexing `printer_info[0]`, the list would never contain `'model'` and the safe default "62" would be returned) | a QL-1050 whose status command fails | look up the per-model default for the printer's model | medium, not executed | LabelResolution.LabelPriorityAsWritten (LabelResolution.QL1050Differs) | LabelResolution.LabelPriority (LabelResolution.ModelDefaultWins) |
| tabs/history.py:31-43 | the checkbox value is stored in the session before it is compared with the session, so the comparison never differs and the list is never reloaded | de-duplication on, then unticked: the de-duplicated list stays on screen | reload the list with the new setting and go back to page 0 | high, not executed | History.ToggleFilterAsWritten (History.ToggleFilterStale) | History.ToggleFilter (History.PageInRangeKept) |
| tabs/sticker.py:154 | the upload branch calls `print_image(image_to_process, printer_info, rotate=..., dither=...)`; the wrapper's second parameter is `rotate`, so the call raises "got multiple values for argument 'rotate'" | any uploaded image, any options | `print_image(image_to_process, rotate=..., dither=...)`, as in the other two branches | high, not executed | Sticker.PrintCallAsWritten (Sticker.UploadPrintFails) | Sticker.PrintCallFor (Sticker.PrintCallSpec) |
