/**
 * The Sticker Pro tab (tabs/sticker_pro.py): load an image by upload or
 * URL, run it through the optional transforms, choose the original or a
 * thresholded version, and print it. Pixel work is named, not performed:
 * the image is modelled by the list of transforms applied to it.
 */
module StickerPro {
  import opened Wrappers
  import opened Text
  import opened PrintCalls
  import opened Sticker

  datatype PrintChoice = Original | Threshold

  function ChoiceName(choice: PrintChoice): string
  {
    match choice
    case Original => "Original"
    case Threshold => "Threshold"
  }

  /** Rotation is switched off whenever a target width is given. */
  predicate RotateDisabled(targetWidthMm: nat)
  {
    targetWidthMm > 0
  }

  /** The rotation sent to the printer: 90 for a ticked, enabled checkbox, otherwise 0. */
  function EffectiveRotation(rotateChecked: bool, targetWidthMm: nat): int
  {
    if rotateChecked && !RotateDisabled(targetWidthMm) then 90 else 0
  }

  /** Rotating by 90 happens exactly when the box is ticked and no width is set. */
  lemma EffectiveRotationSpec(rotateChecked: bool, targetWidthMm: nat)
    ensures EffectiveRotation(rotateChecked, targetWidthMm) == 90 <==> rotateChecked && targetWidthMm == 0
    ensures EffectiveRotation(rotateChecked, targetWidthMm) == 0 <==> !rotateChecked || targetWidthMm > 0
  {
  }

  /**
   * `int(p * 255 / 100)` for a slider value `p` in 0..100. The float
   * quotient is exact or at least 1/100 away from an integer, so truncation
   * gives the floor of the exact quotient.
   */
  function ThresholdLevel(percent: nat): (level: nat)
    requires percent <= 100
    ensures level <= 255
    ensures level * 100 <= percent * 255 < level * 100 + 100
  {
    percent * 255 / 100
  }

  /** A higher percentage never gives a lower level; the ends and the default map as expected. */
  lemma ThresholdLevelSpec(p: nat, q: nat)
    requires p <= q <= 100
    ensures ThresholdLevel(p) <= ThresholdLevel(q)
    ensures ThresholdLevel(0) == 0 && ThresholdLevel(50) == 127 && ThresholdLevel(100) == 255
  {
    var a := ThresholdLevel(p);
    var b := ThresholdLevel(q);
    assert a * 100 <= p * 255 <= q * 255 < b * 100 + 100;
  }

  /** The dither flag: the checkbox exists only for the Original choice. */
  function Dither(choice: PrintChoice, ditherChecked: bool): bool
  {
    choice == Original && ditherChecked
  }

  /** The degree sign as the file stores it, two characters read back in the wrong encoding. */
  const RotatedSuffix := ", Rotated 90\U{00C2}\U{00B0}"

  function WidthSuffix(targetWidthMm: nat): string
  {
    ", Width: " + NatToString(targetWidthMm) + "mm"
  }

  /** `xs` with `x` appended when `b` holds: one conditional `+=`. */
  function Push<T>(xs: seq<T>, b: bool, x: T): seq<T>
  {
    if b then xs + [x] else xs
  }

  lemma InPush<T>(xs: seq<T>, b: bool, x: T, y: T)
    ensures y in Push(xs, b, x) <==> y in xs || (b && y == x)
  {
  }

  /** The pieces appended to the button caption, in their fixed order. */
  function LabelSuffixes(choice: PrintChoice, ditherChecked: bool, rotateChecked: bool,
                         mirror: bool, invert: bool, targetWidthMm: nat): seq<string>
  {
    var dithering := Push([], Dither(choice, ditherChecked), ", Dithering");
    var rotated := Push(dithering, EffectiveRotation(rotateChecked, targetWidthMm) == 90, RotatedSuffix);
    var mirrored := Push(rotated, mirror, ", Mirrored");
    var inverted := Push(mirrored, invert, ", Inverted");
    Push(inverted, targetWidthMm > 0, WidthSuffix(targetWidthMm))
  }

  function Concat(parts: seq<string>): string
  {
    if |parts| == 0 then "" else Concat(parts[..|parts| - 1]) + parts[|parts| - 1]
  }

  lemma ConcatPush(parts: seq<string>, b: bool, x: string)
    ensures Concat(Push(parts, b, x)) == Concat(parts) + (if b then x else "")
  {
    if b {
      assert (parts + [x])[..|parts|] == parts;
    }
  }

  function ProLabel(choice: PrintChoice, ditherChecked: bool, rotateChecked: bool,
                    mirror: bool, invert: bool, targetWidthMm: nat): string
  {
    "Print " + ChoiceName(choice) + " Image" +
    Concat(LabelSuffixes(choice, ditherChecked, rotateChecked, mirror, invert, targetWidthMm))
  }

  /** One conditional `+=` on the caption is one `Push` on its parts. */
  lemma AppendStep(head: string, prev: string, parts: seq<string>, b: bool, x: string)
    requires prev == head + Concat(parts)
    ensures prev + (if b then x else "") == head + Concat(Push(parts, b, x))
  {
    ConcatPush(parts, b, x);
  }

  /** `print_button_label`, grown by `+=` one option at a time. */
  method PrintButtonLabel(choice: PrintChoice, ditherChecked: bool, rotateChecked: bool,
                          mirror: bool, invert: bool, targetWidthMm: nat) returns (caption: string)
    ensures caption == ProLabel(choice, ditherChecked, rotateChecked, mirror, invert, targetWidthMm)
  {
    var head := "Print " + ChoiceName(choice) + " Image";
    caption := head;
    ghost var parts: seq<string> := [];
    ghost var prev := caption;
    if choice == Original && ditherChecked {
      caption := caption + ", Dithering";
    }
    AppendStep(head, prev, parts, Dither(choice, ditherChecked), ", Dithering");
    parts := Push(parts, Dither(choice, ditherChecked), ", Dithering");
    prev := caption;
    if rotateChecked && !RotateDisabled(targetWidthMm) {
      caption := caption + RotatedSuffix;
    }
    AppendStep(head, prev, parts, EffectiveRotation(rotateChecked, targetWidthMm) == 90, RotatedSuffix);
    parts := Push(parts, EffectiveRotation(rotateChecked, targetWidthMm) == 90, RotatedSuffix);
    prev := caption;
    if mirror {
      caption := caption + ", Mirrored";
    }
    AppendStep(head, prev, parts, mirror, ", Mirrored");
    parts := Push(parts, mirror, ", Mirrored");
    prev := caption;
    if invert {
      caption := caption + ", Inverted";
    }
    AppendStep(head, prev, parts, invert, ", Inverted");
    parts := Push(parts, invert, ", Inverted");
    prev := caption;
    if targetWidthMm > 0 {
      caption := caption + WidthSuffix(targetWidthMm);
    }
    AppendStep(head, prev, parts, targetWidthMm > 0, WidthSuffix(targetWidthMm));
    parts := Push(parts, targetWidthMm > 0, WidthSuffix(targetWidthMm));
  }

  /** Each option shows in the caption exactly when it is in effect, the width always last. */
  lemma LabelSuffixesSpec(choice: PrintChoice, ditherChecked: bool, rotateChecked: bool,
                          mirror: bool, invert: bool, targetWidthMm: nat)
    ensures var parts := LabelSuffixes(choice, ditherChecked, rotateChecked, mirror, invert, targetWidthMm);
      (", Dithering" in parts <==> Dither(choice, ditherChecked)) &&
      (RotatedSuffix in parts <==> EffectiveRotation(rotateChecked, targetWidthMm) == 90) &&
      (", Mirrored" in parts <==> mirror) &&
      (", Inverted" in parts <==> invert) &&
      (targetWidthMm > 0 <==> |parts| > 0 && parts[|parts| - 1] == WidthSuffix(targetWidthMm))
  {
    var w := WidthSuffix(targetWidthMm);
    var names := [", Dithering", RotatedSuffix, ", Mirrored", ", Inverted", w];
    assert names[0][2] == 'D' && names[1][2] == 'R' && names[2][2] == 'M' && names[3][2] == 'I' && names[4][2] == 'W';
    var dithering := Push([], Dither(choice, ditherChecked), names[0]);
    var rotated := Push(dithering, EffectiveRotation(rotateChecked, targetWidthMm) == 90, names[1]);
    var mirrored := Push(rotated, mirror, names[2]);
    var inverted := Push(mirrored, invert, names[3]);
    var parts := Push(inverted, targetWidthMm > 0, names[4]);
    forall y | y in names
      ensures y in parts <==> (y in inverted || (targetWidthMm > 0 && y == names[4]))
      ensures y in inverted <==> (y in mirrored || (invert && y == names[3]))
      ensures y in mirrored <==> (y in rotated || (mirror && y == names[2]))
      ensures y in rotated <==> (y in dithering || (EffectiveRotation(rotateChecked, targetWidthMm) == 90 && y == names[1]))
      ensures y in dithering <==> (Dither(choice, ditherChecked) && y == names[0])
    {
      InPush(inverted, targetWidthMm > 0, names[4], y);
      InPush(mirrored, invert, names[3], y);
      InPush(rotated, mirror, names[2], y);
      InPush(dithering, EffectiveRotation(rotateChecked, targetWidthMm) == 90, names[1], y);
      InPush([], Dither(choice, ditherChecked), names[0], y);
    }
    if targetWidthMm == 0 && |parts| > 0 {
      assert parts == inverted;
      var last := parts[|parts| - 1];
      InPush(mirrored, invert, names[3], last);
      InPush(rotated, mirror, names[2], last);
      InPush(dithering, EffectiveRotation(rotateChecked, targetWidthMm) == 90, names[1], last);
      InPush([], Dither(choice, ditherChecked), names[0], last);
      assert last[2] != 'W';
    }
  }

  /** The caption always begins with the choice. */
  lemma ProLabelStarts(choice: PrintChoice, ditherChecked: bool, rotateChecked: bool,
                       mirror: bool, invert: bool, targetWidthMm: nat)
    ensures StartsWith(ProLabel(choice, ditherChecked, rotateChecked, mirror, invert, targetWidthMm),
                       "Print " + ChoiceName(choice) + " Image")
  {
  }

  /** The transforms the tab applies to its image, by name. */
  datatype Transform =
    | OnWhite                       // transparent pixels composited on white
    | ToRgb
    | ResizeTo(mm: nat)
    | Mirror
    | Invert
    | Equalize(black: nat, white: nat)
    | PrepareForLabel               // the grayscale image the label preparation returns
    | ThresholdAt(level: nat)

  /** Transforms happen in this order, each at most once. */
  function Rank(t: Transform): nat
  {
    match t
    case OnWhite => 0
    case ToRgb => 1
    case ResizeTo(_) => 2
    case Mirror => 3
    case Invert => 4
    case Equalize(_, _) => 5
    case PrepareForLabel => 6
    case ThresholdAt(_) => 6
  }

  /** The image that is printed, as the transforms that produced it. */
  function Pipeline(isRgba: bool, targetWidthMm: nat, mirror: bool, invert: bool,
                    equalize: bool, black: nat, white: nat, choice: PrintChoice, percent: nat): seq<Transform>
    requires percent <= 100
  {
    var composited := Push([], isRgba, OnWhite);
    var resized := Push(composited + [ToRgb], targetWidthMm > 0, ResizeTo(targetWidthMm));
    var mirrored := Push(resized, mirror, Mirror);
    var inverted := Push(mirrored, invert, Invert);
    var equalized := Push(inverted, equalize, Equalize(black, white));
    equalized + [if choice == Original then PrepareForLabel else ThresholdAt(ThresholdLevel(percent))]
  }

  /** `image` reassigned through the chain, then the printed image chosen. */
  method ProcessImage(isRgba: bool, targetWidthMm: nat, mirror: bool, invert: bool,
                      equalize: bool, black: nat, white: nat, choice: PrintChoice, percent: nat)
    returns (printed: seq<Transform>)
    requires percent <= 100
    ensures printed == Pipeline(isRgba, targetWidthMm, mirror, invert, equalize, black, white, choice, percent)
  {
    var image: seq<Transform> := [];
    if isRgba {
      image := image + [OnWhite];
    }
    image := image + [ToRgb];
    if targetWidthMm > 0 {
      image := image + [ResizeTo(targetWidthMm)];
    }
    if mirror {
      image := image + [Mirror];
    }
    if invert {
      image := image + [Invert];
    }
    if equalize {
      image := image + [Equalize(black, white)];
    }
    if choice == Original {
      printed := image + [PrepareForLabel];
    } else {
      var level := percent * 255 / 100;
      printed := image + [ThresholdAt(level)];
    }
  }

  predicate Ordered(steps: seq<Transform>)
  {
    forall i, j :: 0 <= i < j < |steps| ==> Rank(steps[i]) < Rank(steps[j])
  }

  predicate RankedBelow(steps: seq<Transform>, r: nat)
  {
    forall i :: 0 <= i < |steps| ==> Rank(steps[i]) < r
  }

  /** Appending a later transform keeps the order. */
  lemma PushOrdered(steps: seq<Transform>, b: bool, t: Transform)
    requires Ordered(steps) && RankedBelow(steps, Rank(t))
    ensures Ordered(Push(steps, b, t)) && RankedBelow(Push(steps, b, t), Rank(t) + 1)
  {
  }

  /** Every transform appears at most once and in the fixed order. */
  lemma PipelineOrdered(isRgba: bool, targetWidthMm: nat, mirror: bool, invert: bool,
                        equalize: bool, black: nat, white: nat, choice: PrintChoice, percent: nat)
    requires percent <= 100
    ensures Ordered(Pipeline(isRgba, targetWidthMm, mirror, invert, equalize, black, white, choice, percent))
  {
    var composited := Push([], isRgba, OnWhite);
    var rgb := composited + [ToRgb];
    var resized := Push(rgb, targetWidthMm > 0, ResizeTo(targetWidthMm));
    var mirrored := Push(resized, mirror, Mirror);
    var inverted := Push(mirrored, invert, Invert);
    var equalized := Push(inverted, equalize, Equalize(black, white));
    var last := if choice == Original then PrepareForLabel else ThresholdAt(ThresholdLevel(percent));
    PushOrdered([], isRgba, OnWhite);
    PushOrdered(composited, true, ToRgb);
    assert Push(composited, true, ToRgb) == rgb;
    PushOrdered(rgb, targetWidthMm > 0, ResizeTo(targetWidthMm));
    PushOrdered(resized, mirror, Mirror);
    PushOrdered(mirrored, invert, Invert);
    PushOrdered(inverted, equalize, Equalize(black, white));
    PushOrdered(equalized, true, last);
    assert Push(equalized, true, last) == equalized + [last];
  }

  /**
   * The image is always converted to RGB; resizing happens exactly for a
   * positive width; the Threshold choice ends with the threshold of the
   * slider level, the Original choice with the label preparation.
   */
  lemma PipelineSpec(isRgba: bool, targetWidthMm: nat, mirror: bool, invert: bool,
                     equalize: bool, black: nat, white: nat, choice: PrintChoice, percent: nat)
    requires percent <= 100
    ensures ToRgb in Pipeline(isRgba, targetWidthMm, mirror, invert, equalize, black, white, choice, percent)
    ensures ResizeTo(targetWidthMm) in Pipeline(isRgba, targetWidthMm, mirror, invert, equalize, black, white, choice, percent)
      <==> targetWidthMm > 0
    ensures var p := Pipeline(isRgba, targetWidthMm, mirror, invert, equalize, black, white, choice, percent);
      p[|p| - 1] == (if choice == Original then PrepareForLabel else ThresholdAt(ThresholdLevel(percent)))
  {
    var composited := Push([], isRgba, OnWhite);
    var rgb := composited + [ToRgb];
    var resized := Push(rgb, targetWidthMm > 0, ResizeTo(targetWidthMm));
    var mirrored := Push(resized, mirror, Mirror);
    var inverted := Push(mirrored, invert, Invert);
    var equalized := Push(inverted, equalize, Equalize(black, white));
    var y := ResizeTo(targetWidthMm);
    InPush(rgb, targetWidthMm > 0, y, y);
    InPush(rgb, targetWidthMm > 0, y, ToRgb);
    InPush(resized, mirror, Mirror, y);
    InPush(resized, mirror, Mirror, ToRgb);
    InPush(mirrored, invert, Invert, y);
    InPush(mirrored, invert, Invert, ToRgb);
    InPush(inverted, equalize, Equalize(black, white), y);
    InPush(inverted, equalize, Equalize(black, white), ToRgb);
    InPush(composited, false, ToRgb, y);
    InPush([], isRgba, OnWhite, y);
    assert y in rgb <==> y in composited;
    assert ToRgb in rgb;
  }

  /** The print call: the grayscale image for Original, the thresholded one with no dithering otherwise. */
  function ProPrintCall(choice: PrintChoice, ditherChecked: bool, rotateChecked: bool, targetWidthMm: nat)
    : Result<PrintCall, string>
  {
    var rotate := IntArg(EffectiveRotation(rotateChecked, targetWidthMm));
    if choice == Original then
      Bind([Picture("grayscale_image")], [("rotate", rotate), ("dither", BoolArg(ditherChecked))])
    else
      Bind([Picture("display_image")], [("rotate", rotate), ("dither", BoolArg(false))])
  }

  /** Threshold prints never dither; Original prints the grayscale image with the chosen flag. */
  lemma ProPrintCallSpec(choice: PrintChoice, ditherChecked: bool, rotateChecked: bool, targetWidthMm: nat)
    ensures ProPrintCall(choice, ditherChecked, rotateChecked, targetWidthMm).Ok?
    ensures var call := ProPrintCall(choice, ditherChecked, rotateChecked, targetWidthMm).value;
      call.rotate == IntArg(EffectiveRotation(rotateChecked, targetWidthMm)) &&
      call.dither == BoolArg(Dither(choice, ditherChecked)) &&
      call.image == Picture(if choice == Original then "grayscale_image" else "display_image")
  {
    var rotate := IntArg(EffectiveRotation(rotateChecked, targetWidthMm));
    ImageThenKeywords(Picture("grayscale_image"), rotate, BoolArg(ditherChecked));
    ImageThenKeywords(Picture("display_image"), rotate, BoolArg(false));
  }

  /** The URL branch, taken only when no file is uploaded and the URL box is not empty. */
  function ProUrlImage(url: string, get: string -> Response): (r: Fetched)
    ensures r.Image? ==> r.url == url
  {
    if url == "" then NoImage("")
    else if !StartsWith(url, "https://") then NoImage(HttpsOnly)
    else
      match get(url)
      case RequestFailed(message) => NoImage("Error fetching image: " + message)
      case Reply(contentType, decodeError) =>
        if !StartsWith(contentType.GetOr(""), "image/") then NoImage(NotAnImage)
        else if decodeError.Some? then NoImage("Error processing image: " + decodeError.value)
        else Image(url)
  }

  /** A non-HTTPS URL is refused without a request, and a non-image content type gives no image. */
  lemma ProUrlGuards(url: string, get1: string -> Response, get2: string -> Response)
    ensures !StartsWith(url, "https://") ==> ProUrlImage(url, get1) == ProUrlImage(url, get2)
    ensures !StartsWith(url, "https://") ==> ProUrlImage(url, get1).NoImage?
    ensures (StartsWith(url, "https://") && get1(url).Reply? &&
             !StartsWith(get1(url).contentType.GetOr(""), "image/")) ==>
      ProUrlImage(url, get1) == NoImage(NotAnImage)
  {
  }

  /** Both tabs accept exactly the same URLs and responses; only the messages differ. */
  lemma ProUrlAgreesWithSticker(url: string, get: string -> Response)
    requires url != ""
    ensures ProUrlImage(url, get) == FetchImageFromUrl(url, get) ||
      (ProUrlImage(url, get).NoImage? && FetchImageFromUrl(url, get).NoImage?)
    ensures ProUrlImage(url, get).Image? <==> FetchImageFromUrl(url, get).Image?
  {
  }
}
