/**
 * The Sticker tab (tabs/sticker.py): fetch an image by URL, pick rotation
 * and dithering, and print. The image decoding and the request itself are
 * given to the model as a response value.
 */
module Sticker {
  import opened Wrappers
  import opened Text
  import opened PrintCalls

  /** What `requests.get(url)` gave: an exception (HTTP error status included), or a response. */
  datatype Response =
    | RequestFailed(message: string)
    | Reply(contentType: Option<string>, decodeError: Option<string>)

  /** A fetched image, or no image and the error shown to the user. */
  datatype Fetched = Image(url: string) | NoImage(error: string)

  const HttpsOnly := "Only HTTPS URLs are allowed for security"
  const NotAnImage := "URL does not point to a valid image"

  /** `fetch_image_from_url`: the URL guard, then the response checks, each failure giving no image. */
  function FetchImageFromUrl(url: string, get: string -> Response): (r: Fetched)
    ensures r.Image? ==> r.url == url
  {
    if !StartsWith(url, "https://") then NoImage(HttpsOnly)
    else
      match get(url)
      case RequestFailed(message) => NoImage("Error fetching image: " + message)
      case Reply(contentType, decodeError) =>
        if !StartsWith(contentType.GetOr(""), "image/") then NoImage(NotAnImage)
        else if decodeError.Some? then NoImage("Error fetching image: " + decodeError.value)
        else Image(url)
  }

  /** A URL that is not HTTPS is refused before any request: the answer does not depend on `get`. */
  lemma NonHttpsNoRequest(url: string, get1: string -> Response, get2: string -> Response)
    requires !StartsWith(url, "https://")
    ensures FetchImageFromUrl(url, get1) == FetchImageFromUrl(url, get2) == NoImage(HttpsOnly)
  {
  }

  /** An image comes back exactly for an HTTPS URL whose response says `image/...` and decodes. */
  lemma FetchImageIff(url: string, get: string -> Response)
    ensures FetchImageFromUrl(url, get).Image? <==>
      StartsWith(url, "https://") && get(url).Reply? &&
      StartsWith(get(url).contentType.GetOr(""), "image/") && get(url).decodeError.None?
  {
  }

  /** A response without an image content type, or without the header, gives no image. */
  lemma ContentTypeChecked(url: string, get: string -> Response)
    requires StartsWith(url, "https://") && get(url).Reply?
    requires !StartsWith(get(url).contentType.GetOr(""), "image/")
    ensures FetchImageFromUrl(url, get) == NoImage(NotAnImage)
  {
  }

  /** The print button's caption. */
  function ButtonLabel(rotate: bool, dither: bool): string
  {
    "Print " + (if rotate then "Rotated " else "") + (if dither then "Dithered " else "") + "Image"
  }

  /** The caption built word by word, as each of the three branches does. */
  method ButtonText(rotate: bool, dither: bool) returns (text: string)
    ensures text == ButtonLabel(rotate, dither)
  {
    text := "Print ";
    if rotate {
      text := text + "Rotated ";
    }
    if dither {
      text := text + "Dithered ";
    }
    text := text + "Image";
  }

  /** The caption starts with "Print ", ends with "Image", and tells all four settings apart. */
  lemma ButtonLabelSpec(r1: bool, d1: bool, r2: bool, d2: bool)
    ensures StartsWith(ButtonLabel(r1, d1), "Print ") && EndsWith(ButtonLabel(r1, d1), "Image")
    ensures ButtonLabel(r1, d1) == ButtonLabel(r2, d2) ==> r1 == r2 && d1 == d2
  {
    assert |ButtonLabel(r1, d1)| == 11 + (if r1 then 8 else 0) + (if d1 then 9 else 0);
    assert |ButtonLabel(r2, d2)| == 11 + (if r2 then 8 else 0) + (if d2 then 9 else 0);
  }

  /** `90 if rotate_checkbox else 0`. */
  function RotateValue(rotate: bool): int
  {
    if rotate then 90 else 0
  }

  /** Where the image to print came from. */
  datatype Branch = FromHistory | Uploaded | FromUrl

  function PrintKeywords(rotate: bool, dither: bool): seq<(string, Arg)>
  {
    [("rotate", IntArg(RotateValue(rotate))), ("dither", BoolArg(dither))]
  }

  /** The print call as written: the upload branch also passes the printer list by position. */
  function PrintCallAsWritten(branch: Branch, rotate: bool, dither: bool): Result<PrintCall, string>
  {
    var positional := if branch == Uploaded then [Picture("image_to_process"), PrinterList]
                      else [Picture("image_to_process")];
    Bind(positional, PrintKeywords(rotate, dither))
  }

  /** The print call as intended, the same in all three branches. */
  function PrintCallFor(branch: Branch, rotate: bool, dither: bool): Result<PrintCall, string>
  {
    Bind([Picture("image_to_process")], PrintKeywords(rotate, dither))
  }

  /** As written, printing an uploaded image always fails with a TypeError, whatever the options. */
  lemma UploadPrintFails(rotate: bool, dither: bool)
    ensures PrintCallAsWritten(Uploaded, rotate, dither) ==
      Err("print_image() got multiple values for argument 'rotate'")
    ensures PrintCallAsWritten(FromHistory, rotate, dither) == PrintCallFor(FromHistory, rotate, dither)
    ensures PrintCallAsWritten(FromUrl, rotate, dither) == PrintCallFor(FromUrl, rotate, dither)
  {
    var bound := Positional([Picture("image_to_process"), PrinterList]);
    assert Params[1] == "rotate" && Params[1] in bound;
    assert Params[1] in Params;
    var keywords := PrintKeywords(rotate, dither);
    assert keywords[0].0 == "rotate";
    assert BindKeywords(bound, keywords) == Err("print_image() got multiple values for argument '" + "rotate" + "'");
    assert "print_image() got multiple values for argument '" + "rotate" + "'" ==
      "print_image() got multiple values for argument 'rotate'";
  }

  /** Every branch prints the image, rotated by 90 exactly when the box is ticked, with the dither flag as ticked. */
  lemma PrintCallSpec(branch: Branch, rotate: bool, dither: bool)
    ensures PrintCallFor(branch, rotate, dither).Ok?
    ensures PrintCallFor(branch, rotate, dither).value.image == Picture("image_to_process")
    ensures PrintCallFor(branch, rotate, dither).value.rotate == IntArg(90) <==> rotate
    ensures PrintCallFor(branch, rotate, dither).value.rotate == IntArg(0) <==> !rotate
    ensures PrintCallFor(branch, rotate, dither).value.dither == BoolArg(dither)
  {
    ImageThenKeywords(Picture("image_to_process"), IntArg(RotateValue(rotate)), BoolArg(dither));
  }
}
