/**
 * How Python binds the arguments of a call to the application's print
 * wrapper `print_image(image, rotate=0, dither=False)` (printit.py), which
 * is what every tab calls to print. Only the binding is modelled. The
 * wrapper's body, which resolves the label type and then calls
 * `print_image_util`, a name that nothing in the program defines or
 * imports, is not.
 */
module PrintCalls {
  import opened Wrappers
  import opened Text

  /** The values the tabs pass: an image held in a named variable, a number, a flag, or the printer list. */
  datatype Arg = Picture(name: string) | IntArg(i: int) | BoolArg(b: bool) | PrinterList

  /** The parameters after binding. */
  datatype PrintCall = PrintCall(image: Arg, rotate: Arg, dither: Arg)

  /** The wrapper's parameter names, in positional order. */
  const Params: seq<string> := ["image", "rotate", "dither"]

  /** Positional arguments fill the parameters from the left. */
  function Positional(args: seq<Arg>): (bound: map<string, Arg>)
    requires |args| <= |Params|
    ensures forall i :: 0 <= i < |args| ==> Params[i] in bound && bound[Params[i]] == args[i]
    ensures forall name :: name in bound ==> name in Params[..|args|]
  {
    if |args| == 0 then map[]
    else Positional(args[..|args| - 1])[Params[|args| - 1] := args[|args| - 1]]
  }

  /** Keyword arguments, left to right: an unknown name or a parameter already bound is a TypeError. */
  function BindKeywords(bound: map<string, Arg>, keywords: seq<(string, Arg)>): Result<map<string, Arg>, string>
    decreases |keywords|
  {
    if |keywords| == 0 then Ok(bound)
    else
      var name := keywords[0].0;
      if name !in Params then Err("print_image() got an unexpected keyword argument '" + name + "'")
      else if name in bound then Err("print_image() got multiple values for argument '" + name + "'")
      else BindKeywords(bound[name := keywords[0].1], keywords[1..])
  }

  /**
   * A call `print_image(*positional, **keywords)`: the bound parameters, or
   * the TypeError message. As the interpreter does, the positional arguments
   * that fit are bound first, then the keywords, and only then are too many
   * positional arguments or a missing `image` reported.
   */
  function Bind(positional: seq<Arg>, keywords: seq<(string, Arg)>): Result<PrintCall, string>
  {
    var fitting := if |positional| <= |Params| then positional else positional[..|Params|];
    match BindKeywords(Positional(fitting), keywords)
    case Err(e) => Err(e)
    case Ok(b) =>
      if |positional| > |Params| then
        Err("print_image() takes from 1 to 3 positional arguments but " + NatToString(|positional|) + " were given")
      else if "image" !in b then Err("print_image() missing 1 required positional argument: 'image'")
      else Ok(PrintCall(b["image"],
                        if "rotate" in b then b["rotate"] else IntArg(0),
                        if "dither" in b then b["dither"] else BoolArg(false)))
  }

  /** A keyword naming a parameter that is already bound always makes the call fail. */
  lemma {:induction false} KeywordAfterBoundFails(bound: map<string, Arg>, keywords: seq<(string, Arg)>, j: nat)
    requires j < |keywords| && keywords[j].0 in bound
    ensures BindKeywords(bound, keywords).Err?
    decreases j
  {
    if j > 0 && keywords[0].0 in Params && keywords[0].0 !in bound {
      var next := bound[keywords[0].0 := keywords[0].1];
      assert keywords[1..][j - 1] == keywords[j];
      KeywordAfterBoundFails(next, keywords[1..], j - 1);
    }
  }

  /** So passing a parameter both by position and by keyword is a TypeError, whatever the values. */
  lemma PositionalAndKeywordFails(positional: seq<Arg>, keywords: seq<(string, Arg)>, i: nat, j: nat)
    requires i < |positional| && i < |Params| && j < |keywords| && keywords[j].0 == Params[i]
    ensures Bind(positional, keywords).Err?
  {
    var fitting := if |positional| <= |Params| then positional else positional[..|Params|];
    assert i < |fitting|;
    KeywordAfterBoundFails(Positional(fitting), keywords, j);
  }

  /** A wrong keyword is reported before too many positional arguments are. */
  lemma KeywordErrorFirst(a: Arg, b: Arg, c: Arg, d: Arg, x: Arg)
    ensures Bind([a, b, c, d], [("color", x)]) == Err("print_image() got an unexpected keyword argument 'color'")
  {
    assert [a, b, c, d][..|Params|] == [a, b, c];
    assert "color" != "image" && "color" != "rotate" && "color" != "dither";
    assert "color" !in Params;
    assert BindKeywords(Positional([a, b, c]), [("color", x)])
           == Err("print_image() got an unexpected keyword argument '" + "color" + "'");
    assert "print_image() got an unexpected keyword argument '" + "color" + "'"
           == "print_image() got an unexpected keyword argument 'color'";
  }

  /** With the keywords in order, four positional arguments are reported as too many. */
  lemma TooManyPositional(a: Arg, b: Arg, c: Arg, d: Arg)
    ensures Bind([a, b, c, d], []) == Err("print_image() takes from 1 to 3 positional arguments but 4 were given")
  {
    assert [a, b, c, d][..|Params|] == [a, b, c];
    assert BindKeywords(Positional([a, b, c]), []).Ok?;
    assert NatToString(4) == "4";
    assert "print_image() takes from 1 to 3 positional arguments but " + "4" + " were given"
           == "print_image() takes from 1 to 3 positional arguments but 4 were given";
  }

  /** Distinct known keywords that no positional argument took are all accepted, each under its own name. */
  lemma {:induction false} FreshKeywordsBind(bound: map<string, Arg>, keywords: seq<(string, Arg)>)
    requires forall j :: 0 <= j < |keywords| ==> keywords[j].0 in Params && keywords[j].0 !in bound
    requires forall j, l :: 0 <= j < l < |keywords| ==> keywords[j].0 != keywords[l].0
    ensures BindKeywords(bound, keywords).Ok?
    ensures forall name :: name in bound ==>
      (name in BindKeywords(bound, keywords).value && BindKeywords(bound, keywords).value[name] == bound[name])
    ensures forall j :: 0 <= j < |keywords| ==>
      (keywords[j].0 in BindKeywords(bound, keywords).value &&
       BindKeywords(bound, keywords).value[keywords[j].0] == keywords[j].1)
    decreases |keywords|
  {
    if |keywords| > 0 {
      var next := bound[keywords[0].0 := keywords[0].1];
      FreshKeywordsBind(next, keywords[1..]);
      var r := BindKeywords(next, keywords[1..]);
      assert BindKeywords(bound, keywords) == r;
      forall j | 0 <= j < |keywords|
        ensures keywords[j].0 in r.value && r.value[keywords[j].0] == keywords[j].1
      {
        if j > 0 {
          assert keywords[1..][j - 1] == keywords[j];
        }
      }
    }
  }

  /** The tabs' usual call `print_image(img, rotate=r, dither=d)` binds exactly the three given values. */
  lemma ImageThenKeywords(img: Arg, rotate: Arg, dither: Arg)
    ensures Bind([img], [("rotate", rotate), ("dither", dither)]) == Ok(PrintCall(img, rotate, dither))
  {
    var keywords := [("rotate", rotate), ("dither", dither)];
    FreshKeywordsBind(Positional([img]), keywords);
  }
}
