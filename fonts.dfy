/**
 * `get_fonts` of printit.py: the bundled default font, the other `.ttf`
 * files of `fonts/`, then the `.ttf` files under the platform's font
 * directories, without duplicates and never empty.
 */
module Fonts {
  import opened Wrappers
  import opened Text

  const DefaultFont: string := "fonts/5x5-Tami.ttf"

  /** The system font directories searched on each platform; `user` is `$USER` or "". */
  function FontDirs(system: string, user: string): seq<string>
  {
    if system == "Windows" then ["C:/Windows/Fonts/", "C:/Windows/System32/Fonts/"]
    else if system == "Darwin" then ["/System/Library/Fonts/", "/Library/Fonts/", "/Users/" + user + "/Library/Fonts/"]
    else if system == "Linux" then
      ["/usr/share/fonts/", "/usr/local/share/fonts/", "/home/" + user + "/.fonts/", "/home/" + user + "/.local/share/fonts/"]
    else []
  }

  /** `os.path.join(root, name)` on POSIX. */
  function PathJoin(root: string, name: string): string
  {
    if StartsWith(name, "/") then name
    else if root == "" || EndsWith(root, "/") then root + name
    else root + "/" + name
  }

  /** One `(root, dirs, files)` triple of `os.walk`, without the sub-directory names. */
  datatype WalkEntry = WalkEntry(root: string, files: seq<string>)

  /** A name `fonts/` contributes: ends in `.ttf`, case-sensitively, and is not the default. */
  predicate LocalFont(name: string)
  {
    EndsWith(name, ".ttf") && name != "5x5-Tami.ttf"
  }

  /** The paths contributed by the listing of `fonts/`, in listing order. */
  function LocalFonts(listing: seq<string>): seq<string>
  {
    if listing == [] then []
    else
      var init := LocalFonts(listing[..|listing| - 1]);
      if LocalFont(Last(listing)) then init + ["fonts/" + Last(listing)] else init
  }

  /** The loop over the files of one walked directory: `.ttf` in any case, appended unless already listed. */
  function AddFiles(fonts: seq<string>, root: string, files: seq<string>): seq<string>
  {
    if files == [] then fonts
    else
      var before := AddFiles(fonts, root, files[..|files| - 1]);
      var path := PathJoin(root, Last(files));
      if EndsWith(Lower(Last(files)), ".ttf") && path !in before then before + [path] else before
  }

  /** The loop over the directories `os.walk` visits. */
  function AddWalk(fonts: seq<string>, entries: seq<WalkEntry>): seq<string>
  {
    if entries == [] then fonts
    else AddFiles(AddWalk(fonts, entries[..|entries| - 1]), Last(entries).root, Last(entries).files)
  }

  /** The loop over the system font directories; one that does not exist is passed over. */
  function AddSystemFonts(fonts: seq<string>, dirs: seq<string>, exists_: string -> bool,
                          walk: string -> seq<WalkEntry>): seq<string>
  {
    if dirs == [] then fonts
    else
      var before := AddSystemFonts(fonts, dirs[..|dirs| - 1], exists_, walk);
      if exists_(Last(dirs)) then AddWalk(before, walk(Last(dirs))) else before
  }

  /** The default (if present) and the `fonts/` entries; a listing that raises `OSError` is None. */
  function BaseFonts(defaultExists: bool, listing: Option<seq<string>>): seq<string>
  {
    (if defaultExists then [DefaultFont] else []) + (if listing.Some? then LocalFonts(listing.value) else [])
  }

  /** The list `fonts` before de-duplication. */
  function Candidates(defaultExists: bool, listing: Option<seq<string>>, system: string, user: string,
                      exists_: string -> bool, walk: string -> seq<WalkEntry>): seq<string>
  {
    AddSystemFonts(BaseFonts(defaultExists, listing), FontDirs(system, user), exists_, walk)
  }

  /** Order-preserving de-duplication: each element at its first occurrence. */
  function UniqueFirst(xs: seq<string>): seq<string>
  {
    if xs == [] then []
    else
      var init := UniqueFirst(xs[..|xs| - 1]);
      if Last(xs) in init then init else init + [Last(xs)]
  }

  /** The result of `get_fonts`. */
  function FontList(defaultExists: bool, listing: Option<seq<string>>, system: string, user: string,
                    exists_: string -> bool, walk: string -> seq<WalkEntry>): seq<string>
  {
    var unique := UniqueFirst(Candidates(defaultExists, listing, system, user, exists_, walk));
    if unique == [] then [DefaultFont] else unique
  }

  /**
   * `get_fonts`. Whether the default exists, the listing of `fonts/`, the
   * platform, `$USER`, which directories exist and what `os.walk` yields
   * are inputs.
   */
  method GetFonts(defaultExists: bool, listing: Option<seq<string>>, system: string, user: string,
                  exists_: string -> bool, walk: string -> seq<WalkEntry>) returns (result: seq<string>)
    ensures result == FontList(defaultExists, listing, system, user, exists_, walk)
  {
    var fonts: seq<string> := [];
    if defaultExists {
      fonts := fonts + [DefaultFont];
    }
    if listing.Some? {
      fonts := AppendLocalFonts(fonts, listing.value);
    }
    var dirs := FontDirs(system, user);
    for d := 0 to |dirs|
      invariant fonts == AddSystemFonts(BaseFonts(defaultExists, listing), dirs[..d], exists_, walk)
    {
      assert dirs[..d + 1][..d] == dirs[..d];
      if exists_(dirs[d]) {
        var entries := walk(dirs[d]);
        for e := 0 to |entries|
          invariant fonts == AddWalk(AddSystemFonts(BaseFonts(defaultExists, listing), dirs[..d], exists_, walk), entries[..e])
        {
          assert entries[..e + 1][..e] == entries[..e];
          fonts := AppendWalkFiles(fonts, entries[e].root, entries[e].files);
        }
        assert entries[..|entries|] == entries;
      }
    }
    assert dirs[..|dirs|] == dirs;
    var unique := DedupFonts(fonts);
    if unique == [] {
      result := [DefaultFont];
    } else {
      result := unique;
    }
  }

  /** The loop over the listing of `fonts/`. */
  method AppendLocalFonts(fonts: seq<string>, listing: seq<string>) returns (result: seq<string>)
    ensures result == fonts + LocalFonts(listing)
  {
    result := fonts;
    for i := 0 to |listing|
      invariant result == fonts + LocalFonts(listing[..i])
    {
      assert listing[..i + 1][..i] == listing[..i];
      if EndsWith(listing[i], ".ttf") && listing[i] != "5x5-Tami.ttf" {
        result := result + ["fonts/" + listing[i]];
      }
    }
    assert listing[..|listing|] == listing;
  }

  /** The innermost loop, over the files of one walked directory. */
  method AppendWalkFiles(fonts: seq<string>, root: string, files: seq<string>) returns (result: seq<string>)
    ensures result == AddFiles(fonts, root, files)
  {
    result := fonts;
    for i := 0 to |files|
      invariant result == AddFiles(fonts, root, files[..i])
    {
      assert files[..i + 1][..i] == files[..i];
      if EndsWith(Lower(files[i]), ".ttf") {
        var path := PathJoin(root, files[i]);
        if path !in result {
          result := result + [path];
        }
      }
    }
    assert files[..|files|] == files;
  }

  /** The final loop with the `seen` set. */
  method DedupFonts(fonts: seq<string>) returns (unique: seq<string>)
    ensures unique == UniqueFirst(fonts)
  {
    var seen: set<string> := {};
    unique := [];
    for i := 0 to |fonts|
      invariant unique == UniqueFirst(fonts[..i])
      invariant seen == set x | x in unique
    {
      assert fonts[..i + 1][..i] == fonts[..i];
      if fonts[i] !in seen {
        seen := seen + {fonts[i]};
        unique := unique + [fonts[i]];
      }
    }
    assert fonts[..|fonts|] == fonts;
  }

  // Properties

  predicate Distinct(xs: seq<string>)
  {
    forall i, j :: 0 <= i < j < |xs| ==> xs[i] != xs[j]
  }

  /** De-duplication keeps exactly the elements, once each, and the first element first. */
  lemma {:induction false} UniqueFirstSpec(xs: seq<string>)
    ensures Distinct(UniqueFirst(xs))
    ensures forall x :: x in UniqueFirst(xs) <==> x in xs
    ensures xs != [] ==> UniqueFirst(xs)[0] == xs[0]
  {
    if xs != [] {
      var init := xs[..|xs| - 1];
      UniqueFirstSpec(init);
      assert xs == init + [Last(xs)];
      if init != [] {
        assert init[0] == xs[0];
      }
    }
  }

  /** De-duplicating a list that has no duplicates changes nothing. */
  lemma {:induction false} UniqueFirstOfDistinct(xs: seq<string>)
    requires Distinct(xs)
    ensures UniqueFirst(xs) == xs
  {
    if xs != [] {
      var init := xs[..|xs| - 1];
      UniqueFirstOfDistinct(init);
      UniqueFirstSpec(init);
      assert Last(xs) !in init;
      assert xs == init + [Last(xs)];
    }
  }

  /** The de-duplicated prefix of a list is a prefix of the de-duplicated list: first-occurrence order is kept. */
  lemma {:induction false} UniqueFirstPrefix(xs: seq<string>, k: nat)
    requires k <= |xs|
    ensures |UniqueFirst(xs[..k])| <= |UniqueFirst(xs)|
    ensures UniqueFirst(xs[..k]) == UniqueFirst(xs)[..|UniqueFirst(xs[..k])|]
    decreases |xs|
  {
    if k < |xs| {
      var init := xs[..|xs| - 1];
      assert xs[..k] == init[..k];
      UniqueFirstPrefix(init, k);
    } else {
      assert xs[..k] == xs;
    }
  }

  /**
   * `get_fonts` never returns an empty list or a duplicate; the default
   * comes first when it exists; and its fonts are exactly the candidates,
   * or the default alone when there are none.
   */
  lemma FontListSpec(defaultExists: bool, listing: Option<seq<string>>, system: string, user: string,
                     exists_: string -> bool, walk: string -> seq<WalkEntry>)
    ensures var fonts := FontList(defaultExists, listing, system, user, exists_, walk);
            var candidates := Candidates(defaultExists, listing, system, user, exists_, walk);
            && |fonts| > 0 && Distinct(fonts)
            && (defaultExists ==> fonts[0] == DefaultFont)
            && (candidates != [] ==> forall x :: x in fonts <==> x in candidates)
            && (candidates == [] ==> fonts == [DefaultFont])
  {
    var candidates := Candidates(defaultExists, listing, system, user, exists_, walk);
    UniqueFirstSpec(candidates);
    if defaultExists {
      CandidatesStartWith(BaseFonts(defaultExists, listing), FontDirs(system, user), exists_, walk);
    }
    if candidates != [] {
      assert candidates[0] in UniqueFirst(candidates);
    }
  }

  /** The walk only appends: what was listed before stays, in place. */
  lemma {:induction false} AddFilesExtends(fonts: seq<string>, root: string, files: seq<string>)
    ensures |AddFiles(fonts, root, files)| >= |fonts| && AddFiles(fonts, root, files)[..|fonts|] == fonts
  {
    if files != [] {
      AddFilesExtends(fonts, root, files[..|files| - 1]);
    }
  }

  lemma {:induction false} AddWalkExtends(fonts: seq<string>, entries: seq<WalkEntry>)
    ensures |AddWalk(fonts, entries)| >= |fonts| && AddWalk(fonts, entries)[..|fonts|] == fonts
  {
    if entries != [] {
      var before := AddWalk(fonts, entries[..|entries| - 1]);
      AddWalkExtends(fonts, entries[..|entries| - 1]);
      AddFilesExtends(before, Last(entries).root, Last(entries).files);
      assert AddWalk(fonts, entries)[..|fonts|] == AddWalk(fonts, entries)[..|before|][..|fonts|];
    }
  }

  lemma {:induction false} AddSystemFontsExtends(fonts: seq<string>, dirs: seq<string>, exists_: string -> bool,
                                                 walk: string -> seq<WalkEntry>)
    ensures |AddSystemFonts(fonts, dirs, exists_, walk)| >= |fonts|
    ensures AddSystemFonts(fonts, dirs, exists_, walk)[..|fonts|] == fonts
  {
    if dirs != [] {
      var before := AddSystemFonts(fonts, dirs[..|dirs| - 1], exists_, walk);
      AddSystemFontsExtends(fonts, dirs[..|dirs| - 1], exists_, walk);
      if exists_(Last(dirs)) {
        AddWalkExtends(before, walk(Last(dirs)));
        assert AddSystemFonts(fonts, dirs, exists_, walk)[..|fonts|]
               == AddSystemFonts(fonts, dirs, exists_, walk)[..|before|][..|fonts|];
      }
    }
  }

  lemma CandidatesStartWith(base: seq<string>, dirs: seq<string>, exists_: string -> bool, walk: string -> seq<WalkEntry>)
    requires |base| > 0
    ensures |AddSystemFonts(base, dirs, exists_, walk)| > 0
    ensures AddSystemFonts(base, dirs, exists_, walk)[0] == base[0]
  {
    AddSystemFontsExtends(base, dirs, exists_, walk);
    assert AddSystemFonts(base, dirs, exists_, walk)[..|base|][0] == base[0];
  }

  /** A walked directory adds no path already listed and no path twice. */
  lemma {:induction false} AddFilesDistinct(fonts: seq<string>, root: string, files: seq<string>)
    requires Distinct(fonts)
    ensures Distinct(AddFiles(fonts, root, files))
  {
    if files != [] {
      AddFilesDistinct(fonts, root, files[..|files| - 1]);
    }
  }

  /** `p` is the joined path of a `.ttf` file, in any letter case, among `files`. */
  predicate TtfFrom(p: string, root: string, files: seq<string>)
  {
    exists f :: f in files && EndsWith(Lower(f), ".ttf") && p == PathJoin(root, f)
  }

  /** Every path a walked directory adds is a `.ttf` file, in any letter case. */
  lemma {:induction false} AddFilesTtf(fonts: seq<string>, root: string, files: seq<string>)
    ensures forall k :: |fonts| <= k < |AddFiles(fonts, root, files)| ==> TtfFrom(AddFiles(fonts, root, files)[k], root, files)
  {
    if files != [] {
      var init := files[..|files| - 1];
      AddFilesTtf(fonts, root, init);
      AddFilesExtends(fonts, root, init);
      AddFilesExtends(fonts, root, files);
      var before := AddFiles(fonts, root, init);
      var result := AddFiles(fonts, root, files);
      forall k | |fonts| <= k < |result|
        ensures TtfFrom(result[k], root, files)
      {
        if k < |before| {
          var f :| f in init && EndsWith(Lower(f), ".ttf") && before[k] == PathJoin(root, f);
          assert result[k] == before[k];
          assert f in files;
        } else {
          assert result == before + [PathJoin(root, Last(files))];
          assert Last(files) in files && EndsWith(Lower(Last(files)), ".ttf");
        }
      }
    }
  }

  /** `fonts/` contributes exactly `fonts/<name>` for the listed `.ttf` names other than the default. */
  lemma {:induction false} LocalFontsSpec(listing: seq<string>)
    ensures forall p :: p in LocalFonts(listing) <==> exists n :: n in listing && LocalFont(n) && p == "fonts/" + n
  {
    if listing != [] {
      var init := listing[..|listing| - 1];
      LocalFontsSpec(init);
      assert listing == init + [Last(listing)];
    }
  }
}
