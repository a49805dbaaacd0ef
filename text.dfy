/**
 * The handful of Python `str` operations the application relies on:
 * `find`/`in`, `split`, `strip`, `lower`, `startswith`/`endswith`,
 * `int(s)` and `int(s, 16)`, and `str(n)` for naturals.
 */
module Text {
  import opened Wrappers

  /** True when `sub` occurs in `s` starting at index `k`. */
  predicate OccursAt(s: string, sub: string, k: int)
  {
    0 <= k && k + |sub| <= |s| && s[k..k + |sub|] == sub
  }

  /** Index of the first occurrence of `sub` in `s`, as `str.find` (None for -1). */
  function IndexOf(s: string, sub: string): (r: Option<nat>)
    ensures r.Some? ==> r.value + |sub| <= |s|
    decreases |s|
  {
    if |s| < |sub| then None
    else if s[..|sub|] == sub then Some(0)
    else
      match IndexOf(s[1..], sub)
      case None => None
      case Some(i) => Some(i + 1)
  }

  /** `IndexOf` finds an occurrence, and it is the first one; None means there is none. */
  lemma {:induction false} IndexOfSpec(s: string, sub: string)
    ensures IndexOf(s, sub).Some? ==> OccursAt(s, sub, IndexOf(s, sub).value)
    ensures IndexOf(s, sub).Some? ==> forall k :: 0 <= k < IndexOf(s, sub).value ==> !OccursAt(s, sub, k)
    ensures IndexOf(s, sub).None? ==> forall k :: !OccursAt(s, sub, k)
    decreases |s|
  {
    if |s| >= |sub| && s[..|sub|] != sub {
      IndexOfSpec(s[1..], sub);
      assert forall k :: 0 < k && OccursAt(s, sub, k) ==> OccursAt(s[1..], sub, k - 1) by {
        forall k | 0 < k && OccursAt(s, sub, k)
          ensures OccursAt(s[1..], sub, k - 1)
        {
          assert s[1..][k - 1..k - 1 + |sub|] == s[k..k + |sub|];
        }
      }
      match IndexOf(s[1..], sub) {
        case None =>
        case Some(i) =>
          assert s[1..][i..i + |sub|] == s[i + 1..i + 1 + |sub|];
      }
    }
  }

  /** Python's `sub in s`. */
  predicate Contains(s: string, sub: string)
  {
    IndexOf(s, sub).Some?
  }

  predicate StartsWith(s: string, prefix: string)
  {
    |prefix| <= |s| && s[..|prefix|] == prefix
  }

  predicate EndsWith(s: string, suffix: string)
  {
    |suffix| <= |s| && s[|s| - |suffix|..] == suffix
  }

  /** `sep.join(parts)`. */
  function Join(parts: seq<string>, sep: string): string
    requires |parts| >= 1
  {
    if |parts| == 1 then parts[0] else parts[0] + sep + Join(parts[1..], sep)
  }

  /** `s.split(sep)` for a non-empty separator: cut at every non-overlapping occurrence, left to right. */
  function Split(s: string, sep: string): (parts: seq<string>)
    requires |sep| > 0
    ensures |parts| >= 1
    ensures |parts| >= 2 <==> Contains(s, sep)
    decreases |s|
  {
    match IndexOf(s, sep)
    case None => [s]
    case Some(i) => [s[..i]] + Split(s[i + |sep|..], sep)
  }

  /** Joining the parts with the separator gives back `s`, and no part contains the separator. */
  lemma {:induction false} SplitSpec(s: string, sep: string)
    requires |sep| > 0
    ensures Join(Split(s, sep), sep) == s
    ensures forall i :: 0 <= i < |Split(s, sep)| ==> !Contains(Split(s, sep)[i], sep)
    decreases |s|
  {
    IndexOfSpec(s, sep);
    match IndexOf(s, sep) {
      case None =>
      case Some(i) =>
        SplitSpec(s[i + |sep|..], sep);
        assert !Contains(s[..i], sep) by {
          if Contains(s[..i], sep) {
            IndexOfSpec(s[..i], sep);
            var k := IndexOf(s[..i], sep).value;
            assert s[..i][k..k + |sep|] == s[k..k + |sep|];
            assert OccursAt(s, sep, k);
          }
        }
        assert s == s[..i] + sep + s[i + |sep|..];
    }
  }

  /** The last element of a non-empty sequence, Python's `xs[-1]`. */
  function Last<T>(xs: seq<T>): T
    requires |xs| > 0
  {
    xs[|xs| - 1]
  }

  /** `os.path.basename` on a POSIX path: the text after the last `/`. */
  function Basename(path: string): (name: string)
  {
    Last(Split(path, "/"))
  }

  /** The base name is a suffix of the path and holds no `/`. */
  lemma BasenameSpec(path: string)
    ensures !Contains(Basename(path), "/")
    ensures EndsWith(path, Basename(path))
  {
    LastPartSpec(path, "/");
  }

  /** `s.split(sep)[-1]` is a suffix of `s` that holds no `sep`. */
  lemma LastPartSpec(s: string, sep: string)
    requires |sep| > 0
    ensures !Contains(Last(Split(s, sep)), sep)
    ensures EndsWith(s, Last(Split(s, sep)))
  {
    SplitSpec(s, sep);
    JoinEndsWithLast(Split(s, sep), sep);
  }

  lemma {:induction false} JoinEndsWithLast(parts: seq<string>, sep: string)
    requires |parts| >= 1
    ensures EndsWith(Join(parts, sep), Last(parts))
  {
    if |parts| > 1 {
      JoinEndsWithLast(parts[1..], sep);
      var j := Join(parts[1..], sep);
      assert Join(parts, sep) == (parts[0] + sep) + j;
      assert Last(parts[1..]) == Last(parts);
    }
  }

  /** An occurrence anywhere makes `sub in s` true. */
  lemma OccursContains(s: string, sub: string, k: int)
    requires OccursAt(s, sub, k)
    ensures Contains(s, sub)
  {
    IndexOfSpec(s, sub);
  }

  /** A character occurs in `s` exactly when the one-character string does. */
  lemma CharContains(s: string, c: char)
    ensures Contains(s, [c]) <==> c in s
  {
    IndexOfSpec(s, [c]);
    if c in s {
      var k :| 0 <= k < |s| && s[k] == c;
      assert s[k..k + 1] == [c];
      assert OccursAt(s, [c], k);
    }
    if Contains(s, [c]) {
      var k := IndexOf(s, [c]).value;
      assert s[k..k + 1][0] == s[k];
    }
  }

  /** A string cannot contain `sub` when it lacks the first character of `sub`. */
  lemma MissingFirstChar(s: string, sub: string)
    requires |sub| > 0 && sub[0] !in s
    ensures !Contains(s, sub)
  {
    IndexOfSpec(s, sub);
  }

  /**
   * Splitting on a single character undoes joining with it, provided no part
   * contains the character: `sep.join(parts).split(sep) == parts`.
   */
  lemma {:induction false} SplitJoin(parts: seq<string>, c: char)
    requires |parts| >= 1
    requires forall i :: 0 <= i < |parts| ==> c !in parts[i]
    ensures Split(Join(parts, [c]), [c]) == parts
  {
    var s := Join(parts, [c]);
    IndexOfSpec(s, [c]);
    if |parts| == 1 {
      CharContains(s, c);
    } else {
      var p := parts[0];
      var rest := Join(parts[1..], [c]);
      assert s == p + [c] + rest;
      assert OccursAt(s, [c], |p|) by { assert s[|p|..|p| + 1] == [c]; }
      forall k | 0 <= k < |p|
        ensures !OccursAt(s, [c], k)
      {
        assert s[k] == p[k];
      }
      var i := IndexOf(s, [c]).value;
      assert i == |p|;
      assert s[..i] == p;
      assert s[i + 1..] == rest;
      SplitJoin(parts[1..], c);
      assert Split(s, [c]) == [p] + Split(rest, [c]);
    }
  }

  /** Characters removed by Python's argument-less `str.strip` (ASCII part). */
  predicate IsSpace(c: char)
  {
    c == ' ' || c == '\t' || c == '\n' || c == '\r' || c == '\U{0B}' || c == '\U{0C}'
    || ('\U{1C}' <= c <= '\U{1F}')
  }

  /** Number of whitespace characters at the front of `s`. */
  function LeadingSpaces(s: string): (n: nat)
    ensures n <= |s|
    ensures forall k :: 0 <= k < n ==> IsSpace(s[k])
    ensures n < |s| ==> !IsSpace(s[n])
    decreases |s|
  {
    if |s| > 0 && IsSpace(s[0]) then
      var m := LeadingSpaces(s[1..]);
      assert forall k :: 1 <= k < m + 1 ==> s[k] == s[1..][k - 1];
      m + 1
    else 0
  }

  /** Number of whitespace characters at the back of `s`. */
  function TrailingSpaces(s: string): (n: nat)
    ensures n <= |s|
    ensures forall k :: |s| - n <= k < |s| ==> IsSpace(s[k])
    ensures n < |s| ==> !IsSpace(s[|s| - n - 1])
    decreases |s|
  {
    if |s| > 0 && IsSpace(s[|s| - 1]) then TrailingSpaces(s[..|s| - 1]) + 1 else 0
  }

  /** `s.strip()`. */
  function Strip(s: string): (r: string)
    ensures |r| <= |s|
  {
    var a := LeadingSpaces(s);
    s[a..|s| - TrailingSpaces(s[a..])]
  }

  /**
   * The stripped text is the middle slice of `s` that neither starts nor ends
   * with whitespace, everything cut away on either side being whitespace.
   */
  lemma StripSpec(s: string)
    ensures var r, a := Strip(s), LeadingSpaces(s);
            && a + |r| <= |s|
            && r == s[a..a + |r|]
            && (forall k :: 0 <= k < a ==> IsSpace(s[k]))
            && (forall k :: a + |r| <= k < |s| ==> IsSpace(s[k]))
            && (|r| > 0 ==> !IsSpace(r[0]) && !IsSpace(r[|r| - 1]))
  {
    StripTail(s);
    StripEnds(s);
  }

  /** What `Strip` cuts from the back of `s` is whitespace. */
  lemma StripTail(s: string)
    ensures var r, a := Strip(s), LeadingSpaces(s);
            && a + |r| <= |s| && r == s[a..a + |r|]
            && (forall k :: a + |r| <= k < |s| ==> IsSpace(s[k]))
  {
    var a := LeadingSpaces(s);
    var t := s[a..];
    var b := TrailingSpaces(t);
    var r := Strip(s);
    assert r == s[a..|s| - b];
    assert a + |r| == |s| - b;
    forall k | |s| - b <= k < |s|
      ensures IsSpace(s[k])
    {
      assert s[k] == t[k - a];
    }
  }

  /** The stripped text neither starts nor ends with whitespace. */
  lemma StripEnds(s: string)
    ensures var r := Strip(s);
            |r| > 0 ==> !IsSpace(r[0]) && !IsSpace(r[|r| - 1])
  {
    var a := LeadingSpaces(s);
    var t := s[a..];
    var b := TrailingSpaces(t);
    var r := Strip(s);
    if |r| > 0 {
      assert r[0] == t[0] == s[a];
      assert r[|r| - 1] == t[|t| - b - 1];
    }
  }

  function LowerChar(c: char): char
  {
    if 'A' <= c <= 'Z' then (c as int + 32) as char else c
  }

  /** `s.lower()` restricted to ASCII letters. */
  function Lower(s: string): (r: string)
    ensures |r| == |s|
    ensures forall k :: 0 <= k < |s| ==> r[k] == LowerChar(s[k])
  {
    seq(|s|, k requires 0 <= k < |s| => LowerChar(s[k]))
  }

  predicate IsDigit(c: char)
  {
    '0' <= c <= '9'
  }

  function DigitValue(c: char): nat
    requires IsDigit(c)
  {
    c as int - '0' as int
  }

  /** The value of a string of decimal digits, read most significant first. */
  function DecimalValue(s: string): nat
    requires forall k :: 0 <= k < |s| ==> IsDigit(s[k])
  {
    if |s| == 0 then 0 else DecimalValue(s[..|s| - 1]) * 10 + DigitValue(s[|s| - 1])
  }

  /** `int(s)` for strings of decimal digits; None stands for `ValueError`. */
  function ParseDecimal(s: string): (r: Option<nat>)
    ensures r.Some? <==> |s| > 0 && forall k :: 0 <= k < |s| ==> IsDigit(s[k])
  {
    if |s| > 0 && forall k :: 0 <= k < |s| ==> IsDigit(s[k]) then Some(DecimalValue(s)) else None
  }

  function DigitChar(d: nat): (c: char)
    requires d < 10
    ensures IsDigit(c) && DigitValue(c) == d
  {
    ('0' as int + d) as char
  }

  /** `str(n)` for a natural number. */
  function NatToString(n: nat): (s: string)
    ensures |s| > 0
    ensures forall k :: 0 <= k < |s| ==> IsDigit(s[k])
  {
    if n < 10 then [DigitChar(n)] else NatToString(n / 10) + [DigitChar(n % 10)]
  }

  /** Reading back what `str(n)` printed gives `n`: `int(str(n)) == n`. */
  lemma {:induction false} ParseNatToString(n: nat)
    ensures ParseDecimal(NatToString(n)) == Some(n)
  {
    var s := NatToString(n);
    if n >= 10 {
      ParseNatToString(n / 10);
      assert s[..|s| - 1] == NatToString(n / 10);
      assert DecimalValue(s) == DecimalValue(NatToString(n / 10)) * 10 + n % 10;
    }
  }

  /** Different naturals print differently. */
  lemma NatToStringInjective(m: nat, n: nat)
    ensures NatToString(m) == NatToString(n) ==> m == n
  {
    ParseNatToString(m);
    ParseNatToString(n);
  }

  predicate IsHexDigit(c: char)
  {
    IsDigit(c) || ('a' <= c <= 'f') || ('A' <= c <= 'F')
  }

  function HexDigitValue(c: char): (v: nat)
    requires IsHexDigit(c)
    ensures v < 16
  {
    if IsDigit(c) then DigitValue(c)
    else if 'a' <= c <= 'f' then c as int - 'a' as int + 10
    else c as int - 'A' as int + 10
  }

  function HexValue(s: string): nat
    requires forall k :: 0 <= k < |s| ==> IsHexDigit(s[k])
  {
    if |s| == 0 then 0 else HexValue(s[..|s| - 1]) * 16 + HexDigitValue(s[|s| - 1])
  }

  predicate AllHex(s: string)
  {
    |s| > 0 && forall k :: 0 <= k < |s| ==> IsHexDigit(s[k])
  }

  /**
   * The digit part of `int(s, 16)`: hex digits, with single underscores
   * between two of them. Gives the digits with the underscores dropped, or
   * None when the part is malformed; `afterDigit` says whether a digit was
   * just read, which is what allows an underscore or the end.
   */
  function HexRun(d: string, afterDigit: bool): (r: Option<string>)
    ensures r.Some? ==> forall k :: 0 <= k < |r.value| ==> IsHexDigit(r.value[k])
    decreases |d|
  {
    if |d| == 0 then (if afterDigit then Some("") else None)
    else if IsHexDigit(d[0]) then
      match HexRun(d[1..], true)
      case None => None
      case Some(rest) =>
        var r := [d[0]] + rest;
        assert forall k :: 1 <= k < |r| ==> r[k] == rest[k - 1];
        Some(r)
    else if d[0] == '_' && afterDigit then HexRun(d[1..], false)
    else None
  }

  /** The sign `int()` accepts in front of the digits. */
  predicate Negative(t: string)
  {
    |t| > 0 && t[0] == '-'
  }

  function Unsigned(t: string): string
  {
    if |t| > 0 && (t[0] == '+' || t[0] == '-') then t[1..] else t
  }

  /** What follows a `0x`/`0X` prefix and the one underscore allowed right after it, when there is a prefix. */
  function HexBody(u: string): string
  {
    if |u| >= 2 && u[0] == '0' && (u[1] == 'x' || u[1] == 'X') then
      if |u| >= 3 && u[2] == '_' then u[3..] else u[2..]
    else u
  }

  /** `int(t, 16)` of an already stripped `t`. */
  function SignedHex(t: string): Option<int>
  {
    match HexRun(HexBody(Unsigned(t)), false)
    case None => None
    case Some(digits) =>
      var v := HexValue(digits);
      Some(if Negative(t) then -(v as int) else v)
  }

  /**
   * `int(s, 16)`: surrounding whitespace is ignored, then an optional sign,
   * an optional `0x`/`0X` prefix, and hex digits in either case with single
   * underscores between them. None stands for the `ValueError`.
   */
  function ParseHex(s: string): Option<int>
  {
    SignedHex(Strip(s))
  }

  /** A string that neither starts nor ends with whitespace is its own strip. */
  lemma StripUnspaced(s: string)
    requires |s| > 0 ==> !IsSpace(s[0]) && !IsSpace(s[|s| - 1])
    ensures Strip(s) == s
  {
    var a := LeadingSpaces(s);
    assert a == 0;
    assert TrailingSpaces(s) == 0;
  }

  /** A run of hex digits is read as itself, once a digit has been read or when it is not empty. */
  lemma {:induction false} HexRunDigits(s: string, afterDigit: bool)
    requires forall k :: 0 <= k < |s| ==> IsHexDigit(s[k])
    requires |s| > 0 || afterDigit
    ensures HexRun(s, afterDigit) == Some(s)
    decreases |s|
  {
    if |s| > 0 {
      HexRunDigits(s[1..], true);
      assert s == [s[0]] + s[1..];
    }
  }

  /** One underscore between two runs of hex digits is dropped. */
  lemma {:induction false} HexRunUnderscore(a: string, b: string, afterDigit: bool)
    requires forall k :: 0 <= k < |a| ==> IsHexDigit(a[k])
    requires |a| > 0 || afterDigit
    requires AllHex(b)
    ensures HexRun(a + "_" + b, afterDigit) == Some(a + b)
    decreases |a|
  {
    var d := a + "_" + b;
    if |a| == 0 {
      assert d == "_" + b && d[0] == '_' && d[1..] == b;
      assert !IsHexDigit(d[0]);
      HexRunDigits(b, false);
      assert a + b == b;
    } else {
      assert d[0] == a[0] && d[1..] == a[1..] + "_" + b;
      HexRunUnderscore(a[1..], b, true);
      assert a + b == [a[0]] + (a[1..] + b);
    }
  }

  /** Well-formed digits after an optional sign give their value, negated after `-`. */
  lemma SignedHexOf(t: string, digits: string)
    requires HexRun(HexBody(Unsigned(t)), false) == Some(digits)
    ensures SignedHex(t) == Some(if Negative(t) then -(HexValue(digits) as int) else HexValue(digits))
  {
  }

  /** Hex digits carry no prefix to drop. */
  lemma HexBodyPlain(s: string)
    requires AllHex(s)
    ensures HexBody(s) == s
  {
    if |s| >= 2 {
      assert IsHexDigit(s[1]);
    }
  }

  /** A hex digit is not whitespace. */
  lemma HexNotSpace(c: char)
    requires IsHexDigit(c)
    ensures !IsSpace(c)
  {
  }

  /** Without surrounding whitespace, `int(t, 16)` reads `t` as it is. */
  lemma ParseHexUnspaced(t: string, v: Option<int>)
    requires |t| > 0 ==> !IsSpace(t[0]) && !IsSpace(t[|t| - 1])
    requires SignedHex(t) == v
    ensures ParseHex(t) == v
  {
    StripUnspaced(t);
  }

  /** Plain hex digits read as their value. */
  lemma ParseHexPlain(s: string)
    requires AllHex(s)
    ensures ParseHex(s) == Some(HexValue(s))
  {
    HexRunDigits(s, false);
    HexBodyPlain(s);
    assert Unsigned(s) == s;
    SignedHexOf(s, s);
    HexNotSpace(s[0]);
    HexNotSpace(s[|s| - 1]);
    ParseHexUnspaced(s, SignedHex(s));
  }

  /** A `+` in front of hex digits changes nothing. */
  lemma ParseHexPlus(s: string)
    requires AllHex(s)
    ensures ParseHex("+" + s) == Some(HexValue(s))
  {
    HexRunDigits(s, false);
    HexBodyPlain(s);
    var plus := "+" + s;
    assert plus[0] == '+' && plus[1..] == s && plus[|plus| - 1] == s[|s| - 1];
    assert Unsigned(plus) == s;
    SignedHexOf(plus, s);
    HexNotSpace(s[|s| - 1]);
    ParseHexUnspaced(plus, SignedHex(plus));
  }

  /** A `-` in front of hex digits negates their value. */
  lemma ParseHexMinus(s: string)
    requires AllHex(s)
    ensures ParseHex("-" + s) == Some(-(HexValue(s) as int))
  {
    HexRunDigits(s, false);
    HexBodyPlain(s);
    var minus := "-" + s;
    assert minus[0] == '-' && minus[1..] == s && minus[|minus| - 1] == s[|s| - 1];
    assert Unsigned(minus) == s && Negative(minus);
    SignedHexOf(minus, s);
    assert SignedHex(minus) == Some(-(HexValue(s) as int));
    HexNotSpace(s[|s| - 1]);
    ParseHexUnspaced(minus, SignedHex(minus));
  }

  /** A `0x` prefix in front of hex digits changes nothing. */
  lemma ParseHexPrefix(s: string)
    requires AllHex(s)
    ensures ParseHex("0x" + s) == Some(HexValue(s))
  {
    HexRunDigits(s, false);
    var hex := "0x" + s;
    assert hex[0] == '0' && hex[1] == 'x' && hex[2] == s[0] && hex[2..] == s;
    assert hex[|hex| - 1] == s[|s| - 1];
    assert Unsigned(hex) == hex && HexBody(hex) == s;
    SignedHexOf(hex, s);
    HexNotSpace(s[|s| - 1]);
    ParseHexUnspaced(hex, SignedHex(hex));
  }

  /** An underscore between two runs of hex digits is ignored. */
  lemma ParseHexUnderscore(a: string, b: string)
    requires AllHex(a) && AllHex(b)
    ensures ParseHex(a + "_" + b) == Some(HexValue(a + b))
  {
    var d := a + "_" + b;
    HexRunUnderscore(a, b, false);
    assert d[0] == a[0] && d[|d| - 1] == b[|b| - 1];
    assert d[1] == (if |a| >= 2 then a[1] else '_');
    assert HexBody(d) == d && Unsigned(d) == d && !Negative(d);
    SignedHexOf(d, a + b);
    HexNotSpace(a[0]);
    HexNotSpace(b[|b| - 1]);
    ParseHexUnspaced(d, SignedHex(d));
  }

  /** A string without surrounding whitespace whose digit part is malformed is refused. */
  lemma ParseHexMalformed(t: string)
    requires |t| > 0 ==> !IsSpace(t[0]) && !IsSpace(t[|t| - 1])
    requires HexRun(HexBody(Unsigned(t)), false).None?
    ensures ParseHex(t).None?
  {
    ParseHexUnspaced(t, SignedHex(t));
  }

  /** Underscores at either end, or two in a row, are refused. */
  lemma ParseHexMisplacedUnderscores()
    ensures ParseHex("_1").None? && ParseHex("1_").None? && ParseHex("1__2").None?
  {
    ParseHexMalformed("_1");
    ParseHexMalformed("1_");
    ParseHexMalformed("1__2");
  }

  /** A bare prefix, an empty string or a space after the sign are refused. */
  lemma ParseHexNoDigits()
    ensures ParseHex("0x").None? && ParseHex("").None? && ParseHex("+ 1").None?
  {
    ParseHexMalformed("0x");
    ParseHexMalformed("");
    assert Unsigned("+ 1") == " 1";
    ParseHexMalformed("+ 1");
  }

  /** Surrounding whitespace is stripped before the digits are read. */
  lemma StripSurrounding(s: string)
    requires AllHex(s)
    ensures Strip(" " + s + "\n") == s
  {
    var t := " " + s + "\n";
    HexNotSpace(s[0]);
    HexNotSpace(s[|s| - 1]);
    assert t[1..] == s + "\n" && t[1] == s[0];
    assert LeadingSpaces(t) == 1;
    var u := s + "\n";
    assert u[..|s|] == s && u[|s| - 1] == s[|s| - 1];
    assert TrailingSpaces(u) == 1;
  }

  /** Whitespace around the number is ignored. */
  lemma ParseHexSpaces(s: string)
    requires AllHex(s)
    ensures ParseHex(" " + s + "\n") == Some(HexValue(s))
  {
    StripSurrounding(s);
    StripUnspaced(s);
    ParseHexPlain(s);
  }
}
