/**
  The parts of Python's string semantics the pipeline relies on, written out:
  str(int), int(str), str.split with a one-character separator, str.strip,
  str.zfill, str.lower (ASCII letters), str.find / str.rfind for one
  character, str.startswith / str.endswith and posixpath.join.
  Strings are sequences of characters; a file read with the latin-1 codec
  has one character per byte.
*/
module Text {
  import opened Base

  // ---------------------------------------------------------------------------
  // Characters

  predicate IsDigit(c: char) { '0' <= c <= '9' }

  predicate AllDigits(s: string) { forall i :: 0 <= i < |s| ==> IsDigit(s[i]) }

  /** str.isspace() for one character: the characters CPython treats as whitespace. */
  predicate IsSpace(c: char) {
    || c == ' '
    || '\t' <= c <= '\r'
    || '\U{1C}' <= c <= '\U{1F}'
    || c == '\U{85}' || c == '\U{A0}' || c == '\U{1680}'
    || '\U{2000}' <= c <= '\U{200A}'
    || c == '\U{2028}' || c == '\U{2029}' || c == '\U{202F}' || c == '\U{205F}' || c == '\U{3000}'
  }

  predicate AllSpaces(s: string) { forall i :: 0 <= i < |s| ==> IsSpace(s[i]) }

  function DigitChar(d: nat): (c: char)
    requires d < 10
    ensures IsDigit(c)
  {
    "0123456789"[d]
  }

  function DigitValue(c: char): (d: nat)
    requires IsDigit(c)
    ensures d < 10
  {
    (c as int) - ('0' as int)
  }

  lemma DigitRoundTrip(d: nat)
    requires d < 10
    ensures DigitValue(DigitChar(d)) == d
  {
  }

  /** The lower-case form of an ASCII letter; every other character unchanged. */
  function LowerChar(c: char): char {
    if 'A' <= c <= 'Z' then ((c as int) + 32) as char else c
  }

  /** str.lower() restricted to ASCII letters. */
  function LowerAscii(s: string): (r: string)
    ensures |r| == |s|
    ensures forall i :: 0 <= i < |s| ==> r[i] == LowerChar(s[i])
  {
    seq(|s|, i requires 0 <= i < |s| => LowerChar(s[i]))
  }

  // ---------------------------------------------------------------------------
  // Integers as text

  /** The number a string of decimal digits denotes (leading zeros allowed). */
  function DigitsValue(s: string): nat
    requires AllDigits(s)
  {
    if s == [] then 0 else 10 * DigitsValue(s[..|s| - 1]) + DigitValue(s[|s| - 1])
  }

  /** str(n) for n >= 0: decimal digits with no leading zero. */
  function NatToString(n: nat): (s: string)
    ensures |s| > 0 && AllDigits(s)
    ensures (s[0] == '0') == (n == 0)
  {
    if n < 10 then [DigitChar(n)] else NatToString(n / 10) + [DigitChar(n % 10)]
  }

  lemma {:induction false} NatToStringValue(n: nat)
    ensures DigitsValue(NatToString(n)) == n
  {
    var s := NatToString(n);
    if n < 10 {
      DigitRoundTrip(n);
    } else {
      NatToStringValue(n / 10);
      DigitRoundTrip(n % 10);
      assert s[..|s| - 1] == NatToString(n / 10);
    }
  }

  /** str(i) for any integer. */
  function IntToString(i: int): (s: string)
    ensures |s| > 0 && !IsSpace(s[0]) && IsDigit(s[|s| - 1])
    ensures s[0] == '-' || IsDigit(s[0])
  {
    if i < 0 then "-" + NatToString(-i) else NatToString(i)
  }

  /** A run of n zero digits. */
  function Zeros(n: int): (z: string)
    ensures |z| == if n < 0 then 0 else n
    ensures forall k :: 0 <= k < |z| ==> z[k] == '0'
  {
    if n <= 0 then "" else "0" + Zeros(n - 1)
  }

  lemma {:induction false} LeadingZerosValue(n: nat, s: string)
    requires AllDigits(s)
    ensures AllDigits(Zeros(n) + s) && DigitsValue(Zeros(n) + s) == DigitsValue(s)
  {
    if s == [] {
      ZerosValue(n);
      assert Zeros(n) + s == Zeros(n);
    } else {
      var t := Zeros(n) + s;
      LeadingZerosValue(n, s[..|s| - 1]);
      assert t[..|t| - 1] == Zeros(n) + s[..|s| - 1];
    }
  }

  lemma {:induction false} ZerosValue(n: nat)
    ensures AllDigits(Zeros(n)) && DigitsValue(Zeros(n)) == 0
  {
    if n > 0 {
      ZerosValue(n - 1);
      var z := Zeros(n);
      assert z == Zeros(n - 1) + "0" by {
        ZerosSnoc(n);
      }
      assert z[..|z| - 1] == Zeros(n - 1);
    }
  }

  lemma ZerosSnoc(n: nat)
    requires n > 0
    ensures Zeros(n) == Zeros(n - 1) + "0"
  {
  }

  /** The characters of s other than '_'. */
  function RemoveUnderscores(s: string): (r: string)
    ensures |r| <= |s|
    ensures '_' !in r
  {
    if s == [] then ""
    else if s[0] == '_' then RemoveUnderscores(s[1..])
    else [s[0]] + RemoveUnderscores(s[1..])
  }

  /** Decimal digits in which single underscores may stand between two digits, as int() accepts. */
  predicate WellGrouped(s: string) {
    && |s| > 0
    && IsDigit(s[0]) && IsDigit(s[|s| - 1])
    && (forall i :: 0 <= i < |s| ==> IsDigit(s[i]) || s[i] == '_')
    && (forall i, j :: 0 <= i < |s| && 0 <= j < |s| && j == i + 1 ==> s[i] == '_' ==> s[j] != '_')
  }

  lemma {:induction false} RemoveUnderscoresDigits(s: string)
    requires forall i :: 0 <= i < |s| ==> IsDigit(s[i]) || s[i] == '_'
    ensures AllDigits(RemoveUnderscores(s))
  {
    if s != [] {
      RemoveUnderscoresDigits(s[1..]);
    }
  }

  lemma {:induction false} RemoveUnderscoresOfDigits(s: string)
    requires AllDigits(s)
    ensures RemoveUnderscores(s) == s
  {
    if s != [] {
      RemoveUnderscoresOfDigits(s[1..]);
    }
  }

  lemma {:induction false} RemoveUnderscoresAppend(a: string, b: string)
    ensures RemoveUnderscores(a + b) == RemoveUnderscores(a) + RemoveUnderscores(b)
  {
    if a != [] {
      RemoveUnderscoresAppend(a[1..], b);
      assert (a + b)[1..] == a[1..] + b;
    } else {
      assert a + b == b;
    }
  }

  /** The unsigned part of int(s): None where Python raises ValueError. */
  function ParseUnsigned(s: string): Option<nat> {
    if WellGrouped(s) then
      RemoveUnderscoresDigits(s);
      Some(DigitsValue(RemoveUnderscores(s)))
    else None
  }

  /**
    int(s) for a string in base 10: surrounding whitespace, an optional sign,
    then digits; None where Python raises ValueError. Non-ASCII decimal
    digits, which Python also accepts, are not modelled.
  */
  function ParseInt(s: string): Option<int> {
    ParseStripped(Strip(s))
  }

  /** int() on a string already stripped of surrounding whitespace. */
  function ParseStripped(t: string): Option<int> {
    if |t| > 0 && (t[0] == '+' || t[0] == '-') then
      match ParseUnsigned(t[1..])
      case None => None
      case Some(n) =>
        var m: int := n;
        Some(if t[0] == '-' then -m else m)
    else
      match ParseUnsigned(t)
      case None => None
      case Some(n) => Some(n)
  }

  /** int(str(i)) == i. */
  lemma IntToStringRoundTrip(i: int)
    ensures ParseInt(IntToString(i)) == Some(i)
  {
    var s := IntToString(i);
    StripUnchanged(s);
    var n: nat := if i < 0 then -i else i;
    var d := NatToString(n);
    NatToStringValue(n);
    RemoveUnderscoresOfDigits(d);
    if i < 0 {
      assert s[1..] == d;
    }
  }

  /** str is one-to-one on integers. */
  lemma IntToStringInjective(a: int, b: int)
    ensures IntToString(a) == IntToString(b) <==> a == b
  {
    IntToStringRoundTrip(a);
    IntToStringRoundTrip(b);
  }

  // ---------------------------------------------------------------------------
  // Stripping

  function LStrip(s: string): (r: string)
    ensures |r| <= |s| && r == s[|s| - |r|..]
    ensures AllSpaces(s[..|s| - |r|])
    ensures r == [] || !IsSpace(r[0])
  {
    if |s| > 0 && IsSpace(s[0]) then
      var r := LStrip(s[1..]);
      assert s[..|s| - |r|] == [s[0]] + s[1..][..|s[1..]| - |r|];
      r
    else s
  }

  function RStrip(s: string): (r: string)
    ensures |r| <= |s| && r == s[..|r|]
    ensures AllSpaces(s[|r|..])
    ensures r == [] || !IsSpace(r[|r| - 1])
  {
    if |s| > 0 && IsSpace(s[|s| - 1]) then
      var r := RStrip(s[..|s| - 1]);
      assert s[|r|..] == s[..|s| - 1][|r|..] + [s[|s| - 1]];
      r
    else s
  }

  /** s.strip(): s without its leading and trailing whitespace. */
  function Strip(s: string): (r: string)
    ensures |r| <= |s|
    ensures r == [] || (!IsSpace(r[0]) && !IsSpace(r[|r| - 1]))
  {
    RStrip(LStrip(s))
  }

  /** A string that neither starts nor ends with whitespace is its own strip. */
  lemma StripUnchanged(s: string)
    requires s == [] || (!IsSpace(s[0]) && !IsSpace(s[|s| - 1]))
    ensures Strip(s) == s
  {
  }

  lemma StripIdempotent(s: string)
    ensures Strip(Strip(s)) == Strip(s)
  {
    StripUnchanged(Strip(s));
  }

  // ---------------------------------------------------------------------------
  // Searching

  /** The first position of c in s. */
  function IndexOf(s: string, c: char): (k: nat)
    requires c in s
    ensures k < |s| && s[k] == c && c !in s[..k]
  {
    if s[0] == c then 0
    else
      var k := 1 + IndexOf(s[1..], c);
      assert s[..k] == [s[0]] + s[1..][..k - 1];
      k
  }

  /** The last position of c in s. */
  function LastIndexOf(s: string, c: char): (k: nat)
    requires c in s
    ensures k < |s| && s[k] == c && c !in s[k + 1..]
  {
    if s[|s| - 1] == c then |s| - 1
    else
      assert c in s[..|s| - 1] by {
        var j :| 0 <= j < |s| && s[j] == c;
        assert s[..|s| - 1][j] == c;
      }
      var k := LastIndexOf(s[..|s| - 1], c);
      assert s[k + 1..] == s[..|s| - 1][k + 1..] + [s[|s| - 1]];
      k
  }

  /** s.find(c): the first position of c, or -1. */
  function Find(s: string, c: char): (k: int)
    ensures -1 <= k < |s|
    ensures k == -1 <==> c !in s
    ensures k >= 0 ==> s[k] == c && c !in s[..k]
  {
    if c in s then IndexOf(s, c) else -1
  }

  /** s.rfind(c): the last position of c, or -1. */
  function RFind(s: string, c: char): (k: int)
    ensures -1 <= k < |s|
    ensures k == -1 <==> c !in s
    ensures k >= 0 ==> s[k] == c && c !in s[k + 1..]
  {
    if c in s then LastIndexOf(s, c) else -1
  }

  predicate StartsWith(s: string, prefix: string) {
    |prefix| <= |s| && s[..|prefix|] == prefix
  }

  predicate EndsWith(s: string, suffix: string) {
    |suffix| <= |s| && s[|s| - |suffix|..] == suffix
  }

  /** `sub in s` for strings. */
  predicate Contains(s: string, sub: string)
    decreases |s|
  {
    |sub| <= |s| && (s[..|sub|] == sub || Contains(s[1..], sub))
  }

  /** s[:n] with Python's slice clamping. */
  function Prefix(s: string, n: nat): (r: string)
    ensures |r| == Min(n, |s|) && r == s[..|r|]
  {
    if n <= |s| then s[..n] else s
  }

  // ---------------------------------------------------------------------------
  // Splitting and joining

  /** s.split(sep) for a one-character separator: the pieces between separators, always at least one. */
  function Split(s: string, sep: char): (parts: seq<string>)
    ensures |parts| >= 1
    ensures forall i :: 0 <= i < |parts| ==> sep !in parts[i]
    decreases |s|
  {
    if sep in s then
      var k := IndexOf(s, sep);
      [s[..k]] + Split(s[k + 1..], sep)
    else [s]
  }

  /** sep.join(parts). */
  function Join(parts: seq<string>, sep: char): string
    requires |parts| >= 1
  {
    if |parts| == 1 then parts[0] else parts[0] + [sep] + Join(parts[1..], sep)
  }

  /** Joining the pieces of a split gives the string back. */
  lemma {:induction false} SplitJoin(s: string, sep: char)
    ensures Join(Split(s, sep), sep) == s
    decreases |s|
  {
    if sep in s {
      var k := IndexOf(s, sep);
      var tail := s[k + 1..];
      var parts := Split(s, sep);
      assert parts == [s[..k]] + Split(tail, sep);
      assert parts[0] == s[..k] && parts[1..] == Split(tail, sep);
      SplitJoin(tail, sep);
      assert Join(parts, sep) == s[..k] + [sep] + Join(Split(tail, sep), sep);
      assert s == s[..k] + [sep] + tail;
    }
  }

  /** Splitting a join of separator-free pieces gives the pieces back. */
  lemma {:induction false} JoinSplit(parts: seq<string>, sep: char)
    requires |parts| >= 1
    requires forall i :: 0 <= i < |parts| ==> sep !in parts[i]
    ensures Split(Join(parts, sep), sep) == parts
  {
    if |parts| > 1 {
      var rest := Join(parts[1..], sep);
      var s := Join(parts, sep);
      assert s == parts[0] + [sep] + rest;
      FirstSeparator(parts[0], sep, rest);
      var k := |parts[0]|;
      assert s[..k] == parts[0] && s[k + 1..] == rest;
      assert Split(s, sep) == [parts[0]] + Split(rest, sep);
      JoinSplit(parts[1..], sep);
      assert parts == [parts[0]] + parts[1..];
    } else {
      assert sep !in parts[0];
    }
  }

  /** The first separator of a + [sep] + b is the one after a, when a has none. */
  lemma {:induction false} FirstSeparator(a: string, sep: char, b: string)
    requires sep !in a
    ensures sep in a + [sep] + b && IndexOf(a + [sep] + b, sep) == |a|
    decreases |a|
  {
    var s := a + [sep] + b;
    assert s[|a|] == sep;
    if a != [] {
      assert s[0] == a[0] && a[0] in a;
      assert s[1..] == a[1..] + [sep] + b;
      FirstSeparator(a[1..], sep, b);
    }
  }

  // ---------------------------------------------------------------------------
  // Padding

  /**
    s.zfill(width): zeros inserted after an optional leading sign until the
    string is width long; a string already that long is returned unchanged.
  */
  function ZFill(s: string, width: int): (r: string)
    ensures |r| == if |s| >= width then |s| else width
    ensures |s| >= width ==> r == s
  {
    if |s| >= width then s
    else if |s| > 0 && (s[0] == '+' || s[0] == '-') then [s[0]] + Zeros(width - |s|) + s[1..]
    else Zeros(width - |s|) + s
  }

  /** Leading zeros keep a digit group well formed and leave its value alone. */
  lemma PaddedGroupValue(n: nat, body: string)
    requires WellGrouped(body)
    ensures ParseUnsigned(Zeros(n) + body) == ParseUnsigned(body)
  {
    var padded := Zeros(n) + body;
    forall i | 0 <= i < |padded| ensures IsDigit(padded[i]) || padded[i] == '_' {
      if i >= n { assert padded[i] == body[i - n]; }
    }
    forall i, j | 0 <= i && j == i + 1 && j < |padded| && padded[i] == '_' ensures padded[j] != '_' {
      assert padded[i] == body[i - n] && padded[j] == body[j - n];
    }
    assert padded[|padded| - 1] == body[|body| - 1];
    assert WellGrouped(padded);
    RemoveUnderscoresAppend(Zeros(n), body);
    ZerosValue(n);
    RemoveUnderscoresOfDigits(Zeros(n));
    RemoveUnderscoresDigits(body);
    LeadingZerosValue(n, RemoveUnderscores(body));
  }

  lemma SignedPaddingValue(n: nat, t: string)
    requires |t| > 0 && (t[0] == '+' || t[0] == '-')
    requires ParseStripped(t).Some?
    ensures ParseStripped([t[0]] + Zeros(n) + t[1..]) == ParseStripped(t)
  {
    var r := [t[0]] + Zeros(n) + t[1..];
    PaddedGroupValue(n, t[1..]);
    assert r[1..] == Zeros(n) + t[1..];
  }

  lemma UnsignedPaddingValue(n: nat, t: string)
    requires |t| > 0 && t[0] != '+' && t[0] != '-'
    requires ParseStripped(t).Some?
    ensures ParseStripped(Zeros(n) + t) == ParseStripped(t)
  {
    PaddedGroupValue(n, t);
    if n > 0 {
      assert (Zeros(n) + t)[0] == '0';
    }
  }

  /** Zero-padding an integer literal never changes the integer it denotes. */
  lemma ZFillKeepsValue(s: string, width: int)
    requires ParseInt(s).Some?
    requires Strip(s) == s
    ensures ParseInt(ZFill(s, width)) == ParseInt(s)
  {
    if |s| < width {
      StrippedLiteral(s);
      if s[0] == '+' || s[0] == '-' {
        SignedZFill(s, width);
      } else {
        UnsignedZFill(s, width);
      }
    }
  }

  /** A literal that is its own strip is not empty, has no surrounding space and parses as it is. */
  lemma StrippedLiteral(s: string)
    requires ParseInt(s).Some? && Strip(s) == s
    ensures s != [] && !IsSpace(s[0]) && !IsSpace(s[|s| - 1])
    ensures ParseStripped(s) == ParseInt(s)
  {
  }

  lemma SignedZFill(s: string, width: int)
    requires s != [] && |s| < width && (s[0] == '+' || s[0] == '-')
    requires ParseStripped(s).Some? && !IsSpace(s[|s| - 1])
    ensures ParseInt(ZFill(s, width)) == ParseStripped(s)
  {
    var n := width - |s|;
    var r := [s[0]] + Zeros(n) + s[1..];
    assert ZFill(s, width) == r;
    assert r[|r| - 1] == s[|s| - 1];
    StripUnchanged(r);
    SignedPaddingValue(n, s);
  }

  lemma UnsignedZFill(s: string, width: int)
    requires s != [] && |s| < width && s[0] != '+' && s[0] != '-'
    requires ParseStripped(s).Some? && !IsSpace(s[0]) && !IsSpace(s[|s| - 1])
    ensures ParseInt(ZFill(s, width)) == ParseStripped(s)
  {
    UnsignedZFillShape(s, width);
    PaddedParse(width - |s|, s);
  }

  /** Padding an unsigned literal puts the zeros in front of it. */
  lemma UnsignedZFillShape(s: string, width: int)
    requires s != [] && |s| < width && s[0] != '+' && s[0] != '-'
    ensures ZFill(s, width) == Zeros(width - |s|) + s
  {
  }

  /** int() of a zero-padded unsigned literal with no surrounding space is the literal's value. */
  lemma PaddedParse(n: nat, s: string)
    requires s != [] && s[0] != '+' && s[0] != '-'
    requires ParseStripped(s).Some? && !IsSpace(s[0]) && !IsSpace(s[|s| - 1])
    ensures ParseInt(Zeros(n) + s) == ParseStripped(s)
  {
    var r := Zeros(n) + s;
    assert r[|r| - 1] == s[|s| - 1];
    if n > 0 {
      assert r[0] == Zeros(n)[0] == '0';
    } else {
      assert r == s;
    }
    StripUnchanged(r);
    UnsignedPaddingValue(n, s);
  }

  /**
    format(i, '0<width>d'): the decimal form of i, with zeros after the sign
    up to the given width.
  */
  function FormatPadded(i: int, width: nat): (r: string)
    ensures |r| >= width
  {
    var digits := NatToString(if i < 0 then -i else i);
    var sign := if i < 0 then "-" else "";
    sign + Zeros(width - |sign| - |digits|) + digits
  }

  /** Python's '0<width>d' format of an integer is str(i).zfill(width). */
  lemma FormatPaddedIsZFill(i: int, width: nat)
    ensures FormatPadded(i, width) == ZFill(IntToString(i), width)
  {
    var s := IntToString(i);
    if i < 0 {
      assert s[0] == '-' && s[1..] == NatToString(-i);
    } else {
      assert s == NatToString(i);
    }
  }

  /** A zero-padded integer reads back as the same integer. */
  lemma FormatPaddedRoundTrip(i: int, width: nat)
    ensures ParseInt(FormatPadded(i, width)) == Some(i)
  {
    var s := IntToString(i);
    FormatPaddedIsZFill(i, width);
    IntToStringRoundTrip(i);
    StripUnchanged(s);
    ZFillKeepsValue(s, width);
  }

  // ---------------------------------------------------------------------------
  // Paths

  /** posixpath.join(a, b): b alone when it is absolute, otherwise a and b with one '/' between them. */
  function PathJoin(a: string, b: string): string {
    if StartsWith(b, "/") then b
    else if a == [] || EndsWith(a, "/") then a + b
    else a + "/" + b
  }
}
