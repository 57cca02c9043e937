/** The Python text conversions the helpdesk relies on: `str(int)`, the `:04d` format,
    `int(str)` in base 10, `str.strip()`, `str.split(",")`, `str.lower()` and the truthiness of
    an optional string. Characters are Unicode scalar values, as in Python's `str`. */
module PyText {
  import opened Base

  // ---------------------------------------------------------------------------------------
  // Decimal digits

  predicate IsDigit(c: char) {
    '0' <= c <= '9'
  }

  predicate AllDigits(s: string) {
    forall i :: 0 <= i < |s| ==> IsDigit(s[i])
  }

  function DigitChar(d: nat): (c: char)
    requires d < 10
    ensures IsDigit(c)
  {
    ('0' as int + d) as char
  }

  function DigitValue(c: char): (d: nat)
    requires IsDigit(c)
    ensures d < 10
  {
    c as int - '0' as int
  }

  /** `str(n)` for a non-negative integer: decimal digits without a leading zero. */
  function Decimal(n: nat): (s: string)
    ensures 1 <= |s| && AllDigits(s)
    ensures s[0] == '0' ==> n == 0
    ensures '-' !in s && ',' !in s
    decreases n
  {
    if n < 10 then [DigitChar(n)] else Decimal(n / 10) + [DigitChar(n % 10)]
  }

  /** The number a run of decimal digits denotes; leading zeros are allowed. */
  function DigitsValue(s: string): nat
    requires AllDigits(s)
  {
    if |s| == 0 then 0 else DigitsValue(s[..|s| - 1]) * 10 + DigitValue(s[|s| - 1])
  }

  lemma {:induction false} DecimalRoundTrip(n: nat)
    ensures DigitsValue(Decimal(n)) == n
    decreases n
  {
    if n >= 10 {
      var d := Decimal(n / 10);
      var s := d + [DigitChar(n % 10)];
      assert Decimal(n) == s;
      assert s[..|s| - 1] == d;
      DecimalRoundTrip(n / 10);
    }
  }

  /** `str(i)` for any integer: a minus sign before the digits of a negative number. */
  function IntToStr(i: int): (s: string)
    ensures 1 <= |s| && IsDigit(s[|s| - 1]) && (IsDigit(s[0]) || s[0] == '-')
    ensures ',' !in s
  {
    if i < 0 then "-" + Decimal(-i) else Decimal(i)
  }

  function Zeros(k: nat): (s: string)
    ensures |s| == k && AllDigits(s)
  {
    seq(k, _ => '0')
  }

  /** `f"{n:04d}"` for a non-negative n: the decimal digits, zero-filled on the left to width 4.
      Numbers of five or more digits are printed unpadded. */
  function ZeroPad4(n: nat): (s: string)
    ensures |s| == if |Decimal(n)| < 4 then 4 else |Decimal(n)|
    ensures s[|s| - |Decimal(n)|..] == Decimal(n)
    ensures forall k :: 0 <= k < |s| - |Decimal(n)| ==> s[k] == '0'
    ensures AllDigits(s)
  {
    var d := Decimal(n);
    if |d| < 4 then Zeros(4 - |d|) + d else d
  }

  lemma {:induction false} ZerosValue(k: nat)
    ensures DigitsValue(Zeros(k)) == 0
  {
    if k > 0 {
      assert Zeros(k)[..k - 1] == Zeros(k - 1);
      ZerosValue(k - 1);
    }
  }

  /** Leading zeros do not change the value of a digit run. */
  lemma {:induction false} LeadingZerosValue(k: nat, d: string)
    requires AllDigits(d)
    ensures AllDigits(Zeros(k) + d)
    ensures DigitsValue(Zeros(k) + d) == DigitsValue(d)
    decreases |d|
  {
    var z := Zeros(k) + d;
    if |d| == 0 {
      assert z == Zeros(k);
      ZerosValue(k);
    } else {
      assert z[..|z| - 1] == Zeros(k) + d[..|d| - 1];
      assert z[|z| - 1] == d[|d| - 1];
      LeadingZerosValue(k, d[..|d| - 1]);
    }
  }

  /** Reading the padded digits back gives the number: the padding loses nothing. */
  lemma ZeroPad4RoundTrip(n: nat)
    ensures DigitsValue(ZeroPad4(n)) == n
  {
    var d := Decimal(n);
    DecimalRoundTrip(n);
    if |d| < 4 {
      LeadingZerosValue(4 - |d|, d);
    }
  }

  lemma ZeroPad4Injective(m: nat, n: nat)
    requires ZeroPad4(m) == ZeroPad4(n)
    ensures m == n
  {
    ZeroPad4RoundTrip(m);
    ZeroPad4RoundTrip(n);
  }

  // ---------------------------------------------------------------------------------------
  // Whitespace and str.strip()

  /** Python's `str.isspace()` for one character. */
  predicate IsSpace(c: char) {
    || c == '\t' || c == '\n' || c == '\U{000B}' || c == '\U{000C}' || c == '\r'
    || '\U{001C}' <= c <= '\U{001F}' || c == ' ' || c == '\U{0085}' || c == '\U{00A0}'
    || c == '\U{1680}' || '\U{2000}' <= c <= '\U{200A}' || c == '\U{2028}' || c == '\U{2029}'
    || c == '\U{202F}' || c == '\U{205F}' || c == '\U{3000}'
  }

  predicate AllSpace(s: string) {
    forall i :: 0 <= i < |s| ==> IsSpace(s[i])
  }

  function LeadingSpaces(s: string): (n: nat)
    ensures n <= |s| && AllSpace(s[..n])
    ensures n < |s| ==> !IsSpace(s[n])
  {
    if |s| == 0 || !IsSpace(s[0]) then 0 else 1 + LeadingSpaces(s[1..])
  }

  function TrailingSpaces(s: string): (n: nat)
    ensures n <= |s| && AllSpace(s[|s| - n..])
    ensures n < |s| ==> !IsSpace(s[|s| - n - 1])
  {
    if |s| == 0 || !IsSpace(s[|s| - 1]) then 0
    else
      var init := s[..|s| - 1];
      var m := TrailingSpaces(init);
      assert s[|s| - (m + 1)..] == init[|init| - m..] + [s[|s| - 1]];
      1 + m
  }

  /** `str.strip()`: the text without surrounding whitespace. */
  function Strip(s: string): (r: string)
    ensures |r| == 0 || (!IsSpace(r[0]) && !IsSpace(r[|r| - 1]))
    ensures |r| <= |s|
  {
    var i := LeadingSpaces(s);
    var t := s[i..];
    t[..|t| - TrailingSpaces(t)]
  }

  /** Whitespace around a trimmed text is removed and nothing else is. */
  lemma StripSurrounding(a: string, s: string, b: string)
    requires AllSpace(a) && AllSpace(b)
    requires |s| == 0 || (!IsSpace(s[0]) && !IsSpace(s[|s| - 1]))
    ensures Strip(a + s + b) == s
  {
    var x := a + s + b;
    if |s| == 0 {
      assert x == a + b;
      AllSpaceLeading(x);
    } else {
      LeadingSpacesOf(a, s + b);
      assert x == a + (s + b);
      var t := x[|a|..];
      assert t == s + b;
      TrailingSpacesOf(s, b);
      assert t[..|t| - |b|] == s;
    }
  }

  lemma {:induction false} AllSpaceLeading(x: string)
    requires AllSpace(x)
    ensures LeadingSpaces(x) == |x|
    decreases |x|
  {
    if |x| > 0 {
      AllSpaceLeading(x[1..]);
    }
  }

  lemma {:induction false} LeadingSpacesOf(a: string, t: string)
    requires AllSpace(a) && |t| > 0 && !IsSpace(t[0])
    ensures LeadingSpaces(a + t) == |a|
    decreases |a|
  {
    if |a| > 0 {
      assert (a + t)[1..] == a[1..] + t;
      LeadingSpacesOf(a[1..], t);
    } else {
      assert a + t == t;
    }
  }

  lemma {:induction false} TrailingSpacesOf(s: string, b: string)
    requires AllSpace(b) && |s| > 0 && !IsSpace(s[|s| - 1])
    ensures TrailingSpaces(s + b) == |b|
    decreases |b|
  {
    if |b| > 0 {
      assert (s + b)[..|s + b| - 1] == s + b[..|b| - 1];
      TrailingSpacesOf(s, b[..|b| - 1]);
    } else {
      assert s + b == s;
    }
  }

  // ---------------------------------------------------------------------------------------
  // int(str), base 10

  /** The text `int()` accepts after the sign: digits, with single underscores between digits. */
  predicate IsDigitGroup(b: string) {
    && |b| >= 1
    && IsDigit(b[0])
    && IsDigit(b[|b| - 1])
    && (forall k :: 0 <= k < |b| ==> IsDigit(b[k]) || b[k] == '_')
    && (forall k :: 0 <= k < |b| - 1 ==> !(b[k] == '_' && b[k + 1] == '_'))
  }

  function DropUnderscores(b: string): (r: string)
    requires forall k :: 0 <= k < |b| ==> IsDigit(b[k]) || b[k] == '_'
    ensures AllDigits(r)
  {
    if |b| == 0 then []
    else if b[0] == '_' then DropUnderscores(b[1..])
    else [b[0]] + DropUnderscores(b[1..])
  }

  lemma {:induction false} DropUnderscoresOfDigits(b: string)
    requires AllDigits(b)
    ensures DropUnderscores(b) == b
  {
    if |b| > 0 {
      DropUnderscoresOfDigits(b[1..]);
    }
  }

  /** The sign `int()` accepts, and the text after it. */
  function SignAndBody(t: string): (bool, string) {
    if |t| > 0 && t[0] == '-' then (true, t[1..])
    else if |t| > 0 && t[0] == '+' then (false, t[1..])
    else (false, t)
  }

  /** Python's `int(s)`: surrounding whitespace ignored, an optional sign, then a digit group;
      anything else raises ValueError. Only ASCII digits are modelled. */
  function ParseInt(s: string): (r: Result<int>)
    ensures r.Failure? ==> r.error == InvalidInteger
    ensures r.Success? <==> IsDigitGroup(SignAndBody(Strip(s)).1)
  {
    var (neg, body) := SignAndBody(Strip(s));
    if IsDigitGroup(body) then
      var v: int := DigitsValue(DropUnderscores(body));
      Success(if neg then -v else v)
    else
      Failure(InvalidInteger)
  }

  /** A text that neither starts nor ends with whitespace is its own strip. */
  lemma StripTrimmed(s: string)
    requires |s| == 0 || (!IsSpace(s[0]) && !IsSpace(s[|s| - 1]))
    ensures Strip(s) == s
  {
    assert LeadingSpaces(s) == 0;
    assert s[0..] == s;
    assert TrailingSpaces(s) == 0;
  }

  lemma DigitsParse(d: string)
    requires AllDigits(d) && |d| >= 1
    ensures IsDigitGroup(d)
    ensures DropUnderscores(d) == d
  {
    DropUnderscoresOfDigits(d);
  }

  /** A trimmed text made of a sign and a digit run parses to the signed value of the digits. */
  lemma ParseSignedDigits(s: string, neg: bool, d: string)
    requires AllDigits(d) && |d| >= 1
    requires Strip(s) == s && SignAndBody(s) == (neg, d)
    ensures ParseInt(s) == Success(if neg then -(DigitsValue(d) as int) else DigitsValue(d))
  {
    DigitsParse(d);
  }

  lemma IntToStrShape(i: int)
    ensures Strip(IntToStr(i)) == IntToStr(i)
    ensures i < 0 ==> SignAndBody(IntToStr(i)) == (true, Decimal(-i))
    ensures i >= 0 ==> SignAndBody(IntToStr(i)) == (false, Decimal(i))
  {
    var s := IntToStr(i);
    StripTrimmed(s);
    if i < 0 {
      assert s[1..] == Decimal(-i);
    }
  }

  /** `int(str(i)) == i`. */
  lemma ParseIntRoundTrip(i: int)
    ensures ParseInt(IntToStr(i)) == Success(i)
  {
    var n: nat := if i < 0 then -i else i;
    IntToStrShape(i);
    assert SignAndBody(IntToStr(i)) == (i < 0, Decimal(n));
    DecimalRoundTrip(n);
    ParseSignedDigits(IntToStr(i), i < 0, Decimal(n));
  }

  // ---------------------------------------------------------------------------------------
  // str.split(sep) and its inverse, sep.join(parts)

  /** Python's `s.split(sep)` for a one-character separator: always at least one piece. */
  function Split(s: string, sep: char): (r: seq<string>)
    ensures |r| >= 1
    ensures forall i :: 0 <= i < |r| ==> sep !in r[i]
    decreases |s|
  {
    if |s| == 0 then [""]
    else
      var rest := Split(s[1..], sep);
      if s[0] == sep then [""] + rest else [[s[0]] + rest[0]] + rest[1..]
  }

  function Join(parts: seq<string>, sep: char): string
    requires |parts| >= 1
  {
    if |parts| == 1 then parts[0] else parts[0] + [sep] + Join(parts[1..], sep)
  }

  /** Splitting and re-joining gives back the text. */
  lemma {:induction false} JoinSplit(s: string, sep: char)
    ensures Join(Split(s, sep), sep) == s
    decreases |s|
  {
    if |s| > 0 {
      var rest := Split(s[1..], sep);
      JoinSplit(s[1..], sep);
      if s[0] == sep {
        assert Split(s, sep) == [""] + rest;
        assert ([""] + rest)[1..] == rest;
      } else {
        var r := [[s[0]] + rest[0]] + rest[1..];
        assert Split(s, sep) == r;
        if |rest| == 1 {
          assert Join(r, sep) == [s[0]] + rest[0];
        } else {
          assert r[1..] == rest[1..];
          assert Join(r, sep) == [s[0]] + rest[0] + [sep] + Join(rest[1..], sep);
        }
        assert s == [s[0]] + s[1..];
      }
    }
  }

  lemma {:induction false} SplitPiece(a: string, sep: char)
    requires sep !in a
    ensures Split(a, sep) == [a]
    decreases |a|
  {
    if |a| > 0 {
      SplitPiece(a[1..], sep);
      assert [a[0]] + a[1..] == a;
    }
  }

  lemma {:induction false} SplitPieceThenRest(a: string, sep: char, t: string)
    requires sep !in a
    ensures Split(a + [sep] + t, sep) == [a] + Split(t, sep)
    decreases |a|
  {
    var x := a + [sep] + t;
    if |a| == 0 {
      assert x[0] == sep && x[1..] == t;
    } else {
      assert x[0] == a[0] && x[1..] == a[1..] + [sep] + t;
      SplitPieceThenRest(a[1..], sep, t);
      assert [a[0]] + a[1..] == a;
    }
  }

  /** Joining pieces that do not contain the separator and splitting again gives the pieces. */
  lemma {:induction false} SplitJoin(parts: seq<string>, sep: char)
    requires |parts| >= 1
    requires forall i :: 0 <= i < |parts| ==> sep !in parts[i]
    ensures Split(Join(parts, sep), sep) == parts
    decreases |parts|
  {
    if |parts| == 1 {
      SplitPiece(parts[0], sep);
    } else {
      SplitJoin(parts[1..], sep);
      SplitPieceThenRest(parts[0], sep, Join(parts[1..], sep));
      assert [parts[0]] + parts[1..] == parts;
    }
  }

  // ---------------------------------------------------------------------------------------
  // str.lower() and truthiness

  /** The capitals the model lower-cases: Latin `A`-`Z` and the Cyrillic capitals U+0400-U+042F. */
  predicate IsCapital(c: char) {
    'A' <= c <= 'Z' || '\U{0400}' <= c <= '\U{042F}'
  }

  /** `str.lower()` on one character: a capital becomes its small letter (`A`-`Z` and
      U+0410-U+042F shift by 32, U+0400-U+040F by 80), which is no capital; every other
      character is returned unchanged. */
  function LowerChar(c: char): (r: char)
    ensures !IsCapital(r)
    ensures !IsCapital(c) ==> r == c
    ensures IsCapital(c) ==> r != c
  {
    if 'A' <= c <= 'Z' then (c as int + 32) as char
    else if '\U{0410}' <= c <= '\U{042F}' then (c as int + 32) as char
    else if '\U{0400}' <= c <= '\U{040F}' then (c as int + 80) as char
    else c
  }

  /** `str.lower()`: the result has no capital left, every character that is not a capital is
      kept in place, and each character is lower-cased on its own. */
  function Lower(s: string): (r: string)
    ensures |r| == |s|
    ensures forall i :: 0 <= i < |r| ==> !IsCapital(r[i])
    ensures forall i :: 0 <= i < |s| && !IsCapital(s[i]) ==> r[i] == s[i]
    ensures forall i :: 0 <= i < |s| ==> r[i] == LowerChar(s[i])
  {
    seq(|s|, i requires 0 <= i < |s| => LowerChar(s[i]))
  }

  /** Lower-casing twice is lower-casing once. */
  lemma LowerIdempotent(s: string)
    ensures Lower(Lower(s)) == Lower(s)
  {
  }

  /** A text without capitals is its own lower-case form. */
  lemma LowerOfSmall(s: string)
    requires forall i :: 0 <= i < |s| ==> !IsCapital(s[i])
    ensures Lower(s) == s
  {
  }

  /** Python's truthiness of an optional string: present and non-empty. */
  predicate Truthy(o: Option<string>) {
    o.Some? && o.value != ""
  }
}
