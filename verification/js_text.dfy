/** The string primitives of JavaScript that the dashboard relies on: writing a
    number as text, `parseInt(s, 10)`, `parseFloat(s)`, `trim`, ASCII
    `toLowerCase`, `includes`, `endsWith`, `split(c)[0]` and the order of the default
    `Array.prototype.sort`, taken by code point (the README's "Left out" says
    where that differs from UTF-16 code-unit order). */
module JsText {
  import opened Options

  // ---------------------------------------------------------------------------
  // Digits and integers
  // ---------------------------------------------------------------------------

  predicate IsDigit(c: char) {
    '0' <= c <= '9'
  }

  predicate AllDigits(s: string) {
    forall i :: 0 <= i < |s| ==> IsDigit(s[i])
  }

  function DigitValue(c: char): (d: nat)
    requires IsDigit(c)
    ensures d < 10
  {
    c as int - '0' as int
  }

  function DigitChar(d: nat): (c: char)
    requires d < 10
    ensures IsDigit(c) && DigitValue(c) == d
  {
    ('0' as int + d) as char
  }

  /** Decimal digits of `n`, most significant first, without leading zeros. */
  function NatText(n: nat): (s: string)
    ensures |s| >= 1 && AllDigits(s)
    ensures n >= 10 ==> s[0] != '0'
    decreases n
  {
    if n < 10 then [DigitChar(n)] else NatText(n / 10) + [DigitChar(n % 10)]
  }

  /** An integer as `String(n)` writes it: a minus sign for negatives. */
  function IntText(n: int): (s: string)
    ensures n >= 0 ==> s == NatText(n)
    ensures n < 0 ==> s == "-" + NatText(-n)
  {
    if n < 0 then "-" + NatText(-n) else NatText(n)
  }

  /** The value of a string of decimal digits, most significant first. */
  function DigitsValue(s: string): nat
    requires AllDigits(s)
  {
    if |s| == 0 then 0 else DigitsValue(s[..|s| - 1]) * 10 + DigitValue(s[|s| - 1])
  }

  /** Reading back the digits `NatText` writes gives the number again. */
  lemma {:induction false} DigitsValueOfNatText(n: nat)
    ensures DigitsValue(NatText(n)) == n
    decreases n
  {
    if n >= 10 {
      var s := NatText(n);
      assert s[..|s| - 1] == NatText(n / 10);
      DigitsValueOfNatText(n / 10);
    }
  }

  /** Length of the longest prefix of `s` made of decimal digits. */
  function DigitRun(s: string): (r: nat)
    ensures r <= |s|
    ensures AllDigits(s[..r])
    ensures r < |s| ==> !IsDigit(s[r])
  {
    if |s| == 0 || !IsDigit(s[0]) then 0
    else
      var k := DigitRun(s[1..]);
      assert s[..k + 1] == [s[0]] + s[1..][..k];
      k + 1
  }

  lemma {:induction false} DigitRunOfDigits(ds: string, rest: string)
    requires AllDigits(ds)
    requires |rest| == 0 || !IsDigit(rest[0])
    ensures DigitRun(ds + rest) == |ds|
    decreases |ds|
  {
    if |ds| == 0 {
      assert ds + rest == rest;
    } else {
      assert (ds + rest)[1..] == ds[1..] + rest;
      DigitRunOfDigits(ds[1..], rest);
    }
  }

  // ---------------------------------------------------------------------------
  // Whitespace and trimming
  // ---------------------------------------------------------------------------

  /** The characters ECMAScript counts as white space or line terminators, which
      `trim`, `parseInt` and `parseFloat` skip. */
  predicate IsJsSpace(c: char) {
    if c <= ' ' then c == ' ' || '\t' <= c <= '\r' else c >= '\U{00A0}' && IsWideSpace(c)
  }

  /** The white-space characters beyond ASCII. */
  predicate IsWideSpace(c: char) {
    c == '\U{00A0}' || c == '\U{1680}' || ('\U{2000}' <= c <= '\U{200A}')
    || c == '\U{2028}' || c == '\U{2029}' || c == '\U{202F}' || c == '\U{205F}'
    || c == '\U{3000}' || c == '\U{FEFF}'
  }

  /** Number of leading white-space characters. */
  function LeadingSpace(s: string): (r: nat)
    ensures r <= |s|
    ensures forall i :: 0 <= i < r ==> IsJsSpace(s[i])
    ensures r < |s| ==> !IsJsSpace(s[r])
  {
    if |s| == 0 || !IsJsSpace(s[0]) then 0 else 1 + LeadingSpace(s[1..])
  }

  /** Number of trailing white-space characters. */
  function TrailingSpace(s: string): (r: nat)
    ensures r <= |s|
    ensures forall i :: |s| - r <= i < |s| ==> IsJsSpace(s[i])
    ensures r < |s| ==> !IsJsSpace(s[|s| - r - 1])
  {
    if |s| == 0 || !IsJsSpace(s[|s| - 1]) then 0 else 1 + TrailingSpace(s[..|s| - 1])
  }

  function TrimStart(s: string): string {
    s[LeadingSpace(s)..]
  }

  /** `String.prototype.trim`: the longest middle part of `s` that neither starts
      nor ends with white space; empty when `s` is all white space. */
  function Trim(s: string): (r: string)
    ensures exists i :: WindowAt(s, r, i)
    ensures |r| > 0 ==> !IsJsSpace(r[0]) && !IsJsSpace(r[|r| - 1])
    ensures |r| == 0 <==> forall i :: 0 <= i < |s| ==> IsJsSpace(s[i])
  {
    var t := TrimStart(s);
    var r := t[..|t| - TrailingSpace(t)];
    assert WindowAt(s, r, LeadingSpace(s));
    assert |r| == 0 ==> forall i :: 0 <= i < |s| ==> IsJsSpace(s[i]) by {
      if |r| == 0 {
        TrimEmptyOnlyIfAllSpace(s);
      }
    }
    r
  }

  lemma TrimEmptyOnlyIfAllSpace(s: string)
    requires |TrimStart(s)| == TrailingSpace(TrimStart(s))
    ensures forall i :: 0 <= i < |s| ==> IsJsSpace(s[i])
  {
  }

  // ---------------------------------------------------------------------------
  // Case, searching and comparison
  // ---------------------------------------------------------------------------

  function LowerChar(c: char): (r: char)
    ensures 'A' <= c <= 'Z' ==> r as int == c as int + 32
    ensures !('A' <= c <= 'Z') ==> r == c
  {
    if 'A' <= c <= 'Z' then (c as int + 32) as char else c
  }

  /** `toLowerCase`, on the ASCII letters. */
  function ToLower(s: string): (r: string)
    ensures |r| == |s|
    ensures forall i :: 0 <= i < |s| ==> r[i] == LowerChar(s[i])
  {
    if |s| == 0 then [] else [LowerChar(s[0])] + ToLower(s[1..])
  }

  /** `needle` occurs in `hay` starting at position `i`. */
  predicate WindowAt(hay: string, needle: string, i: int) {
    0 <= i <= |hay| - |needle| && hay[i..i + |needle|] == needle
  }

  /** `hay.includes(needle)`: `needle` occurs somewhere in `hay`. */
  function Includes(hay: string, needle: string): (r: bool)
    ensures r <==> exists i :: WindowAt(hay, needle, i)
  {
    if |needle| > |hay| then false
    else if hay[..|needle|] == needle then assert WindowAt(hay, needle, 0); true
    else
      var r := Includes(hay[1..], needle);
      IncludesStep(hay, needle);
      r
  }

  lemma IncludesStep(hay: string, needle: string)
    requires 0 < |hay| && |needle| <= |hay| && hay[..|needle|] != needle
    ensures (exists i :: WindowAt(hay, needle, i)) <==> (exists i :: WindowAt(hay[1..], needle, i))
  {
    if exists i :: WindowAt(hay, needle, i) {
      var i :| WindowAt(hay, needle, i);
      assert i > 0;
      assert hay[1..][i - 1..i - 1 + |needle|] == needle;
      assert WindowAt(hay[1..], needle, i - 1);
    }
    if exists i :: WindowAt(hay[1..], needle, i) {
      var i :| WindowAt(hay[1..], needle, i);
      assert hay[i + 1..i + 1 + |needle|] == needle;
      assert WindowAt(hay, needle, i + 1);
    }
  }

  /** `s.endsWith(suffix)`. */
  predicate EndsWith(s: string, suffix: string) {
    |suffix| <= |s| && s[|s| - |suffix|..] == suffix
  }

  /** `s.split(sep)[0]`: the part of `s` before the first `sep`, or all of `s`. */
  function BeforeFirst(s: string, sep: char): (r: string)
    ensures |r| <= |s| && r == s[..|r|]
    ensures sep !in r
    ensures |r| < |s| ==> s[|r|] == sep
  {
    if |s| == 0 || s[0] == sep then "" else [s[0]] + BeforeFirst(s[1..], sep)
  }

  /** `split(sep)[0]` of a text that starts with `ds` and continues with the
      separator is `ds`. */
  lemma {:induction false} BeforeFirstOf(ds: string, rest: string, sep: char)
    requires sep !in ds
    requires |rest| > 0 && rest[0] == sep
    ensures BeforeFirst(ds + rest, sep) == ds
    decreases |ds|
  {
    if |ds| > 0 {
      assert (ds + rest)[1..] == ds[1..] + rest;
      BeforeFirstOf(ds[1..], rest, sep);
    } else {
      assert ds + rest == rest;
    }
  }

  /** Strict order on strings by code point, the model's reading of the default
      `sort` order (which compares UTF-16 code units; see the README's "Left
      out"). */
  predicate TextLess(a: string, b: string)
    decreases |a|
  {
    |b| > 0 && (|a| == 0 || a[0] < b[0] || (a[0] == b[0] && TextLess(a[1..], b[1..])))
  }

  predicate TextLe(a: string, b: string) {
    a == b || TextLess(a, b)
  }

  lemma {:induction false} TextLessIrreflexive(a: string)
    ensures !TextLess(a, a)
    decreases |a|
  {
    if |a| > 0 {
      TextLessIrreflexive(a[1..]);
    }
  }

  lemma {:induction false} TextLessTotal(a: string, b: string)
    ensures a == b || TextLess(a, b) || TextLess(b, a)
    decreases |a|
  {
    if |a| > 0 && |b| > 0 && a[0] == b[0] {
      TextLessTotal(a[1..], b[1..]);
      if a[1..] == b[1..] {
        assert a == [a[0]] + a[1..] && b == [b[0]] + b[1..];
      }
    }
  }

  lemma {:induction false} TextLessTransitive(a: string, b: string, c: string)
    requires TextLess(a, b) && TextLess(b, c)
    ensures TextLess(a, c)
    decreases |a|
  {
    if |a| > 0 && a[0] == b[0] && b[0] == c[0] {
      TextLessTransitive(a[1..], b[1..], c[1..]);
    }
  }

  lemma TextLeTransitive(a: string, b: string, c: string)
    requires TextLe(a, b) && TextLe(b, c)
    ensures TextLe(a, c)
  {
    if TextLess(a, b) && TextLess(b, c) {
      TextLessTransitive(a, b, c);
    }
  }

  // ---------------------------------------------------------------------------
  // parseInt(s, 10)
  // ---------------------------------------------------------------------------

  /** Length of an optional leading '+' or '-'. */
  function SignLength(s: string): (n: nat)
    ensures n <= 1 && n <= |s|
  {
    if |s| > 0 && (s[0] == '+' || s[0] == '-') then 1 else 0
  }

  predicate HasMinus(s: string) {
    |s| > 0 && s[0] == '-'
  }

  /** `v`, negated when `s` starts with a minus sign. */
  function Signed(s: string, v: int): int {
    if HasMinus(s) then -v else v
  }

  function SignedReal(s: string, v: real): real {
    if HasMinus(s) then -v else v
  }

  /** `parseInt(s, 10)`: skip white space, read an optional sign and the longest
      run of decimal digits; `None` (NaN) when there is no digit. */
  function ParseInt(s: string): Option<int> {
    ParseSigned(TrimStart(s))
  }

  /** `parseInt` on text that starts after the white space. */
  function ParseSigned(t: string): Option<int> {
    match ParseDigits(t[SignLength(t)..])
    case Some(v) => Some(Signed(t, v))
    case None => None
  }

  /** The value of the digit run at the start of `b`; `None` when there is none. */
  function ParseDigits(b: string): (r: Option<nat>)
    ensures r.None? <==> DigitRun(b) == 0
  {
    var n := DigitRun(b);
    if n == 0 then None else Some(DigitsValue(b[..n]))
  }

  lemma ParseDigitsOf(digits: string, rest: string)
    requires |digits| > 0 && AllDigits(digits)
    requires |rest| == 0 || !IsDigit(rest[0])
    ensures ParseDigits(digits + rest) == Some(DigitsValue(digits))
  {
    DigitRunOfDigits(digits, rest);
    assert (digits + rest)[..|digits|] == digits;
  }

  lemma AfterFirst<T>(x: T, a: seq<T>, b: seq<T>)
    ensures ([x] + a + b)[1..] == a + b
  {
  }

  /** Text that does not start with white space is read as it stands. */
  lemma NoLeadingSpace(s: string)
    requires |s| > 0 && !IsJsSpace(s[0])
    ensures TrimStart(s) == s
  {
    assert LeadingSpace(s) == 0;
  }

  /** Reading back `String(n)` with `parseInt`, in front of any text that does not
      continue the digit run, gives `n` again. */
  lemma ParseIntOfIntText(n: int, rest: string)
    requires |rest| == 0 || !IsDigit(rest[0])
    ensures ParseInt(IntText(n) + rest) == Some(n)
  {
    var digits := NatText(if n < 0 then -n else n);
    DigitsValueOfNatText(if n < 0 then -n else n);
    if n < 0 {
      assert IntText(n) == "-" + digits;
      ParseIntOfMinusDigits(digits, rest);
    } else {
      assert IntText(n) == digits;
      ParseIntOfDigits(digits, rest);
    }
  }

  lemma ParseIntOfNat(n: nat, rest: string)
    requires |rest| == 0 || !IsDigit(rest[0])
    ensures ParseInt(NatText(n) + rest) == Some(n)
  {
    DigitsValueOfNatText(n);
    ParseIntOfDigits(NatText(n), rest);
  }

  lemma ParseIntOfDigits(digits: string, rest: string)
    requires |digits| > 0 && AllDigits(digits)
    requires |rest| == 0 || !IsDigit(rest[0])
    ensures ParseInt(digits + rest) == Some(DigitsValue(digits))
  {
    var s := digits + rest;
    assert s[0] == digits[0];
    NoLeadingSpace(s);
    assert SignLength(s) == 0;
    ParseDigitsOf(digits, rest);
  }

  lemma ParseIntOfMinusDigits(digits: string, rest: string)
    requires |digits| > 0 && AllDigits(digits)
    requires |rest| == 0 || !IsDigit(rest[0])
    ensures ParseInt("-" + digits + rest) == Some(-(DigitsValue(digits) as int))
  {
    var s := "-" + digits + rest;
    NoLeadingSpace(s);
    AfterFirst('-', digits, rest);
    ParseDigitsOf(digits, rest);
  }

  // ---------------------------------------------------------------------------
  // parseFloat(s)
  // ---------------------------------------------------------------------------

  function Pow10(e: nat): (r: nat)
    ensures r >= 1
  {
    if e == 0 then 1 else 10 * Pow10(e - 1)
  }

  /** 10 raised to an integer power, as a real. */
  function Scale(e: int): (r: real)
    ensures r > 0.0
  {
    if e >= 0 then Pow10(e) as real else 1.0 / Pow10(-e) as real
  }

  /** Length of an exponent part `e[+-]digits` at the start of `s`, or 0 when
      there is none (a bare `e` is not an exponent). */
  function ExponentLength(s: string): (n: nat)
    ensures n <= |s|
  {
    if |s| == 0 || (s[0] != 'e' && s[0] != 'E') then 0
    else
      var sl := SignLength(s[1..]);
      var d := DigitRun(s[1 + sl..]);
      if d == 0 then 0 else 1 + sl + d
  }

  function ExponentValue(s: string): int
    requires ExponentLength(s) > 0
  {
    var sl := SignLength(s[1..]);
    var d := DigitRun(s[1 + sl..]);
    Signed(s[1..], DigitsValue(s[1 + sl..][..d]))
  }

  /** `parseFloat(s)`: skip white space, read an optional sign, integer digits,
      an optional fraction and an optional exponent; `None` (NaN) when neither
      the integer nor the fraction part has a digit. */
  function ParseFloat(s: string): (r: Option<real>)
    ensures r.Some? ==> exists i :: 0 <= i < |s| && IsDigit(s[i])
  {
    var t := TrimStart(s);
    var body := t[SignLength(t)..];
    var n1 := DigitRun(body);
    var hasPoint := n1 < |body| && body[n1] == '.';
    var afterPoint := if hasPoint then body[n1 + 1..] else "";
    var n2 := DigitRun(afterPoint);
    if n1 + n2 == 0 then None
    else
      var whole := DigitsValue(body[..n1]) as real;
      var frac := DigitsValue(afterPoint[..n2]) as real / Pow10(n2) as real;
      var tail := if hasPoint then afterPoint[n2..] else body[n1..];
      var e := if ExponentLength(tail) > 0 then ExponentValue(tail) else 0;
      var k := LeadingSpace(s) + SignLength(t);
      if n1 > 0 then
        assert s[k] == body[0];
        Some(SignedReal(t, (whole + frac) * Scale(e)))
      else
        assert s[k + 1] == afterPoint[0];
        Some(SignedReal(t, (whole + frac) * Scale(e)))
  }

  /** Text that starts with neither white space, a sign, a point nor a digit is
      not a number: `parseInt` gives NaN, and so does `parseFloat` except on
      text starting `Infinity`, which this model does not read (see the
      README's "Left out"). */
  lemma ParseRejectsNonNumericStart(s: string)
    requires |s| > 0 && !IsJsSpace(s[0]) && !IsDigit(s[0])
    requires s[0] != '+' && s[0] != '-' && s[0] != '.'
    ensures ParseFloat(s) == None
    ensures ParseInt(s) == None
  {
    assert LeadingSpace(s) == 0;
    assert TrimStart(s) == s;
    assert SignLength(s) == 0;
  }

  lemma ParseFloatOfIntText(n: int)
    ensures ParseFloat(IntText(n)) == Some(n as real)
  {
    var s := IntText(n);
    var digits := if n < 0 then NatText(-n) else NatText(n);
    assert LeadingSpace(s) == 0;
    assert TrimStart(s) == s;
    var body := s[SignLength(s)..];
    assert body == digits + "";
    DigitRunOfDigits(digits, "");
    assert body[..|digits|] == digits;
    DigitsValueOfNatText(if n < 0 then -n else n);
  }

  // ---------------------------------------------------------------------------
  // Number to text
  // ---------------------------------------------------------------------------

  /** Up to `fuel` decimal digits of a fraction in [0, 1), stopping as soon as the
      rest is zero so that no trailing zero is written. */
  function FractionDigits(f: real, fuel: nat): string
    requires 0.0 <= f < 1.0
    decreases fuel
  {
    if f == 0.0 || fuel == 0 then ""
    else
      var d := (f * 10.0).Floor;
      [DigitChar(d)] + FractionDigits(f * 10.0 - d as real, fuel - 1)
  }

  /** `String(x)` for a finite number: the sign, the integer part and, when there
      is a fraction, a point and its digits (at most 20). */
  function NumberText(x: real): string
    decreases if x < 0.0 then 1 else 0
  {
    if x < 0.0 then "-" + NumberText(-x)
    else
      var whole := x.Floor;
      var f := x - whole as real;
      NatText(whole) + (if f == 0.0 then "" else "." + FractionDigits(f, 20))
  }

  lemma NumberTextOfInt(n: int)
    ensures NumberText(n as real) == IntText(n)
  {
    if n < 0 {
      assert -(n as real) == (-n) as real;
      assert ((-n) as real).Floor == -n;
    } else {
      assert (n as real).Floor == n;
    }
  }
}
