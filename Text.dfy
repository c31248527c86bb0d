/** The string operations the scrapers apply to text taken from a page: `str.strip()`,
    `str.strip(c)`, `str.split(c)`, `int(...)` and `float(...)` on decimal text. Strings are
    sequences of characters; white space is the Latin-1 part of what Python's `str.isspace`
    accepts. */
module Text {
  import opened Common

  /** The characters `str.isspace` accepts below U+0100. */
  const Whitespace: set<char> := {' ', '\t', '\n', '\r', '\U{0B}', '\U{0C}', '\U{1C}', '\U{1D}',
                                  '\U{1E}', '\U{1F}', '\U{85}', '\U{A0}'}

  predicate IsSpace(c: char)
  {
    c in Whitespace
  }

  predicate IsDigit(c: char)
  {
    '0' <= c <= '9'
  }

  function DigitValue(c: char): (d: nat)
    requires IsDigit(c)
    ensures d < 10
  {
    (c as int) - ('0' as int)
  }

  function DigitChar(d: nat): (c: char)
    requires d < 10
    ensures IsDigit(c) && DigitValue(c) == d
  {
    (('0' as int) + d) as char
  }

  predicate AllDigits(s: string)
  {
    forall i :: 0 <= i < |s| ==> IsDigit(s[i])
  }

  // ---------------------------------------------------------------- stripping

  /** How many leading characters belong to `chars`. */
  function LeadCount(s: string, chars: set<char>): (n: nat)
    ensures n <= |s| && (n == |s| || s[n] !in chars)
    ensures forall k :: 0 <= k < n ==> s[k] in chars
  {
    if s == [] || s[0] !in chars then 0 else 1 + LeadCount(s[1..], chars)
  }

  /** How many trailing characters belong to `chars`. */
  function TrailCount(s: string, chars: set<char>): (n: nat)
    ensures n <= |s| && (n == |s| || s[|s| - 1 - n] !in chars)
    ensures forall k :: |s| - n <= k < |s| ==> s[k] in chars
  {
    if s == [] || s[|s| - 1] !in chars then 0 else 1 + TrailCount(s[..|s| - 1], chars)
  }

  /** `s.strip(chars)`: drops the characters of `chars` at both ends, leaving the slice that
      starts at the first kept character and ends after the last one. */
  function Trim(s: string, chars: set<char>): (r: string)
    ensures LeadCount(s, chars) + |r| <= |s|
    ensures r == s[LeadCount(s, chars)..LeadCount(s, chars) + |r|]
    ensures forall k :: LeadCount(s, chars) + |r| <= k < |s| ==> s[k] in chars
    ensures r == [] || (r[0] !in chars && r[|r| - 1] !in chars)
  {
    var a := LeadCount(s, chars);
    var rest := s[a..];
    var b := TrailCount(rest, chars);
    rest[..|rest| - b]
  }

  /** `s.strip()`. */
  function Strip(s: string): string
  {
    Trim(s, Whitespace)
  }

  /** `s.strip(c)`. */
  function StripChar(s: string, c: char): string
  {
    Trim(s, {c})
  }

  /** A text that neither starts nor ends with c is kept by `strip(c)`, and so is it with
      one c appended. */
  lemma StripCharEnds(body: string, c: char)
    requires body != [] && body[0] != c && body[|body| - 1] != c
    ensures StripChar(body, c) == body
    ensures StripChar(body + [c], c) == body
  {
    var cell := body + [c];
    assert cell[..|cell| - 1] == body;
    assert cell[0] != c;
  }

  // ---------------------------------------------------------------- splitting

  function IndexOf(s: string, c: char): (i: nat)
    requires c in s
    ensures i < |s| && s[i] == c && c !in s[..i]
  {
    if s[0] == c then 0 else 1 + IndexOf(s[1..], c)
  }

  /** Python's `s.split(sep)` for a one-character separator: the text between separators,
      empty fields included. */
  function Split(s: string, sep: char): (r: seq<string>)
    ensures |r| >= 1
    ensures forall k :: 0 <= k < |r| ==> sep !in r[k]
    decreases |s|
  {
    if sep !in s then [s]
    else
      var i := IndexOf(s, sep);
      [s[..i]] + Split(s[i + 1..], sep)
  }

  /** `sep.join(fields)`, the inverse of Split. */
  function Join(fields: seq<string>, sep: char): string
    requires |fields| >= 1
  {
    if |fields| == 1 then fields[0] else fields[0] + [sep] + Join(fields[1..], sep)
  }

  lemma {:induction false} JoinSplit(s: string, sep: char)
    ensures Join(Split(s, sep), sep) == s
    decreases |s|
  {
    if sep in s {
      var i := IndexOf(s, sep);
      JoinSplit(s[i + 1..], sep);
      var r := Split(s, sep);
      assert r[1..] == Split(s[i + 1..], sep);
      assert s == s[..i] + [sep] + s[i + 1..];
    }
  }

  // ---------------------------------------------------------------- numbers

  /** The value of a run of decimal digits, most significant first. */
  function DigitsValue(s: string): (n: nat)
    requires AllDigits(s)
  {
    if s == [] then 0 else 10 * DigitsValue(s[..|s| - 1]) + DigitValue(s[|s| - 1])
  }

  /** Decimal text of a natural number, without leading zeros. */
  function NatText(n: nat): (s: string)
    ensures |s| >= 1 && AllDigits(s)
    ensures n >= 10 ==> s[0] != '0'
  {
    if n < 10 then [DigitChar(n)] else NatText(n / 10) + [DigitChar(n % 10)]
  }

  lemma {:induction false} DigitsValueNatText(n: nat)
    ensures DigitsValue(NatText(n)) == n
  {
    if n >= 10 {
      DigitsValueNatText(n / 10);
      var s := NatText(n);
      assert s[..|s| - 1] == NatText(n / 10);
    }
  }

  /** `int(text)`: optional white space around an optional sign and one or more ASCII digits.
      Python also accepts `_` between digits and non-ASCII decimal digits; this model rejects
      both. */
  function ParseInt(text: string): Option<int>
  {
    var t := Strip(text);
    if t == [] then None
    else
      var body := if t[0] == '-' || t[0] == '+' then t[1..] else t;
      match UnsignedInt(body)
      case None => None
      case Some(n) => Some(if t[0] == '-' then -(n as int) else n)
  }

  /** One or more digits. */
  function UnsignedInt(body: string): Option<nat>
  {
    if body != [] && AllDigits(body) then Some(DigitsValue(body)) else None
  }

  /** Reading the decimal text of a natural number gives the number back. */
  lemma ParseIntNatText(n: nat)
    ensures ParseInt(NatText(n)) == Some(n)
  {
    var s := NatText(n);
    ParseIntUnsigned(s);
    DigitsValueNatText(n);
  }

  /** Text that starts with a digit and does not end in white space reads as unsigned. */
  lemma ParseIntUnsigned(body: string)
    requires body != [] && IsDigit(body[0]) && !IsSpace(body[|body| - 1])
    ensures ParseInt(body) == UnsignedInt(body)
  {
    StripNoSpace(body);
  }

  lemma StripNoSpace(s: string)
    requires s == [] || (!IsSpace(s[0]) && !IsSpace(s[|s| - 1]))
    ensures Strip(s) == s
  {
  }

  /** A number written in decimal, kept exact: `digits / 10^scale`. */
  datatype Decimal = Decimal(digits: int, scale: nat)

  function DecimalReal(d: Decimal): real
  {
    (d.digits as real) / Pow10(d.scale)
  }

  /** `float(text)` on plain decimal text: optional white space around an optional sign and
      an unsigned decimal of ASCII digits. The value is kept exact; rounding to binary
      floating point is not modelled. Python also accepts `_` between digits, non-ASCII
      decimal digits, exponents, "inf" and "nan"; this model rejects them. */
  function ParseDecimal(text: string): Option<Decimal>
  {
    var t := Strip(text);
    if t == [] then None
    else
      var body := if t[0] == '-' || t[0] == '+' then t[1..] else t;
      match UnsignedDecimal(body)
      case None => None
      case Some(m) => Some(if t[0] == '-' then Decimal(-m.digits, m.scale) else m)
  }

  /** Digits with an optional fraction `.digits`, at least one digit overall. */
  function UnsignedDecimal(body: string): Option<Decimal>
  {
    if '.' in body then
      var k := IndexOf(body, '.');
      var whole, frac := body[..k], body[k + 1..];
      if AllDigits(whole) && AllDigits(frac) && |whole| + |frac| >= 1
      then Some(Decimal(DigitsValue(whole + frac), |frac|))
      else None
    else if body != [] && AllDigits(body) then Some(Decimal(DigitsValue(body), 0))
    else None
  }

  /** Decimal text "<whole>.<fraction>" reads as the digits of both parts scaled by the
      length of the fraction (DecimalPartsValue gives its value). */
  lemma ParseDecimalOfParts(whole: nat, frac: string)
    requires AllDigits(frac)
    ensures AllDigits(NatText(whole) + frac)
    ensures ParseDecimal(NatText(whole) + "." + frac)
         == Some(Decimal(DigitsValue(NatText(whole) + frac), |frac|))
  {
    var w := NatText(whole);
    DecimalTextEnds(w, frac);
    ParseDecimalUnsigned(w + "." + frac);
    UnsignedDecimalSplit(w, frac);
    AllDigitsAppend(w, frac);
  }

  /** "<whole>.<fraction>" starts with a digit and ends with a digit or the point. */
  lemma DecimalTextEnds(w: string, frac: string)
    requires w != [] && AllDigits(w) && AllDigits(frac)
    ensures IsDigit((w + "." + frac)[0])
    ensures (w + "." + frac)[|w + "." + frac| - 1] !in Whitespace + {'%'}
  {
    var body := w + "." + frac;
    assert body[0] == w[0];
    assert body[|body| - 1] == if frac == [] then '.' else frac[|frac| - 1];
  }

  /** The number "<whole>.<fraction>" is whole + fraction / 10^|fraction|. */
  lemma DecimalPartsValue(whole: nat, frac: string)
    requires AllDigits(frac)
    ensures AllDigits(NatText(whole) + frac)
    ensures DecimalReal(Decimal(DigitsValue(NatText(whole) + frac), |frac|))
         == whole as real + (DigitsValue(frac) as real) / Pow10(|frac|)
  {
    var w := NatText(whole);
    DigitsValueNatText(whole);
    DigitsValueAppend(w, frac);
    ScaleSplit(whole, DigitsValue(frac), Power10(|frac|));
  }

  /** Text that starts with a digit and does not end in white space reads as unsigned. */
  lemma ParseDecimalUnsigned(body: string)
    requires body != [] && IsDigit(body[0]) && !IsSpace(body[|body| - 1])
    ensures ParseDecimal(body) == UnsignedDecimal(body)
  {
    StripNoSpace(body);
  }

  lemma UnsignedDecimalSplit(whole: string, frac: string)
    requires AllDigits(whole) && AllDigits(frac) && |whole| + |frac| >= 1
    ensures UnsignedDecimal(whole + "." + frac) == Some(Decimal(DigitsValue(whole + frac), |frac|))
  {
    var body := whole + "." + frac;
    assert body[|whole|] == '.';
    assert forall k | 0 <= k < |whole| :: body[k] == whole[k] && IsDigit(body[k]);
    assert body[..|whole|] == whole;
    assert body[|whole| + 1..] == frac;
  }

  lemma AllDigitsAppend(a: string, b: string)
    requires AllDigits(a) && AllDigits(b)
    ensures AllDigits(a + b)
  {
    forall k | 0 <= k < |a + b| ensures IsDigit((a + b)[k]) {
      if k < |a| { assert (a + b)[k] == a[k]; } else { assert (a + b)[k] == b[k - |a|]; }
    }
  }

  /** Digits written after other digits shift them by a power of ten. */
  lemma {:induction false} DigitsValueAppend(a: string, b: string)
    requires AllDigits(a) && AllDigits(b)
    ensures AllDigits(a + b)
    ensures DigitsValue(a + b) == DigitsValue(a) * Power10(|b|) + DigitsValue(b)
  {
    AllDigitsAppend(a, b);
    if b == [] {
      assert a + b == a;
    } else {
      var b' := b[..|b| - 1];
      DigitsValueLast(a, b);
      DigitsValueAppend(a, b');
      ShiftStep(DigitsValue(a), Power10(|b'|), DigitsValue(b'), DigitValue(b[|b| - 1]));
    }
  }

  lemma DigitsValueLast(a: string, b: string)
    requires AllDigits(a) && AllDigits(b) && b != []
    ensures AllDigits(a + b[..|b| - 1])
    ensures DigitsValue(a + b)
         == 10 * DigitsValue(a + b[..|b| - 1]) + DigitValue(b[|b| - 1])
  {
    AllDigitsAppend(a, b);
    AllDigitsAppend(a, b[..|b| - 1]);
    assert (a + b)[..|a + b| - 1] == a + b[..|b| - 1];
    assert (a + b)[|a + b| - 1] == b[|b| - 1];
  }

  lemma ShiftStep(x: int, p: int, y: int, d: int)
    ensures 10 * (x * p + y) + d == x * (10 * p) + (10 * y + d)
  {
  }

  /** (w * p + f) / p == w + f / p. */
  lemma ScaleSplit(w: nat, f: nat, p: nat)
    requires p >= 1
    ensures ((w * p + f) as real) / (p as real) == w as real + (f as real) / (p as real)
  {
    var pr := p as real;
    assert ((w * p + f) as real) == (w as real) * pr + (f as real);
    calc {
      ((w as real) * pr + (f as real)) / pr;
      (w as real) * pr / pr + (f as real) / pr;
      w as real + (f as real) / pr;
    }
  }

  function Power10(k: nat): (p: nat)
    ensures p >= 1
  {
    if k == 0 then 1 else 10 * Power10(k - 1)
  }

  /** 10^k as a real. */
  function Pow10(k: nat): (p: real)
    ensures p >= 1.0 && p == Power10(k) as real
  {
    if k == 0 then 1.0 else 10.0 * Pow10(k - 1)
  }

  // ---------------------------------------------------------------- case

  function LowerChar(c: char): char
  {
    if 'A' <= c <= 'Z' then ((c as int) - ('A' as int) + ('a' as int)) as char else c
  }

  function Lower(s: string): (r: string)
    ensures |r| == |s|
    ensures forall i :: 0 <= i < |s| ==> r[i] == LowerChar(s[i])
  {
    seq(|s|, i requires 0 <= i < |s| => LowerChar(s[i]))
  }
}
