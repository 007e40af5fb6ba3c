/**
 * The numeric conversions the source applies to receipt strings: Python's
 * `int(s)`, `float(s)` for plain decimal forms, and `f"{x:.2f}"`.  Numbers are
 * exact decimals here; see README for how that differs from binary floats.
 */
module Numbers {
  import opened Options
  import opened Text

  /** A signed decimal: (-1 if `negative`) * units / 10^scale.  The sign is kept
      even for zero, as a float's sign bit is. */
  datatype Decimal = Decimal(negative: bool, units: nat, scale: nat)

  /** Sign character handling shared by `int()` and `float()`: the text after an
      optional leading '+' or '-'. */
  function Unsigned(t: string): string
  {
    if t != [] && (t[0] == '-' || t[0] == '+') then t[1..] else t
  }

  predicate IsNegative(t: string)
  {
    t != [] && t[0] == '-'
  }

  /** Digits and single underscores, starting and ending with a digit: the
      literal form `int()` accepts after the sign. */
  predicate IsGroupedDigits(s: string)
  {
    && s != []
    && IsDigit(s[0]) && IsDigit(s[|s| - 1])
    && (forall i :: 0 <= i < |s| ==> IsDigit(s[i]) || s[i] == '_')
    && !Contains(s, "__")
  }

  function DropUnderscores(s: string): (r: string)
    requires forall i :: 0 <= i < |s| ==> IsDigit(s[i]) || s[i] == '_'
    ensures AllDigits(r)
  {
    if s == [] then []
    else if s[0] == '_' then DropUnderscores(s[1..])
    else [s[0]] + DropUnderscores(s[1..])
  }

  /** Python's `int(s)` on a string: `None` stands for the `ValueError`. */
  function ParseInt(s: string): (r: Option<int>)
    ensures r.Some? <==> IsGroupedDigits(Unsigned(Strip(s)))
  {
    var t := Strip(s);
    var body := Unsigned(t);
    if !IsGroupedDigits(body) then None
    else
      var n: int := DigitsValue(DropUnderscores(body));
      Some(if IsNegative(t) then -n else n)
  }

  /** A plain digit string reads as its value under `int()`. */
  lemma DigitStringParsesAsInt(s: string)
    requires IsDigitString(s)
    ensures ParseInt(s) == Some(DigitsValue(s) as int)
  {
    DigitStringIsGrouped(s);
    DropNoUnderscores(s);
  }

  lemma DigitStringIsGrouped(s: string)
    requires IsDigitString(s)
    ensures Strip(s) == s && Unsigned(s) == s && !IsNegative(s) && IsGroupedDigits(s)
  {
    assert Trimmed(s) by {
      assert !IsSpace(s[0]) && !IsSpace(s[|s| - 1]);
    }
    StripTrimmed(s);
    DigitsHaveNoUnderscorePair(s);
  }

  lemma {:induction false} DigitsHaveNoUnderscorePair(s: string)
    requires AllDigits(s)
    ensures !Contains(s, "__")
  {
    if s != [] {
      assert !StartsWith(s, "__") by {
        assert !IsDigit('_');
        if |s| >= 2 {
          assert s[..2][0] == s[0];
        }
      }
      DigitsHaveNoUnderscorePair(s[1..]);
    }
  }

  lemma {:induction false} DropNoUnderscores(s: string)
    requires AllDigits(s)
    ensures DropUnderscores(s) == s
  {
    if s != [] {
      DropNoUnderscores(s[1..]);
    }
  }

  /** The digits of an unsigned plain decimal: `d`, `d.`, `.d` or `d.d`. */
  function UnsignedDecimal(body: string): (r: Option<(nat, nat)>)
  {
    var parts := Split(body, '.');
    if |parts| == 1 && IsDigitString(parts[0]) then
      Some((DigitsValue(parts[0]), 0))
    else if |parts| == 2 && AllDigits(parts[0]) && AllDigits(parts[1]) && parts[0] + parts[1] != [] then
      DigitsValueAppend(parts[0], parts[1]);
      Some((DigitsValue(parts[0] + parts[1]), |parts[1]|))
    else None
  }

  /** Python's `float(s)` for the plain decimal forms; `None` stands for the
      `ValueError` (and for the exponent, infinity, NaN and underscore forms,
      which are not modelled). */
  function ParseFloat(s: string): (r: Option<Decimal>)
  {
    var t := Strip(s);
    match UnsignedDecimal(Unsigned(t))
    case None => None
    case Some((units, scale)) => Some(Decimal(IsNegative(t), units, scale))
  }

  /** The integer nearest to n / d, ties going to the even neighbour, as
      Python's formatting rounds. */
  function RoundHalfEven(n: nat, d: nat): (q: nat)
    requires d > 0
    ensures 2 * (n - q * d) <= d && 2 * (q * d - n) <= d
    ensures 2 * (n - q * d) == d || 2 * (q * d - n) == d ==> q % 2 == 0
  {
    var q0 := n / d;
    var rem := n % d;
    assert n == q0 * d + rem;
    if 2 * rem < d then q0
    else if 2 * rem > d then
      assert (q0 + 1) * d == q0 * d + d;
      q0 + 1
    else if q0 % 2 == 0 then q0
    else
      assert (q0 + 1) * d == q0 * d + d;
      q0 + 1
  }

  /** `f"{x:.2f}"` of a value already rounded to `cents` hundredths. */
  function FormatFixed2(negative: bool, cents: nat): (s: string)
  {
    (if negative then "-" else "") + NatToString(cents / 100) + "."
      + [DigitChar(cents % 100 / 10), DigitChar(cents % 10)]
  }

  /** `total / quantity` rounded to cents; `None` is the `ZeroDivisionError`. */
  function Quotient(a: Decimal, b: Decimal): (r: Option<(bool, nat)>)
    ensures r.Some? <==> b.units != 0
    ensures r.Some? ==> r.value.0 == (a.negative != b.negative)
  {
    if b.units == 0 then None
    else Some((a.negative != b.negative, RoundHalfEven(100 * a.units * Pow10(b.scale), b.units * Pow10(a.scale))))
  }

  /** `unit * quantity` rounded to cents. */
  function Product(a: Decimal, b: Decimal): (bool, nat)
  {
    (a.negative != b.negative, RoundHalfEven(100 * a.units * b.units, Pow10(a.scale + b.scale)))
  }

  /** Round trip: the two-decimal text reads back, under `float()`, as exactly
      the signed number of cents it was made from. */
  lemma FormatFixed2Parses(negative: bool, cents: nat)
    ensures ParseFloat(FormatFixed2(negative, cents)) == Some(Decimal(negative, cents, 2))
  {
    var whole := NatToString(cents / 100);
    var frac := [DigitChar(cents % 100 / 10), DigitChar(cents % 10)];
    var sign := if negative then "-" else "";
    assert FormatFixed2(negative, cents) == sign + (whole + "." + frac);
    FormattedDigits(cents);
    PointedEnds(whole, frac);
    ParseFloatSigned(sign, whole + "." + frac, cents, 2);
  }

  /** The unsigned part of the two-decimal text reads back as the cents. */
  lemma FormattedDigits(cents: nat)
    ensures UnsignedDecimal(NatToString(cents / 100) + "." + [DigitChar(cents % 100 / 10), DigitChar(cents % 10)])
            == Some((cents, 2))
  {
    var whole := NatToString(cents / 100);
    var frac := [DigitChar(cents % 100 / 10), DigitChar(cents % 10)];
    UnsignedDecimalPointed(whole, frac);
    CentsDigits(cents);
  }

  lemma ParseFloatOf(s: string, body: string, units: nat, scale: nat)
    requires Strip(s) == s && Unsigned(s) == body
    requires UnsignedDecimal(body) == Some((units, scale))
    ensures ParseFloat(s) == Some(Decimal(IsNegative(s), units, scale))
  {
  }

  lemma CentsDigits(cents: nat)
    ensures DigitsValue(NatToString(cents / 100)) * Pow10(2)
            + DigitsValue([DigitChar(cents % 100 / 10), DigitChar(cents % 10)]) == cents
  {
    var hi, lo := cents % 100 / 10, cents % 10;
    TwoDigitsValue(hi, lo);
    CentsSplit(cents);
    assert Pow10(2) == 100;
  }

  lemma TwoDigitsValue(hi: nat, lo: nat)
    requires hi < 10 && lo < 10
    ensures DigitsValue([DigitChar(hi), DigitChar(lo)]) == hi * 10 + lo
  {
    var frac := [DigitChar(hi), DigitChar(lo)];
    assert frac[..1] == [frac[0]] && [frac[0]][..0] == [];
    assert DigitsValue(frac[..1]) == DigitValue(frac[0]);
  }

  lemma CentsSplit(cents: nat)
    ensures cents / 100 * 100 + (cents % 100 / 10 * 10 + cents % 10) == cents
  {
    var q, r := cents / 100, cents % 100;
    var h, l := r / 10, r % 10;
    assert cents == q * 100 + r;
    assert r == h * 10 + l;
    LastDigit(cents, q * 10 + h, l);
  }

  lemma LastDigit(n: int, k: int, l: int)
    requires n == k * 10 + l && 0 <= l < 10
    ensures n % 10 == l
  {
  }

  /** `whole.frac`, either part possibly empty but not both, reads as its
      digits with `|frac|` of them after the point. */
  lemma UnsignedDecimalPointed(whole: string, frac: string)
    requires AllDigits(whole) && AllDigits(frac) && whole + frac != []
    ensures UnsignedDecimal(whole + "." + frac)
            == Some((DigitsValue(whole) * Pow10(|frac|) + DigitsValue(frac), |frac|))
  {
    SplitAtPoint(whole, frac);
    UnsignedDecimalOfParts(whole, frac);
  }

  lemma UnsignedDecimalOfParts(whole: string, frac: string)
    requires AllDigits(whole) && AllDigits(frac) && whole + frac != []
    requires Split(whole + "." + frac, '.') == [whole, frac]
    ensures UnsignedDecimal(whole + "." + frac)
            == Some((DigitsValue(whole) * Pow10(|frac|) + DigitsValue(frac), |frac|))
  {
    var parts := Split(whole + "." + frac, '.');
    assert |parts| == 2 && parts[0] == whole && parts[1] == frac;
    DigitsValueAppend(whole, frac);
  }

  lemma SplitAtPoint(whole: string, frac: string)
    requires AllDigits(whole) && AllDigits(frac)
    ensures Split(whole + "." + frac, '.') == [whole, frac]
  {
    assert '.' !in whole && '.' !in frac by {
      assert !IsDigit('.');
    }
    SplitInTwo(whole, frac, '.');
  }

  /** The text `float()` accepts after the sign: digits and at most one point,
      with at least one digit. */
  predicate IsPlainDecimal(b: string)
  {
    && (forall i :: 0 <= i < |b| ==> IsDigit(b[i]) || b[i] == '.')
    && (forall i, j :: 0 <= i < j < |b| && b[i] == '.' ==> b[j] != '.')
    && HasDigit(b)
  }

  /** `float()` succeeds exactly on stripped text made of an optional sign and
      a plain decimal; two points, no digit, or any other character raise
      `ValueError`. */
  lemma ParseFloatSucceeds(s: string)
    ensures ParseFloat(s).Some? <==> IsPlainDecimal(Unsigned(Strip(s)))
  {
    var b := Unsigned(Strip(s));
    if IsPlainDecimal(b) {
      PlainDecimalParses(b);
    }
    if UnsignedDecimal(b).Some? {
      ParsedIsPlainDecimal(b);
    }
  }

  lemma PlainDecimalParses(b: string)
    requires IsPlainDecimal(b)
    ensures UnsignedDecimal(b).Some?
  {
    if '.' in b {
      var k :| 0 <= k < |b| && b[k] == '.';
      PlainDecimalAt(b, k);
      UnsignedDecimalPointed(b[..k], b[k + 1..]);
    } else {
      SplitNoSeparator(b, '.');
      assert b != [];
    }
  }

  /** A plain decimal with its point at `k` is two digit runs around it. */
  lemma PlainDecimalAt(b: string, k: nat)
    requires IsPlainDecimal(b) && k < |b| && b[k] == '.'
    ensures b == b[..k] + "." + b[k + 1..]
    ensures AllDigits(b[..k]) && AllDigits(b[k + 1..]) && b[..k] + b[k + 1..] != []
  {
    var whole, frac := b[..k], b[k + 1..];
    assert b == whole + "." + frac;
    forall i | 0 <= i < |whole| ensures IsDigit(whole[i]) {
      assert whole[i] == b[i];
    }
    forall i | 0 <= i < |frac| ensures IsDigit(frac[i]) {
      assert frac[i] == b[k + 1 + i];
    }
    var d :| 0 <= d < |b| && IsDigit(b[d]);
    if d < k {
      assert whole[d] == b[d];
    } else {
      assert frac[d - k - 1] == b[d];
    }
  }

  lemma ParsedIsPlainDecimal(b: string)
    requires UnsignedDecimal(b).Some?
    ensures IsPlainDecimal(b)
  {
    var parts := Split(b, '.');
    if |parts| == 1 {
      assert b == parts[0];
      assert IsDigit(b[0]);
    } else {
      assert |parts| == 2;
      assert Join(parts[1..], '.') == parts[1];
      PointedIsPlainDecimal(parts[0], parts[1]);
    }
  }

  lemma PointedIsPlainDecimal(whole: string, frac: string)
    requires AllDigits(whole) && AllDigits(frac) && whole + frac != []
    ensures IsPlainDecimal(whole + "." + frac)
  {
    var b := whole + "." + frac;
    forall i | 0 <= i < |b| && i != |whole| ensures IsDigit(b[i]) {
      if i < |whole| {
        assert b[i] == whole[i];
      } else {
        assert b[i] == frac[i - |whole| - 1];
      }
    }
    if whole != [] {
      assert IsDigit(b[0]);
    } else {
      assert IsDigit(b[1]);
    }
  }

  /** The sign and surrounding text of a number `float()` reads: nothing to
      strip, the sign dropped, and negative exactly for '-'. */
  lemma SignShape(sign: string, body: string)
    requires sign == "" || sign == "+" || sign == "-"
    requires body != [] && (IsDigit(body[0]) || body[0] == '.')
    requires IsDigit(body[|body| - 1]) || body[|body| - 1] == '.'
    ensures Strip(sign + body) == sign + body
    ensures Unsigned(sign + body) == body && IsNegative(sign + body) == (sign == "-")
  {
    SignTrimmed(sign, body);
    StripTrimmed(sign + body);
    SignDropped(sign, body);
  }

  lemma SignTrimmed(sign: string, body: string)
    requires sign == "" || sign == "+" || sign == "-"
    requires body != [] && (IsDigit(body[0]) || body[0] == '.')
    requires IsDigit(body[|body| - 1]) || body[|body| - 1] == '.'
    ensures Trimmed(sign + body)
  {
    var s := sign + body;
    assert s[|s| - 1] == body[|body| - 1];
    assert s[0] == if sign == "" then body[0] else sign[0];
  }

  lemma SignDropped(sign: string, body: string)
    requires sign == "" || sign == "+" || sign == "-"
    requires body != [] && (IsDigit(body[0]) || body[0] == '.')
    ensures Unsigned(sign + body) == body && IsNegative(sign + body) == (sign == "-")
  {
    if sign == "" {
      assert sign + body == body;
    } else {
      assert (sign + body)[0] == sign[0];
      assert (sign + body)[1..] == body;
    }
  }

  /** `float()` of an optionally signed digit string is its value. */
  lemma ParseFloatWhole(sign: string, digits: string)
    requires sign == "" || sign == "+" || sign == "-"
    requires IsDigitString(digits)
    ensures ParseFloat(sign + digits) == Some(Decimal(sign == "-", DigitsValue(digits), 0))
  {
    WholeDecimal(digits);
    ParseFloatSigned(sign, digits, DigitsValue(digits), 0);
  }

  lemma WholeDecimal(digits: string)
    requires IsDigitString(digits)
    ensures UnsignedDecimal(digits) == Some((DigitsValue(digits), 0))
  {
    SplitNoSeparator(digits, '.');
  }

  /** `float()` of an optionally signed `w.f`, `w.` or `.f` reads the digits
      of `w` and `f` together as one number with `|f|` of them after the
      point. */
  lemma ParseFloatPointed(sign: string, whole: string, frac: string)
    requires sign == "" || sign == "+" || sign == "-"
    requires AllDigits(whole) && AllDigits(frac) && whole + frac != []
    ensures AllDigits(whole + frac)
    ensures ParseFloat(sign + (whole + "." + frac)) == Some(Decimal(sign == "-", DigitsValue(whole + frac), |frac|))
  {
    PointedDigits(whole, frac);
    PointedEnds(whole, frac);
    ParseFloatSigned(sign, whole + "." + frac, DigitsValue(whole + frac), |frac|);
  }

  lemma PointedDigits(whole: string, frac: string)
    requires AllDigits(whole) && AllDigits(frac) && whole + frac != []
    ensures AllDigits(whole + frac)
    ensures UnsignedDecimal(whole + "." + frac) == Some((DigitsValue(whole + frac), |frac|))
  {
    SplitAtPoint(whole, frac);
    var parts := Split(whole + "." + frac, '.');
    assert |parts| == 2 && parts[0] == whole && parts[1] == frac;
    assert AllDigits(whole + frac) by {
      forall i | 0 <= i < |whole + frac| ensures IsDigit((whole + frac)[i]) {
        if i >= |whole| {
          assert (whole + frac)[i] == frac[i - |whole|];
        }
      }
    }
  }

  lemma ParseFloatSigned(sign: string, body: string, units: nat, scale: nat)
    requires sign == "" || sign == "+" || sign == "-"
    requires body != [] && (IsDigit(body[0]) || body[0] == '.')
    requires IsDigit(body[|body| - 1]) || body[|body| - 1] == '.'
    requires UnsignedDecimal(body) == Some((units, scale))
    ensures ParseFloat(sign + body) == Some(Decimal(sign == "-", units, scale))
  {
    var s := sign + body;
    SignShape(sign, body);
    assert Strip(s) == s && Unsigned(s) == body;
    ParseFloatOf(s, body, units, scale);
    assert IsNegative(s) == (sign == "-");
  }

  lemma PointedEnds(whole: string, frac: string)
    requires AllDigits(whole) && AllDigits(frac)
    ensures var body := whole + "." + frac;
      && body != [] && (IsDigit(body[0]) || body[0] == '.')
      && (IsDigit(body[|body| - 1]) || body[|body| - 1] == '.')
  {
    var body := whole + "." + frac;
    assert body[0] == if whole != [] then whole[0] else '.';
    assert body[|body| - 1] == if frac != [] then frac[|frac| - 1] else '.';
  }

  /** A digit string, such as every quantity the parser extracts, reads under
      `float()` as its value. */
  lemma DigitStringParsesAsFloat(s: string)
    requires IsDigitString(s)
    ensures ParseFloat(s) == Some(Decimal(false, DigitsValue(s), 0))
  {
    ParseFloatWhole("", s);
    assert "" + s == s;
  }
}
