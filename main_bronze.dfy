/** Splitting a raw PI Web API value into the numeric, text and boolean
    channels of the bronze table (etl/capa_bronze/main_bronze.py). */
module MainBronze {
  import opened Common

  /** The dynamic type of a value as received. Floats carry the text that
      Python's str() gives for them; an unknown type carries its str(), or
      None when str() raises. */
  datatype PiValue =
    | PDict
    | PBool(b: bool)
    | PInt(i: int)
    | PFloat(f: Cell, repr: string)
    | PStr(s: string)
    | PNone
    | POther(str: Option<string>)

  /** (value, value_text, value_bool). */
  datatype Channels = Channels(value: Cell, text: Option<string>, flag: Option<bool>)

  /** Integers from here on round to 2^1024 and make float() raise
      OverflowError. */
  const FloatIntLimit: int := 0xfffffffffffffc00000000000000000000000000000000000000000000000000000000000000000000000000000000000000000000000000000000000000000000000000000000000000000000000000000000000000000000000000000000000000000000000000000000000000000000000000000000000000000000000000

  // ------------------------------------------------------- decimal parsing

  predicate IsDigit(c: char) { '0' <= c <= '9' }

  predicate AllDigits(s: string) { forall i :: 0 <= i < |s| ==> IsDigit(s[i]) }

  /** The value of a string of decimal digits. */
  function DigitsValue(s: string): nat
    requires AllDigits(s)
  {
    if |s| == 0 then 0 else DigitsValue(s[..|s| - 1]) * 10 + (s[|s| - 1] as int - '0' as int)
  }

  function Pow10(k: nat): (p: nat)
    ensures p > 0
  {
    if k == 0 then 1 else 10 * Pow10(k - 1)
  }

  /** The number written `whole.frac`. */
  function Decimal(whole: string, frac: string): (r: real)
    requires AllDigits(whole) && AllDigits(frac)
    ensures r >= 0.0
  {
    DigitsValue(whole) as real + DigitsValue(frac) as real / Pow10(|frac|) as real
  }

  /** Position of the first occurrence of c. */
  function FindChar(s: string, c: char): (r: Option<nat>)
    ensures r.Some? ==> r.value < |s| && s[r.value] == c && forall i :: 0 <= i < r.value ==> s[i] != c
    ensures r.None? ==> forall i :: 0 <= i < |s| ==> s[i] != c
  {
    if |s| == 0 then None
    else if s[0] == c then Some(0)
    else
      var r := FindChar(s[1..], c);
      if r.Some? then Some(r.value + 1) else None
  }

  /** An unsigned decimal: digits, optionally one point, at least one digit. */
  function ParseUnsigned(s: string): (r: Option<real>)
    ensures r.Some? ==> r.value >= 0.0
  {
    match FindChar(s, '.')
    case None =>
      if |s| > 0 && AllDigits(s) then Some(DigitsValue(s) as real) else None
    case Some(p) =>
      var whole, frac := s[..p], s[p + 1..];
      if |whole| + |frac| > 0 && AllDigits(whole) && AllDigits(frac)
      then Some(Decimal(whole, frac))
      else None
  }

  /** Python's float() on plain decimal text: an optional sign, then an
      unsigned decimal. */
  function ParseFloat(s: string): (r: Option<real>)
  {
    if |s| > 0 && (s[0] == '-' || s[0] == '+') then
      var u := ParseUnsigned(s[1..]);
      if u.None? then None else if s[0] == '-' then Some(-u.value) else u
    else ParseUnsigned(s)
  }

  /** `s.replace(",", ".")`. */
  function CommaToPoint(s: string): (r: string)
    ensures |r| == |s|
    ensures forall i :: 0 <= i < |s| ==> r[i] == if s[i] == ',' then '.' else s[i]
  {
    seq(|s|, i requires 0 <= i < |s| => if s[i] == ',' then '.' else s[i])
  }

  /** The numeric channel of a string: the stripped text as a float, else
      with the comma read as a decimal point, else NaN. */
  function StringValue(x: string): (v: Cell)
    ensures v.Fin? || v.NaN?
  {
    var stripped := Strip(x, IsSpace);
    match ParseFloat(stripped)
    case Some(r) => Fin(r)
    case None =>
      match ParseFloat(CommaToPoint(stripped))
      case Some(r) => Fin(r)
      case None => NaN
  }

  // ------------------------------------------------------------ the split

  function BoolText(b: bool): string { if b then "True" else "False" }

  /** `split_pi_value`. */
  function SplitPiValue(x: PiValue): (c: Channels)
    ensures c.flag.Some? <==> x.PBool?
    ensures x.PBool? ==> c == Channels(NaN, Some(BoolText(x.b)), Some(x.b))
    ensures x.PDict? || x.PNone? ==> c == Channels(NaN, None, None)
    ensures x.PStr? ==> c.text == Some(x.s) && c.value == StringValue(x.s) && c.flag.None?
    ensures x.PFloat? ==> c == Channels(x.f, Some(x.repr), None)
    ensures x.PInt? ==> c.text == Some(IntToString(x.i))
    ensures x.PInt? ==> c.value == if -FloatIntLimit < x.i < FloatIntLimit then Fin(x.i as real) else NaN
    ensures x.POther? ==> c == Channels(NaN, x.str, None)
  {
    match x
    case PDict => Channels(NaN, None, None)
    case PBool(b) => Channels(NaN, Some(BoolText(b)), Some(b))
    case PInt(i) =>
      if -FloatIntLimit < i < FloatIntLimit then Channels(Fin(i as real), Some(IntToString(i)), None)
      else Channels(NaN, Some(IntToString(i)), None)
    case PFloat(f, repr) => Channels(f, Some(repr), None)
    case PStr(s) => Channels(StringValue(s), Some(s), None)
    case PNone => Channels(NaN, None, None)
    case POther(str) => Channels(NaN, str, None)
  }

  // ----------------------------------------------------------- properties

  /** Digits written by str() read back as the same number. */
  lemma {:induction false} DigitsRoundTrip(n: nat)
    ensures AllDigits(NatToString(n)) && DigitsValue(NatToString(n)) == n
    decreases n
  {
    var s := NatToString(n);
    if n >= 10 {
      DigitsRoundTrip(n / 10);
      var prefix := NatToString(n / 10);
      assert s[..|s| - 1] == prefix;
      assert s[|s| - 1] == DigitChar(n % 10);
    }
    DigitCharValue(n % 10);
  }

  lemma DigitCharValue(d: nat)
    requires d < 10
    ensures DigitChar(d) as int - '0' as int == d
  {
  }

  lemma ParseDigits(n: nat)
    ensures ParseUnsigned(NatToString(n)) == Some(n as real)
  {
    var digits := NatToString(n);
    DigitsRoundTrip(n);
    assert FindChar(digits, '.').None?;
  }

  /** str() of an integer parses back to that integer. */
  lemma ParseIntText(i: int)
    ensures ParseFloat(IntToString(i)) == Some(i as real)
  {
    var s := IntToString(i);
    if i < 0 {
      ParseDigits(-i);
      assert s[1..] == NatToString(-i);
    } else {
      ParseDigits(i);
      assert s[0] != '-' && s[0] != '+';
    }
  }

  /** The numeric channel of a string holding str() of an integer. */
  lemma IntTextValue(i: int)
    ensures StringValue(IntToString(i)) == Fin(i as real)
  {
    var s := IntToString(i);
    StripKeepsNumber(s);
    ParseIntText(i);
  }

  /** The text channel of an integer, fed back as a string, gives the same
      numeric value as the integer itself. */
  lemma IntTextRoundTrip(i: int)
    requires -FloatIntLimit < i < FloatIntLimit
    ensures SplitPiValue(PStr(SplitPiValue(PInt(i)).text.value)).value == SplitPiValue(PInt(i)).value
  {
    IntTextValue(i);
  }

  /** Digits with a comma are not a Python float literal. */
  lemma CommaTextUnparsed(w: string, f: string)
    requires |w| > 0 && AllDigits(w) && AllDigits(f)
    ensures ParseFloat(w + "," + f) == None
  {
    var s := w + "," + f;
    assert s[0] == w[0];
    assert s[|w|] == ',';
    assert FindChar(s, '.').None? by {
      assert forall i :: 0 <= i < |s| ==> s[i] != '.' by {
        assert forall i :: 0 <= i < |w| ==> s[i] == w[i];
        assert forall i :: |w| < i < |s| ==> s[i] == f[i - |w| - 1];
      }
    }
  }

  /** The replacement turns exactly the comma into a point. */
  lemma CommaReplaced(w: string, f: string)
    requires AllDigits(w) && AllDigits(f)
    ensures CommaToPoint(w + "," + f) == w + "." + f
  {
    var s := w + "," + f;
    assert forall i :: 0 <= i < |w| ==> s[i] == w[i];
    assert forall i :: |w| < i < |s| ==> s[i] == f[i - |w| - 1];
  }

  /** Digits, a point and digits parse as that decimal. */
  lemma PointedParsed(w: string, f: string)
    requires |w| > 0 && AllDigits(w) && AllDigits(f)
    ensures ParseFloat(w + "." + f) == Some(Decimal(w, f))
  {
    var t := w + "." + f;
    PointFound(w, f);
    Unsigned(t);
    assert t[..|w|] == w;
    assert t[|w| + 1..] == f;
    UnsignedWithPoint(t, |w|);
  }

  lemma Unsigned(t: string)
    requires |t| > 0 && IsDigit(t[0])
    ensures ParseFloat(t) == ParseUnsigned(t)
  {
  }

  lemma UnsignedWithPoint(t: string, p: nat)
    requires FindChar(t, '.') == Some(p) && AllDigits(t[..p]) && AllDigits(t[p + 1..]) && p > 0
    ensures ParseUnsigned(t) == Some(Decimal(t[..p], t[p + 1..]))
  {
  }

  lemma PointFound(w: string, f: string)
    requires AllDigits(w)
    ensures FindChar(w + "." + f, '.') == Some(|w|)
  {
    var t := w + "." + f;
    assert forall i :: 0 <= i < |w| ==> t[i] == w[i];
    assert t[|w|] == '.';
  }

  /** Digits, a comma and digits read as a decimal number with the comma as
      the decimal point. */
  lemma CommaDecimal(w: string, f: string)
    requires |w| > 0 && |f| > 0 && AllDigits(w) && AllDigits(f)
    ensures StringValue(w + "," + f) == Fin(Decimal(w, f))
  {
    var s := w + "," + f;
    assert s[0] == w[0] && s[|s| - 1] == f[|f| - 1];
    StripKeepsNumber(s);
    CommaTextUnparsed(w, f);
    CommaReplaced(w, f);
    PointedParsed(w, f);
  }

  /** A comma followed only by zeros adds nothing: "1,000" reads as 1.0,
      so the comma is never taken as a thousands separator. */
  lemma CommaNotThousands(w: string, zeros: string)
    requires |w| > 0 && AllDigits(w)
    requires |zeros| > 0 && forall i :: 0 <= i < |zeros| ==> zeros[i] == '0'
    ensures StringValue(w + "," + zeros) == Fin(DigitsValue(w) as real)
  {
    ZerosValue(zeros);
    CommaDecimal(w, zeros);
    var p := Pow10(|zeros|) as real;
    assert 0.0 / p == 0.0;
    assert Decimal(w, zeros) == DigitsValue(w) as real + 0.0 / p;
  }

  lemma {:induction false} ZerosValue(zeros: string)
    requires forall i :: 0 <= i < |zeros| ==> zeros[i] == '0'
    ensures AllDigits(zeros) && DigitsValue(zeros) == 0
  {
    if |zeros| > 0 {
      ZerosValue(zeros[..|zeros| - 1]);
    }
  }

  /** Decimal text with no surrounding space is left alone by strip(). */
  lemma StripKeepsNumber(s: string)
    requires |s| > 0 && !IsSpace(s[0]) && !IsSpace(s[|s| - 1])
    ensures Strip(s, IsSpace) == s
  {
  }
}
