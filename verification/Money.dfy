/** Exact conversion between stroops and decimal USDC text. */
module Money {
  import opened Prelude
  import opened Digits

  const USDC_DECIMALS := 7
  const STROOP := 10_000_000

  lemma {:induction false} StroopIs(n: nat)
    ensures Shift(n, USDC_DECIMALS) == n * STROOP
  {
    assert Shift(n, 1) == n * 10;
    assert Shift(n, 2) == n * 100;
    assert Shift(n, 3) == n * 1000;
    assert Shift(n, 4) == n * 10000;
    assert Shift(n, 5) == n * 100000;
    assert Shift(n, 6) == n * 1000000;
  }

  /** Whole and fractional stroops are the value of the digits written together. */
  lemma {:induction false} SevenDigits(whole: string, seven: string)
    requires AllDigits(whole) && AllDigits(seven) && |seven| == USDC_DECIMALS
    ensures AllDigits(whole + seven) && Val(whole + seven) == Val(whole) * STROOP + Val(seven)
  {
    StroopIs(Val(whole));
    ValConcat(whole, seven);
  }

  // ----- What a decimal text means -----

  datatype Exponent = NoExponent | Exponent(mark: char, sign: string, digits: string)

  /** A non-negative decimal: digits, an optional fraction, an optional exponent. */
  datatype Decimal = Decimal(whole: string, frac: string, exponent: Exponent)

  predicate WellFormed(d: Decimal) {
    && d.whole != "" && AllDigits(d.whole) && AllDigits(d.frac)
    && (d.exponent.Exponent? ==>
          && d.exponent.mark in "eE" && d.exponent.sign in ["", "+", "-"]
          && d.exponent.digits != "" && AllDigits(d.exponent.digits))
  }

  function ExponentText(x: Exponent): string {
    if x.NoExponent? then "" else [x.mark] + x.sign + x.digits
  }

  function Plain(whole: string, frac: string): string {
    if frac == "" then whole else whole + "." + frac
  }

  function Text(d: Decimal): string {
    Plain(d.whole, d.frac) + ExponentText(d.exponent)
  }

  function ExponentValue(x: Exponent): int
    requires x.Exponent? ==> AllDigits(x.digits)
  {
    var magnitude: int := if x.NoExponent? then 0 else Val(x.digits);
    if x.Exponent? && x.sign == "-" then -magnitude else magnitude
  }

  /** The decimal's rational value times 10^7, when that is an integer. */
  function Stroops(d: Decimal): Option<nat>
    requires WellFormed(d)
  {
    Scaled(Val(d.whole + d.frac), USDC_DECIMALS + ExponentValue(d.exponent) - |d.frac|)
  }

  // ----- The conversions -----

  /** The characters JavaScript's `trim` removes. */
  predicate White(c: char) {
    || c == ' ' || '\t' <= c <= '\r' || '\U{2000}' <= c <= '\U{200A}'
    || c in "\U{00A0}\U{1680}\U{2028}\U{2029}\U{202F}\U{205F}\U{3000}\U{FEFF}"
  }

  function TrimStart(s: string): string {
    if s == "" || !White(s[0]) then s else TrimStart(s[1..])
  }

  function TrimEnd(s: string): string {
    if s == "" || !White(s[|s| - 1]) then s else TrimEnd(s[..|s| - 1])
  }

  function Trim(s: string): string {
    TrimEnd(TrimStart(s))
  }

  /** The leading digits, an optional fraction after them, and what follows. */
  function Scan(s: string): (r: (string, string, string))
    ensures AllDigits(r.0) && AllDigits(r.1)
    ensures s == Plain(r.0, r.1) + r.2
  {
    var n := DigitRun(s);
    if n < |s| && s[n] == '.' && DigitRun(s[n + 1..]) > 0 then
      var m := DigitRun(s[n + 1..]);
      assert s == s[..n] + "." + s[n + 1..][..m] + s[n + 1 + m..];
      (s[..n], s[n + 1..][..m], s[n + 1 + m..])
    else (s[..n], "", s[n..])
  }

  /** `[eE][+-]?\d+` */
  function ScanExponent(s: string): (x: Option<Exponent>)
    ensures x.Some? ==> x.value.Exponent? && WellFormed(Decimal("0", "", x.value)) && s == ExponentText(x.value)
  {
    if s == "" || s[0] !in "eE" then None
    else
      var sign := if |s| > 1 && s[1] in "+-" then [s[1]] else "";
      var digits := s[1 + |sign|..];
      if digits == "" || !AllDigits(digits) then None
      else
        assert s == [s[0]] + sign + digits;
        Some(Exponent(s[0], sign, digits))
  }

  /** The digits before and after the point once it is moved by `exp`. */
  function MovePoint(intPart: string, fracPart: string, exp: int): (string, string) {
    var digits, pointFromLeft := intPart + fracPart, |intPart| + exp;
    if pointFromLeft <= 0 then ("0", Repeat('0', -pointFromLeft) + digits)
    else if pointFromLeft >= |digits| then (digits + Repeat('0', pointFromLeft - |digits|), "")
    else (digits[..pointFromLeft], digits[pointFromLeft..])
  }

  function Expand(intPart: string, fracPart: string, exp: int): string {
    var (whole, frac) := MovePoint(intPart, fracPart, exp);
    Plain(whole, frac)
  }

  /** How long a decimal with `whole` and `frac` digits is once its point is moved by `exp`. */
  function ExpandedLength(whole: nat, frac: nat, exp: int): nat {
    var pointFromLeft := whole + exp;
    if pointFromLeft <= 0 then 2 - pointFromLeft + whole + frac
    else if pointFromLeft >= whole + frac then pointFromLeft
    else whole + frac + 1
  }

  /** The exponent calls for a text longer than any string. */
  predicate TooLong(d: Decimal, longest: nat)
    requires WellFormed(d)
  {
    d.exponent.Exponent? && ExpandedLength(|d.whole|, |d.frac|, ExponentValue(d.exponent)) > longest
  }

  /** A text, unless it would be longer than any string. */
  function Bounded(text: string, longest: nat): Option<string> {
    if |text| > longest then None else Some(text)
  }

  /** Exponent notation rewritten without an exponent; other texts unchanged. */
  function ToPlainDecimal(text: string, longest: nat): Option<string> {
    var s := Trim(text);
    if s == "" || s[0] == '-' then None
    else
      var (whole, frac, rest) := Scan(s);
      var x := ScanExponent(rest);
      if whole != "" && x.Some? then Bounded(Expand(whole, frac, ExponentValue(x.value)), longest)
      else if 'e' in s || 'E' in s then None
      else Some(s)
  }

  function StripZeros(s: string): string {
    if s == "" || s[|s| - 1] != '0' then s else StripZeros(s[..|s| - 1])
  }

  /** Whole and fractional digits as stroops; more than seven significant decimals are refused. */
  function Fixed(whole: string, fracRaw: string): Option<nat>
    requires AllDigits(whole) && AllDigits(fracRaw)
  {
    var frac := StripZeros(fracRaw);
    if |frac| > USDC_DECIMALS then None
    else
      StripZerosDigits(fracRaw);
      Some(Val(whole) * STROOP + Val(frac + Repeat('0', USDC_DECIMALS - |frac|)))
  }

  function FromPlain(s: string): Option<nat> {
    var (whole, frac, rest) := Scan(s);
    if whole == "" || rest != "" then None else Fixed(whole, frac)
  }

  /** `longest` is the length of the longest string there can be. */
  function UsdcToStroops(text: string, longest: nat): Option<nat> {
    match ToPlainDecimal(text, longest)
    case None => None
    case Some(s) => FromPlain(s)
  }

  /** The exact inverse: every fractional digit, trailing zeros stripped. */
  function StroopsToUsdc(n: int): string {
    if n < 0 then "0" else Plain(Dec(n / STROOP), StripZeros(PadStart(Dec(n % STROOP), USDC_DECIMALS)))
  }

  /** Always 7 decimal places (the CSV export and tagged exact amounts). */
  function ExactUsdc(n: nat): string {
    Dec(n / STROOP) + "." + PadStart(Dec(n % STROOP), USDC_DECIMALS)
  }

  /** Two decimal places, truncated. */
  function FormatUsdc(n: int): string {
    if n < 0 then "0.00" else Dec(n / STROOP) + "." + PadStart(Dec(n % STROOP), USDC_DECIMALS)[..2]
  }

  // ----- Proofs -----

  lemma {:induction false} StripZerosDigits(s: string)
    requires AllDigits(s)
    ensures var t := StripZeros(s);
            && AllDigits(t) && |t| <= |s| && t == s[..|t|]
            && (forall i :: |t| <= i < |s| ==> s[i] == '0')
            && (t != "" ==> t[|t| - 1] != '0')
  {
    if s != "" && s[|s| - 1] == '0' {
      StripZerosDigits(s[..|s| - 1]);
    }
  }

  lemma {:induction false} ScanWhole(whole: string, rest: string)
    requires AllDigits(whole) && (rest != "" ==> !IsDigit(rest[0]) && rest[0] != '.')
    ensures Scan(whole + rest) == (whole, "", rest)
  {
    DigitRunOf(whole, rest);
  }

  lemma {:induction false} ScanFraction(s: string, whole: string, frac: string, rest: string)
    requires AllDigits(whole) && AllDigits(frac) && frac != "" && (rest != "" ==> !IsDigit(rest[0]))
    requires s == whole + ("." + (frac + rest))
    ensures Scan(s) == (whole, frac, rest)
  {
    DigitRunOf(whole, "." + (frac + rest));
    DigitRunOf(frac, rest);
    assert s[..|whole|] == whole && s[|whole|] == '.' && s[|whole| + 1..] == frac + rest;
    assert (frac + rest)[..|frac|] == frac;
    assert s[|whole| + 1 + |frac|..] == rest;
  }

  lemma {:induction false} ScanPlain(whole: string, frac: string, rest: string)
    requires AllDigits(whole) && AllDigits(frac)
    requires rest != "" ==> !IsDigit(rest[0]) && rest[0] != '.'
    ensures Scan(Plain(whole, frac) + rest) == (whole, frac, rest)
  {
    if frac == "" {
      ScanWhole(whole, rest);
    } else {
      assert (whole + "." + frac) + rest == whole + ("." + (frac + rest));
      ScanFraction(Plain(whole, frac) + rest, whole, frac, rest);
    }
  }

  /** Seven digits after the point, if the digits beyond are zeros. */
  function ToSeven(frac: string): string {
    if |frac| <= USDC_DECIMALS then frac + Repeat('0', USDC_DECIMALS - |frac|) else frac[..USDC_DECIMALS]
  }

  /** Stripping trailing zeros and padding gives the first seven digits, or too many digits remain. */
  lemma {:induction false} StripAndPad(frac: string)
    requires AllDigits(frac)
    ensures var strip := StripZeros(frac);
            |strip| <= USDC_DECIMALS ==> strip + Repeat('0', USDC_DECIMALS - |strip|) == ToSeven(frac)
    ensures |StripZeros(frac)| <= USDC_DECIMALS <==> |frac| <= USDC_DECIMALS || AllZero(frac[USDC_DECIMALS..])
  {
    StripZerosDigits(frac);
    var strip := StripZeros(frac);
    if |strip| > USDC_DECIMALS {
      assert frac[USDC_DECIMALS..][|strip| - 1 - USDC_DECIMALS] != '0';
    }
  }

  lemma {:induction false} FixedIs(whole: string, frac: string)
    requires AllDigits(whole) && AllDigits(frac)
    ensures AllDigits(ToSeven(frac))
    ensures Fixed(whole, frac)
         == if |frac| <= USDC_DECIMALS || AllZero(frac[USDC_DECIMALS..]) then Some(Val(whole + ToSeven(frac))) else None
  {
    StripZerosDigits(frac);
    StripAndPad(frac);
    SevenDigits(whole, ToSeven(frac));
  }

  lemma {:induction false} SevenRescales(whole: string, frac: string)
    requires AllDigits(whole) && AllDigits(frac)
    ensures Rescale(whole + frac, USDC_DECIMALS - |frac|)
         == if |frac| <= USDC_DECIMALS || AllZero(frac[USDC_DECIMALS..]) then Some(whole + ToSeven(frac)) else None
  {
    var all := whole + frac;
    if |frac| <= USDC_DECIMALS {
      assert all + Repeat('0', USDC_DECIMALS - |frac|) == whole + ToSeven(frac);
    } else {
      assert all[|whole| + USDC_DECIMALS..] == frac[USDC_DECIMALS..];
      assert all[..|whole| + USDC_DECIMALS] == whole + ToSeven(frac);
    }
  }

  /** What the digits, shifted by the decimals that are missing or too many, come to. */
  function Amount(digits: string, shift: int): (v: Option<nat>)
    requires AllDigits(digits)
  {
    ValOf(Rescale(digits, shift))
  }

  lemma {:induction false} FromPlainIs(whole: string, frac: string)
    requires whole != "" && AllDigits(whole) && AllDigits(frac)
    ensures FromPlain(Plain(whole, frac)) == Amount(whole + frac, USDC_DECIMALS - |frac|)
  {
    assert Plain(whole, frac) + "" == Plain(whole, frac);
    ScanPlain(whole, frac, "");
    FixedIs(whole, frac);
    SevenRescales(whole, frac);
  }

  lemma {:induction false} MoveLeft(digits: string, k: nat, shift: int)
    requires AllDigits(digits) && shift == USDC_DECIMALS - k - |digits|
    ensures var frac := Repeat('0', k) + digits;
            AllDigits("0" + frac) && Amount("0" + frac, USDC_DECIMALS - |frac|) == Amount(digits, shift)
  {
    assert "0" + (Repeat('0', k) + digits) == Repeat('0', k + 1) + digits;
    RescaleLeading(digits, k + 1, shift);
  }

  lemma {:induction false} MoveRight(digits: string, k: nat, shift: int)
    requires AllDigits(digits) && shift == USDC_DECIMALS + k
    ensures var whole := digits + Repeat('0', k);
            AllDigits(whole + "") && Amount(whole + "", USDC_DECIMALS) == Amount(digits, shift)
  {
    var whole := digits + Repeat('0', k);
    assert whole + "" == whole;
    assert whole + Repeat('0', USDC_DECIMALS) == digits + Repeat('0', shift);
  }

  /** Moving the point keeps the value. */
  ghost predicate PointMoved(intPart: string, fracPart: string, exp: int)
    requires AllDigits(intPart) && AllDigits(fracPart)
  {
    var (whole, frac) := MovePoint(intPart, fracPart, exp);
    && whole != "" && AllDigits(whole) && AllDigits(frac)
    && Amount(whole + frac, USDC_DECIMALS - |frac|) == Amount(intPart + fracPart, USDC_DECIMALS + exp - |fracPart|)
  }

  lemma {:induction false} MovedLeft(intPart: string, fracPart: string, exp: int)
    requires AllDigits(intPart) && AllDigits(fracPart) && |intPart| + exp <= 0
    ensures PointMoved(intPart, fracPart, exp)
  {
    MoveLeft(intPart + fracPart, -(|intPart| + exp), USDC_DECIMALS + exp - |fracPart|);
  }

  lemma {:induction false} MovedRight(intPart: string, fracPart: string, exp: int)
    requires intPart != "" && AllDigits(intPart) && AllDigits(fracPart) && exp >= |fracPart| && |intPart| + exp > 0
    ensures PointMoved(intPart, fracPart, exp)
  {
    MoveRight(intPart + fracPart, exp - |fracPart|, USDC_DECIMALS + exp - |fracPart|);
  }

  lemma {:induction false} MovedInside(intPart: string, fracPart: string, exp: int)
    requires AllDigits(intPart) && AllDigits(fracPart) && -|intPart| < exp < |fracPart|
    ensures PointMoved(intPart, fracPart, exp)
  {
    var digits, point := intPart + fracPart, |intPart| + exp;
    assert digits[..point] + digits[point..] == digits;
  }

  lemma {:induction false} MovePointKeeps(intPart: string, fracPart: string, exp: int)
    requires intPart != "" && AllDigits(intPart) && AllDigits(fracPart)
    ensures PointMoved(intPart, fracPart, exp)
  {
    if |intPart| + exp <= 0 {
      MovedLeft(intPart, fracPart, exp);
    } else if exp >= |fracPart| {
      MovedRight(intPart, fracPart, exp);
    } else {
      MovedInside(intPart, fracPart, exp);
    }
  }

  lemma {:induction false} TrimKeeps(s: string)
    requires s != "" && !White(s[0]) && !White(s[|s| - 1])
    ensures Trim(s) == s
  {
  }

  lemma {:induction false} ScanExponentIs(x: Exponent)
    requires x.Exponent? && WellFormed(Decimal("0", "", x))
    ensures ScanExponent(ExponentText(x)) == Some(x)
  {
    var s := ExponentText(x);
    if x.sign == "" {
      assert s[1] == x.digits[0];
      assert s[1..] == x.digits;
    } else {
      assert s[1] == x.sign[0];
      assert s[2..] == x.digits;
    }
  }

  /** Whole and fractional digits after the exponent is applied. */
  function Parts(d: Decimal): (string, string)
    requires WellFormed(d)
  {
    if d.exponent.Exponent? then MovePoint(d.whole, d.frac, ExponentValue(d.exponent)) else (d.whole, d.frac)
  }

  /** Recognising a decimal's text yields its parts. */
  lemma {:induction false} ExpandedLengthIs(intPart: string, fracPart: string, exp: int)
    requires intPart != ""
    ensures |Expand(intPart, fracPart, exp)| == ExpandedLength(|intPart|, |fracPart|, exp)
  {
  }

  lemma {:induction false} ToPlainIs(d: Decimal, longest: nat)
    requires WellFormed(d)
    ensures ToPlainDecimal(Text(d), longest)
         == if TooLong(d, longest) then None else Some(Plain(Parts(d).0, Parts(d).1))
  {
    TrimKeeps(Text(d));
    ScanPlain(d.whole, d.frac, ExponentText(d.exponent));
    if d.exponent.Exponent? {
      ScanExponentIs(d.exponent);
      ExpandedIs(Text(d), longest, d.whole, d.frac, ExponentText(d.exponent), d.exponent);
      ExpandedLengthIs(d.whole, d.frac, ExponentValue(d.exponent));
    } else {
      assert Text(d) == Plain(d.whole, d.frac);
      PlainHasNoExponent(d.whole, d.frac);
      PlainIs(Text(d), longest, d.whole, d.frac);
    }
  }

  lemma {:induction false} ExpandedIs(text: string, longest: nat, whole: string, frac: string, rest: string, x: Exponent)
    requires Trim(text) == text && text != "" && text[0] != '-' && Scan(text) == (whole, frac, rest) && whole != ""
    requires x.Exponent? && AllDigits(x.digits) && ScanExponent(rest) == Some(x)
    ensures ToPlainDecimal(text, longest) == Bounded(Expand(whole, frac, ExponentValue(x)), longest)
  {
  }

  lemma {:induction false} PlainIs(text: string, longest: nat, whole: string, frac: string)
    requires Trim(text) == text && text != "" && text[0] != '-' && 'e' !in text && 'E' !in text
    requires Scan(text) == (whole, frac, "")
    ensures ToPlainDecimal(text, longest) == Some(text)
  {
  }

  lemma {:induction false} StroopsAre(d: Decimal)
    requires WellFormed(d)
    ensures AllDigits(d.whole + d.frac)
    ensures Stroops(d) == Amount(d.whole + d.frac, USDC_DECIMALS + ExponentValue(d.exponent) - |d.frac|)
  {
    RescaleVal(d.whole + d.frac, USDC_DECIMALS + ExponentValue(d.exponent) - |d.frac|);
  }

  lemma {:induction false} PartsKeep(d: Decimal) returns (whole: string, frac: string)
    requires WellFormed(d)
    ensures (whole, frac) == Parts(d)
    ensures whole != "" && AllDigits(whole) && AllDigits(frac)
    ensures Amount(whole + frac, USDC_DECIMALS - |frac|) == Stroops(d)
  {
    StroopsAre(d);
    if d.exponent.Exponent? {
      MovePointKeeps(d.whole, d.frac, ExponentValue(d.exponent));
      whole, frac := MovePoint(d.whole, d.frac, ExponentValue(d.exponent)).0, MovePoint(d.whole, d.frac, ExponentValue(d.exponent)).1;
    } else {
      whole, frac := d.whole, d.frac;
    }
  }

  lemma {:induction false} Converts(text: string, longest: nat, whole: string, frac: string, v: Option<nat>)
    requires whole != "" && AllDigits(whole) && AllDigits(frac)
    requires ToPlainDecimal(text, longest) == Some(Plain(whole, frac))
    requires Amount(whole + frac, USDC_DECIMALS - |frac|) == v
    ensures UsdcToStroops(text, longest) == v
  {
    FromPlainIs(whole, frac);
  }

  /**
   * A well-formed decimal converts to its exact value, and is refused just when that is no whole number of stroops
   * or its exponent calls for a text longer than any string.
   */
  lemma {:induction false} ConversionIsExact(d: Decimal, longest: nat)
    requires WellFormed(d)
    ensures UsdcToStroops(Text(d), longest) == if TooLong(d, longest) then None else Stroops(d)
  {
    ToPlainIs(d, longest);
    if !TooLong(d, longest) {
      var whole, frac := PartsKeep(d);
      Converts(Text(d), longest, whole, frac, Stroops(d));
    }
  }

  lemma {:induction false} PlainHasNoExponent(whole: string, frac: string)
    requires AllDigits(whole) && AllDigits(frac)
    ensures 'e' !in Plain(whole, frac) && 'E' !in Plain(whole, frac)
  {
  }

  /** Nothing else is accepted: an accepted text is a well-formed decimal between white space. */
  lemma {:induction false} AcceptedIsWellFormed(text: string, longest: nat) returns (d: Decimal)
    requires UsdcToStroops(text, longest).Some?
    ensures WellFormed(d) && Trim(text) == Text(d)
  {
    var s := Trim(text);
    var (whole, frac, rest) := Scan(s);
    var x := ScanExponent(rest);
    if whole != "" && x.Some? {
      return Decimal(whole, frac, x.value);
    }
    assert rest == "";
    assert s == Plain(whole, frac) + "";
    return Decimal(whole, frac, NoExponent);
  }

  lemma {:induction false} TrimEndTrims(s: string)
    ensures TrimEnd(s) != "" ==> !White(TrimEnd(s)[|TrimEnd(s)| - 1]) && s != "" && TrimEnd(s)[0] == s[0]
  {
    if s != "" && White(s[|s| - 1]) {
      TrimEndTrims(s[..|s| - 1]);
    }
  }

  lemma {:induction false} TrimStartTrims(s: string)
    ensures TrimStart(s) != "" ==> !White(TrimStart(s)[0])
  {
    if s != "" && White(s[0]) {
      TrimStartTrims(s[1..]);
    }
  }

  lemma {:induction false} TrimTwice(text: string)
    ensures Trim(Trim(text)) == Trim(text)
  {
    TrimStartTrims(text);
    TrimEndTrims(TrimStart(text));
    if Trim(text) != "" {
      TrimKeeps(Trim(text));
    }
  }

  lemma {:induction false} TrimmedConverts(text: string, trimmed: string, longest: nat)
    requires Trim(text) == trimmed && Trim(trimmed) == trimmed
    ensures UsdcToStroops(text, longest) == UsdcToStroops(trimmed, longest)
  {
  }

  /**
   * The accepted texts are exactly the well-formed decimals, between white space, that can be written without
   * an exponent and whose value is a whole number of stroops; and that number is the result.
   */
  lemma {:induction false} AcceptsExactly(text: string, longest: nat, n: nat)
    ensures UsdcToStroops(text, longest) == Some(n)
       <==> exists d :: WellFormed(d) && Text(d) == Trim(text) && !TooLong(d, longest) && Stroops(d) == Some(n)
  {
    TrimTwice(text);
    TrimmedConverts(text, Trim(text), longest);
    if UsdcToStroops(text, longest) == Some(n) {
      var d := AcceptedIsWellFormed(text, longest);
      ConversionIsExact(d, longest);
    }
    if d :| WellFormed(d) && Text(d) == Trim(text) && !TooLong(d, longest) && Stroops(d) == Some(n) {
      ConversionIsExact(d, longest);
    }
  }

  lemma {:induction false} FractionDigits(n: nat)
    requires n < STROOP
    ensures |Dec(n)| <= USDC_DECIMALS
  {
    assert |Dec(n / 1000000)| == 1;
    assert |Dec(n / 100000)| <= 2;
    assert |Dec(n / 10000)| <= 3;
    assert |Dec(n / 1000)| <= 4;
    assert |Dec(n / 100)| <= 5;
    assert |Dec(n / 10)| <= 6;
  }

  lemma {:induction false} WholeAndFraction(n: nat)
    ensures var whole, padded := Dec(n / STROOP), PadStart(Dec(n % STROOP), USDC_DECIMALS);
            |padded| == USDC_DECIMALS && AllDigits(padded) && AllDigits(whole + padded) && Val(whole + padded) == n
  {
    FractionDigits(n % STROOP);
    PadVal(n % STROOP, USDC_DECIMALS);
    DecVal(n / STROOP);
    SevenDigits(Dec(n / STROOP), PadStart(Dec(n % STROOP), USDC_DECIMALS));
  }

  /** Seven fractional digits, trailing zeros dropped or not, mean the digits' value. */
  lemma {:induction false} SevenMean(whole: string, seven: string, frac: string)
    requires whole != "" && AllDigits(whole) && AllDigits(seven) && |seven| == USDC_DECIMALS
    requires AllDigits(frac) && |frac| <= USDC_DECIMALS && ToSeven(frac) == seven
    ensures AllDigits(whole + seven)
    ensures Stroops(Decimal(whole, frac, NoExponent)) == Some(Val(whole + seven))
  {
    SevenRescales(whole, frac);
    RescaleVal(whole + frac, USDC_DECIMALS - |frac|);
  }

  lemma {:induction false} TextConverts(text: string, longest: nat, whole: string, frac: string, n: nat)
    requires whole != "" && AllDigits(whole) && AllDigits(frac) && text == Plain(whole, frac)
    requires Stroops(Decimal(whole, frac, NoExponent)) == Some(n)
    ensures UsdcToStroops(text, longest) == Some(n)
  {
    var d := Decimal(whole, frac, NoExponent);
    assert Text(d) == text;
    ConversionIsExact(d, longest);
  }

  /** The seven-decimal rendering converts back to the amount. */
  lemma {:induction false} ExactRoundTrip(n: nat, longest: nat)
    ensures UsdcToStroops(ExactUsdc(n), longest) == Some(n)
  {
    WholeAndFraction(n);
    var whole, seven := Dec(n / STROOP), PadStart(Dec(n % STROOP), USDC_DECIMALS);
    SevenMean(whole, seven, seven);
    TextConverts(ExactUsdc(n), longest, whole, seven, n);
  }

  /** So does the compact one. */
  lemma {:induction false} CompactRoundTrip(n: nat, longest: nat)
    ensures UsdcToStroops(StroopsToUsdc(n), longest) == Some(n)
  {
    WholeAndFraction(n);
    var whole, seven := Dec(n / STROOP), PadStart(Dec(n % STROOP), USDC_DECIMALS);
    CompactMeans(whole, seven);
    TextConverts(StroopsToUsdc(n), longest, whole, StripZeros(seven), n);
  }

  lemma {:induction false} CompactMeans(whole: string, seven: string)
    requires whole != "" && AllDigits(whole) && AllDigits(seven) && |seven| == USDC_DECIMALS
    ensures AllDigits(StripZeros(seven)) && AllDigits(whole + seven)
    ensures Stroops(Decimal(whole, StripZeros(seven), NoExponent)) == Some(Val(whole + seven))
  {
    StripZerosDigits(seven);
    StripAndPad(seven);
    SevenMean(whole, seven, StripZeros(seven));
  }

  /** Two of seven decimals mean the value with the five last digits cleared. */
  lemma {:induction false} TwoMean(whole: string, seven: string)
    requires whole != "" && AllDigits(whole) && AllDigits(seven) && |seven| == USDC_DECIMALS
    ensures AllDigits(whole + seven)
    ensures Stroops(Decimal(whole, seven[..2], NoExponent)) == Some(Val(whole + seven) - Val(whole + seven) % 100_000)
  {
    ClearedVal(whole, seven);
    SevenMean(whole, seven[..2] + Repeat('0', 5), seven[..2]);
  }

  /** The display form never overstates: it is the amount with the five last digits cleared. */
  lemma {:induction false} DisplayTruncates(n: nat, longest: nat)
    ensures UsdcToStroops(FormatUsdc(n), longest) == Some(n - n % 100_000)
  {
    WholeAndFraction(n);
    DisplayConverts(Dec(n / STROOP), PadStart(Dec(n % STROOP), USDC_DECIMALS), n, longest);
  }

  lemma {:induction false} DisplayConverts(whole: string, seven: string, n: nat, longest: nat)
    requires whole != "" && AllDigits(whole) && AllDigits(seven) && |seven| == USDC_DECIMALS
    requires AllDigits(whole + seven) && Val(whole + seven) == n
    ensures UsdcToStroops(whole + "." + seven[..2], longest) == Some(n - n % 100_000)
  {
    TwoMean(whole, seven);
    TextConverts(whole + "." + seven[..2], longest, whole, seven[..2], n - n % 100_000);
  }

  lemma {:induction false} ClearedVal(whole: string, seven: string)
    requires AllDigits(whole) && AllDigits(seven) && |seven| == USDC_DECIMALS
    ensures var cleared := seven[..2] + Repeat('0', 5);
            && AllDigits(whole + seven) && AllDigits(whole + cleared)
            && Val(whole + cleared) == Val(whole + seven) - Val(whole + seven) % 100_000
  {
    FiveCleared(whole + seven[..2], seven[2..]);
    Regrouped(whole, seven[..2], seven[2..]);
    Regrouped(whole, seven[..2], Repeat('0', 5));
    assert seven[..2] + seven[2..] == seven;
  }

  lemma {:induction false} Regrouped(a: string, b: string, c: string)
    ensures (a + b) + c == a + (b + c)
  {
  }

  lemma {:induction false} FiveCleared(kept: string, five: string)
    requires AllDigits(kept) && AllDigits(five) && |five| == 5
    ensures AllDigits(kept + five) && AllDigits(kept + Repeat('0', 5))
    ensures Val(kept + Repeat('0', 5)) == Val(kept + five) - Val(kept + five) % 100_000
  {
    FiveDigits(kept, five);
    FiveDigits(kept, Repeat('0', 5));
    ValZero(Repeat('0', 5));
    Cleared(Val(kept), Val(five));
  }

  lemma {:induction false} Cleared(m: nat, r: nat)
    requires r < 100_000
    ensures m * 100_000 == (m * 100_000 + r) - (m * 100_000 + r) % 100_000
  {
  }

  lemma {:induction false} FiveDigits(kept: string, five: string)
    requires AllDigits(kept) && AllDigits(five) && |five| == 5
    ensures AllDigits(kept + five) && Val(kept + five) == Val(kept) * 100_000 + Val(five) && Val(five) < 100_000
  {
    ValConcat(kept, five);
    ValBound(five);
    HundredThousand(Val(kept));
    HundredThousand(1);
  }

  lemma {:induction false} HundredThousand(n: nat)
    ensures Shift(n, 5) == n * 100_000
  {
    assert Shift(n, 1) == n * 10;
    assert Shift(n, 2) == n * 100;
    assert Shift(n, 3) == n * 1000;
    assert Shift(n, 4) == n * 10000;
  }
}
