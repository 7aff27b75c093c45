/** Exact decimals of the relational profile (`_validate_decimal`, src/avp_ref/relational.py). */
module DecimalValue {
  import opened Common

  const DOT: CodePoint := 46
  const MINUS: CodePoint := 45

  datatype DecimalError = NotDecimal | WrongScale | TooPrecise | NegativeZero

  /** What the grammar reads out of a literal. */
  datatype Parts = Parts(negative: bool, whole: Text, fraction: Text)

  predicate IsDigit(c: CodePoint) {
    48 <= c <= 57
  }

  predicate AllDigits(s: Text) {
    forall i :: 0 <= i < |s| ==> IsDigit(s[i])
  }

  function FirstDot(s: Text): (n: nat)
    ensures n <= |s| && DOT !in s[..n] && (n < |s| ==> s[n] == DOT)
  {
    if |s| == 0 || s[0] == DOT then 0 else 1 + FirstDot(s[1..])
  }

  /** The text before the first dot, and the text after it if there is a dot. */
  function AtDot(body: Text): (Text, Option<Text>) {
    var dot := FirstDot(body);
    if dot < |body| then (body[..dot], Some(body[dot + 1..])) else (body, None)
  }

  predicate WholeShape(whole: Text, negative: bool) {
    |whole| > 0 && AllDigits(whole) && (whole[0] == 48 ==> !negative && |whole| == 1)
  }

  /** `_DECIMAL_RE`: an unsigned zero or a number without leading zeros, optionally signed
      minus, with an optional non-empty fraction. */
  function Grammar(raw: Text): Option<Parts> {
    var negative := |raw| > 0 && raw[0] == MINUS;
    var (whole, after) := AtDot(if negative then raw[1..] else raw);
    if !WholeShape(whole, negative) then None
    else
      match after
      case None => Some(Parts(negative, whole, []))
      case Some(fraction) =>
        if |fraction| > 0 && AllDigits(fraction) then Some(Parts(negative, whole, fraction)) else None
  }

  predicate WellFormed(p: Parts) {
    WholeShape(p.whole, p.negative) && AllDigits(p.fraction)
  }

  /** The literal made of these parts. */
  function Literal(p: Parts): Text {
    (if p.negative then [MINUS] else []) + Unsigned(p)
  }

  function Unsigned(p: Parts): Text {
    if |p.fraction| == 0 then p.whole else p.whole + [DOT] + p.fraction
  }

  /** The number a digit string spells. */
  function Number(digits: Text): nat
    requires AllDigits(digits)
  {
    if |digits| == 0 then 0 else Number(digits[..|digits| - 1]) * 10 + (digits[|digits| - 1] - 48)
  }

  /** `len(Decimal(...).as_tuple().digits)`: no leading zeros, one digit for zero. */
  function DigitCount(n: nat): nat {
    if n < 10 then 1 else 1 + DigitCount(n / 10)
  }

  function Max(a: int, b: int): int {
    if a < b then b else a
  }

  /** The literal's magnitude and value in units of its last fraction digit. */
  function Magnitude(p: Parts): nat
    requires WellFormed(p)
  {
    Number(p.whole + p.fraction)
  }

  function Coefficient(p: Parts): int
    requires WellFormed(p)
  {
    if p.negative then 0 - Magnitude(p) else Magnitude(p)
  }

  function Abs(c: int): nat {
    if c < 0 then -c else c
  }

  /** `_validate_decimal` for a column of this precision and scale. */
  function Validate(precision: nat, scale: nat, raw: Text): Result<Parts, DecimalError> {
    match Grammar(raw)
    case None => Err(NotDecimal)
    case Some(p) =>
      if |p.fraction| != scale then Err(WrongScale)
      else
        var magnitude := Magnitude(p);
        var integerDigits := Max(0, DigitCount(magnitude) - |p.fraction|);
        if integerDigits + |p.fraction| > precision then Err(TooPrecise)
        else if magnitude == 0 && p.negative then Err(NegativeZero)
        else Ok(p)
  }

  /** Column types admit precision 1..65 and scale 0..30, the scale within the precision. */
  predicate ColumnShape(precision: nat, scale: nat) {
    1 <= precision <= 65 && scale <= 30 && scale <= precision
  }

  function Pow10(n: nat): (r: nat)
    ensures r >= 1
  {
    if n == 0 then 1 else 10 * Pow10(n - 1)
  }

  lemma {:induction false} Pow10Monotone(m: nat, n: nat)
    requires m <= n
    ensures Pow10(m) <= Pow10(n)
    ensures m < n ==> Pow10(m) < Pow10(n)
    decreases n - m
  {
    if m < n {
      Pow10Monotone(m + 1, n);
    }
  }

  lemma {:induction false} NumberBound(digits: Text)
    requires AllDigits(digits)
    ensures Number(digits) < Pow10(|digits|)
    ensures |digits| > 0 && digits[0] != 48 ==> Pow10(|digits| - 1) <= Number(digits)
  {
    if |digits| > 1 {
      NumberBound(digits[..|digits| - 1]);
    }
  }

  lemma {:induction false} ShiftDigit(a: nat, m: nat, f: nat, d: nat)
    ensures (a * m + f) * 10 + d == a * (10 * m) + (f * 10 + d)
  {
  }

  lemma {:induction false} NumberConcat(a: Text, b: Text)
    requires AllDigits(a) && AllDigits(b)
    ensures AllDigits(a + b) && Number(a + b) == Number(a) * Pow10(|b|) + Number(b)
  {
    if |b| == 0 {
      assert a + b == a;
    } else {
      var front := b[..|b| - 1];
      NumberConcat(a, front);
      assert (a + b)[..|a + b| - 1] == a + front;
      ShiftDigit(Number(a), Pow10(|front|), Number(front), b[|b| - 1] - 48);
    }
  }

  lemma {:induction false} AtLeastOnce(a: nat, m: nat)
    requires a >= 1
    ensures a * m >= m
  {
    assert (a - 1) * m >= 0;
  }

  /** Magnitude split into whole and fraction; a negative literal is at most -1. */
  lemma {:induction false} MagnitudeSplit(p: Parts)
    requires WellFormed(p)
    ensures Magnitude(p) == Number(p.whole) * Pow10(|p.fraction|) + Number(p.fraction)
    ensures Number(p.fraction) < Pow10(|p.fraction|)
    ensures p.negative ==> Magnitude(p) >= Pow10(|p.fraction|)
  {
    NumberConcat(p.whole, p.fraction);
    NumberBound(p.whole);
    NumberBound(p.fraction);
    if p.negative {
      AtLeastOnce(Number(p.whole), Pow10(|p.fraction|));
    }
  }

  lemma {:induction false} NumberInjective(a: Text, b: Text)
    requires AllDigits(a) && AllDigits(b) && |a| == |b| && Number(a) == Number(b)
    ensures a == b
  {
    if |a| != 0 {
      NumberInjective(a[..|a| - 1], b[..|b| - 1]);
      assert a == a[..|a| - 1] + [a[|a| - 1]] && b == b[..|b| - 1] + [b[|b| - 1]];
    }
  }

  lemma {:induction false} DigitCountBound(n: nat, k: nat)
    requires k >= 1
    ensures DigitCount(n) <= k <==> n < Pow10(k)
  {
    if n >= 10 && k > 1 {
      DigitCountBound(n / 10, k - 1);
      assert n < 10 * Pow10(k - 1) <==> n / 10 < Pow10(k - 1);
    } else if k > 1 {
      Pow10Monotone(1, k);
    }
  }

  /** The digit count taken by maximum and subtraction says exactly that the coefficient
      fits the precision: |value| < 10^(precision - scale). A negative zero never gets as
      far as its own check. */
  lemma {:induction false} AcceptedExactly(precision: nat, scale: nat, raw: Text)
    requires ColumnShape(precision, scale)
    ensures Validate(precision, scale, raw).Ok? <==>
      Grammar(raw).Some? && |Grammar(raw).value.fraction| == scale
      && Abs(Coefficient(Grammar(raw).value)) < Pow10(precision)
    ensures Validate(precision, scale, raw) != Err(NegativeZero)
  {
    if Grammar(raw).Some? {
      var p := Grammar(raw).value;
      DigitCountBound(Magnitude(p), precision);
      MagnitudeSplit(p);
    }
  }

  lemma {:induction false} AtDotReassembles(body: Text)
    ensures var (whole, after) := AtDot(body);
      body == if after.None? then whole else whole + [DOT] + after.value
  {
  }

  lemma {:induction false} PartsOf(raw: Text)
    requires Grammar(raw).Some?
    ensures |raw| > 0
    ensures var p := Grammar(raw).value;
      var body := if p.negative then raw[1..] else raw;
      && (p.negative <==> raw[0] == MINUS)
      && AtDot(body) == (p.whole, if |p.fraction| == 0 then None else Some(p.fraction))
  {
  }

  lemma {:induction false} Reassemble(raw: Text)
    requires Grammar(raw).Some?
    ensures raw == Literal(Grammar(raw).value)
  {
    PartsOf(raw);
    var p := Grammar(raw).value;
    AtDotReassembles(if p.negative then raw[1..] else raw);
    assert p.negative ==> raw == [MINUS] + raw[1..];
  }

  lemma {:induction false} SplitNumber(m: nat, a: nat, b: nat, c: nat, d: nat)
    requires b < m && d < m && a * m + b == c * m + d
    ensures a == c && b == d
  {
    if a < c {
      HighPartDecides(m, a, b, c);
    } else if c < a {
      HighPartDecides(m, c, d, a);
    }
  }

  lemma {:induction false} HighPartDecides(m: nat, a: nat, b: nat, c: nat)
    requires b < m && a < c
    ensures a * m + b < c * m
  {
    assert (a + 1) * m <= c * m;
  }

  lemma {:induction false} SameLength(a: Text, b: Text)
    requires AllDigits(a) && AllDigits(b) && |a| > 0 && |b| > 0 && Number(a) == Number(b)
    requires (a[0] != 48 || |a| == 1) && (b[0] != 48 || |b| == 1)
    ensures |a| == |b|
  {
    NumberBound(a);
    NumberBound(b);
    if |a| < |b| {
      Pow10Monotone(|a|, |b| - 1);
    } else if |b| < |a| {
      Pow10Monotone(|b|, |a| - 1);
    }
  }

  /** One literal per number: accepted literals of one column with equal value are equal. */
  lemma {:induction false} LiteralIsUnique(precision: nat, scale: nat, r: Text, t: Text)
    requires Validate(precision, scale, r).Ok? && Validate(precision, scale, t).Ok?
    requires Coefficient(Grammar(r).value) == Coefficient(Grammar(t).value)
    ensures r == t
  {
    var p, q := Grammar(r).value, Grammar(t).value;
    MagnitudeSplit(p);
    MagnitudeSplit(q);
    SplitNumber(Pow10(scale), Number(p.whole), Number(p.fraction), Number(q.whole), Number(q.fraction));
    SameLength(p.whole, q.whole);
    NumberInjective(p.whole, q.whole);
    NumberInjective(p.fraction, q.fraction);
    Reassemble(r);
    Reassemble(t);
  }

  /** Decimal digits of a number without leading zeros; nothing for zero. */
  function Digits(n: nat): Text {
    if n == 0 then [] else Digits(n / 10) + [48 + n % 10]
  }

  /** The last `width` decimal digits. */
  function Padded(n: nat, width: nat): Text {
    if width == 0 then [] else Padded(n / 10, width - 1) + [48 + n % 10]
  }

  lemma {:induction false} DigitsSpell(n: nat)
    ensures AllDigits(Digits(n)) && Number(Digits(n)) == n
    ensures n > 0 ==> |Digits(n)| > 0 && Digits(n)[0] != 48
  {
    if n > 0 {
      DigitsSpell(n / 10);
      assert Digits(n)[..|Digits(n)| - 1] == Digits(n / 10);
    }
  }

  /** What is left of a number without its last `width` digits. */
  function Shift(n: nat, width: nat): nat {
    if width == 0 then n else Shift(n / 10, width - 1)
  }

  lemma {:induction false} PaddedSpell(n: nat, width: nat)
    ensures AllDigits(Padded(n, width)) && |Padded(n, width)| == width
    ensures n == Shift(n, width) * Pow10(width) + Number(Padded(n, width))
  {
    if width > 0 {
      PaddedSpell(n / 10, width - 1);
      assert Padded(n, width)[..width - 1] == Padded(n / 10, width - 1);
      ShiftDigit(Shift(n / 10, width - 1), Pow10(width - 1), Number(Padded(n / 10, width - 1)), n % 10);
    }
  }

  lemma {:induction false} FirstDotAt(a: Text, b: Text)
    requires DOT !in a
    ensures FirstDot(a + [DOT] + b) == |a| && FirstDot(a) == |a|
  {
    if |a| > 0 {
      assert (a + [DOT] + b)[1..] == a[1..] + [DOT] + b;
      FirstDotAt(a[1..], b);
    } else {
      assert (a + [DOT] + b)[0] == DOT;
    }
  }

  lemma {:induction false} UnsignedSplits(p: Parts)
    requires WellFormed(p)
    ensures AtDot(Unsigned(p)) == (p.whole, if |p.fraction| == 0 then None else Some(p.fraction))
  {
    FirstDotAt(p.whole, p.fraction);
    var dotted := p.whole + [DOT] + p.fraction;
    assert dotted[..|p.whole|] == p.whole && dotted[|p.whole| + 1..] == p.fraction;
  }

  /** Reading a literal gives back the parts it was made of. */
  lemma {:induction false} ReadBack(p: Parts)
    requires WellFormed(p)
    ensures Grammar(Literal(p)) == Some(p)
  {
    UnsignedSplits(p);
    assert Unsigned(p)[0] == p.whole[0];
    if p.negative {
      assert Literal(p)[1..] == Unsigned(p);
    } else {
      assert Literal(p) == Unsigned(p);
    }
  }

  function Render(c: int, scale: nat): Parts {
    var w := Shift(Abs(c), scale);
    Parts(c < 0, if w == 0 then [48] else Digits(w), Padded(Abs(c), scale))
  }

  lemma {:induction false} RenderSpells(c: int, scale: nat)
    requires c < 0 ==> Abs(c) >= Pow10(scale)
    ensures WellFormed(Render(c, scale)) && |Render(c, scale).fraction| == scale
    ensures Coefficient(Render(c, scale)) == c
  {
    var w := Shift(Abs(c), scale);
    DigitsSpell(w);
    PaddedSpell(Abs(c), scale);
    NumberBound(Padded(Abs(c), scale));
    assert Number([48]) == 0 by {
      assert [48][..0] == [];
    }
    MagnitudeSplit(Render(c, scale));
  }

  predicate Denotes(precision: nat, scale: nat, raw: Text, c: int) {
    Validate(precision, scale, raw).Ok? && Coefficient(Grammar(raw).value) == c
  }

  /** Which numbers have a literal: all of the range except those strictly between -1 and 0,
      for which the grammar has no form although the contract's fixed-point string has. */
  lemma {:induction false} RepresentableExactly(precision: nat, scale: nat, c: int)
    requires ColumnShape(precision, scale)
    ensures (exists raw :: Denotes(precision, scale, raw, c))
      <==> Abs(c) < Pow10(precision) && (c < 0 ==> Abs(c) >= Pow10(scale))
  {
    if raw :| Denotes(precision, scale, raw, c) {
      AcceptedExactly(precision, scale, raw);
      MagnitudeSplit(Grammar(raw).value);
    }
    if Abs(c) < Pow10(precision) && (c < 0 ==> Abs(c) >= Pow10(scale)) {
      RenderSpells(c, scale);
      ReadBack(Render(c, scale));
      AcceptedExactly(precision, scale, Literal(Render(c, scale)));
      assert Denotes(precision, scale, Literal(Render(c, scale)), c);
    }
  }
}
