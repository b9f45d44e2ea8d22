/**
 Stored timestamps. A stored time is text: a fixed-width prefix for the whole seconds,
 then the fraction with its trailing zeros removed, then 'Z'. SQL compares the text;
 the Go code parses it and compares instants. This module says exactly when the two agree.
 */
module Timestamps {
  import opened Wrappers
  import opened TextOrder

  /** Nanoseconds since a fixed origin. */
  type Instant = nat

  const SECOND: nat := 1_000_000_000
  const SECOND_DIGITS: nat := 12

  function Pow10(n: nat): (p: nat)
    ensures p > 0
  {
    if n == 0 then 1 else 10 * Pow10(n - 1)
  }

  /** Times whose year has four digits, the only ones RFC 3339 can write. */
  predicate FourDigitYear(t: Instant)
  {
    t / SECOND < Pow10(SECOND_DIGITS)
  }

  function DigitChar(d: int): char
    requires 0 <= d < 10
  {
    (48 + d) as char
  }

  /** Decimal digits of n, padded with zeros on the left to at least width. */
  function Decimal(n: nat, width: nat): string
    decreases n + width
  {
    if n == 0 && width == 0 then ""
    else Decimal(n / 10, if width == 0 then 0 else width - 1) + [DigitChar(n % 10)]
  }

  function StripZeros(s: string): string
  {
    if |s| > 0 && s[|s| - 1] == '0' then StripZeros(s[..|s| - 1]) else s
  }

  /** The fraction digits that are written: nine digits, trailing zeros removed. */
  function FractionDigits(t: Instant): string
  {
    StripZeros(Decimal(t % SECOND, 9))
  }

  function FractionText(digits: string): string
  {
    if digits == "" then "" else "." + digits
  }

  function Text(t: Instant): string
  {
    Decimal(t / SECOND, SECOND_DIGITS) + FractionText(FractionDigits(t)) + "Z"
  }

  predicate SameSecond(a: Instant, b: Instant)
  {
    a / SECOND == b / SECOND
  }

  /** The pairs whose text order is the reverse of their order in time. */
  predicate Confusable(a: Instant, b: Instant)
  {
    SameSecond(a, b) && (FractionDigits(a) < FractionDigits(b) || FractionDigits(b) < FractionDigits(a))
  }

  // ---------------------------------------------------------------- digits

  predicate AllDigits(s: string)
  {
    forall i | 0 <= i < |s| :: '0' <= s[i] <= '9'
  }

  lemma {:induction false} DecimalWidth(n: nat, width: nat)
    requires n < Pow10(width)
    ensures |Decimal(n, width)| == width && AllDigits(Decimal(n, width))
  {
    if width > 0 {
      DecimalWidth(n / 10, width - 1);
    }
  }

  lemma {:induction false} DecimalOrder(m: nat, n: nat, width: nat)
    requires m < n < Pow10(width)
    ensures Less(Decimal(m, width), Decimal(n, width))
  {
    var a, b := Decimal(m, width), Decimal(n, width);
    DecimalWidth(m, width);
    DecimalWidth(n, width);
    if m / 10 == n / 10 {
      DifferenceDecides(a, b, width - 1);
    } else {
      var p, q := Decimal(m / 10, width - 1), Decimal(n / 10, width - 1);
      DecimalWidth(m / 10, width - 1);
      DecimalWidth(n / 10, width - 1);
      DecimalOrder(m / 10, n / 10, width - 1);
      var k := FirstDifference(p, q);
      assert a[..k] == p[..k] && b[..k] == q[..k];
      DifferenceDecides(a, b, k);
    }
  }

  lemma {:induction false} StripZerosShape(s: string)
    ensures StripZeros(s) <= s
    ensures forall i | |StripZeros(s)| <= i < |s| :: s[i] == '0'
    ensures StripZeros(s) != "" ==> StripZeros(s)[|StripZeros(s)| - 1] != '0'
  {
    if |s| > 0 && s[|s| - 1] == '0' {
      StripZerosShape(s[..|s| - 1]);
    }
  }

  // ---------------------------------------------------------------- order

  lemma LaterSecondSortsLater(a: Instant, b: Instant)
    requires a / SECOND < b / SECOND && FourDigitYear(b)
    ensures Less(Text(a), Text(b))
  {
    var p, q := Decimal(a / SECOND, SECOND_DIGITS), Decimal(b / SECOND, SECOND_DIGITS);
    DecimalWidth(a / SECOND, SECOND_DIGITS);
    DecimalWidth(b / SECOND, SECOND_DIGITS);
    DecimalOrder(a / SECOND, b / SECOND, SECOND_DIGITS);
    var k := FirstDifference(p, q);
    assert Text(a)[..k] == p[..k] && Text(b)[..k] == q[..k];
    DifferenceDecides(Text(a), Text(b), k);
  }

  /** A common beginning does not influence a comparison. */
  lemma {:induction false} CommonBeginning(p: string, a: string, b: string)
    ensures Less(p + a, p + b) <==> Less(a, b)
  {
    if p == "" {
      assert p + a == a && p + b == b;
    } else {
      assert (p + a)[1..] == p[1..] + a && (p + b)[1..] == p[1..] + b;
      CommonBeginning(p[1..], a, b);
    }
  }

  /** A shorter fraction that is a beginning of a longer one sorts after it: 'Z' is greater than '.' and than every digit. */
  lemma PrefixFractionSortsAfter(shorter: string, longer: string)
    requires shorter < longer && AllDigits(longer)
    ensures Less(FractionText(longer) + "Z", FractionText(shorter) + "Z")
  {
    var k := if shorter == "" then 0 else 1 + |shorter|;
    var l, s := FractionText(longer) + "Z", FractionText(shorter) + "Z";
    assert l[..k] == s[..k];
    assert s[k] == 'Z';
    assert k > 0 ==> l[k] == longer[|shorter|];
    DifferenceDecides(l, s, k);
  }

  /** Two nine-digit fractions in order: the stripped ones differ first where the full ones do, or one is a beginning of the other. */
  lemma FractionOrder(a: string, b: string)
    requires |a| == |b| && AllDigits(a) && AllDigits(b) && Less(a, b)
    requires !(StripZeros(a) < StripZeros(b))
    ensures Less(FractionText(StripZeros(a)) + "Z", FractionText(StripZeros(b)) + "Z")
  {
    var k := FirstDifference(a, b);
    var x, y := StripZeros(a), StripZeros(b);
    StripZerosShape(a);
    StripZerosShape(b);
    assert k < |y|;
    var m := if |x| <= k then |x| else k;
    assert x[..m] == a[..k][..m] == b[..k][..m] == y[..m];
    assert k < |x|;
    var s, t := FractionText(x) + "Z", FractionText(y) + "Z";
    assert s[..k + 1] == "." + x[..k] && t[..k + 1] == "." + y[..k];
    DifferenceDecides(s, t, k + 1);
  }

  /**
   For a before b, the text of a sorts after the text of b exactly when both lie in the same
   second and a's fraction digits are a proper prefix of b's; otherwise it sorts before.
   */
  lemma TextOrderOfInstants(a: Instant, b: Instant)
    requires a < b && FourDigitYear(b)
    ensures Less(Text(b), Text(a)) <==> SameSecond(a, b) && FractionDigits(a) < FractionDigits(b)
    ensures Less(Text(a), Text(b)) <==> !(SameSecond(a, b) && FractionDigits(a) < FractionDigits(b))
  {
    Trichotomy(Text(a), Text(b));
    if !SameSecond(a, b) {
      assert a / SECOND < b / SECOND;
      LaterSecondSortsLater(a, b);
    } else {
      var x, y := FractionDigits(a), FractionDigits(b);
      var p := Decimal(a / SECOND, SECOND_DIGITS);
      var s, t := FractionText(x) + "Z", FractionText(y) + "Z";
      assert Text(a) == p + s && Text(b) == p + t;
      CommonBeginning(p, s, t);
      CommonBeginning(p, t, s);
      assert SECOND == Pow10(9);
      DecimalWidth(a % SECOND, 9);
      DecimalWidth(b % SECOND, 9);
      DecimalOrder(a % SECOND, b % SECOND, 9);
      if x < y {
        StripZerosShape(Decimal(b % SECOND, 9));
        PrefixFractionSortsAfter(x, y);
      } else {
        FractionOrder(Decimal(a % SECOND, 9), Decimal(b % SECOND, 9));
      }
    }
  }

  /** In time order with b's digits a proper prefix of a's is impossible, so Confusable has one direction only. */
  lemma LaterFractionIsNoPrefix(a: Instant, b: Instant)
    requires a < b && SameSecond(a, b)
    ensures !(FractionDigits(b) < FractionDigits(a))
  {
    var s, t := Decimal(a % SECOND, 9), Decimal(b % SECOND, 9);
    assert SECOND == Pow10(9);
    DecimalWidth(a % SECOND, 9);
    DecimalWidth(b % SECOND, 9);
    DecimalOrder(a % SECOND, b % SECOND, 9);
    var k := FirstDifference(s, t);
    StripZerosShape(s);
    StripZerosShape(t);
    var x, y := FractionDigits(a), FractionDigits(b);
    assert k < |y| && y[k] == t[k];
    assert k < |x| ==> x[k] == s[k];
  }

  /** A text comparison says what an instant comparison says for exactly the pairs that are not confusable. */
  lemma TextComparisonAgreesIff(a: Instant, b: Instant)
    requires FourDigitYear(a) && FourDigitYear(b)
    ensures (Less(Text(a), Text(b)) <==> a < b) <==> !Confusable(a, b)
  {
    if a < b {
      TextOrderOfInstants(a, b);
      if SameSecond(a, b) {
        LaterFractionIsNoPrefix(a, b);
      }
    } else if b < a {
      TextOrderOfInstants(b, a);
      if SameSecond(b, a) {
        LaterFractionIsNoPrefix(b, a);
      }
    } else {
      Irreflexive(Text(a));
    }
  }

  /** In particular for any two times at least one second apart. */
  lemma OneSecondApartAgrees(a: Instant, b: Instant)
    requires FourDigitYear(a) && FourDigitYear(b)
    requires a + SECOND <= b || b + SECOND <= a
    ensures Less(Text(a), Text(b)) <==> a < b
    ensures Less(Text(b), Text(a)) <==> b < a
  {
    TextComparisonAgreesIff(a, b);
    TextComparisonAgreesIff(b, a);
  }

  /** The bound is sharp: two times one nanosecond short of a second apart that are confused. */
  lemma OneSecondIsNeeded()
    ensures Less(Text(SECOND - 1), Text(0)) && 0 < SECOND - 1
  {
    StripZerosOfZero(9);
    assert Text(0) == Decimal(0, SECOND_DIGITS) + "" + "Z";
    var d := FractionDigits(SECOND - 1);
    var p := Decimal(0, SECOND_DIGITS);
    assert SECOND == Pow10(9);
    DecimalWidth(SECOND - 1, 9);
    assert d == Decimal(SECOND - 1, 9);
    PrefixFractionSortsAfter("", d);
    assert Text(SECOND - 1) == p + (FractionText(d) + "Z");
    assert Text(0) == p + (FractionText("") + "Z");
    CommonBeginning(p, FractionText(d) + "Z", FractionText("") + "Z");
  }

  lemma {:induction false} StripZerosOfZero(width: nat)
    ensures StripZeros(Decimal(0, width)) == ""
  {
    if width > 0 {
      StripZerosOfZero(width - 1);
      assert Decimal(0, width)[..width - 1] == Decimal(0, width - 1) by {
        ZeroWidth(width - 1);
      }
      ZeroWidth(width);
    }
  }

  lemma ZeroWidth(width: nat)
    ensures |Decimal(0, width)| == width
  {
    DecimalWidth(0, width);
  }

  // ---------------------------------------------------------------- reading back

  function DigitsValue(s: string): int
  {
    if s == "" then 0 else 10 * DigitsValue(s[..|s| - 1]) + (s[|s| - 1] as int - 48)
  }

  /** Reads the texts that Text writes; anything else is an error of the parser. */
  function ParseStoredTime(s: string): Option<int>
  {
    if |s| <= SECOND_DIGITS || s[|s| - 1] != 'Z' || !AllDigits(s[..SECOND_DIGITS]) then None
    else
      match ParseFraction(s[SECOND_DIGITS..|s| - 1])
      case None => None
      case Some(nanos) => Some(DigitsValue(s[..SECOND_DIGITS]) * SECOND + nanos)
  }

  function ParseFraction(fraction: string): Option<int>
  {
    if fraction == "" then Some(0)
    else if fraction[0] != '.' || !(2 <= |fraction| <= 10) || !AllDigits(fraction[1..]) then None
    else Some(DigitsValue(fraction[1..]) * Pow10(10 - |fraction|))
  }

  lemma {:induction false} DigitsValueOfDecimal(n: nat, width: nat)
    requires n < Pow10(width)
    ensures DigitsValue(Decimal(n, width)) == n
  {
    if width > 0 {
      DigitsValueOfDecimal(n / 10, width - 1);
      var s := Decimal(n, width);
      assert s[..|s| - 1] == Decimal(n / 10, width - 1);
    }
  }

  lemma {:induction false} StripZerosValue(s: string)
    ensures |StripZeros(s)| <= |s|
    ensures DigitsValue(StripZeros(s)) * Pow10(|s| - |StripZeros(s)|) == DigitsValue(s)
  {
    if |s| > 0 && s[|s| - 1] == '0' {
      var rest := s[..|s| - 1];
      StripZerosValue(rest);
      var v, p := DigitsValue(StripZeros(rest)), Pow10(|rest| - |StripZeros(rest)|);
      assert v * (10 * p) == 10 * (v * p);
    }
  }

  lemma ParseFractionText(d: string)
    requires AllDigits(d) && |d| <= 9
    ensures ParseFraction(FractionText(d)) == Some(DigitsValue(d) * Pow10(9 - |d|))
  {
    if d != "" {
      assert FractionText(d)[1..] == d;
    }
  }

  /** What formatTime writes, parseStoredTime reads back as the same instant. */
  lemma StoredTimeRoundTrip(t: Instant)
    requires FourDigitYear(t)
    ensures ParseStoredTime(Text(t)) == Some(t)
  {
    var p, nine := Decimal(t / SECOND, SECOND_DIGITS), Decimal(t % SECOND, 9);
    assert SECOND == Pow10(9);
    DecimalWidth(t / SECOND, SECOND_DIGITS);
    DecimalWidth(t % SECOND, 9);
    DigitsValueOfDecimal(t / SECOND, SECOND_DIGITS);
    DigitsValueOfDecimal(t % SECOND, 9);
    StripZerosShape(nine);
    StripZerosValue(nine);
    ParseFractionText(FractionDigits(t));
    var s := Text(t);
    assert s[..SECOND_DIGITS] == p;
    assert s[SECOND_DIGITS..|s| - 1] == FractionText(FractionDigits(t));
  }
}
