/** JSON.stringify on numbers. A finite non-zero double is given by its sign and the shortest
  decimal digits and decimal exponent ECMAScript picks for it (Number::toString, step 5 of
  section 6.1.6.1.20 of ECMA-262); this module models the layout of those digits as text. */
module JsonNumbers {
  import opened Common
  import opened JsonStrings

  type Digit = d: int | 0 <= d < 10

  /** Shortest digits never start or end with zero. */
  type Digits = ds: seq<Digit> | ds != [] && ds[0] != 0 && ds[|ds| - 1] != 0 witness [1]

  /** Finite(neg, digits, point) is 0.d1d2...dk times 10 to the power `point`. */
  datatype Number =
    | NonFinite
    | Zero(negative: bool)
    | Finite(negative: bool, digits: Digits, point: int)

  const MINUS: Unit := 45
  const PLUS: Unit := 43
  const DOT: Unit := 46
  const LOWER_E: Unit := 101

  function DigitUnit(d: int): (c: Unit)
    requires 0 <= d < 10
    ensures c == 48 + d
  {
    48 + d
  }

  function DigitsText(ds: seq<Digit>): (t: Text)
    ensures |t| == |ds| && forall i :: 0 <= i < |ds| ==> t[i] == DigitUnit(ds[i])
  {
    seq(|ds|, i requires 0 <= i < |ds| => DigitUnit(ds[i]))
  }

  function Zeros(n: nat): (ds: seq<Digit>)
    ensures |ds| == n && forall i :: 0 <= i < n ==> ds[i] == 0
  {
    seq(n, _ => 0)
  }

  function NatDigits(n: nat): (ds: seq<Digit>)
    ensures ds != []
  {
    if n < 10 then [n] else NatDigits(n / 10) + [n % 10]
  }

  function ExponentText(e: int): (t: Text)
    ensures t != [] && t[0] == LOWER_E
  {
    [LOWER_E, if e >= 0 then PLUS else MINUS] + DigitsText(NatDigits(if e >= 0 then e else -e))
  }

  /** The four layouts of Number::toString. */
  function Magnitude(ds: seq<Digit>, n: int): Text
    requires ds != []
  {
    var k := |ds|;
    if k <= n <= 21 then DigitsText(ds + Zeros(n - k))
    else if 0 < n <= 21 then DigitsText(ds[..n]) + [DOT] + DigitsText(ds[n..])
    else if -6 < n <= 0 then DigitsText([0]) + [DOT] + DigitsText(Zeros(-n) + ds)
    else if k == 1 then DigitsText(ds) + ExponentText(n - 1)
    else DigitsText(ds[..1]) + [DOT] + DigitsText(ds[1..]) + ExponentText(n - 1)
  }

  /** None is the error thrown for a non-finite number; both zeros print as 0. */
  function NumberText(x: Number): (t: Option<Text>)
    ensures t.Some? <==> !x.NonFinite?
  {
    match x
    case NonFinite => None
    case Zero(_) => Some([48])
    case Finite(neg, ds, n) => Some((if neg then [MINUS] else []) + Magnitude(ds, n))
  }

  // --- The reader -----------------------------------------------------------

  predicate NumberUnit(c: Unit) {
    48 <= c <= 57 || c == MINUS || c == PLUS || c == DOT || c == LOWER_E
  }

  /** The length of the longest prefix of number characters. */
  function Span(t: Text): (n: nat)
    ensures n <= |t|
  {
    if t == [] || !NumberUnit(t[0]) then 0 else 1 + Span(t[1..])
  }

  function IndexOf(t: Text, c: Unit): (n: nat)
    ensures n <= |t| && (n < |t| ==> t[n] == c) && c !in t[..n]
  {
    if t == [] || t[0] == c then 0
    else
      var n := IndexOf(t[1..], c);
      assert t[..n + 1] == [t[0]] + t[1..][..n];
      n + 1
  }

  function TextDigits(t: Text): (ds: seq<Digit>)
    ensures |ds| == |t|
  {
    seq(|t|, i requires 0 <= i < |t| => if 48 <= t[i] <= 57 then t[i] - 48 else 0)
  }

  function NatValue(ds: seq<Digit>): nat {
    if ds == [] then 0 else NatValue(ds[..|ds| - 1]) * 10 + ds[|ds| - 1]
  }

  function LeadingZeros(ds: seq<Digit>): (n: nat)
    ensures n <= |ds| && (n < |ds| ==> ds[n] != 0)
  {
    if ds == [] || ds[0] != 0 then 0 else 1 + LeadingZeros(ds[1..])
  }

  function DropTrailingZeros(ds: seq<Digit>): (r: seq<Digit>)
    ensures |r| <= |ds| && r == ds[..|r|] && (r != [] ==> r[|r| - 1] != 0)
  {
    if ds == [] || ds[|ds| - 1] != 0 then ds else DropTrailingZeros(ds[..|ds| - 1])
  }

  function ExponentValue(t: Text): int {
    if |t| < 2 then 0
    else (if t[1] == MINUS then -1 else 1) * NatValue(TextDigits(t[2..]))
  }

  /** The number written as `whole` digits, then `part` fraction digits, times 10^e. */
  function Normalised(neg: bool, whole: seq<Digit>, part: seq<Digit>, e: int): Number {
    var all := whole + part;
    var lead := LeadingZeros(all);
    var ds := DropTrailingZeros(all[lead..]);
    if ds == [] then Zero(neg) else Finite(neg, ds, |whole| + e - lead)
  }

  function NumberValue(t: Text): Number {
    var neg := t != [] && t[0] == MINUS;
    var m := if neg then t[1..] else t;
    var i := IndexOf(m, LOWER_E);
    var mantissa := m[..i];
    var j := IndexOf(mantissa, DOT);
    Normalised(neg, TextDigits(mantissa[..j]), TextDigits(if j < |mantissa| then mantissa[j + 1..] else []),
               ExponentValue(m[i..]))
  }

  // --- Reading back what was written ----------------------------------------

  lemma TextDigitsBack(ds: seq<Digit>)
    ensures TextDigits(DigitsText(ds)) == ds
  {
  }

  lemma {:induction false} NatValueBack(n: nat)
    ensures NatValue(NatDigits(n)) == n
  {
    if n < 10 {
      assert [n][..0] == [];
    } else {
      NatValueBack(n / 10);
      assert (NatDigits(n / 10) + [n % 10])[..|NatDigits(n / 10)|] == NatDigits(n / 10);
    }
  }

  lemma {:induction false} ExponentBack(e: int)
    ensures ExponentValue(ExponentText(e)) == e
  {
    var a := if e >= 0 then e else -e;
    NatValueBack(a);
    TextDigitsBack(NatDigits(a));
    assert ExponentText(e)[2..] == DigitsText(NatDigits(a));
  }

  lemma {:induction false} IndexOfFirst(a: Text, c: Unit, b: Text)
    requires c !in a && (b == [] || b[0] == c)
    ensures IndexOf(a + b, c) == |a|
  {
    if a == [] {
      assert a + b == b;
    } else {
      IndexOfFirst(a[1..], c, b);
      assert (a + b)[1..] == a[1..] + b;
    }
  }

  lemma {:induction false} LeadingZerosBack(n: nat, ds: seq<Digit>)
    requires ds != [] && ds[0] != 0
    ensures LeadingZeros(Zeros(n) + ds) == n
  {
    if n == 0 {
      assert Zeros(n) + ds == ds;
    } else {
      LeadingZerosBack(n - 1, ds);
      assert (Zeros(n) + ds)[1..] == Zeros(n - 1) + ds;
    }
  }

  lemma {:induction false} TrailingZerosBack(ds: seq<Digit>, n: nat)
    requires ds != [] && ds[|ds| - 1] != 0
    ensures DropTrailingZeros(ds + Zeros(n)) == ds
  {
    if n == 0 {
      assert ds + Zeros(n) == ds;
    } else {
      TrailingZerosBack(ds, n - 1);
      assert (ds + Zeros(n))[..|ds| + n - 1] == ds + Zeros(n - 1);
    }
  }

  /** Zeros in front and behind do not change the number read. */
  lemma {:induction false} NormalisedBack(neg: bool, whole: seq<Digit>, part: seq<Digit>, e: int,
                                          lead: nat, ds: Digits, trail: nat)
    requires whole + part == Zeros(lead) + ds + Zeros(trail)
    ensures Normalised(neg, whole, part, e) == Finite(neg, ds, |whole| + e - lead)
  {
    var rest := ds + Zeros(trail);
    assert whole + part == Zeros(lead) + rest && rest[0] == ds[0];
    LeadingZerosBack(lead, rest);
    assert (whole + part)[lead..] == rest;
    TrailingZerosBack(ds, trail);
  }

  /** A text of digits, an optional fraction and an optional exponent. */
  function Layout(neg: bool, whole: seq<Digit>, part: Option<seq<Digit>>, e: Option<int>): Text {
    (if neg then [MINUS] else []) + (DigitsText(whole) + Fraction(part) + Exponent(e))
  }

  function Fraction(part: Option<seq<Digit>>): Text {
    match part case None => [] case Some(ds) => [DOT] + DigitsText(ds)
  }

  function Exponent(e: Option<int>): Text {
    match e case None => [] case Some(n) => ExponentText(n)
  }

  lemma {:induction false} NoMark(ds: seq<Digit>)
    ensures DOT !in DigitsText(ds) && LOWER_E !in DigitsText(ds) && MINUS !in DigitsText(ds)
  {
    forall c | c in DigitsText(ds)
      ensures 48 <= c <= 57
    {
      var i :| 0 <= i < |DigitsText(ds)| && DigitsText(ds)[i] == c;
      assert c == DigitUnit(ds[i]);
    }
  }

  lemma {:induction false} ReadFraction(w: seq<Digit>, part: Option<seq<Digit>>)
    ensures var t := DigitsText(w) + Fraction(part);
            var j := IndexOf(t, DOT);
            && TextDigits(t[..j]) == w && LOWER_E !in t
            && TextDigits(if j < |t| then t[j + 1..] else []) == (if part.Some? then part.value else [])
  {
    var d := DigitsText(w);
    var p := Fraction(part);
    NoMark(w);
    IndexOfFirst(d, DOT, p);
    assert (d + p)[..|d|] == d;
    TextDigitsBack(w);
    if part.Some? {
      NoMark(part.value);
      assert (d + p)[|d| + 1..] == DigitsText(part.value);
      TextDigitsBack(part.value);
    }
    hide DigitsText, TextDigits, IndexOf;
  }

  lemma {:induction false} SignOff(neg: bool, m: Text)
    requires m != [] && m[0] != MINUS
    ensures var t := (if neg then [MINUS] else []) + m;
            t != [] && (t[0] == MINUS <==> neg) && (if neg then t[1..] else t) == m
  {
  }

  lemma LayoutIs(neg: bool, whole: seq<Digit>, part: Option<seq<Digit>>, e: Option<int>)
    ensures Layout(neg, whole, part, e)
         == (if neg then [MINUS] else []) + (DigitsText(whole) + Fraction(part) + Exponent(e))
  {
  }

  /** The reader goes by the sign, the first 'e', and the first point before it. */
  lemma {:induction false} NumberParts(neg: bool, m: Text)
    requires m != [] && m[0] != MINUS
    ensures var mantissa := m[..IndexOf(m, LOWER_E)];
      var j := IndexOf(mantissa, DOT);
      NumberValue((if neg then [MINUS] else []) + m)
        == Normalised(neg, TextDigits(mantissa[..j]), TextDigits(if j < |mantissa| then mantissa[j + 1..] else []),
                      ExponentValue(m[IndexOf(m, LOWER_E)..]))
  {
    hide TextDigits, IndexOf, ExponentValue, Normalised;
    SignOff(neg, m);
  }

  lemma {:induction false} ReadExponent(e: Option<int>)
    ensures ExponentValue(Exponent(e)) == if e.Some? then e.value else 0
  {
    ExponentZero();
    if e.Some? {
      ExponentBack(e.value);
    }
  }

  /** The digits come first, then the exponent. */
  lemma {:induction false} BodyAndExponent(whole: seq<Digit>, part: Option<seq<Digit>>, e: Option<int>)
    requires whole != []
    ensures var body, m := DigitsText(whole) + Fraction(part), DigitsText(whole) + Fraction(part) + Exponent(e);
      && m != [] && m[0] != MINUS && IndexOf(m, LOWER_E) == |body| && m[..|body|] == body && m[|body|..] == Exponent(e)
  {
    hide DigitsText, IndexOf, ExponentText, Fraction;
    var body, x := DigitsText(whole) + Fraction(part), Exponent(e);
    NoMark(whole);
    assert (body + x)[0] == DigitsText(whole)[0] && (body + x)[0] in DigitsText(whole);
    ReadFraction(whole, part);
    IndexOfFirst(body, LOWER_E, x);
  }

  lemma {:induction false} ReadLayout(neg: bool, whole: seq<Digit>, part: Option<seq<Digit>>, e: Option<int>)
    requires whole != []
    ensures NumberValue(Layout(neg, whole, part, e))
            == Normalised(neg, whole, if part.Some? then part.value else [], if e.Some? then e.value else 0)
  {
    hide DigitsText, TextDigits, IndexOf, Exponent, ExponentValue, Fraction, Normalised, NumberValue, Layout;
    LayoutIs(neg, whole, part, e);
    BodyAndExponent(whole, part, e);
    NumberParts(neg, DigitsText(whole) + Fraction(part) + Exponent(e));
    ReadFraction(whole, part);
    ReadExponent(e);
  }

  lemma ExponentZero()
    ensures ExponentValue([]) == 0
  {
  }

  /** The layout determines the number: reading the printed text gives it back, up to the sign of
    zero. */
  lemma {:induction false} NumberBack(x: Number)
    requires !x.NonFinite?
    ensures NumberValue(NumberText(x).value) == if x.Zero? then Zero(false) else x
  {
    match x {
      case Zero(_) => ZeroBack();
      case Finite(neg, ds, n) => MagnitudeBack(neg, ds, n);
    }
  }

  lemma {:induction false} ZeroBack()
    ensures NumberValue([48]) == Zero(false)
  {
    ReadLayout(false, [0], None, None);
    assert Layout(false, [0], None, None) == [48];
    assert LeadingZeros([0]) == 1 && [0] + [] == [0];
    hide NumberValue;
  }

  /** Which digits go before the point, which after, the exponent, and the zeros added around. */
  datatype Parts = Parts(whole: seq<Digit>, part: Option<seq<Digit>>, e: Option<int>, lead: nat, trail: nat)

  function PartsOf(ds: seq<Digit>, n: int): Parts
    requires ds != []
  {
    var k := |ds|;
    if k <= n <= 21 then Parts(ds + Zeros(n - k), None, None, 0, n - k)
    else if 0 < n <= 21 then Parts(ds[..n], Some(ds[n..]), None, 0, 0)
    else if -6 < n <= 0 then Parts([0], Some(Zeros(-n) + ds), None, 1 - n, 0)
    else if k == 1 then Parts(ds, None, Some(n - 1), 0, 0)
    else Parts(ds[..1], Some(ds[1..]), Some(n - 1), 0, 0)
  }

  lemma {:induction false} PartsLayout(neg: bool, ds: seq<Digit>, n: int)
    requires ds != []
    ensures var p := PartsOf(ds, n);
            Layout(neg, p.whole, p.part, p.e) == (if neg then [MINUS] else []) + Magnitude(ds, n)
  {
    hide DigitsText, ExponentText, Magnitude, PartsOf;
    var p := PartsOf(ds, n);
    PartsText(ds, n);
  }

  lemma {:induction false} PartsText(ds: seq<Digit>, n: int)
    requires ds != []
    ensures var p := PartsOf(ds, n);
            DigitsText(p.whole) + Fraction(p.part) + Exponent(p.e) == Magnitude(ds, n)
  {
    hide DigitsText, ExponentText, Zeros;
    var p := PartsOf(ds, n);
    if |ds| <= n <= 21 {
      assert DigitsText(p.whole) + [] + [] == DigitsText(p.whole);
    } else if -6 < n <= 21 {
      assert Fraction(p.part) + [] == Fraction(p.part);
    } else if |ds| == 1 {
      assert DigitsText(p.whole) + [] == DigitsText(p.whole);
    }
  }

  lemma PartsSum(ds: seq<Digit>, n: int)
    requires ds != []
    ensures var p := PartsOf(ds, n);
            && p.whole != []
            && p.whole + (if p.part.Some? then p.part.value else []) == Zeros(p.lead) + ds + Zeros(p.trail)
            && |p.whole| + (if p.e.Some? then p.e.value else 0) - p.lead == n
  {
  }

  lemma {:induction false} MagnitudeBack(neg: bool, ds: Digits, n: int)
    ensures NumberValue((if neg then [MINUS] else []) + Magnitude(ds, n)) == Finite(neg, ds, n)
  {
    hide NumberValue, Normalised, Magnitude, Layout, PartsOf;
    var p := PartsOf(ds, n);
    PartsLayout(neg, ds, n);
    PartsSum(ds, n);
    ReadLayout(neg, p.whole, p.part, p.e);
    NormalisedBack(neg, p.whole, if p.part.Some? then p.part.value else [], if p.e.Some? then p.e.value else 0,
                   p.lead, ds, p.trail);
  }

  /** Printed numbers consist of number characters, so the reader finds where they end. */
  lemma {:induction false} NumberUnits(x: Number)
    requires !x.NonFinite?
    ensures NumberText(x).value != []
    ensures AllNumberUnits(NumberText(x).value)
    ensures NumberText(x).value[0] == MINUS || 48 <= NumberText(x).value[0] <= 57
  {
    if x.Finite? {
      MagnitudeUnits(x.digits, x.point);
      hide Magnitude;
    }
  }

  ghost predicate AllNumberUnits(t: Text) {
    forall i :: 0 <= i < |t| ==> NumberUnit(t[i])
  }

  lemma DigitsUnits(ds: seq<Digit>)
    ensures AllNumberUnits(DigitsText(ds))
  {
  }

  lemma {:induction false} MagnitudeUnits(ds: seq<Digit>, n: int)
    requires ds != []
    ensures AllNumberUnits(Magnitude(ds, n))
    ensures Magnitude(ds, n) != [] && 48 <= Magnitude(ds, n)[0] <= 57
  {
    var k := |ds|;
    if k <= n <= 21 {
      DigitsUnits(ds + Zeros(n - k));
    } else if 0 < n <= 21 {
      DigitsUnits(ds[..n]);
      DigitsUnits(ds[n..]);
    } else if -6 < n <= 0 {
      DigitsUnits([0]);
      DigitsUnits(Zeros(-n) + ds);
    } else {
      DigitsUnits(ds);
      DigitsUnits(ds[..1]);
      DigitsUnits(ds[1..]);
      DigitsUnits(NatDigits(if n - 1 >= 0 then n - 1 else -(n - 1)));
    }
  }

  lemma {:induction false} SpanStops(t: Text, rest: Text)
    requires AllNumberUnits(t)
    requires rest == [] || !NumberUnit(rest[0])
    ensures Span(t + rest) == |t|
  {
    if t == [] {
      assert t + rest == rest;
    } else {
      SpanStops(t[1..], rest);
      assert (t + rest)[1..] == t[1..] + rest;
    }
  }

  // --- Which layout is chosen ---------------------------------------------------

  lemma {:induction false} NoLeadingZero(n: nat)
    requires n > 0
    ensures NatDigits(n)[0] != 0
  {
    if n >= 10 {
      NoLeadingZero(n / 10);
    }
  }

  lemma {:induction false} PlainDigits(ds: seq<Digit>)
    ensures LOWER_E !in DigitsText(ds) && DOT !in DigitsText(ds) && MINUS !in DigitsText(ds) && PLUS !in DigitsText(ds)
  {
  }

  /** 0.d1d2...dk times 10^n is written without an exponent exactly from 10^-6 up to, not including, 10^21;
    a point stands exactly where digits follow it; and no character is spent on more. */
  lemma {:induction false} PlainForm(ds: Digits, n: int)
    requires -6 < n <= 21
    ensures var t := Magnitude(ds, n);
      && LOWER_E !in t && (DOT in t <==> n < |ds|)
      && |t| == if n >= |ds| then n else if n > 0 then |ds| + 1 else |ds| + 2 - n
  {
    PlainDigits(ds + Zeros(if n >= |ds| then n - |ds| else 0));
    PlainDigits(if 0 <= n <= |ds| then ds[..n] else []);
    PlainDigits(if 0 <= n <= |ds| then ds[n..] else []);
    PlainDigits([0]);
    PlainDigits(Zeros(if n <= 0 then -n else 0) + ds);
    if n < |ds| {
      var at := if n > 0 then n else 1;
      assert Magnitude(ds, n)[at] == DOT;
    }
    hide DigitsText;
  }

  function Mantissa(ds: Digits): (t: Text)
    ensures |t| == if |ds| == 1 then 1 else |ds| + 1
  {
    if |ds| == 1 then DigitsText(ds) else DigitsText(ds[..1]) + [DOT] + DigitsText(ds[1..])
  }

  lemma {:induction false} MantissaForm(ds: Digits)
    ensures Mantissa(ds)[0] == DigitUnit(ds[0]) && (|ds| > 1 ==> Mantissa(ds)[1] == DOT) && LOWER_E !in Mantissa(ds)
  {
    PlainDigits(ds);
    PlainDigits(ds[..1]);
    PlainDigits(ds[1..]);
  }

  lemma {:induction false} ExponentLayout(ds: Digits, n: int)
    requires n <= -6 || n > 21
    ensures Magnitude(ds, n) == Mantissa(ds) + ExponentText(n - 1)
  {
    hide DigitsText, ExponentText;
  }

  /** Outside that range it is written with an exponent: one digit before the point, a sign in every
    exponent, and no zero at its front. */
  lemma {:induction false} ExponentForm(ds: Digits, n: int)
    requires n <= -6 || n > 21
    ensures var t := Magnitude(ds, n);
      var at := if |ds| == 1 then 1 else |ds| + 1;
      && |t| > at + 2 && t[at] == LOWER_E && LOWER_E !in t[..at] && t[0] == DigitUnit(ds[0])
      && (|ds| > 1 ==> t[1] == DOT)
      && t[at + 1] == (if n > 0 then PLUS else MINUS)
      && t[at + 2] != 48
  {
    hide DigitsText, ExponentText, Magnitude, Mantissa;
    MantissaForm(ds);
    ExponentStarts(n - 1);
    ExponentLayout(ds, n);
    HeadTail(Mantissa(ds), ExponentText(n - 1));
  }

  lemma {:induction false} HeadTail(head: Text, tail: Text)
    ensures (head + tail)[..|head|] == head
    ensures forall i :: 0 <= i < |tail| ==> (head + tail)[|head| + i] == tail[i]
  {
  }

  lemma {:induction false} ExponentStarts(e: int)
    requires e != 0
    ensures var t := ExponentText(e);
      |t| > 2 && t[0] == LOWER_E && t[1] == (if e > 0 then PLUS else MINUS) && t[2] != 48
  {
    NoLeadingZero(if e > 0 then e else -e);
    hide NatDigits;
  }
}
