// The numbers that base/canonical.go formats: the finite decimals, every finite float64 among them, do have one
// text each.
module NumberText {
  import opened Bytes
  import Collation

  const MINUS: Byte := 0x2D
  const DOT: Byte := 0x2E

  function Digits(n: nat): (t: Str)
    ensures t != [] && forall i :: 0 <= i < |t| ==> 0x30 <= t[i] <= 0x39
  {
    if n < 10 then [0x30 + n as Byte] else Digits(n / 10) + [0x30 + (n % 10) as Byte]
  }

  lemma {:induction false} DigitsDetermine(m: nat, n: nat)
    requires Digits(m) == Digits(n)
    ensures m == n
    decreases m
  {
    var s, t := Digits(m), Digits(n);
    if m >= 10 && n >= 10 {
      assert s[..|s| - 1] == Digits(m / 10) && t[..|t| - 1] == Digits(n / 10);
      DigitsDetermine(m / 10, n / 10);
      assert s[|s| - 1] == t[|t| - 1];
    }
  }

  function IntText(k: int): (t: Str)
    ensures t != [] && forall i :: 0 <= i < |t| ==> t[i] == MINUS || 0x30 <= t[i] <= 0x39
  {
    if k < 0 then [MINUS] + Digits(-k) else Digits(k)
  }

  lemma {:induction false} IntTextDetermines(k: int, l: int)
    requires IntText(k) == IntText(l)
    ensures k == l
  {
    var s, t := IntText(k), IntText(l);
    assert s[0] == t[0];
    if k < 0 {
      assert l < 0 && s[1..] == Digits(-k) && t[1..] == Digits(-l);
      DigitsDetermine(-k, -l);
    } else {
      DigitsDetermine(k, l);
    }
  }

  // ---------------------------------------------------------------- finite decimals

  function Power(b: real, k: nat): real
  {
    if k == 0 then 1.0 else b * Power(b, k - 1)
  }

  // v has k places at most.
  ghost predicate Places(v: real, k: nat)
  {
    Whole(v * Power(10.0, k))
  }

  predicate Whole(x: real)
  {
    x == x.Floor as real
  }

  ghost predicate Decimal(v: real)
  {
    exists k: nat :: Places(v, k)
  }

  ghost function Decimals(): iset<real>
  {
    iset v: real | Decimal(v)
  }

  lemma {:induction false} PowerIsPositive(b: real, k: nat)
    requires b > 0.0
    ensures Power(b, k) > 0.0
    decreases k
  {
    if k > 0 {
      PowerIsPositive(b, k - 1);
    }
  }

  lemma {:induction false} TenIsTwoTimesFive(k: nat) returns (f: nat)
    ensures Power(10.0, k) == Power(2.0, k) * f as real
    decreases k
  {
    f := 1;
    if k > 0 {
      var g := TenIsTwoTimesFive(k - 1);
      var p, h := Power(2.0, k - 1), g as real;
      f := 5 * g;
      assert 10.0 * (p * h) == (2.0 * p) * (5.0 * h);
    }
  }

  lemma WholeInt(x: real, m: int)
    requires x == m as real
    ensures Whole(x) && x.Floor == m
  {
  }

  // An integer over a power of two: what every finite float64 is.
  lemma {:induction false} BinaryIsDecimal(v: real, m: int, k: nat)
    requires v * Power(2.0, k) == m as real
    ensures v in Decimals()
  {
    var f := TenIsTwoTimesFive(k);
    var p, h := Power(2.0, k), f as real;
    assert v * (p * h) == (v * p) * h;
    assert (m * f) as real == m as real * h;
    WholeInt(v * Power(10.0, k), m * f);
    assert Places(v, k);
  }

  // ---------------------------------------------------------------- one text for each

  // The scaled integer and the number of places.
  ghost function DecimalText(v: real): Str
  {
    if Decimal(v) then IntText(Scaled(v, PlacesOf(v))) + [DOT] + Digits(PlacesOf(v)) else []
  }

  ghost function PlacesOf(v: real): (k: nat)
    requires Decimal(v)
    ensures Places(v, k)
  {
    var k: nat :| Places(v, k);
    k
  }

  function Scaled(v: real, k: nat): int
  {
    (v * Power(10.0, k)).Floor
  }

  lemma {:induction false} DotSplits(s: Str, x: Str, t: Str, y: Str)
    requires DOT !in s && DOT !in t && s + [DOT] + x == t + [DOT] + y
    ensures s == t && x == y
  {
    var l, r := s + [DOT] + x, t + [DOT] + y;
    assert l[|s|] == DOT && r[|t|] == DOT;
    assert forall i :: 0 <= i < |s| ==> l[i] == s[i];
    assert forall i :: 0 <= i < |t| ==> r[i] == t[i];
    assert |s| == |t|;
    assert l[..|s|] == s && r[..|t|] == t && l[|s| + 1..] == x && r[|t| + 1..] == y;
  }

  lemma {:induction false} SameTextSameNumber(v: real, w: real)
    requires v in Decimals() && w in Decimals() && DecimalText(v) == DecimalText(w)
    ensures v == w
  {
    var k, l := PlacesOf(v), PlacesOf(w);
    DotSplits(IntText(Scaled(v, k)), Digits(k), IntText(Scaled(w, l)), Digits(l));
    DigitsDetermine(k, l);
    IntTextDetermines(Scaled(v, k), Scaled(w, l));
    PowerIsPositive(10.0, k);
    assert Places(v, k) && Places(w, k);
    Cancel(v, w, Power(10.0, k));
  }

  lemma Cancel(v: real, w: real, p: real)
    requires v * p == w * p && p > 0.0
    ensures v == w
  {
    assert (v - w) * p == 0.0;
  }

  // So the collation's demand on number formatting can be met on all of them at once.
  lemma {:induction false} DecimalsHaveTexts()
    ensures Collation.FormatOk(DecimalText, Decimals())
  {
    forall v | v in Decimals() ensures DecimalText(v) != [] && forall i :: 0 <= i < |DecimalText(v)| ==> Collation.NumberByte(DecimalText(v)[i]) {
      assert Decimal(v);
    }
    forall v, w | v in Decimals() && w in Decimals() && DecimalText(v) == DecimalText(w) ensures v == w {
      SameTextSameNumber(v, w);
    }
  }
}
