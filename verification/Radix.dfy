/** Numbers written in a radix, conversion between radixes, and decimal text. */
module Radix {
  import opened Texts

  // ---------- Numbers in a radix, most significant digit first ----------

  predicate Below(ds: seq<nat>, radix: nat) { forall i | 0 <= i < |ds| :: ds[i] < radix }

  function Value(ds: seq<nat>, radix: nat): nat {
    if ds == [] then 0 else Value(ds[..|ds| - 1], radix) * radix + ds[|ds| - 1]
  }

  /** The last digit counts once, the digits in front of it radix times. */
  lemma ValueSnoc(ds: seq<nat>, d: nat, radix: nat)
    ensures Value([], radix) == 0
    ensures Value(ds + [d], radix) == Value(ds, radix) * radix + d
  {
    assert (ds + [d])[..|ds|] == ds;
  }

  function Digits(n: nat, radix: nat): (ds: seq<nat>)
    requires radix >= 2
    ensures Below(ds, radix)
    ensures n > 0 ==> ds != [] && ds[0] != 0
  {
    if n == 0 then []
    else
      QuotientSmaller(n, radix);
      Digits(n / radix, radix) + [n % radix]
  }

  lemma QuotientSmaller(n: nat, radix: nat)
    requires radix >= 2 && n > 0
    ensures 0 <= n / radix < n
  {
    var q := n / radix;
    assert n == q * radix + n % radix;
    MulMonotone(2, radix, q);
  }

  lemma {:induction false} MulMonotone(a: int, b: int, c: nat)
    requires a <= b
    ensures a * c <= b * c
  {
    assert (b - a) * c >= 0;
  }

  lemma DivMod(q: nat, radix: nat, r: nat)
    requires r < radix
    ensures (q * radix + r) / radix == q && (q * radix + r) % radix == r
  {
    var q' := (q * radix + r) / radix;
    assert q' * radix + (q * radix + r) % radix == q * radix + r;
    if q' < q {
      MulMonotone(q' + 1, q, radix);
    } else if q' > q {
      MulMonotone(q + 1, q', radix);
    }
  }

  lemma DivModSum(n: nat, radix: nat)
    requires radix >= 1
    ensures n == n / radix * radix + n % radix
  {}

  lemma {:induction false} ValueDigits(n: nat, radix: nat)
    requires radix >= 2
    ensures Value(Digits(n, radix), radix) == n
  {
    if n > 0 {
      QuotientSmaller(n, radix);
      ValueDigits(n / radix, radix);
      var ds := Digits(n, radix);
      assert ds[..|ds| - 1] == Digits(n / radix, radix) && ds[|ds| - 1] == n % radix;
      DivModSum(n, radix);
      calc {
        Value(ds, radix);
        Value(ds[..|ds| - 1], radix) * radix + ds[|ds| - 1];
        n / radix * radix + n % radix;
      }
    }
  }

  lemma {:induction false} ValuePositive(ds: seq<nat>, radix: nat)
    requires radix >= 1 && ds != [] && ds[0] != 0
    ensures Value(ds, radix) > 0
  {
    if |ds| > 1 {
      ValuePositive(ds[..|ds| - 1], radix);
      assert Value(ds[..|ds| - 1], radix) * radix >= 1;
    }
  }

  /** Digits without a leading zero are the digits of their value. */
  lemma {:induction false} DigitsValue(ds: seq<nat>, radix: nat)
    requires radix >= 2 && Below(ds, radix) && (ds == [] || ds[0] != 0)
    ensures Digits(Value(ds, radix), radix) == ds
  {
    if ds != [] {
      var init, last := ds[..|ds| - 1], ds[|ds| - 1];
      DigitsValue(init, radix);
      ValuePositive(ds, radix);
      DivMod(Value(init, radix), radix, last);
      assert ds == init + [last];
    }
  }

  // ---------- Leading zeros ----------

  function Zeros(ds: seq<nat>): (z: nat)
    ensures z <= |ds|
    ensures forall i | 0 <= i < z :: ds[i] == 0
    ensures z < |ds| ==> ds[z] != 0
  {
    if ds != [] && ds[0] == 0 then 1 + Zeros(ds[1..]) else 0
  }

  function Fill(z: nat): (ds: seq<nat>)
    ensures |ds| == z && forall i | 0 <= i < z :: ds[i] == 0
  {
    seq(z, i => 0)
  }

  lemma {:induction false} ZerosFill(z: nat, ds: seq<nat>)
    requires ds == [] || ds[0] != 0
    ensures Zeros(Fill(z) + ds) == z
    decreases z
  {
    if z == 0 {
      assert Fill(z) + ds == ds;
    } else {
      ZerosFill(z - 1, ds);
      assert (Fill(z) + ds)[1..] == Fill(z - 1) + ds;
    }
  }

  lemma {:induction false} ValueFill(z: nat, ds: seq<nat>, radix: nat)
    ensures Value(Fill(z) + ds, radix) == Value(ds, radix)
    decreases z + |ds|
  {
    var all := Fill(z) + ds;
    if ds != [] {
      assert all[..|all| - 1] == Fill(z) + ds[..|ds| - 1];
      ValueFill(z, ds[..|ds| - 1], radix);
    } else if z > 0 {
      assert all[..|all| - 1] == Fill(z - 1) + ds;
      ValueFill(z - 1, ds, radix);
    }
  }

  lemma ZerosSplit(ds: seq<nat>)
    ensures ds == Fill(Zeros(ds)) + ds[Zeros(ds)..]
  {}

  // ---------- Radix conversion ----------

  /** Keeps the leading zeros and rewrites the rest in another radix. */
  function Recode(ds: seq<nat>, from: nat, to: nat): (r: seq<nat>)
    requires to >= 2
    ensures Below(r, to)
  {
    Fill(Zeros(ds)) + Digits(Value(ds, from), to)
  }

  lemma DigitsStart(n: nat, radix: nat)
    requires radix >= 2
    ensures Digits(n, radix) == [] || Digits(n, radix)[0] != 0
  {}

  /** Conversion keeps the count of leading zeros and the number. */
  lemma RecodeMeaning(ds: seq<nat>, from: nat, to: nat)
    requires to >= 2
    ensures Zeros(Recode(ds, from, to)) == Zeros(ds)
    ensures Value(Recode(ds, from, to), to) == Value(ds, from)
  {
    DigitsStart(Value(ds, from), to);
    ZerosFill(Zeros(ds), Digits(Value(ds, from), to));
    ValueFill(Zeros(ds), Digits(Value(ds, from), to), to);
    ValueDigits(Value(ds, from), to);
  }

  /** Conversion there and back is the identity. */
  lemma RecodeInverse(ds: seq<nat>, from: nat, to: nat)
    requires from >= 2 && to >= 2 && Below(ds, from)
    ensures Recode(Recode(ds, from, to), to, from) == ds
  {
    RecodeMeaning(ds, from, to);
    ZerosSplit(ds);
    ValueFill(Zeros(ds), ds[Zeros(ds)..], from);
    DigitsValue(ds[Zeros(ds)..], from);
  }

  lemma RecodeEmpty(ds: seq<nat>, from: nat, to: nat)
    requires from >= 2 && to >= 2 && Below(ds, from)
    ensures Recode(ds, from, to) == [] <==> ds == []
  {
    RecodeInverse(ds, from, to);
  }

  // ---------- Decimal text ----------

  /** `toString(10)` of a non-negative integer. */
  function Decimal(n: nat): (t: Text)
    ensures t != []
    ensures forall i | 0 <= i < |t| :: IsDigit(t[i])
  {
    if n == 0 then [48]
    else
      var ds := Digits(n, 10);
      seq(|ds|, i requires 0 <= i < |ds| => 48 + ds[i])
  }

  /** The last digit is the remainder, the text in front of it that of the quotient. */
  lemma DecimalSpelled(n: nat)
    ensures n < 10 ==> Decimal(n) == [48 + n]
    ensures n >= 10 ==> Decimal(n) == Decimal(n / 10) + [48 + n % 10]
  {
    if 0 < n < 10 {
      DivMod(0, 10, n);
      assert Digits(n, 10) == Digits(0, 10) + [n] == [n];
    } else if n >= 10 {
      assert Digits(n, 10) == Digits(n / 10, 10) + [n % 10];
    }
  }

  predicate AllDigits(t: Text) { t != [] && forall i | 0 <= i < |t| :: IsDigit(t[i]) }

  function DigitValues(t: Text): (ds: seq<nat>)
    requires AllDigits(t)
    ensures |ds| == |t| && Below(ds, 10)
    ensures forall i | 0 <= i < |t| :: ds[i] == t[i] - 48
  {
    seq(|t|, i requires 0 <= i < |t| => (assert IsDigit(t[i]); t[i] - 48))
  }

  function DecimalValue(t: Text): nat
    requires AllDigits(t)
  {
    Value(DigitValues(t), 10)
  }

  lemma DecimalRoundTrip(n: nat)
    ensures DecimalValue(Decimal(n)) == n
  {
    if n == 0 {
      assert DigitValues(Decimal(0)) == [0];
      assert Value([0], 10) == 0;
    } else {
      assert DigitValues(Decimal(n)) == Digits(n, 10);
      ValueDigits(n, 10);
    }
  }

  /** `^[1-9][0-9]*$`: the decimal text of a positive integer. */
  predicate IsAmount(t: Text) { AllDigits(t) && t[0] != 48 }

  lemma AmountIsDecimal(t: Text)
    requires IsAmount(t)
    ensures DecimalValue(t) > 0 && Decimal(DecimalValue(t)) == t
  {
    ValuePositive(DigitValues(t), 10);
    DigitsValue(DigitValues(t), 10);
  }
}
