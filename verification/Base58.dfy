/** Base58 as the manual-payment command line reads it: one radix conversion, shown to be a
    bijection that keeps leading zeros and the number that follows them. */
module Base58 {
  import opened Texts
  import opened Radix

  // ---------- The alphabet ----------

  function Index(u: Unit): (r: Option<nat>)
    ensures r.Some? ==> r.value < 58
  {
    if 49 <= u <= 57 then Some(u - 49)
    else if 65 <= u <= 72 then Some(u - 56)
    else if 74 <= u <= 78 then Some(u - 57)
    else if 80 <= u <= 90 then Some(u - 58)
    else if 97 <= u <= 107 then Some(u - 64)
    else if 109 <= u <= 122 then Some(u - 65)
    else None
  }

  function Letter(d: nat): (u: Unit)
    requires d < 58
    ensures Index(u) == Some(d)
  {
    if d < 9 then d + 49
    else if d < 17 then d + 56
    else if d < 22 then d + 57
    else if d < 33 then d + 58
    else if d < 44 then d + 64
    else d + 65
  }

  /** The pattern the option is checked against: Base58 letters, at least one. */
  predicate IsBase58(t: Text) { t != [] && forall i | 0 <= i < |t| :: Index(t[i]).Some? }

  function Indexes(t: Text): (ds: seq<nat>)
    requires IsBase58(t)
    ensures |ds| == |t| && Below(ds, 58)
    ensures forall i | 0 <= i < |t| :: ds[i] == Index(t[i]).value
  {
    seq(|t|, i requires 0 <= i < |t| => Index(t[i]).value)
  }

  function Letters(ds: seq<nat>): (t: Text)
    requires Below(ds, 58)
    ensures |t| == |ds|
    ensures forall i | 0 <= i < |ds| :: t[i] == Letter(ds[i])
  {
    seq(|ds|, i requires 0 <= i < |ds| => Letter(ds[i]))
  }

  // ---------- Hexadecimal digits to bytes ----------

  function PadEven(hex: seq<nat>): (r: seq<nat>)
    ensures |r| % 2 == 0
  {
    if |hex| % 2 == 0 then hex else [0] + hex
  }

  function PairUp(hex: seq<nat>): seq<nat> {
    if |hex| < 2 then [] else PairUp(hex[..|hex| - 2]) + [hex[|hex| - 2] * 16 + hex[|hex| - 1]]
  }

  lemma PairUpSnoc(hex: seq<nat>, a: nat, b: nat)
    ensures PairUp(hex + [a, b]) == PairUp(hex) + [a * 16 + b]
  {
    var all := hex + [a, b];
    var n := |hex|;
    assert |all| == n + 2;
    assert all[..n] == hex;
    assert all[n] == a;
    assert all[n + 1] == b;
  }

  lemma HexTwice(n: nat)
    requires n >= 256
    ensures Digits(n, 16) == Digits(n / 256, 16) + [n / 16 % 16, n % 16]
  {
    assert n / 16 / 16 == n / 256;
    assert Digits(n / 16, 16) == Digits(n / 256, 16) + [n / 16 % 16];
  }

  lemma OneDigit(n: nat, radix: nat)
    requires 0 < n < radix && radix >= 2
    ensures Digits(n, radix) == [n]
  {
    DivMod(0, radix, n);
    assert Digits(n / radix, radix) == [];
  }

  lemma PairUpTwo(a: nat, b: nat)
    ensures PairUp([a, b]) == [a * 16 + b]
  {
    PairUpSnoc([], a, b);
    assert [] + [a, b] == [a, b];
  }

  lemma TwoHexDigits(n: nat)
    requires 16 <= n < 256
    ensures Digits(n, 16) == [n / 16, n % 16]
  {
    OneDigit(n / 16, 16);
    assert Digits(n, 16) == Digits(n / 16, 16) + [n % 16];
  }

  lemma OneHexDigit(n: nat)
    requires 0 < n < 16
    ensures PairUp(PadEven(Digits(n, 16))) == [n]
  {
    OneDigit(n, 16);
    PairUpTwo(0, n);
    assert PadEven([n]) == [0, n];
  }

  lemma PadEvenSnoc(hex: seq<nat>, a: nat, b: nat)
    ensures PairUp(PadEven(hex + [a, b])) == PairUp(PadEven(hex)) + [a * 16 + b]
  {
    assert |hex + [a, b]| == |hex| + 2;
    assert PadEven(hex + [a, b]) == PadEven(hex) + [a, b];
    PairUpSnoc(PadEven(hex), a, b);
  }

  /** Pairing up the padded hexadecimal digits of a number gives its bytes. */
  lemma {:induction false} HexBytes(n: nat)
    ensures PairUp(PadEven(Digits(n, 16))) == Digits(n, 256)
  {
    if n == 0 {
    } else if n < 16 {
      OneHexDigit(n);
      OneDigit(n, 256);
    } else if n < 256 {
      TwoHexDigits(n);
      PairUpTwo(n / 16, n % 16);
      OneDigit(n, 256);
    } else {
      HexBytes(n / 256);
      HexTwice(n);
      PadEvenSnoc(Digits(n / 256, 16), n / 16 % 16, n % 16);
      LowByte(n);
      assert Digits(n, 256) == Digits(n / 256, 256) + [n % 256];
    }
  }

  lemma LowByte(n: nat)
    ensures n / 16 % 16 * 16 + n % 16 == n % 256
  {}

  // ---------- decodeBase58 ----------

  function Decoded(t: Text): seq<nat>
    requires IsBase58(t)
  {
    Recode(Indexes(t), 58, 256)
  }

  lemma ValueTaken(ds: seq<nat>, i: nat, radix: nat)
    requires i < |ds|
    ensures Value(ds[..i + 1], radix) == Value(ds[..i], radix) * radix + ds[i]
  {
    assert ds[..i + 1] == ds[..i] + [ds[i]];
    ValueSnoc(ds[..i], ds[i], radix);
  }

  /** The length of the match of `^1*`. */
  method LeadingOnes(value: Text) returns (n: nat)
    requires IsBase58(value)
    ensures n == Zeros(Indexes(value))
  {
    n := 0;
    while n < |value| && value[n] == 49
      invariant n <= Zeros(Indexes(value))
    {
      assert Indexes(value)[n] == 0;
      n := n + 1;
    }
    if n < |value| {
      assert Indexes(value)[n] != 0;
    }
  }

  method DecodeBase58(value: Text) returns (r: Result<seq<nat>, ()>)
    ensures r == if IsBase58(value) then Ok(Decoded(value)) else Err(())
  {
    if !IsBase58(value) {
      return Err(());
    }
    var indexes := Indexes(value);
    var number := 0;
    for i := 0 to |value|
      invariant number == Value(indexes[..i], 58)
    {
      ValueTaken(indexes, i, 58);
      number := number * 58 + indexes[i];
    }
    assert indexes[..|value|] == indexes;
    HexBytes(number);
    var body := if number == 0 then [] else PairUp(PadEven(Digits(number, 16)));
    var leadingZeroes := LeadingOnes(value);
    r := Ok(Fill(leadingZeroes) + body);
  }

  /** The encoder that `decodeBase58` inverts. */
  function Encoded(b: seq<nat>): (t: Text)
    requires Below(b, 256) && b != []
    ensures IsBase58(t)
  {
    RecodeEmpty(b, 256, 58);
    Letters(Recode(b, 256, 58))
  }

  /** Every non-empty byte string is decoded from exactly one Base58 string: its encoding. */
  lemma Base58Bijection(t: Text, b: seq<nat>)
    requires IsBase58(t) && b != [] && Below(b, 256)
    ensures Decoded(t) == b <==> t == Encoded(b)
    ensures Decoded(t) != []
  {
    RecodeInverse(Indexes(t), 58, 256);
    RecodeInverse(b, 256, 58);
    RecodeEmpty(Indexes(t), 58, 256);
    RecodeEmpty(b, 256, 58);
    var ds := Recode(b, 256, 58);
    IndexesOfLetters(ds);
    LettersOfIndexes(t);
    assert Encoded(b) == Letters(ds);
  }

  lemma IndexesOfLetters(ds: seq<nat>)
    requires Below(ds, 58) && ds != []
    ensures IsBase58(Letters(ds)) && Indexes(Letters(ds)) == ds
  {}

  lemma LettersOfIndexes(t: Text)
    requires IsBase58(t)
    ensures Letters(Indexes(t)) == t
  {}

  /** Leading '1's become leading zero bytes and the rest carries the same number. */
  lemma Base58Meaning(t: Text)
    requires IsBase58(t)
    ensures Zeros(Decoded(t)) == Zeros(Indexes(t))
    ensures Value(Decoded(t), 256) == Value(Indexes(t), 58)
  {
    RecodeMeaning(Indexes(t), 58, 256);
  }

  lemma UpperLetters(i: nat)
    requires i < 24
    ensures Spell("ABCDEFGHJKLMNPQRSTUVWXYZ")[i] == Letter(9 + i)
  {}

  lemma LowerLetters(i: nat)
    requires i < 25
    ensures Spell("abcdefghijkmnopqrstuvwxyz")[i] == Letter(33 + i)
  {}

  /** The letters in the order of their values. */
  lemma LettersInOrder(d: nat)
    requires d < 58
    ensures Letter(d) == Spell("123456789" + "ABCDEFGHJKLMNPQRSTUVWXYZ" + "abcdefghijkmnopqrstuvwxyz")[d]
  {
    SpellParts("123456789", "ABCDEFGHJKLMNPQRSTUVWXYZ", "abcdefghijkmnopqrstuvwxyz", d);
    if 9 <= d < 33 {
      UpperLetters(d - 9);
    } else if 33 <= d {
      LowerLetters(d - 33);
    }
  }

  /** The texts that are decoded at all: non-empty, of the 58 letters only. */
  lemma IsBase58Exact(t: Text)
    ensures IsBase58(t) <==> |t| > 0 && forall i | 0 <= i < |t| :: IsLetter(t[i])
  {
    forall i | 0 <= i < |t| ensures Index(t[i]).Some? <==> IsLetter(t[i]) {
      if Index(t[i]).Some? {
        assert Letter(Index(t[i]).value) == t[i];
      }
    }
  }

  ghost predicate IsLetter(u: Unit) { exists d: nat | d < 58 :: Letter(d) == u }

  lemma SmallNumber()
    ensures Value([0, 4, 24], 58) == 256 && Zeros([0, 4, 24]) == 1 && Digits(256, 256) == [1, 0]
  {
    ValueSnoc([], 0, 58);
    ValueSnoc([0], 4, 58);
    ValueSnoc([0, 4], 24, 58);
    assert [] + [0] == [0] && [0] + [4] == [0, 4] && [0, 4] + [24] == [0, 4, 24];
    assert [0, 4, 24][1..][0] == 4;
    OneDigit(1, 256);
    assert Digits(256, 256) == Digits(1, 256) + [0];
  }

  lemma SmallIndexes(t: Text)
    requires t == [49, 53, 82]
    ensures IsBase58(t) && Indexes(t) == [0, 4, 24]
  {}

  /** One leading 1, then 4 * 58 + 24 == 256: one zero byte, then two bytes. */
  lemma SmallExample()
    ensures IsBase58(Spell("15R")) && Decoded(Spell("15R")) == [0, 1, 0]
  {
    assert Spell("15R") == [49, 53, 82];
    SmallIndexes(Spell("15R"));
    SmallNumber();
    assert Fill(1) == [0];
  }
}
