/** Base64 as the header codecs use it: Node's permissive decoder guarded by an exact
    re-encoding test (sections 3.5, 4 and 5 of RFC 4648). */
module Base64 {
  import opened Texts
  import Utf8

  type Digit = x: int | 0 <= x < 64

  datatype Alphabet = Standard | Url

  function Symbol(a: Alphabet, d: Digit): Unit {
    if d < 26 then 65 + d
    else if d < 52 then 71 + d
    else if d < 62 then d - 4
    else if d == 62 then (if a.Url? then 45 else 43)
    else (if a.Url? then 95 else 47)
  }

  predicate InAlphabet(a: Alphabet, u: Unit) {
    IsAlphaNumeric(u) || (if a.Url? then u == 45 || u == 95 else u == 43 || u == 47)
  }

  predicate AllIn(a: Alphabet, t: Text) { forall i | 0 <= i < |t| :: InAlphabet(a, t[i]) }

  /** Node reads the symbols of both alphabets, whichever one is named. */
  function SymbolValue(u: Unit): Digit {
    if 65 <= u <= 90 then u - 65
    else if 97 <= u <= 122 then u - 71
    else if IsDigit(u) then u + 4
    else if u == 45 || u == 43 then 62
    else 63
  }

  function Symbols(a: Alphabet, ds: seq<Digit>): (t: Text)
    ensures |t| == |ds|
    ensures forall i | 0 <= i < |ds| :: t[i] == Symbol(a, ds[i])
  {
    seq(|ds|, i requires 0 <= i < |ds| => Symbol(a, ds[i]))
  }

  function Digits(t: Text): (ds: seq<Digit>)
    ensures |ds| == |t|
    ensures forall i | 0 <= i < |t| :: ds[i] == SymbolValue(t[i])
  {
    seq(|t|, i requires 0 <= i < |t| => SymbolValue(t[i]))
  }

  function ToDigits(b: seq<Byte>): seq<Digit> {
    if b == [] then []
    else if |b| == 1 then [b[0] / 4, b[0] % 4 * 16]
    else if |b| == 2 then [b[0] / 4, b[0] % 4 * 16 + b[1] / 16, b[1] % 16 * 4]
    else [b[0] / 4, b[0] % 4 * 16 + b[1] / 16, b[1] % 16 * 4 + b[2] / 64, b[2] % 64] + ToDigits(b[3..])
  }

  /** The permissive decoder: leftover bits and a lone last symbol are dropped. */
  function FromDigits(ds: seq<Digit>): seq<Byte> {
    if |ds| < 2 then []
    else if |ds| == 2 then [First(ds)]
    else if |ds| == 3 then [First(ds), Second(ds)]
    else [First(ds), Second(ds), Third(ds)] + FromDigits(ds[4..])
  }

  function First(ds: seq<Digit>): Byte
    requires |ds| >= 2
  {
    var x: int, y: int := ds[0], ds[1];
    x * 4 + y / 16
  }

  function Second(ds: seq<Digit>): Byte
    requires |ds| >= 3
  {
    var x: int, y: int := ds[1], ds[2];
    x % 16 * 16 + y / 4
  }

  function Third(ds: seq<Digit>): Byte
    requires |ds| >= 4
  {
    var x: int, y: int := ds[2], ds[3];
    x % 4 * 64 + y
  }

  /** No lone last symbol, and zero pad bits (section 3.5 of RFC 4648). */
  predicate CanonicalDigits(ds: seq<Digit>) {
    && |ds| % 4 != 1
    && (|ds| % 4 == 2 ==> ds[|ds| - 1] % 16 == 0)
    && (|ds| % 4 == 3 ==> ds[|ds| - 1] % 4 == 0)
  }

  /** Three bytes and their four digits hold the same bits. */
  lemma TripleBits(x: Byte, y: Byte, z: Byte)
    ensures x / 4 * 4 + (x % 4 * 16 + y / 16) / 16 == x
    ensures (x % 4 * 16 + y / 16) % 16 * 16 + (y % 16 * 4 + z / 64) / 4 == y
    ensures (y % 16 * 4 + z / 64) % 4 * 64 + z % 64 == z
  {
    var h: int, l: int, i: int, j: int := x % 4, y / 16, y % 16, z / 64;
    assert (h * 16 + l) / 16 == h && (h * 16 + l) % 16 == l;
    assert (i * 4 + j) / 4 == i && (i * 4 + j) % 4 == j;
  }

  lemma QuartetBits(x: Digit, y: Digit, z: Digit, w: Digit)
    ensures var f: int, g: int, h: int := x * 4 + y / 16, y % 16 * 16 + z / 4, z % 4 * 64 + w;
      f / 4 == x && f % 4 * 16 + g / 16 == y && g % 16 * 4 + h / 64 == z && h % 64 == w
  {
    var a: int, b: int, c: int, d: int := y / 16, y % 16, z / 4, z % 4;
    assert (x * 4 + a) / 4 == x && (x * 4 + a) % 4 == a;
    assert (b * 16 + c) / 16 == b && (b * 16 + c) % 16 == c;
    assert (d * 64 + w) / 64 == d && (d * 64 + w) % 64 == w;
  }

  lemma Triple(x: Byte, y: Byte, z: Byte, rest: seq<Digit>)
    ensures FromDigits([x / 4, x % 4 * 16 + y / 16, y % 16 * 4 + z / 64, z % 64] + rest) == [x, y, z] + FromDigits(rest)
  {
    var ds: seq<Digit> := [x / 4, x % 4 * 16 + y / 16, y % 16 * 4 + z / 64, z % 64] + rest;
    assert ds[4..] == rest;
    TripleBits(x, y, z);
  }

  lemma LastTwo(x: Byte, y: Byte)
    ensures FromDigits([x / 4, x % 4 * 16 + y / 16, y % 16 * 4]) == [x, y]
  {
    TripleBits(x, y, 0);
  }

  lemma LastOne(x: Byte)
    ensures FromDigits([x / 4, x % 4 * 16]) == [x]
  {
    TripleBits(x, 0, 0);
  }

  lemma {:induction false} DecodeEncodeDigits(b: seq<Byte>)
    ensures FromDigits(ToDigits(b)) == b
  {
    if |b| == 1 {
      LastOne(b[0]);
    } else if |b| == 2 {
      LastTwo(b[0], b[1]);
    } else if |b| >= 3 {
      DecodeEncodeDigits(b[3..]);
      Triple(b[0], b[1], b[2], ToDigits(b[3..]));
      assert b == [b[0], b[1], b[2]] + b[3..];
    }
  }

  lemma {:induction false} EncodedDigitsCanonical(b: seq<Byte>)
    ensures CanonicalDigits(ToDigits(b))
  {
    if |b| >= 3 {
      EncodedDigitsCanonical(b[3..]);
      assert ToDigits(b)[4..] == ToDigits(b[3..]);
      CanonicalTail(ToDigits(b));
    }
  }

  lemma Quartet(ds: seq<Digit>, rest: seq<Byte>)
    requires |ds| >= 4
    ensures ToDigits([First(ds), Second(ds), Third(ds)] + rest) == ds[..4] + ToDigits(rest)
  {
    var b := [First(ds), Second(ds), Third(ds)] + rest;
    QuartetBits(ds[0], ds[1], ds[2], ds[3]);
    assert b[3..] == rest;
    assert ds[..4] == [ds[0], ds[1], ds[2], ds[3]];
  }

  lemma TwoDigits(x: Digit, y: Digit)
    ensures ToDigits(FromDigits([x, y])) == [x, y / 16 * 16]
  {
    var f: int := First([x, y]);
    assert f / 4 == x && f % 4 == y / 16;
  }

  lemma ThreeDigits(x: Digit, y: Digit, z: Digit)
    ensures ToDigits(FromDigits([x, y, z])) == [x, y, z / 4 * 4]
  {
    var f: int, g: int := First([x, y, z]), Second([x, y, z]);
    assert f / 4 == x && f % 4 == y / 16;
    assert g / 16 == y % 16 && g % 16 == z / 4;
  }

  lemma ClearLowBits(prefix: seq<Digit>, d: Digit, k: nat)
    requires k == 4 || k == 16
    ensures prefix + [d / k * k] == prefix + [d] <==> d % k == 0
  {
    if prefix + [d / k * k] == prefix + [d] {
      assert (prefix + [d / k * k])[|prefix|] == (prefix + [d])[|prefix|];
    }
  }

  lemma PairExact(ds: seq<Digit>)
    requires |ds| == 2
    ensures ToDigits(FromDigits(ds)) == ds <==> CanonicalDigits(ds)
  {
    var x, y := ds[0], ds[1];
    assert ds == [x, y] == [x] + [y];
    TwoDigits(x, y);
    ClearLowBits([x], y, 16);
    assert [x] + [y / 16 * 16] == [x, y / 16 * 16];
  }

  lemma TripleExact(ds: seq<Digit>)
    requires |ds| == 3
    ensures ToDigits(FromDigits(ds)) == ds <==> CanonicalDigits(ds)
  {
    var x, y, z := ds[0], ds[1], ds[2];
    assert ds == [x, y, z] == [x, y] + [z];
    ThreeDigits(x, y, z);
    ClearLowBits([x, y], z, 4);
    assert [x, y] + [z / 4 * 4] == [x, y, z / 4 * 4];
  }

  lemma ShortExact(ds: seq<Digit>)
    requires |ds| < 2
    ensures ToDigits(FromDigits(ds)) == ds <==> CanonicalDigits(ds)
  {}

  lemma CanonicalTail(ds: seq<Digit>)
    requires |ds| >= 4
    ensures CanonicalDigits(ds) <==> CanonicalDigits(ds[4..])
  {
    assert |ds[4..]| % 4 == |ds| % 4;
  }

  /** The re-encoding test accepts exactly the canonical digit strings. */
  lemma {:induction false} EncodeDecodeDigits(ds: seq<Digit>)
    ensures ToDigits(FromDigits(ds)) == ds <==> CanonicalDigits(ds)
  {
    if |ds| < 2 {
      ShortExact(ds);
    } else if |ds| == 2 {
      PairExact(ds);
    } else if |ds| == 3 {
      TripleExact(ds);
    } else {
      EncodeDecodeDigits(ds[4..]);
      Quartet(ds, FromDigits(ds[4..]));
      CanonicalTail(ds);
      assert ToDigits(FromDigits(ds))[4..] == ToDigits(FromDigits(ds[4..]));
      assert ds == ds[..4] + ds[4..];
    }
  }

  lemma {:induction false} DigitsLength(b: seq<Byte>)
    ensures |ToDigits(b)| == (4 * |b| + 2) / 3
  {
    if |b| >= 3 {
      DigitsLength(b[3..]);
    }
  }

  // ---------- What the symbols mean (section 4 of RFC 4648) ----------

  lemma CapitalSymbols(i: nat)
    requires i < 26
    ensures Spell("ABCDEFGHIJKLMNOPQRSTUVWXYZ")[i] == 65 + i
  {}

  lemma SmallSymbols(i: nat)
    requires i < 26
    ensures Spell("abcdefghijklmnopqrstuvwxyz")[i] == 97 + i
  {}

  lemma OtherSymbols(i: nat)
    requires i < 12
    ensures Spell("0123456789-_")[i] == Symbol(Url, 52 + i)
    ensures Spell("0123456789+/")[i] == Symbol(Standard, 52 + i)
  {}

  /** The two alphabets. */
  lemma AlphabetsInOrder(d: Digit)
    ensures Symbol(Url, d) == Spell("ABCDEFGHIJKLMNOPQRSTUVWXYZ" + "abcdefghijklmnopqrstuvwxyz" + "0123456789-_")[d]
    ensures Symbol(Standard, d) ==
      Spell("ABCDEFGHIJKLMNOPQRSTUVWXYZ" + "abcdefghijklmnopqrstuvwxyz" + "0123456789+/")[d]
  {
    SpellParts("ABCDEFGHIJKLMNOPQRSTUVWXYZ", "abcdefghijklmnopqrstuvwxyz", "0123456789-_", d);
    SpellParts("ABCDEFGHIJKLMNOPQRSTUVWXYZ", "abcdefghijklmnopqrstuvwxyz", "0123456789+/", d);
    if d < 26 {
      CapitalSymbols(d);
    } else if d < 52 {
      SmallSymbols(d - 26);
    } else {
      OtherSymbols(d - 52);
    }
  }

  /** Each symbol stands for one digit, and nothing else is in the alphabet. */
  lemma AlphabetExact(a: Alphabet, u: Unit, d: Digit)
    ensures Symbol(a, d) == u <==> InAlphabet(a, u) && SymbolValue(u) == d
  {}

  predicate Digits4(ds: seq<Digit>, x: Byte, y: Byte, z: Byte) {
    |ds| == 4 && ((ds[0] as int * 64 + ds[1]) * 64 + ds[2]) * 64 + ds[3] == (x as int * 256 + y) * 256 + z
  }

  /** Three bytes are the four digits of the same 24-bit number; one or two bytes at the end are
      followed by zero bits up to the next digit. */
  lemma DigitsSpelled(b: seq<Byte>)
    ensures |b| >= 3 ==> exists ds :: Digits4(ds, b[0], b[1], b[2]) && ToDigits(b) == ds + ToDigits(b[3..])
    ensures |b| == 2 ==> |ToDigits(b)| == 3 && Digits4(ToDigits(b) + [0], b[0], b[1], 0)
    ensures |b| == 1 ==> |ToDigits(b)| == 2 && Digits4(ToDigits(b) + [0, 0], b[0], 0, 0)
    ensures b == [] ==> ToDigits(b) == []
  {
    if |b| >= 3 {
      var ds: seq<Digit> := [b[0] / 4, b[0] % 4 * 16 + b[1] / 16, b[1] % 16 * 4 + b[2] / 64, b[2] % 64];
      SameBits(b[0], b[1], b[2]);
      assert Digits4(ds, b[0], b[1], b[2]) && ToDigits(b) == ds + ToDigits(b[3..]);
    } else if |b| == 2 {
      SameBits(b[0], b[1], 0);
      assert ToDigits(b) + [0] == [b[0] / 4, b[0] % 4 * 16 + b[1] / 16, b[1] % 16 * 4 + 0 / 64, 0 % 64];
    } else if |b| == 1 {
      SameBits(b[0], 0, 0);
      assert ToDigits(b) + [0, 0] == [b[0] / 4, b[0] % 4 * 16 + 0 / 16, 0 % 16 * 4 + 0 / 64, 0 % 64];
    }
  }

  lemma SameBits(x: Byte, y: Byte, z: Byte)
    ensures Digits4([x / 4, x % 4 * 16 + y / 16, y % 16 * 4 + z / 64, z % 64], x, y, z)
  {}

  // ---------- Texts ----------

  /** `toString("base64url")`. */
  function EncodeUrl(b: seq<Byte>): Text { Symbols(Url, ToDigits(b)) }

  function Padding(n: nat): Text {
    if n % 4 == 2 then [61, 61] else if n % 4 == 3 then [61] else []
  }

  /** `toString("base64")`: the standard alphabet, padded to a multiple of four. */
  function EncodeStandard(b: seq<Byte>): Text {
    Symbols(Standard, ToDigits(b)) + Padding(|ToDigits(b)|)
  }

  /** The encodings are the symbols of the digits; the standard one is filled up with equals signs
      to the next multiple of four. */
  lemma EncodingsSpelled(b: seq<Byte>)
    ensures var n := |ToDigits(b)|;
      && |EncodeUrl(b)| == n && n <= |EncodeStandard(b)| < n + 4 && |EncodeStandard(b)| % 4 == 0
      && (forall i | 0 <= i < n :: EncodeUrl(b)[i] == Symbol(Url, ToDigits(b)[i]))
      && (forall i | 0 <= i < n :: EncodeStandard(b)[i] == Symbol(Standard, ToDigits(b)[i]))
      && (forall i | n <= i < |EncodeStandard(b)| :: EncodeStandard(b)[i] == '=' as int)
  {
    EncodedDigitsCanonical(b);
  }

  /** `Buffer.from(t, ...)` on symbols of either alphabet. */
  function Decode(t: Text): seq<Byte> { FromDigits(Digits(t)) }

  lemma SymbolsDigits(a: Alphabet, ds: seq<Digit>)
    ensures AllIn(a, Symbols(a, ds)) && Digits(Symbols(a, ds)) == ds
  {}

  lemma DigitsSymbols(a: Alphabet, t: Text)
    requires AllIn(a, t)
    ensures Symbols(a, Digits(t)) == t
  {}

  /** Decoding inverts both encoders. */
  lemma DecodeEncode(a: Alphabet, b: seq<Byte>)
    ensures Decode(Symbols(a, ToDigits(b))) == b
    ensures AllIn(a, Symbols(a, ToDigits(b)))
    ensures |Symbols(a, ToDigits(b))| % 4 != 1
  {
    SymbolsDigits(a, ToDigits(b));
    DecodeEncodeDigits(b);
    EncodedDigitsCanonical(b);
  }

  /** A text over the alphabet re-encodes to itself exactly when it is canonical. */
  lemma ReencodeTest(a: Alphabet, t: Text)
    requires AllIn(a, t)
    ensures Symbols(a, ToDigits(Decode(t))) == t <==> CanonicalDigits(Digits(t))
  {
    EncodeDecodeDigits(Digits(t));
    DigitsSymbols(a, t);
    SymbolsDigits(a, ToDigits(Decode(t)));
  }

  /** An encoding fits the 4096-character header exactly up to 3072 bytes. */
  lemma HeaderBound(b: seq<Byte>)
    ensures |EncodeUrl(b)| <= 4096 <==> |b| <= 3072
  {
    DigitsLength(b);
  }

  lemma EncodeUrlInjective(b: seq<Byte>, c: seq<Byte>)
    requires EncodeUrl(b) == EncodeUrl(c)
    ensures b == c
  {
    DecodeEncode(Url, b);
    DecodeEncode(Url, c);
  }

  // ---------- parseProofHeader ----------

  predicate IsWhitespace(u: Unit) {
    || 9 <= u <= 13 || u == 32 || u == 160 || u == 0x1680 || 0x2000 <= u <= 0x200A
    || u == 0x2028 || u == 0x2029 || u == 0x202F || u == 0x205F || u == 0x3000 || u == 0xFEFF
  }

  function TrimStart(t: Text): (r: Text)
    ensures r != [] ==> !IsWhitespace(r[0])
    ensures t != [] && !IsWhitespace(t[0]) ==> r == t
  {
    if t != [] && IsWhitespace(t[0]) then TrimStart(t[1..]) else t
  }

  function TrimEnd(t: Text): Text {
    if t != [] && IsWhitespace(t[|t| - 1]) then TrimEnd(t[..|t| - 1]) else t
  }

  function Trim(t: Text): Text { TrimEnd(TrimStart(t)) }

  ghost predicate Blank(t: Text) {
    forall i | 0 <= i < |t| ::
      || t[i] in {9, 10, 11, 12, 13, 32, 0xA0, 0x1680, 0x2028, 0x2029, 0x202F, 0x205F, 0x3000, 0xFEFF}
      || 0x2000 <= t[i] <= 0x200A
  }

  lemma {:induction false} TrimStartExact(t: Text)
    ensures |TrimStart(t)| <= |t| && t[|t| - |TrimStart(t)|..] == TrimStart(t)
    ensures Blank(t[..|t| - |TrimStart(t)|])
    ensures TrimStart(t) != [] ==> !Blank(TrimStart(t)[..1])
  {
    if t != [] && IsWhitespace(t[0]) {
      TrimStartExact(t[1..]);
      var n := |t| - |TrimStart(t)|;
      assert t[..n] == [t[0]] + t[1..][..n - 1];
    } else if t != [] {
      assert t[..1][0] == t[0];
    }
  }

  lemma {:induction false} TrimEndExact(t: Text)
    ensures |TrimEnd(t)| <= |t| && t[..|TrimEnd(t)|] == TrimEnd(t) && Blank(t[|TrimEnd(t)|..])
    ensures TrimEnd(t) != [] ==> !Blank(TrimEnd(t)[|TrimEnd(t)| - 1..])
  {
    if t != [] && IsWhitespace(t[|t| - 1]) {
      var init, n := t[..|t| - 1], |TrimEnd(t)|;
      TrimEndExact(init);
      assert t[n..] == init[n..] + [t[|t| - 1]];
    } else if t != [] {
      assert t[|t| - 1..][0] == t[|t| - 1];
    }
  }

  /** What is trimmed is blank, and what is left neither starts nor ends with a blank. */
  ghost predicate TrimsTo(t: Text, r: Text) {
    && (exists n: nat :: n + |r| <= |t| && Blank(t[..n]) && t[n..n + |r|] == r && Blank(t[n + |r|..]))
    && (r != [] ==> !Blank(r[..1]) && !Blank(r[|r| - 1..]))
  }

  lemma TrimExact(t: Text)
    ensures TrimsTo(t, Trim(t))
  {
    var s, r := TrimStart(t), Trim(t);
    TrimStartExact(t);
    TrimEndExact(s);
    var n := |t| - |s|;
    assert t[n..n + |r|] == s[..|r|] && t[n + |r|..] == s[|r|..];
    assert n + |r| <= |t| && Blank(t[..n]);
    if r != [] {
      assert r[..1] == s[..1];
    }
  }

  /** A header is read as JSON text exactly when it starts with a brace after its blanks. */
  lemma RawJsonExact(raw: Text)
    ensures ProofHeader(raw).RawJson? <==> Trim(raw) != [] && Trim(raw)[0] == '{' as int
    ensures ProofHeader(raw).RawJson? ==> ProofHeader(raw).text == Trim(raw)
  {}

  function StripPadding(t: Text): Text {
    if |t| >= 2 && t[|t| - 1] == 61 && t[|t| - 2] == 61 then t[..|t| - 2]
    else if |t| >= 1 && t[|t| - 1] == 61 then t[..|t| - 1]
    else t
  }

  /** The quartet pattern of padded standard base64, non-empty. */
  predicate MatchesStandard(t: Text) {
    t != [] && |t| % 4 == 0 && AllIn(Standard, StripPadding(t))
  }

  datatype ProofSource = RawJson(text: Text) | Encoded(bytes: seq<Byte>) | Rejected

  /** Which text or bytes `parseProofHeader` hands to `JSON.parse`. */
  function ProofHeader(raw: Text): ProofSource {
    var trimmed := Trim(raw);
    if trimmed != [] && trimmed[0] == 123 then RawJson(trimmed)
    else if raw != [] && AllIn(Url, raw) && |raw| % 4 != 1 then
      if EncodeUrl(Decode(raw)) == raw then Encoded(Decode(raw)) else Rejected
    else if MatchesStandard(raw) then
      var bytes := Decode(StripPadding(raw));
      if EncodeStandard(bytes) == raw then Encoded(bytes) else Rejected
    else Rejected
  }

  lemma StripPadded(body: Text)
    requires |body| % 4 != 1 && AllIn(Standard, body)
    ensures StripPadding(body + Padding(|body|)) == body
    ensures |body + Padding(|body|)| % 4 == 0
  {
    var t := body + Padding(|body|);
    assert t[..|body|] == body;
    if |body| > 1 {
      assert InAlphabet(Standard, body[|body| - 1]) && InAlphabet(Standard, body[|body| - 2]);
    }
  }

  lemma StripStandard(b: seq<Byte>)
    requires b != []
    ensures MatchesStandard(EncodeStandard(b))
    ensures Decode(StripPadding(EncodeStandard(b))) == b
  {
    DecodeEncode(Standard, b);
    DigitsLength(b);
    StripPadded(Symbols(Standard, ToDigits(b)));
  }

  lemma {:induction false} TrimHead(t: Text)
    requires t != [] && !IsWhitespace(t[0])
    ensures Trim(t) != [] && Trim(t)[0] == t[0]
  {
    TrimEndHead(t);
  }

  lemma {:induction false} TrimEndHead(t: Text)
    requires t != [] && !IsWhitespace(t[0])
    ensures TrimEnd(t) != [] && TrimEnd(t)[0] == t[0]
    decreases |t|
  {
    if IsWhitespace(t[|t| - 1]) {
      TrimEndHead(t[..|t| - 1]);
    }
  }

  lemma PaddingForeign(b: seq<Byte>)
    requires Padding(|ToDigits(b)|) != []
    ensures !AllIn(Url, EncodeStandard(b))
  {
    var t := EncodeStandard(b);
    assert t[|ToDigits(b)|] == 61 && !InAlphabet(Url, 61);
  }

  /** A standard encoding that happens to use only URL symbols is the URL encoding. */
  lemma FormsAgree(b: seq<Byte>)
    requires AllIn(Url, EncodeStandard(b))
    ensures EncodeStandard(b) == EncodeUrl(b)
  {
    if Padding(|ToDigits(b)|) == [] {
      var ds := ToDigits(b);
      forall i | 0 <= i < |ds| ensures Symbol(Standard, ds[i]) == Symbol(Url, ds[i]) {
        assert InAlphabet(Url, EncodeStandard(b)[i]);
      }
    } else {
      PaddingForeign(b);
    }
  }

  lemma EncodingStart(a: Alphabet, b: seq<Byte>, padding: Text)
    requires b != []
    ensures var t := Symbols(a, ToDigits(b)) + padding; Trim(t) != [] && Trim(t)[0] != 123
  {
    var t := Symbols(a, ToDigits(b)) + padding;
    DecodeEncode(a, b);
    assert InAlphabet(a, Symbols(a, ToDigits(b))[0]);
    assert t[0] == Symbols(a, ToDigits(b))[0];
    TrimHead(t);
  }

  lemma ProofAcceptsUrl(b: seq<Byte>)
    requires b != []
    ensures ProofHeader(EncodeUrl(b)) == Encoded(b)
  {
    DecodeEncode(Url, b);
    EncodingStart(Url, b, []);
    assert EncodeUrl(b) + [] == EncodeUrl(b);
  }

  lemma ProofAcceptsStandard(b: seq<Byte>)
    requires b != []
    ensures ProofHeader(EncodeStandard(b)) == Encoded(b)
  {
    if AllIn(Url, EncodeStandard(b)) {
      FormsAgree(b);
      ProofAcceptsUrl(b);
    } else {
      EncodingStart(Standard, b, Padding(|ToDigits(b)|));
      StripStandard(b);
    }
  }

  lemma ProofAcceptsOnly(raw: Text)
    requires ProofHeader(raw).Encoded?
    ensures ProofHeader(raw).bytes != []
    ensures raw == EncodeUrl(ProofHeader(raw).bytes) || raw == EncodeStandard(ProofHeader(raw).bytes)
  {
    NothingEncoded();
    if raw == [] {
      NothingMatches();
    }
  }

  lemma NothingEncoded()
    ensures EncodeUrl([]) == [] && EncodeStandard([]) == []
  {}

  lemma NothingMatches()
    ensures ProofHeader([]).Rejected?
  {}

  /** A header is read as the bytes b exactly when it is one of the two encodings of b;
      so the URL and the standard branch never disagree about a header. */
  lemma ProofHeaderExact(raw: Text, b: seq<Byte>)
    ensures ProofHeader(raw) == Encoded(b) <==> b != [] && (raw == EncodeUrl(b) || raw == EncodeStandard(b))
  {
    if ProofHeader(raw) == Encoded(b) {
      ProofAcceptsOnly(raw);
    } else if b != [] {
      ProofAcceptsUrl(b);
      ProofAcceptsStandard(b);
    }
  }

  // ---------- toEcashLibSignature ----------

  /** Replaces the two URL symbols by the standard ones. */
  function ToStandard(t: Text): (r: Text)
    ensures |r| == |t|
    ensures forall i | 0 <= i < |t| :: r[i] == if t[i] == 45 then 43 else if t[i] == 95 then 47 else t[i]
  {
    seq(|t|, i requires 0 <= i < |t| => if t[i] == 45 then 43 else if t[i] == 95 then 47 else t[i])
  }

  /** The padded standard form of a canonical 87-symbol signature. */
  function EcashSignature(t: Text): Option<Text> {
    if |t| != 87 || !AllIn(Url, t) then None
    else
      var standard := ToStandard(t) + [61];
      var bytes := Decode(ToStandard(t));
      if |bytes| != 65 then None
      else if EncodeUrl(bytes) == t then Some(standard) else None
  }

  lemma StandardForm(b: seq<Byte>)
    requires |ToDigits(b)| % 4 == 3
    ensures ToStandard(EncodeUrl(b)) + [61] == EncodeStandard(b)
  {
    assert ToStandard(EncodeUrl(b)) == Symbols(Standard, ToDigits(b));
  }

  lemma ToStandardDigits(t: Text)
    requires AllIn(Url, t)
    ensures Digits(ToStandard(t)) == Digits(t)
  {
    forall i | 0 <= i < |t| ensures SymbolValue(ToStandard(t)[i]) == SymbolValue(t[i]) {
      assert InAlphabet(Url, t[i]);
    }
  }

  /** Every 65-byte signature has exactly one accepted spelling ... */
  lemma SignatureOnto(b: seq<Byte>)
    requires |b| == 65
    ensures EcashSignature(EncodeUrl(b)) == Some(EncodeStandard(b))
  {
    DigitsLength(b);
    DecodeEncode(Url, b);
    ToStandardDigits(EncodeUrl(b));
    StandardForm(b);
  }

  /** ... and every accepted spelling is that of 65 bytes. */
  lemma SignatureInjective(t: Text)
    requires EcashSignature(t).Some?
    ensures |Decode(t)| == 65 && t == EncodeUrl(Decode(t))
    ensures EcashSignature(t).value == EncodeStandard(Decode(t))
  {
    ToStandardDigits(t);
    DigitsLength(Decode(t));
    StandardForm(Decode(t));
  }
}
