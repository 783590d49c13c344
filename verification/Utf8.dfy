/** UTF-8 as Node encodes and decodes it: unpaired surrogates and ill-formed bytes are
    replaced by U+FFFD, so exact round trips hold on exactly the well-formed inputs. */
module Utf8 {
  import opened Texts
  import opened Json
  import opened JsonParser
  import opened CanonicalText
  import StableSort

  const REPLACEMENT: Unit := 0xFFFD

  predicate IsSurrogate(u: Unit) { IsHigh(u) || IsLow(u) }

  /** Well-formed UTF-16: every surrogate is half of a pair. */
  predicate Paired(t: Text) {
    t == [] || if StartsPair(t) then Paired(t[2..]) else !IsSurrogate(t[0]) && Paired(t[1..])
  }

  predicate IsTail(b: Byte) { 0x80 <= b <= 0xBF }

  /** The second bytes that may follow a lead byte (section 4 of RFC 3629). */
  predicate IsSecond(lead: Byte, b: Byte) {
    && (if lead == 0xE0 then 0xA0 else if lead == 0xF0 then 0x90 else 0x80) <= b
    && b <= (if lead == 0xED then 0x9F else if lead == 0xF4 then 0x8F else 0xBF)
  }

  /** The code point of a surrogate pair, and the pair of a code point. */
  function PairCode(hi: Unit, lo: Unit): (cp: int)
    requires IsHigh(hi) && IsLow(lo)
    ensures 0x10000 <= cp < 0x110000
  {
    0x10000 + (hi - 0xD800) * 0x400 + (lo - 0xDC00)
  }

  function CodePair(cp: int): (t: Text)
    requires 0x10000 <= cp < 0x110000
    ensures |t| == 2 && StartsPair(t) && PairCode(t[0], t[1]) == cp
  {
    [0xD800 + (cp - 0x10000) / 0x400, 0xDC00 + (cp - 0x10000) % 0x400]
  }

  /** The code point that four bytes spell. */
  function BytesCode(b0: Byte, b1: Byte, b2: Byte, b3: Byte): int {
    var a: int, b: int, c: int, d: int := b0 - 0xF0, b1 - 0x80, b2 - 0x80, b3 - 0x80;
    a * 0x40000 + b * 0x1000 + c * 64 + d
  }

  function CodeBytes(cp: int): (r: seq<Byte>)
    requires 0x10000 <= cp < 0x110000
    ensures |r| == 4 && 0xF0 <= r[0] <= 0xF4 && IsSecond(r[0], r[1]) && IsTail(r[2]) && IsTail(r[3])
    ensures BytesCode(r[0], r[1], r[2], r[3]) == cp
  {
    var a: int, b: int, c: int, d: int := cp / 0x40000, cp / 0x1000 % 64, cp / 64 % 64, cp % 64;
    SixBits(cp);
    [0xF0 + a, 0x80 + b, 0x80 + c, 0x80 + d]
  }

  /** A code point cut into groups of six bits. */
  lemma SixBits(cp: int)
    requires 0x10000 <= cp < 0x110000
    ensures cp == cp / 0x40000 * 0x40000 + cp / 0x1000 % 64 * 0x1000 + cp / 64 % 64 * 64 + cp % 64
    ensures 0 <= cp / 0x40000 <= 4
    ensures cp / 0x40000 == 0 ==> cp / 0x1000 % 64 >= 16
    ensures cp / 0x40000 == 4 ==> cp / 0x1000 % 64 <= 15
  {
    var p, q := cp / 64, cp / 0x1000;
    assert cp == p * 64 + cp % 64 && p == q * 64 + p % 64 && q == cp / 0x40000 * 64 + q % 64;
  }

  /** The groups of six bits are determined by the code point. */
  lemma SixBitsUnique(cp: int, a: int, b: int, c: int, d: int)
    requires 0 <= b < 64 && 0 <= c < 64 && 0 <= d < 64 && cp == a * 0x40000 + b * 0x1000 + c * 64 + d
    ensures cp / 0x40000 == a && cp / 0x1000 % 64 == b && cp / 64 % 64 == c && cp % 64 == d
  {
    assert cp / 64 == a * 0x1000 + b * 64 + c;
    assert cp / 0x1000 == a * 64 + b;
    assert cp / 0x40000 == a;
  }

  function EncodePair(hi: Unit, lo: Unit): seq<Byte>
    requires IsHigh(hi) && IsLow(lo)
  {
    CodeBytes(PairCode(hi, lo))
  }

  function EncodeUnit(u: Unit): (r: seq<Byte>)
    ensures 1 <= |r| <= 3
  {
    if u < 0x80 then [u]
    else if u < 0x800 then [0xC0 + u / 64, 0x80 + u % 64]
    else
      var v := if IsSurrogate(u) then REPLACEMENT else u;
      [0xE0 + v / 0x1000, 0x80 + v / 64 % 64, 0x80 + v % 64]
  }

  function Encode(t: Text): seq<Byte> {
    if t == [] then []
    else if StartsPair(t) then EncodePair(t[0], t[1]) + Encode(t[2..])
    else EncodeUnit(t[0]) + Encode(t[1..])
  }

  /** The bytes are the UTF-8 of a code point: six bits in each byte after the first, in as few
      bytes as possible (section 3 of RFC 3629). */
  predicate SpellsCode(b: seq<Byte>, cp: int) {
    && (forall i | 0 < i < |b| :: 0x80 <= b[i] < 0xC0)
    && if |b| == 1 then cp == b[0] < 0x80
       else if |b| == 2 then 0x80 <= cp < 0x800 && cp == (b[0] as int - 0xC0) * 64 + (b[1] as int - 0x80)
       else if |b| == 3 then
         0x800 <= cp < 0x10000 && cp == (b[0] as int - 0xE0) * 4096 + (b[1] as int - 0x80) * 64 + (b[2] as int - 0x80)
       else
         && |b| == 4 && 0x10000 <= cp < 0x110000
         && cp == (b[0] as int - 0xF0) * 262144 + (b[1] as int - 0x80) * 4096 + (b[2] as int - 0x80) * 64
              + (b[3] as int - 0x80)
  }

  lemma UnitSpelled(u: Unit)
    ensures SpellsCode(EncodeUnit(u), if 0xD800 <= u < 0xE000 then 0xFFFD else u)
  {
    var v: int := if 0xD800 <= u < 0xE000 then 0xFFFD else u;
    assert v == v / 64 * 64 + v % 64 && v / 64 == v / 64 / 64 * 64 + v / 64 % 64 && v / 64 / 64 == v / 0x1000;
  }

  lemma PairSpelled(hi: Unit, lo: Unit)
    requires IsHigh(hi) && IsLow(lo)
    ensures SpellsCode(EncodePair(hi, lo), 0x10000 + (hi as int - 0xD800) * 1024 + (lo as int - 0xDC00))
  {
    var b := EncodePair(hi, lo);
    assert BytesCode(b[0], b[1], b[2], b[3]) == PairCode(hi, lo);
  }

  ghost predicate StartsWithCode(b: seq<Byte>, cp: int, rest: seq<Byte>) {
    exists c :: SpellsCode(c, cp) && b == c + rest
  }

  /** Encoding goes through the text: a surrogate pair is one code point ... */
  lemma PairEncoded(t: Text)
    requires |t| >= 2 && 0xD800 <= t[0] < 0xDC00 && 0xDC00 <= t[1] < 0xE000
    ensures StartsWithCode(Encode(t), 0x10000 + (t[0] as int - 0xD800) * 1024 + (t[1] as int - 0xDC00), Encode(t[2..]))
  {
    PairSpelled(t[0], t[1]);
    EncodeStep(t);
  }

  lemma EncodeStep(t: Text)
    requires t != []
    ensures Encode(t) ==
      if StartsPair(t) then EncodePair(t[0], t[1]) + Encode(t[2..]) else EncodeUnit(t[0]) + Encode(t[1..])
  {}

  /** ... a lone surrogate is U+FFFD, and any other unit is itself. */
  lemma UnitEncoded(t: Text)
    requires t != [] && !(|t| >= 2 && 0xD800 <= t[0] < 0xDC00 && 0xDC00 <= t[1] < 0xE000)
    ensures StartsWithCode(Encode(t), if 0xD800 <= t[0] < 0xE000 then 0xFFFD else t[0], Encode(t[1..]))
    ensures Encode([]) == []
  {
    UnitSpelled(t[0]);
    EncodeStep(t);
  }

  function SequenceLength(lead: Byte): nat {
    if lead < 0x80 then 1
    else if 0xC2 <= lead <= 0xDF then 2
    else if 0xE0 <= lead <= 0xEF then 3
    else if 0xF0 <= lead <= 0xF4 then 4
    else 0
  }

  /** How many leading bytes belong to one sequence: all of it, or the longest part of it. */
  function Matched(b: seq<Byte>): (n: nat)
    requires b != []
    ensures 0 < n <= |b|
  {
    var len := SequenceLength(b[0]);
    if len <= 1 || |b| < 2 || !IsSecond(b[0], b[1]) then 1
    else if len == 2 || |b| < 3 || !IsTail(b[2]) then 2
    else if len == 3 || |b| < 4 || !IsTail(b[3]) then 3
    else 4
  }

  predicate StartsValid(b: seq<Byte>)
    requires b != []
  {
    Matched(b) == SequenceLength(b[0])
  }

  function DecodeOne(b: seq<Byte>): (t: Text)
    requires b != []
    ensures 1 <= |t| <= 2
  {
    if !StartsValid(b) then [REPLACEMENT]
    else if |b| == 1 || SequenceLength(b[0]) == 1 then [b[0]]
    else if SequenceLength(b[0]) == 2 then (var x: int, y: int := b[0] - 0xC0, b[1] - 0x80; [x * 64 + y])
    else if SequenceLength(b[0]) == 3 then
      (var x: int, y: int, z: int := b[0] - 0xE0, b[1] - 0x80, b[2] - 0x80; [x * 0x1000 + y * 64 + z])
    else CodePair(BytesCode(b[0], b[1], b[2], b[3]))
  }

  function Decode(b: seq<Byte>): Text {
    if b == [] then [] else DecodeOne(b) + Decode(b[Matched(b)..])
  }

  /** Well-formed UTF-8. */
  predicate Valid(b: seq<Byte>) {
    b == [] || (StartsValid(b) && Valid(b[Matched(b)..]))
  }

  // ---------- Encoding then decoding ----------

  lemma DecodeOneUnit(u: Unit, rest: seq<Byte>)
    requires !IsSurrogate(u)
    ensures StartsValid(EncodeUnit(u) + rest)
    ensures DecodeOne(EncodeUnit(u) + rest) == [u]
    ensures Matched(EncodeUnit(u) + rest) == |EncodeUnit(u)|
  {}

  lemma PairOfCode(hi: Unit, lo: Unit)
    requires IsHigh(hi) && IsLow(lo)
    ensures CodePair(PairCode(hi, lo)) == [hi, lo]
  {
    var t := CodePair(PairCode(hi, lo));
    PairCodeInjective(t[0], t[1], hi, lo);
    assert t == [t[0], t[1]];
  }

  lemma PairCodeInjective(hi: Unit, lo: Unit, hi': Unit, lo': Unit)
    requires IsHigh(hi) && IsLow(lo) && IsHigh(hi') && IsLow(lo') && PairCode(hi, lo) == PairCode(hi', lo')
    ensures hi == hi' && lo == lo'
  {}

  lemma DecodeOnePair(hi: Unit, lo: Unit, rest: seq<Byte>)
    requires IsHigh(hi) && IsLow(lo)
    ensures StartsValid(EncodePair(hi, lo) + rest)
    ensures DecodeOne(EncodePair(hi, lo) + rest) == [hi, lo]
    ensures Matched(EncodePair(hi, lo) + rest) == 4
  {
    var cp := PairCode(hi, lo);
    var b := CodeBytes(cp) + rest;
    assert b[0] == CodeBytes(cp)[0] && b[1] == CodeBytes(cp)[1] && b[2] == CodeBytes(cp)[2] && b[3] == CodeBytes(cp)[3];
    assert BytesCode(b[0], b[1], b[2], b[3]) == cp;
    PairOfCode(hi, lo);
  }

  /** Well-formed text survives encoding, and its encoding is well-formed. */
  lemma {:induction false} EncodeDecode(t: Text)
    requires Paired(t)
    ensures Decode(Encode(t)) == t && Valid(Encode(t))
  {
    if t == [] {
    } else if StartsPair(t) {
      EncodeDecode(t[2..]);
      DecodeOnePair(t[0], t[1], Encode(t[2..]));
      assert Encode(t)[4..] == Encode(t[2..]);
      assert t == [t[0], t[1]] + t[2..];
    } else {
      EncodeDecode(t[1..]);
      DecodeOneUnit(t[0], Encode(t[1..]));
      assert Encode(t)[|EncodeUnit(t[0])|..] == Encode(t[1..]);
      assert t == [t[0]] + t[1..];
    }
  }

  // ---------- Decoding then encoding ----------

  lemma CodeBytesInverse(b0: Byte, b1: Byte, b2: Byte, b3: Byte)
    requires 0xF0 <= b0 <= 0xF4 && IsSecond(b0, b1) && IsTail(b2) && IsTail(b3)
    ensures 0x10000 <= BytesCode(b0, b1, b2, b3) < 0x110000
    ensures CodeBytes(BytesCode(b0, b1, b2, b3)) == [b0, b1, b2, b3]
  {
    var a: int, b: int, c: int, d: int := b0 - 0xF0, b1 - 0x80, b2 - 0x80, b3 - 0x80;
    SixBitsUnique(BytesCode(b0, b1, b2, b3), a, b, c, d);
  }

  lemma EncodeFour(b: seq<Byte>, rest: Text)
    requires b != [] && StartsValid(b) && |DecodeOne(b)| == 2 && Paired(rest)
    ensures Paired(DecodeOne(b) + rest)
    ensures Encode(DecodeOne(b) + rest) == b[..Matched(b)] + Encode(rest)
  {
    var t := DecodeOne(b);
    CodeBytesInverse(b[0], b[1], b[2], b[3]);
    assert (t + rest)[2..] == rest;
    assert EncodePair(t[0], t[1]) == b[..4];
  }

  lemma ScalarBytes(b: seq<Byte>)
    requires b != [] && StartsValid(b) && |DecodeOne(b)| == 1
    ensures !IsSurrogate(DecodeOne(b)[0]) && EncodeUnit(DecodeOne(b)[0]) == b[..Matched(b)]
  {
    if SequenceLength(b[0]) == 2 {
      TwoBytes(b[0], b[1]);
      assert b[..2] == [b[0], b[1]];
    } else if SequenceLength(b[0]) == 3 {
      ThreeBytes(b[0], b[1], b[2]);
      assert b[..3] == [b[0], b[1], b[2]];
    } else {
      assert b[..1] == [b[0]];
    }
  }

  lemma TwoBytes(b0: Byte, b1: Byte)
    requires 0xC2 <= b0 <= 0xDF && IsTail(b1)
    ensures var x: int, y: int := b0 - 0xC0, b1 - 0x80;
      !IsSurrogate(x * 64 + y) && EncodeUnit(x * 64 + y) == [b0, b1]
  {
    var x: int, y: int := b0 - 0xC0, b1 - 0x80;
    assert (x * 64 + y) / 64 == x && (x * 64 + y) % 64 == y;
  }

  lemma ThreeBytes(b0: Byte, b1: Byte, b2: Byte)
    requires 0xE0 <= b0 <= 0xEF && IsSecond(b0, b1) && IsTail(b2)
    ensures var x: int, y: int, z: int := b0 - 0xE0, b1 - 0x80, b2 - 0x80;
      !IsSurrogate(x * 0x1000 + y * 64 + z) && EncodeUnit(x * 0x1000 + y * 64 + z) == [b0, b1, b2]
  {
    var x: int, y: int, z: int := b0 - 0xE0, b1 - 0x80, b2 - 0x80;
    var u := x * 0x1000 + y * 64 + z;
    assert u / 64 == x * 64 + y && u % 64 == z && (x * 64 + y) % 64 == y && u / 0x1000 == x;
  }

  lemma EncodeFew(b: seq<Byte>, rest: Text)
    requires b != [] && StartsValid(b) && |DecodeOne(b)| == 1 && Paired(rest)
    ensures Paired(DecodeOne(b) + rest)
    ensures Encode(DecodeOne(b) + rest) == b[..Matched(b)] + Encode(rest)
  {
    var t := DecodeOne(b) + rest;
    ScalarBytes(b);
    assert t[1..] == rest;
    assert t[0] == DecodeOne(b)[0];
  }

  lemma EncodeOne(b: seq<Byte>, rest: Text)
    requires b != [] && StartsValid(b) && Paired(rest)
    ensures Paired(DecodeOne(b) + rest)
    ensures Encode(DecodeOne(b) + rest) == b[..Matched(b)] + Encode(rest)
  {
    if |DecodeOne(b)| == 2 {
      EncodeFour(b, rest);
    } else {
      EncodeFew(b, rest);
    }
  }

  lemma DecodeSplit(b: seq<Byte>)
    requires b != []
    ensures Decode(b) == DecodeOne(b) + Decode(b[Matched(b)..])
  {}

  lemma TakeDrop(b: seq<Byte>, n: nat)
    requires n <= |b|
    ensures b[..n] + b[n..] == b
  {}

  lemma ValidStep(b: seq<Byte>, rest: Text, d: Text)
    requires b != [] && StartsValid(b) && Paired(rest)
    requires Encode(rest) == b[Matched(b)..] && d == DecodeOne(b) + rest
    ensures Encode(d) == b && Paired(d)
  {
    EncodeOne(b, rest);
    TakeDrop(b, Matched(b));
  }

  lemma {:induction false} ValidReencodes(b: seq<Byte>)
    requires Valid(b)
    ensures Encode(Decode(b)) == b && Paired(Decode(b))
  {
    if b != [] {
      var tail := b[Matched(b)..];
      assert StartsValid(b) && Valid(tail);
      ValidReencodes(tail);
      DecodeSplit(b);
      ValidStep(b, Decode(tail), Decode(b));
    }
  }

  lemma {:induction false} DecodePaired(b: seq<Byte>)
    ensures Paired(Decode(b))
  {
    if b != [] {
      DecodePaired(b[Matched(b)..]);
      var rest := Decode(b[Matched(b)..]);
      if StartsValid(b) {
        EncodeOne(b, rest);
      } else {
        assert ([REPLACEMENT] + rest)[1..] == rest;
      }
    }
  }

  lemma ReplacementValid(rest: seq<Byte>)
    ensures StartsValid([0xEF, 0xBF, 0xBD] + rest)
  {
    var b: seq<Byte> := [0xEF, 0xBF, 0xBD] + rest;
    assert b[0] == 0xEF && b[1] == 0xBF && b[2] == 0xBD;
  }

  lemma InvalidNotReplacement(b: seq<Byte>, rest: Text)
    requires b != [] && !StartsValid(b)
    ensures Encode([REPLACEMENT] + rest) != b
  {
    var t := [REPLACEMENT] + rest;
    assert t[1..] == rest;
    assert Encode(t) == [0xEF, 0xBF, 0xBD] + Encode(rest);
    ReplacementValid(Encode(rest));
  }

  /** The re-encoding test accepts exactly the well-formed byte strings. */
  lemma {:induction false} ReencodeTest(b: seq<Byte>)
    ensures Encode(Decode(b)) == b <==> Valid(b)
  {
    if Valid(b) {
      ValidReencodes(b);
    } else if Encode(Decode(b)) == b {
      var tail := b[Matched(b)..];
      var rest := Decode(tail);
      DecodePaired(tail);
      if StartsValid(b) {
        EncodeOne(b, rest);
        assert Encode(rest) == b[Matched(b)..];
        ReencodeTest(tail);
      } else {
        InvalidNotReplacement(b, rest);
      }
    }
  }

  /** Well-formed bytes are the encodings of well-formed texts. */
  lemma ValidExact(b: seq<Byte>)
    ensures Valid(b) <==> exists t :: Paired(t) && Encode(t) == b
  {
    if Valid(b) {
      ValidReencodes(b);
    }
    forall t | Paired(t) && Encode(t) == b ensures Valid(b) {
      EncodeDecode(t);
    }
  }

  // ---------- Canonical text is well-formed ----------

  lemma {:induction false} PairedConcat(a: Text, b: Text)
    requires Paired(a) && Paired(b)
    ensures Paired(a + b)
  {
    if a == [] {
      assert a + b == b;
    } else if StartsPair(a) {
      PairedConcat(a[2..], b);
      assert (a + b)[2..] == a[2..] + b;
    } else {
      PairedConcat(a[1..], b);
      assert (a + b)[1..] == a[1..] + b;
    }
  }

  lemma {:induction false} PairedPlain(t: Text)
    requires forall i | 0 <= i < |t| :: !IsSurrogate(t[i])
    ensures Paired(t)
  {
    if t != [] {
      PairedPlain(t[1..]);
    }
  }

  lemma {:induction false} PairedUnits(s: Text)
    ensures Paired(PrintUnits(s))
  {
    if s == [] {
    } else if StartsPair(s) {
      PairedUnits(s[2..]);
      var t := PrintUnits(s);
      assert t[2..] == PrintUnits(s[2..]);
    } else {
      PairedUnits(s[1..]);
      PairedPlain(Escape(s[0]));
      PairedConcat(Escape(s[0]), PrintUnits(s[1..]));
    }
  }

  lemma PairedWrap(open: Unit, body: Text, close: Unit)
    requires !IsSurrogate(open) && !IsSurrogate(close) && Paired(body)
    ensures Paired([open] + body + [close])
  {
    PairedPlain([open]);
    PairedPlain([close]);
    PairedConcat([open], body);
    PairedConcat([open] + body, [close]);
  }

  lemma {:induction false} PairedJoin(parts: seq<Text>)
    requires forall i | 0 <= i < |parts| :: Paired(parts[i])
    ensures Paired(Join(parts))
  {
    if |parts| > 1 {
      PairedJoin(parts[1..]);
      PairedPlain([44]);
      PairedConcat(parts[0], [44]);
      PairedConcat(parts[0] + [44], Join(parts[1..]));
    }
  }

  lemma PairedQuote(s: Text)
    ensures Paired(Quote(s))
  {
    PairedUnits(s);
    PairedWrap(34, PrintUnits(s), 34);
  }

  lemma PairedEntry(key: Text, value: Text)
    requires Paired(value)
    ensures Paired(Quote(key) + [58] + value)
  {
    PairedQuote(key);
    PairedPlain([58]);
    PairedConcat(Quote(key), [58]);
    PairedConcat(Quote(key) + [58], value);
  }

  lemma {:induction false} PairedPrint(v: Json)
    requires Printable(v)
    ensures Paired(Print(v))
    decreases v, 1
  {
    match v
    case Null => PairedPlain(NULL_TEXT);
    case Bool(b) => PairedPlain(if b then TRUE_TEXT else FALSE_TEXT);
    case Num(n) => PairedPlain(n.token);
    case Str(s) => PairedQuote(s);
    case Arr(items) =>
      PairedPrintItems(items);
      PairedJoin(PrintItems(items));
      PairedWrap(91, Join(PrintItems(items)), 93);
    case Obj(fields) =>
      PairedPrintFields(fields);
      PairedEntries(PrintFields(fields));
      PairedWrap(123, Join(Entries(PrintFields(fields))), 125);
  }

  lemma {:induction false} PairedPrintItems(items: seq<Json>)
    requires forall i | 0 <= i < |items| :: Printable(items[i])
    ensures forall i | 0 <= i < |items| :: Paired(PrintItems(items)[i])
    decreases items, 0
  {
    if items != [] {
      PairedPrint(items[0]);
      PairedPrintItems(items[1..]);
    }
  }

  lemma {:induction false} PairedPrintFields(fields: seq<StableSort.Pair<Json>>)
    requires forall i | 0 <= i < |fields| :: Printable(fields[i].value)
    ensures forall i | 0 <= i < |fields| :: Paired(PrintFields(fields)[i].value)
    decreases fields, 0
  {
    if fields != [] {
      PairedPrint(fields[0].value);
      PairedPrintFields(fields[1..]);
    }
  }

  lemma PairedEntries(ps: seq<StableSort.Pair<Text>>)
    requires forall i | 0 <= i < |ps| :: Paired(ps[i].value)
    ensures Paired(Join(Entries(ps)))
  {
    forall i | 0 <= i < |ps| ensures Paired(Entries(ps)[i]) {
      PairedEntry(ps[i].key, ps[i].value);
    }
    PairedJoin(Entries(ps));
  }

  // ---------- The bytes that are hashed ----------

  /** The UTF-8 bytes of the canonical text. */
  function CanonicalBytes(v: Json): seq<Byte> { Encode(Canonicalize(v)) }

  lemma CanonicalBytesDecode(v: Json)
    requires WellFormed(v)
    ensures Valid(CanonicalBytes(v)) && Decode(CanonicalBytes(v)) == Canonicalize(v)
  {
    CanonicalizeNorm(v);
    NormPrintable(v);
    PairedPrint(Norm(v));
    EncodeDecode(Canonicalize(v));
  }

  /** Canonical bytes, too, coincide exactly for the same value. */
  lemma CanonicalBytesInjective(v: Json, w: Json)
    requires WellFormed(v) && WellFormed(w)
    ensures CanonicalBytes(v) == CanonicalBytes(w) <==> Same(v, w)
  {
    CanonicalBytesDecode(v);
    CanonicalBytesDecode(w);
    UniquelyDecodable(v, w);
  }
}
