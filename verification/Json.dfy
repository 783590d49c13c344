/** Canonical JSON text: the printer, its meaning, and a parser that inverts it. */
module Json {
  import opened Texts
  import opened StableSort

  /** A finite double. Negative zero aside, a double is identified with the text
      ECMAScript prints for it. */
  datatype Number = NegativeZero | Finite(token: Text)

  /** A JSON value; an object lists its entries in enumeration order. */
  datatype Json =
    | Null
    | Bool(b: bool)
    | Num(n: Number)
    | Str(s: Text)
    | Arr(items: seq<Json>)
    | Obj(fields: seq<Pair<Json>>)

  // ---------- Well-formed values and their equality ----------

  /** The units a printed number is made of: digits, '+', '-', '.', 'e'. */
  predicate IsNumberUnit(u: Unit) { IsDigit(u) || u == 43 || u == 45 || u == 46 || u == 101 }

  predicate ValidNumber(n: Number) {
    n.Finite? ==> n.token != [] && forall i | 0 <= i < |n.token| :: IsNumberUnit(n.token[i])
  }

  predicate WellFormed(v: Json) {
    match v
    case Num(n) => ValidNumber(n)
    case Arr(items) => forall i | 0 <= i < |items| :: WellFormed(items[i])
    case Obj(fields) => UniqueKeys(fields) && forall i | 0 <= i < |fields| :: WellFormed(fields[i].value)
    case _ => true
  }

  const ZERO: Number := Finite([48])

  function Unsigned(n: Number): Number { if n.NegativeZero? then ZERO else n }

  /** Equality of JSON values: entry order and the sign of zero do not matter. */
  ghost predicate Same(v: Json, w: Json)
    decreases v, 0
  {
    match (v, w)
    case (Num(m), Num(n)) => Unsigned(m) == Unsigned(n)
    case (Arr(xs), Arr(ys)) => |xs| == |ys| && forall i | 0 <= i < |xs| :: Same(xs[i], ys[i])
    case (Obj(f), Obj(g)) =>
      && (forall i | 0 <= i < |f| :: Has(g, f[i]))
      && (forall j | 0 <= j < |g| :: HasFor(f, g[j]))
    case _ => v == w
  }

  /** Some entry of g has the key of p and the same value. */
  ghost predicate Has(g: seq<Pair<Json>>, p: Pair<Json>)
    decreases p, 1
  {
    exists j | 0 <= j < |g| :: g[j].key == p.key && Same(p.value, g[j].value)
  }

  ghost predicate HasFor(f: seq<Pair<Json>>, q: Pair<Json>)
    decreases f, 1
  {
    exists i | 0 <= i < |f| :: f[i].key == q.key && Same(f[i].value, q.value)
  }

  // ---------- Printing strings ----------

  predicate IsHigh(u: Unit) { 0xD800 <= u < 0xDC00 }
  predicate IsLow(u: Unit) { 0xDC00 <= u < 0xE000 }

  function HexUnit(d: nat): Unit
    requires d < 16
  {
    if d < 10 then 48 + d else 87 + d
  }

  function HexEscape(u: Unit): Text {
    [92, 117, HexUnit(u / 4096), HexUnit(u / 256 % 16), HexUnit(u / 16 % 16), HexUnit(u % 16)]
  }

  /** How `JSON.stringify` writes one unit that is not half of a surrogate pair. */
  function Escape(u: Unit): Text {
    if u == 8 then [92, 98]
    else if u == 9 then [92, 116]
    else if u == 10 then [92, 110]
    else if u == 12 then [92, 102]
    else if u == 13 then [92, 114]
    else if u == 34 || u == 92 then [92, u]
    else if u < 32 || IsHigh(u) || IsLow(u) then HexEscape(u)
    else [u]
  }

  predicate StartsPair(s: Text) { |s| >= 2 && IsHigh(s[0]) && IsLow(s[1]) }

  function PrintUnits(s: Text): Text {
    if s == [] then []
    else if StartsPair(s) then [s[0], s[1]] + PrintUnits(s[2..])
    else Escape(s[0]) + PrintUnits(s[1..])
  }

  function Quote(s: Text): Text { [34] + PrintUnits(s) + [34] }

  // ---------- Printing values ----------

  function Join(parts: seq<Text>): Text {
    if parts == [] then []
    else if |parts| == 1 then parts[0]
    else parts[0] + [44] + Join(parts[1..])
  }

  function Entry(p: Pair<Text>): Text { Quote(p.key) + [58] + p.value }

  function Entries(ps: seq<Pair<Text>>): (r: seq<Text>)
    ensures |r| == |ps|
    ensures forall i | 0 <= i < |ps| :: r[i] == Entry(ps[i])
  {
    seq(|ps|, i requires 0 <= i < |ps| => Entry(ps[i]))
  }

  const NULL_TEXT: Text := [110, 117, 108, 108]
  const TRUE_TEXT: Text := [116, 114, 117, 101]
  const FALSE_TEXT: Text := [102, 97, 108, 115, 101]

  /** The canonical text: no white space, entries sorted by key, negative zero as 0. */
  function Canonicalize(v: Json): Text {
    match v
    case Null => NULL_TEXT
    case Bool(b) => if b then TRUE_TEXT else FALSE_TEXT
    case Num(n) => Unsigned(n).token
    case Str(s) => Quote(s)
    case Arr(items) => [91] + Join(CanonicalItems(items)) + [93]
    case Obj(fields) => [123] + Join(Entries(Sort(CanonicalFields(fields)))) + [125]
  }

  function CanonicalItems(items: seq<Json>): (r: seq<Text>)
    ensures |r| == |items|
  {
    if items == [] then [] else [Canonicalize(items[0])] + CanonicalItems(items[1..])
  }

  function CanonicalFields(fields: seq<Pair<Json>>): (r: seq<Pair<Text>>)
    ensures |r| == |fields|
  {
    if fields == [] then []
    else [Pair(fields[0].key, Canonicalize(fields[0].value))] + CanonicalFields(fields[1..])
  }
}
