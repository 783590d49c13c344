/** A parser of JSON text without white space, and the proof that it inverts the printer
    in front of any rest that a delimiter introduces. */
module JsonParser {
  import opened Texts
  import opened StableSort
  import opened Json

  // ---------- Reading strings ----------

  function HexValue(u: Unit): Option<nat> {
    if IsDigit(u) then Some(u - 48)
    else if 97 <= u <= 102 then Some(u - 87)
    else if 65 <= u <= 70 then Some(u - 55)
    else None
  }

  function ParseHex(t: Text): (r: Option<Unit>)
    requires |t| == 4
  {
    match (HexValue(t[0]), HexValue(t[1]), HexValue(t[2]), HexValue(t[3]))
    case (Some(a), Some(b), Some(c), Some(d)) =>
      if a < 16 && b < 16 && c < 16 && d < 16 then Some(a * 4096 + b * 256 + c * 16 + d) else None
    case _ => None
  }

  function Unescape(u: Unit): Option<Unit> {
    if u == 98 then Some(8)
    else if u == 116 then Some(9)
    else if u == 110 then Some(10)
    else if u == 102 then Some(12)
    else if u == 114 then Some(13)
    else if u == 34 || u == 92 || u == 47 then Some(u)
    else None
  }

  /** One unit of a string body and the number of units that spell it. */
  function ParseUnit(t: Text): (r: Option<(Unit, nat)>)
    ensures r.Some? ==> 0 < r.value.1 <= |t|
  {
    if t == [] || t[0] < 32 || t[0] == 34 then None
    else if t[0] != 92 then Some((t[0], 1))
    else if |t| < 2 then None
    else if t[1] == 117 then
      if |t| < 6 then None
      else match ParseHex(t[2..6])
        case Some(u) => Some((u, 6))
        case None => None
    else match Unescape(t[1])
      case Some(u) => Some((u, 2))
      case None => None
  }

  /** The body of a string up to its closing quote, and what follows the quote. */
  function ParseUnits(t: Text): (r: Option<(Text, Text)>)
    ensures r.Some? ==> |r.value.1| < |t|
    decreases |t|
  {
    if t == [] then None
    else if t[0] == 34 then Some(([], t[1..]))
    else match ParseUnit(t)
      case None => None
      case Some((u, n)) =>
        match ParseUnits(t[n..])
        case None => None
        case Some((s, rest)) => Some(([u] + s, rest))
  }

  function ParseString(t: Text): (r: Option<(Text, Text)>)
    ensures r.Some? ==> |r.value.1| < |t|
  {
    if t == [] || t[0] != 34 then None else ParseUnits(t[1..])
  }

  // ---------- Reading values ----------

  /** The longest prefix of number units. */
  function NumberLength(t: Text): (n: nat)
    ensures n <= |t|
  {
    if t == [] || !IsNumberUnit(t[0]) then 0 else 1 + NumberLength(t[1..])
  }

  function Skip(word: Text, t: Text, v: Json): (r: Option<(Json, Text)>)
    requires word != []
    ensures r.Some? ==> |r.value.1| < |t|
  {
    if word <= t then Some((v, t[|word|..])) else None
  }

  function Parse(t: Text): (r: Option<(Json, Text)>)
    ensures r.Some? ==> |r.value.1| < |t|
    decreases |t|, 0
  {
    if t == [] then None
    else if t[0] == 110 then Skip(NULL_TEXT, t, Null)
    else if t[0] == 116 then Skip(TRUE_TEXT, t, Bool(true))
    else if t[0] == 102 then Skip(FALSE_TEXT, t, Bool(false))
    else if t[0] == 34 then
      match ParseString(t)
      case None => None
      case Some((s, rest)) => Some((Str(s), rest))
    else if t[0] == 91 then
      if |t| >= 2 && t[1] == 93 then Some((Arr([]), t[2..]))
      else match ParseItems(t[1..])
        case None => None
        case Some((items, rest)) => Some((Arr(items), rest))
    else if t[0] == 123 then
      if |t| >= 2 && t[1] == 125 then Some((Obj([]), t[2..]))
      else match ParseFields(t[1..])
        case None => None
        case Some((fields, rest)) => Some((Obj(fields), rest))
    else
      var n := NumberLength(t);
      if n == 0 then None else Some((Num(Finite(t[..n])), t[n..]))
  }

  /** One or more array items and the closing bracket. */
  function ParseItems(t: Text): (r: Option<(seq<Json>, Text)>)
    ensures r.Some? ==> |r.value.1| < |t|
    decreases |t|, 1
  {
    match Parse(t)
    case None => None
    case Some((v, rest)) =>
      if rest == [] then None
      else if rest[0] == 93 then Some(([v], rest[1..]))
      else if rest[0] != 44 then None
      else match ParseItems(rest[1..])
        case None => None
        case Some((vs, rest')) => Some(([v] + vs, rest'))
  }

  /** One or more object entries and the closing brace. */
  function ParseFields(t: Text): (r: Option<(seq<Pair<Json>>, Text)>)
    ensures r.Some? ==> |r.value.1| < |t|
    decreases |t|, 1
  {
    match ParseString(t)
    case None => None
    case Some((key, afterKey)) =>
      if afterKey == [] || afterKey[0] != 58 then None
      else match Parse(afterKey[1..])
        case None => None
        case Some((v, rest)) =>
          if rest == [] then None
          else if rest[0] == 125 then Some(([Pair(key, v)], rest[1..]))
          else if rest[0] != 44 then None
          else match ParseFields(rest[1..])
            case None => None
            case Some((fs, rest')) => Some(([Pair(key, v)] + fs, rest'))
  }

  // ---------- The printer without sorting ----------

  function Print(v: Json): Text {
    match v
    case Null => NULL_TEXT
    case Bool(b) => if b then TRUE_TEXT else FALSE_TEXT
    case Num(n) => Unsigned(n).token
    case Str(s) => Quote(s)
    case Arr(items) => [91] + Join(PrintItems(items)) + [93]
    case Obj(fields) => [123] + Join(Entries(PrintFields(fields))) + [125]
  }

  function PrintItems(items: seq<Json>): (r: seq<Text>)
    ensures |r| == |items|
  {
    if items == [] then [] else [Print(items[0])] + PrintItems(items[1..])
  }

  function PrintFields(fields: seq<Pair<Json>>): (r: seq<Pair<Text>>)
    ensures |r| == |fields|
  {
    if fields == [] then []
    else [Pair(fields[0].key, Print(fields[0].value))] + PrintFields(fields[1..])
  }

  /** Values whose numbers are valid tokens: what a parser can return. */
  predicate Printable(v: Json) {
    match v
    case Num(n) => n.Finite? && ValidNumber(n)
    case Arr(items) => forall i | 0 <= i < |items| :: Printable(items[i])
    case Obj(fields) => forall i | 0 <= i < |fields| :: Printable(fields[i].value)
    case _ => true
  }

  /** A rest that ends a value: nothing, or one of `,` `]` `}`. */
  predicate Delimited(rest: Text) { rest == [] || rest[0] in [44, 93, 125] }

  // ---------- Strings round-trip ----------

  lemma HexUnitValue(d: nat)
    requires d < 16
    ensures HexValue(HexUnit(d)) == Some(d)
  {}

  lemma HexSum(u: Unit)
    ensures u == u / 4096 * 4096 + u / 256 % 16 * 256 + u / 16 % 16 * 16 + u % 16
  {
    var q: int, r: int := u / 16, u / 256;
    assert u == q * 16 + u % 16 && r == q / 16 && q == r * 16 + q % 16;
    assert u / 4096 == r / 16 && r == r / 16 * 16 + r % 16;
  }

  lemma HexRoundTrip(u: Unit)
    ensures ParseHex(HexEscape(u)[2..6]) == Some(u)
  {
    var a: nat, b: nat, c: nat, d: nat := u / 4096, u / 256 % 16, u / 16 % 16, u % 16;
    HexUnitValue(a);
    HexUnitValue(b);
    HexUnitValue(c);
    HexUnitValue(d);
    HexSum(u);
    assert HexEscape(u)[2..6] == [HexUnit(a), HexUnit(b), HexUnit(c), HexUnit(d)];
  }

  lemma UnitRoundTrip(u: Unit, rest: Text)
    ensures ParseUnit(Escape(u) + rest) == Some((u, |Escape(u)|))
  {
    if Escape(u) == HexEscape(u) {
      HexRoundTrip(u);
      assert (HexEscape(u) + rest)[2..6] == HexEscape(u)[2..6];
    }
  }

  /** A surrogate pair is printed as it is, and read unit by unit. */
  lemma PairStep(hi: Unit, lo: Unit, tail: Text, s: Text, rest: Text)
    requires IsHigh(hi) && IsLow(lo) && ParseUnits(tail) == Some((s, rest))
    ensures ParseUnits([hi, lo] + tail) == Some(([hi, lo] + s, rest))
  {
    var t := [hi, lo] + tail;
    assert t[1..] == [lo] + tail && t[1..][1..] == tail;
    assert ParseUnit(t) == Some((hi, 1)) && ParseUnit(t[1..]) == Some((lo, 1));
    assert ParseUnits(t[1..]) == Some(([lo] + s, rest));
    assert [hi] + ([lo] + s) == [hi, lo] + s;
  }

  lemma UnitStep(u: Unit, tail: Text, s: Text, rest: Text)
    requires ParseUnits(tail) == Some((s, rest))
    ensures ParseUnits(Escape(u) + tail) == Some(([u] + s, rest))
  {
    var t := Escape(u) + tail;
    UnitRoundTrip(u, tail);
    EscapeStart(u);
    assert t[0] == Escape(u)[0];
    assert t[|Escape(u)|..] == tail;
  }

  lemma EscapeStart(u: Unit)
    ensures Escape(u) != [] && Escape(u)[0] != 34
  {}

  lemma Reassociate(a: Text, b: Text, rest: Text)
    ensures a + b + [34] + rest == a + (b + [34] + rest)
  {}

  lemma {:induction false} UnitsRoundTrip(s: Text, rest: Text)
    ensures ParseUnits(PrintUnits(s) + [34] + rest) == Some((s, rest))
  {
    var t := PrintUnits(s) + [34] + rest;
    if s == [] {
      assert t[1..] == rest;
    } else if StartsPair(s) {
      var tail := PrintUnits(s[2..]) + [34] + rest;
      UnitsRoundTrip(s[2..], rest);
      PairStep(s[0], s[1], tail, s[2..], rest);
      Reassociate([s[0], s[1]], PrintUnits(s[2..]), rest);
      assert s == [s[0], s[1]] + s[2..];
    } else {
      var tail := PrintUnits(s[1..]) + [34] + rest;
      UnitsRoundTrip(s[1..], rest);
      UnitStep(s[0], tail, s[1..], rest);
      Reassociate(Escape(s[0]), PrintUnits(s[1..]), rest);
      assert s == [s[0]] + s[1..];
    }
  }

  lemma StringRoundTrip(s: Text, rest: Text)
    ensures ParseString(Quote(s) + rest) == Some((s, rest))
  {
    UnitsRoundTrip(s, rest);
    assert (Quote(s) + rest)[1..] == PrintUnits(s) + [34] + rest;
  }

  // ---------- Values round-trip ----------

  lemma {:induction false} NumberLengthExact(token: Text, rest: Text)
    requires forall i | 0 <= i < |token| :: IsNumberUnit(token[i])
    requires Delimited(rest)
    ensures NumberLength(token + rest) == |token|
  {
    if token != [] {
      NumberLengthExact(token[1..], rest);
      assert (token + rest)[1..] == token[1..] + rest;
    } else {
      assert token + rest == rest;
    }
  }

  /** The text of a value starts neither like the end of an array nor like that of an object. */
  lemma PrintStart(v: Json)
    requires Printable(v)
    ensures Print(v) != [] && Print(v)[0] != 93 && Print(v)[0] != 125
  {
    if v.Num? {
      assert IsNumberUnit(v.n.token[0]);
    }
  }

  lemma ParsePrintAtom(v: Json, rest: Text)
    requires Printable(v) && Delimited(rest) && !v.Arr? && !v.Obj?
    ensures Parse(Print(v) + rest) == Some((v, rest))
  {
    var t := Print(v) + rest;
    match v
    case Null => assert t[4..] == rest;
    case Bool(b) => assert t[(if b then 4 else 5)..] == rest;
    case Num(n) =>
      assert IsNumberUnit(n.token[0]);
      NumberLengthExact(n.token, rest);
      assert t[..|n.token|] == n.token && t[|n.token|..] == rest;
    case Str(s) => StringRoundTrip(s, rest);
  }

  lemma {:induction false} ParsePrint(v: Json, rest: Text)
    requires Printable(v) && Delimited(rest)
    ensures Parse(Print(v) + rest) == Some((v, rest))
    decreases v, 1
  {
    if v.Arr? {
      if v.items != [] {
        ParsePrintItems(v.items, rest);
      }
      ParsePrintArray(v.items, rest);
    } else if v.Obj? {
      if v.fields != [] {
        ParsePrintFields(v.fields, rest);
      }
      ParsePrintObject(v.fields, rest);
    } else {
      ParsePrintAtom(v, rest);
    }
  }

  lemma ParseEmptyArray(rest: Text)
    ensures Parse([91, 93] + rest) == Some((Arr([]), rest))
  {
    assert ([91, 93] + rest)[2..] == rest;
  }

  lemma ParseArrayStep(t: Text, items: seq<Json>, rest: Text)
    requires |t| >= 2 && t[0] == 91 && t[1] != 93 && ParseItems(t[1..]) == Some((items, rest))
    ensures Parse(t) == Some((Arr(items), rest))
  {}

  /** The text of an array as its bracket, the first unit of its first item, and what follows. */
  lemma ArrayStart(items: seq<Json>, rest: Text)
    requires items != [] && Printable(items[0])
    ensures var t := Print(Arr(items)) + rest;
      |t| >= 2 && t[0] == 91 && t[1] != 93 && t[1..] == Join(PrintItems(items)) + [93] + rest
  {
    PrintStart(items[0]);
    var parts := PrintItems(items);
    assert parts[0] == Print(items[0]);
    JoinStart(parts);
    Bracketed(Join(parts), rest);
    assert Print(Arr(items)) == [91] + Join(parts) + [93];
  }

  lemma Bracketed(body: Text, rest: Text)
    requires body != []
    ensures var t := [91] + body + [93] + rest;
      |t| >= 2 && t[0] == 91 && t[1] == body[0] && t[1..] == body + [93] + rest
  {}

  lemma ParsePrintArray(items: seq<Json>, rest: Text)
    requires Printable(Arr(items))
    requires items != [] ==> ParseItems(Join(PrintItems(items)) + [93] + rest) == Some((items, rest))
    ensures Parse(Print(Arr(items)) + rest) == Some((Arr(items), rest))
  {
    if items == [] {
      ParseEmptyArray(rest);
      assert Print(Arr(items)) == [91, 93];
    } else {
      ArrayStart(items, rest);
      ParseArrayStep(Print(Arr(items)) + rest, items, rest);
    }
  }

  /** A joined text starts like its first part. */
  lemma JoinStart(parts: seq<Text>)
    requires parts != [] && parts[0] != []
    ensures Join(parts) != [] && Join(parts)[0] == parts[0][0]
  {}

  lemma ParsePrintObject(fields: seq<Pair<Json>>, rest: Text)
    requires fields != [] ==> ParseFields(Join(Entries(PrintFields(fields))) + [125] + rest) == Some((fields, rest))
    ensures Parse(Print(Obj(fields)) + rest) == Some((Obj(fields), rest))
  {
    if fields == [] {
      var t := Print(Obj(fields)) + rest;
      assert t == [123, 125] + rest;
      assert t[2..] == rest;
    } else {
      EntriesStart(fields);
      ParseObjectStep(Join(Entries(PrintFields(fields))) + [125] + rest, fields, rest);
      Bracket(123, Join(Entries(PrintFields(fields))), 125, rest);
    }
  }

  lemma Bracket(open: Unit, body: Text, close: Unit, rest: Text)
    ensures [open] + body + [close] + rest == [open] + (body + [close] + rest)
  {}

  lemma EntriesStart(fields: seq<Pair<Json>>)
    requires fields != []
    ensures Join(Entries(PrintFields(fields))) != [] && Join(Entries(PrintFields(fields)))[0] == 34
  {
    var es := Entries(PrintFields(fields));
    assert es[0][0] == 34;
  }

  lemma ParseObjectStep(t: Text, fields: seq<Pair<Json>>, rest: Text)
    requires t != [] && t[0] == 34 && ParseFields(t) == Some((fields, rest))
    ensures Parse([123] + t) == Some((Obj(fields), rest))
  {
    assert ([123] + t)[1..] == t;
  }

  lemma ParseItemsStep(t: Text, v: Json, end: Text, more: seq<Json>, rest: Text)
    requires Parse(t) == Some((v, end)) && end != []
    requires if more == [] then end == [93] + rest
             else end[0] == 44 && ParseItems(end[1..]) == Some((more, rest))
    ensures ParseItems(t) == Some(([v] + more, rest))
  {
    if more == [] {
      assert end[1..] == rest;
      assert [v] + more == [v];
    }
  }

  lemma {:induction false} ParsePrintItems(items: seq<Json>, rest: Text)
    requires items != [] && forall i | 0 <= i < |items| :: Printable(items[i])
    ensures ParseItems(Join(PrintItems(items)) + [93] + rest) == Some((items, rest))
    decreases items, 0
  {
    var more := items[1..];
    assert items == [items[0]] + more;
    var end := [93] + rest;
    if more != [] {
      var tail := Join(PrintItems(more)) + [93] + rest;
      end := [44] + tail;
      ParsePrintItems(more, rest);
      assert end[1..] == tail;
    }
    JoinCons(PrintItems(items), 93, rest);
    ParsePrint(items[0], end);
    ParseItemsStep(Print(items[0]) + end, items[0], end, more, rest);
  }

  /** Splits the first part off a joined text and its closing bracket. */
  lemma JoinCons(parts: seq<Text>, close: Unit, rest: Text)
    requires parts != []
    ensures Join(parts) + [close] + rest ==
            parts[0] + (if |parts| == 1 then [close] + rest else [44] + (Join(parts[1..]) + [close] + rest))
  {
    if |parts| > 1 {
      assert Join(parts) == parts[0] + [44] + Join(parts[1..]);
      Regroup(parts[0], Join(parts[1..]), close, rest);
    } else {
      assert Join(parts) == parts[0];
      assert parts[0] + [close] + rest == parts[0] + ([close] + rest);
    }
  }

  lemma Regroup(a: Text, b: Text, close: Unit, rest: Text)
    ensures a + [44] + b + [close] + rest == a + ([44] + (b + [close] + rest))
  {}

  /** One entry in front of the end of its object or of the entries that follow it. */
  lemma ParseFieldsStep(t: Text, key: Text, afterKey: Text, v: Json, end: Text, more: seq<Pair<Json>>, rest: Text)
    requires ParseString(t) == Some((key, [58] + afterKey))
    requires Parse(afterKey) == Some((v, end)) && end != []
    requires if more == [] then end == [125] + rest
             else end[0] == 44 && ParseFields(end[1..]) == Some((more, rest))
    ensures ParseFields(t) == Some(([Pair(key, v)] + more, rest))
  {
    assert ([58] + afterKey)[1..] == afterKey;
    if more == [] {
      assert end[1..] == rest;
      assert [Pair(key, v)] + more == [Pair(key, v)];
    }
  }

  lemma {:induction false} ParsePrintFields(fields: seq<Pair<Json>>, rest: Text)
    requires fields != [] && forall i | 0 <= i < |fields| :: Printable(fields[i].value)
    ensures ParseFields(Join(Entries(PrintFields(fields))) + [125] + rest) == Some((fields, rest))
    decreases fields, 0
  {
    var more := fields[1..];
    assert fields == [fields[0]] + more;
    var end := [125] + rest;
    if more != [] {
      var tail := Join(Entries(PrintFields(more))) + [125] + rest;
      end := [44] + tail;
      ParsePrintFields(more, rest);
      assert end[1..] == tail;
    }
    var key, value := fields[0].key, Print(fields[0].value);
    assert PrintFields(fields) == [Pair(key, value)] + PrintFields(more);
    FieldsText(PrintFields(fields), rest);
    ParsePrint(fields[0].value, end);
    StringRoundTrip(key, [58] + (value + end));
    ParseFieldsStep(Quote(key) + ([58] + (value + end)), key, value + end, fields[0].value, end, more, rest);
  }

  lemma FieldsText(ps: seq<Pair<Text>>, rest: Text)
    requires ps != []
    ensures Join(Entries(ps)) + [125] + rest ==
            Quote(ps[0].key) + ([58] + (ps[0].value +
            (if |ps| == 1 then [125] + rest else [44] + (Join(Entries(ps[1..])) + [125] + rest))))
  {
    var es := Entries(ps);
    assert es[1..] == Entries(ps[1..]);
    JoinCons(es, 125, rest);
    EntryText(ps[0], if |ps| == 1 then [125] + rest else [44] + (Join(Entries(ps[1..])) + [125] + rest));
  }

  lemma EntryText(p: Pair<Text>, end: Text)
    ensures Entry(p) + end == Quote(p.key) + ([58] + (p.value + end))
  {}
}
