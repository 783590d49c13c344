/** The exact characters of canonical texts: what is printed for every kind of value, and in
    which order. */
module CanonicalForm {
  import opened Texts
  import opened StableSort
  import opened Json
  import opened CanonicalText

  // ---------- Strings (section 7 of RFC 8259, section 3.2.2.2 of RFC 8785) ----------

  predicate IsLowerHex(u: Unit) { 48 <= u <= 57 || 97 <= u <= 102 }

  function LowerHexValue(u: Unit): nat
    requires IsLowerHex(u)
  {
    if u <= 57 then u - 48 else u - 87
  }

  /** e is `\u` and the four lower-case hexadecimal digits of u. */
  predicate SpellsHex(e: Text, u: Unit) {
    && |e| == 6 && e[..2] == Ascii("\\u")
    && IsLowerHex(e[2]) && IsLowerHex(e[3]) && IsLowerHex(e[4]) && IsLowerHex(e[5])
    && LowerHexValue(e[2]) * 4096 + LowerHexValue(e[3]) * 256 + LowerHexValue(e[4]) * 16 + LowerHexValue(e[5]) == u
  }

  /** The seven short escapes, the long escape for other control units and lone surrogates, and
      every other unit as it is. */
  lemma EscapeTable(u: Unit)
    ensures Escape(8) == Ascii("\\b") && Escape(9) == Ascii("\\t") && Escape(10) == Ascii("\\n")
    ensures Escape(12) == Ascii("\\f") && Escape(13) == Ascii("\\r")
    ensures Escape(34) == Ascii("\\\"") && Escape(92) == Ascii("\\\\")
    ensures u !in {8, 9, 10, 12, 13, 34, 92} ==>
      if u < 0x20 || 0xD800 <= u < 0xE000 then SpellsHex(Escape(u), u) else Escape(u) == [u]
  {
    JsonParser.HexSum(u);
  }

  /** The first two units are a surrogate pair. */
  predicate PairAhead(s: Text) { |s| >= 2 && 0xD800 <= s[0] < 0xDC00 && 0xDC00 <= s[1] < 0xE000 }

  /** A string is its units between quotes; a surrogate pair is printed as it is, any other unit
      by the table. */
  lemma StringSpelled(s: Text)
    ensures Canonicalize(Str(s)) == Quote(s) == Ascii("\"") + PrintUnits(s) + Ascii("\"") && PrintUnits([]) == []
    ensures PairAhead(s) ==> PrintUnits(s) == [s[0], s[1]] + PrintUnits(s[2..])
    ensures s != [] && !PairAhead(s) ==> PrintUnits(s) == Escape(s[0]) + PrintUnits(s[1..])
  {
    assert Ascii("\"") == [34];
    UnitsSpelled(s);
  }

  lemma UnitsSpelled(s: Text)
    ensures PairAhead(s) ==> PrintUnits(s) == [s[0], s[1]] + PrintUnits(s[2..])
    ensures s != [] && !PairAhead(s) ==> PrintUnits(s) == Escape(s[0]) + PrintUnits(s[1..])
  {}

  // ---------- Values ----------

  /** The parts, separated by commas. */
  function Commas(parts: seq<Text>): Text
    decreases |parts|
  {
    if parts == [] then []
    else if |parts| == 1 then parts[0]
    else Commas(parts[..|parts| - 1]) + Ascii(",") + parts[|parts| - 1]
  }

  lemma {:induction false} CommasCons(parts: seq<Text>)
    requires |parts| > 1
    ensures Commas(parts) == parts[0] + [44] + Commas(parts[1..])
    decreases |parts|
  {
    var init := parts[..|parts| - 1];
    assert Ascii(",") == [44];
    if |parts| > 2 {
      CommasCons(init);
      assert init[1..] == parts[1..][..|parts| - 2];
      var a, b, c, d := parts[0], Commas(init[1..]), [44], parts[|parts| - 1];
      assert a + c + b + c + d == a + c + (b + c + d);
    } else {
      assert init == [parts[0]] && parts[1..] == [parts[1]];
    }
  }

  lemma {:induction false} JoinIsCommas(parts: seq<Text>)
    ensures Join(parts) == Commas(parts)
    decreases |parts|
  {
    if |parts| > 1 {
      JoinIsCommas(parts[1..]);
      CommasCons(parts);
    }
  }

  lemma AtomsSpelled(token: Text)
    ensures Canonicalize(Null) == Ascii("null")
    ensures Canonicalize(Bool(true)) == Ascii("true") && Canonicalize(Bool(false)) == Ascii("false")
    ensures Canonicalize(Num(NegativeZero)) == Ascii("0") && Canonicalize(Num(Finite(token))) == token
  {}

  function CanonicalTexts(items: seq<Json>): (r: seq<Text>)
    ensures |r| == |items| && forall i | 0 <= i < |items| :: r[i] == Canonicalize(items[i])
  {
    seq(|items|, i requires 0 <= i < |items| => Canonicalize(items[i]))
  }

  lemma {:induction false} ItemsAre(items: seq<Json>)
    ensures CanonicalItems(items) == CanonicalTexts(items)
  {
    if items != [] {
      ItemsAre(items[1..]);
      assert CanonicalTexts(items)[1..] == CanonicalTexts(items[1..]);
    }
  }

  /** An array is its items between brackets, separated by commas, in order. */
  lemma ArraySpelled(items: seq<Json>)
    ensures Canonicalize(Arr(items)) == Ascii("[") + Commas(CanonicalTexts(items)) + Ascii("]")
  {
    ItemsAre(items);
    JoinIsCommas(CanonicalItems(items));
    assert Ascii("[") == [91] && Ascii("]") == [93];
  }

  /** The entries of an object: key, colon, value. */
  function Members(g: seq<Pair<Json>>): (r: seq<Text>)
    ensures |r| == |g|
    ensures forall i | 0 <= i < |g| :: r[i] == Quote(g[i].key) + Ascii(":") + Canonicalize(g[i].value)
  {
    seq(|g|, i requires 0 <= i < |g| => Quote(g[i].key) + Ascii(":") + Canonicalize(g[i].value))
  }

  lemma {:induction false} FieldsAre(fields: seq<Pair<Json>>)
    ensures CanonicalFields(fields) == MapValues(Canonicalize, fields)
  {
    if fields != [] {
      FieldsAre(fields[1..]);
      assert MapValues(Canonicalize, fields)[1..] == MapValues(Canonicalize, fields[1..]);
    }
  }

  lemma MembersAre(g: seq<Pair<Json>>)
    ensures Entries(MapValues(Canonicalize, g)) == Members(g)
  {
    assert Ascii(":") == [58];
  }

  lemma SortedObject(fields: seq<Pair<Json>>)
    ensures Canonicalize(Obj(fields)) == Ascii("{") + Commas(Members(Sort(fields))) + Ascii("}")
  {
    FieldsAre(fields);
    SortMap(Canonicalize, fields);
    MembersAre(Sort(fields));
    JoinIsCommas(Members(Sort(fields)));
    assert Ascii("{") == [123] && Ascii("}") == [125];
  }

  /** The keys ascend by code unit. */
  ghost predicate Ascending(g: seq<Pair<Json>>) { forall i, j | 0 <= i < j < |g| :: InOrder(g[i].key, g[j].key) }

  /** g lists the same entries, with the keys in ascending order by code unit, and t is their text
      between braces. */
  ghost predicate SpellsObject(t: Text, fields: seq<Pair<Json>>, g: seq<Pair<Json>>) {
    && multiset(g) == multiset(fields)
    && (forall i, j | 0 <= i < j < |g| :: InOrder(g[i].key, g[j].key))
    && t == Ascii("{") + Commas(Members(g)) + Ascii("}")
  }

  /** An object is its own entries, between braces, separated by commas, with the keys in
      ascending order by code unit. */
  lemma ObjectSpelled(fields: seq<Pair<Json>>)
    ensures exists g :: SpellsObject(Canonicalize(Obj(fields)), fields, g)
  {
    var g := Sort(fields);
    SortContents(fields);
    SortSorted(fields);
    forall i, j | 0 <= i < j < |g| ensures InOrder(g[i].key, g[j].key) {
      LessExact(g[i].key, g[j].key);
    }
    SortedObject(fields);
    assert SpellsObject(Canonicalize(Obj(fields)), fields, g);
  }

  // ---------- Records with known keys ----------

  /** Each key comes before the next one. */
  predicate Climbs(g: seq<Pair<Json>>) { forall i | 0 <= i < |g| - 1 :: Less(g[i].key, g[i + 1].key) }

  lemma {:induction false} ClimbsFrom(g: seq<Pair<Json>>, i: nat, j: nat)
    requires Climbs(g) && i < j < |g|
    ensures Less(g[i].key, g[j].key)
    decreases j
  {
    if i < j - 1 {
      ClimbsFrom(g, i, j - 1);
      LessTransitive(g[i].key, g[j - 1].key, g[j].key);
    }
  }

  /** A record listed in another order prints in ascending order. */
  lemma RecordSpelled(f: seq<Pair<Json>>, g: seq<Pair<Json>>)
    requires UniqueKeys(f) && Climbs(g) && Contained(f, g) && Contained(g, f)
    ensures Canonicalize(Obj(f)) == Ascii("{") + Commas(Members(g)) + Ascii("}")
  {
    forall i, j | 0 <= i < j < |g| ensures g[i].key != g[j].key && !Less(g[j].key, g[i].key) {
      ClimbsFrom(g, i, j);
      LessAsymmetric(g[i].key, g[j].key);
      LessIrreflexive(g[i].key);
    }
    SortByEntries(f, g);
    SortFixedPoint(g);
    SortedObject(f);
  }

  /** Printed as it is, without an escape. */
  predicate PlainUnit(u: Unit) { 0x20 <= u < 0x80 && u != 34 && u != 92 }

  lemma {:induction false} PlainUnits(t: Text)
    requires forall i | 0 <= i < |t| :: PlainUnit(t[i])
    ensures PrintUnits(t) == t
  {
    if t != [] {
      assert PlainUnit(t[0]);
      PlainUnits(t[1..]);
    }
  }

  /** A literal between quotes. */
  function Quoted(name: string): Text { [34] + Spell(name) + [34] }

  /** The literal is printed without an escape. */
  predicate Plain(name: string) { forall i | 0 <= i < |name| :: PlainUnit(Spell(name)[i]) }

  lemma QuotePlain(name: string)
    requires Plain(name)
    ensures Quote(Spell(name)) == Quoted(name)
  {
    PlainUnits(Spell(name));
  }

  /** An object with these names and printed values, in this order. */
  function Record(entries: seq<(string, Text)>): Text {
    [123] + Commas(seq(|entries|, k requires 0 <= k < |entries| => Quoted(entries[k].0) + [58] + entries[k].1)) + [125]
  }

  predicate Prints(p: Pair<Json>, e: (string, Text)) {
    p.key == Spell(e.0) && Plain(e.0) && Canonicalize(p.value) == e.1
  }

  predicate AllPrint(g: seq<Pair<Json>>, entries: seq<(string, Text)>) {
    |g| == |entries| && forall k | 0 <= k < |g| :: Prints(g[k], entries[k])
  }

  lemma MembersPrinted(g: seq<Pair<Json>>, entries: seq<(string, Text)>)
    requires AllPrint(g, entries)
    ensures Ascii("{") + Commas(Members(g)) + Ascii("}") == Record(entries)
  {
    var parts := seq(|entries|, k requires 0 <= k < |entries| => Quoted(entries[k].0) + [58] + entries[k].1);
    forall k | 0 <= k < |g| ensures Members(g)[k] == parts[k] {
      assert Prints(g[k], entries[k]);
      QuotePlain(entries[k].0);
      assert Ascii(":") == [58];
    }
    assert Members(g) == parts;
    assert Ascii("{") == [123] && Ascii("}") == [125];
  }

  /** A record listed in any order prints with its names in ascending order. */
  lemma RecordPrinted(f: seq<Pair<Json>>, g: seq<Pair<Json>>, entries: seq<(string, Text)>)
    requires UniqueKeys(f) && Climbs(g) && Contained(f, g) && Contained(g, f) && AllPrint(g, entries)
    ensures Canonicalize(Obj(f)) == Record(entries)
  {
    RecordSpelled(f, g);
    MembersPrinted(g, entries);
  }
}
