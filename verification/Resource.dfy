/** Canonical hashing and the binding of a request to its resource hash. */
module Resource {
  import opened Texts
  import opened StableSort
  import opened Json
  import opened CanonicalText
  import opened Utf8

  /** SHA-256 in lowercase hexadecimal is a parameter: any function of the hashed bytes. */
  type HashFunction = seq<Byte> -> Text

  /** The two byte strings are not a collision of the hash. */
  predicate NoCollision(sha: HashFunction, x: seq<Byte>, y: seq<Byte>) { sha(x) == sha(y) ==> x == y }

  function CanonicalHash(sha: HashFunction, v: Json): Text { sha(CanonicalBytes(v)) }

  /** Equal values have equal hashes; equal hashes mean equal values or a collision. */
  lemma CanonicalHashBinds(sha: HashFunction, v: Json, w: Json)
    requires WellFormed(v) && WellFormed(w)
    ensures Same(v, w) ==> CanonicalHash(sha, v) == CanonicalHash(sha, w)
    ensures NoCollision(sha, CanonicalBytes(v), CanonicalBytes(w)) ==>
      CanonicalHash(sha, v) == CanonicalHash(sha, w) ==> Same(v, w)
  {
    CanonicalBytesInjective(v, w);
  }

  // ---------- Records ----------

  predicate SameKeys<V>(f: seq<Pair<V>>, g: seq<Pair<V>>) {
    |f| == |g| && forall i | 0 <= i < |f| :: f[i].key == g[i].key
  }

  ghost predicate SameFields(f: seq<Pair<Json>>, g: seq<Pair<Json>>)
    requires |f| == |g|
  {
    forall i | 0 <= i < |f| :: Same(f[i].value, g[i].value)
  }

  /** Two objects with the same keys in the same places are the same exactly field by field. */
  lemma RecordSame(f: seq<Pair<Json>>, g: seq<Pair<Json>>)
    requires SameKeys(f, g) && UniqueKeys(f)
    ensures Same(Obj(f), Obj(g)) <==> SameFields(f, g)
  {
    if Same(Obj(f), Obj(g)) {
      forall i | 0 <= i < |f| ensures Same(f[i].value, g[i].value) {
        assert Has(g, f[i]);
      }
    }
    if SameFields(f, g) {
      forall i | 0 <= i < |f| ensures Has(g, f[i]) && HasFor(f, g[i]) {
        assert Same(f[i].value, g[i].value);
      }
    }
  }

  // ---------- canonicalQuery ----------

  type Query = seq<Pair<Text>>

  function CanonicalQuery(query: Query): Query { Sort(query) }

  /** Two queries canonicalize alike exactly when every key carries the same values in the
      same order. */
  lemma QueryKernel(p: Query, q: Query)
    ensures CanonicalQuery(p) == CanonicalQuery(q) <==> SameValues(p, q)
  {
    SortKernel(p, q);
  }

  /** The canonical query is sorted by the code units of its keys, a permutation of the query, keeps
      the values of every key in order, and is a fixed point. */
  lemma QueryShape(p: Query)
    ensures Sorted(CanonicalQuery(p))
    ensures forall i, j | 0 <= i < j < |CanonicalQuery(p)| ::
      InOrder(CanonicalQuery(p)[i].key, CanonicalQuery(p)[j].key)
    ensures multiset(CanonicalQuery(p)) == multiset(p)
    ensures SameValues(CanonicalQuery(p), p)
    ensures CanonicalQuery(CanonicalQuery(p)) == CanonicalQuery(p)
  {
    SortSorted(p);
    SortContents(p);
    forall i, j | 0 <= i < j < |Sort(p)| ensures InOrder(Sort(p)[i].key, Sort(p)[j].key) {
      LessExact(Sort(p)[i].key, Sort(p)[j].key);
    }
    forall k: Text ensures ValuesOf(k, Sort(p)) == ValuesOf(k, p) {
      SortValues(k, p);
    }
    SortFixedPoint(Sort(p));
  }

  /** Values of a repeated key are not sorted: swapping them changes the canonical query. */
  lemma RepeatedKeyOrderMatters(k: Text, v: Text, w: Text)
    ensures CanonicalQuery([Pair(k, v), Pair(k, w)]) == CanonicalQuery([Pair(k, w), Pair(k, v)]) <==> v == w
  {
    LessIrreflexive(k);
    assert Sort([Pair(k, w)]) == [Pair(k, w)];
    assert Sort([Pair(k, v)]) == [Pair(k, v)];
    var p, q := [Pair(k, v), Pair(k, w)], [Pair(k, w), Pair(k, v)];
    assert p[1..] == [Pair(k, w)] && q[1..] == [Pair(k, v)];
    assert Sort(p) == p && Sort(q) == q;
    assert p[0] == q[0] ==> v == w;
  }

  function QueryJson(q: Query): (v: Json)
    ensures v.Arr? && |v.items| == |q|
    ensures forall i | 0 <= i < |q| :: v.items[i] == PairJson(q[i])
  {
    Arr(seq(|q|, i requires 0 <= i < |q| => PairJson(q[i])))
  }

  function PairJson(p: Pair<Text>): Json { Arr([Str(p.key), Str(p.value)]) }

  lemma PairJsonSame(p: Pair<Text>, q: Pair<Text>)
    ensures Same(PairJson(p), PairJson(q)) <==> p == q
    ensures WellFormed(PairJson(p))
  {
    var x, y := PairJson(p).items, PairJson(q).items;
    assert Same(x[0], y[0]) <==> p.key == q.key;
    assert Same(x[1], y[1]) <==> p.value == q.value;
  }

  lemma QueryJsonSame(p: Query, q: Query)
    ensures Same(QueryJson(p), QueryJson(q)) <==> p == q
    ensures WellFormed(QueryJson(p))
  {
    forall i | 0 <= i < |p| ensures WellFormed(PairJson(p[i])) {
      PairJsonSame(p[i], p[i]);
    }
    if |p| == |q| {
      forall i | 0 <= i < |p| ensures Same(PairJson(p[i]), PairJson(q[i])) <==> p[i] == q[i] {
        PairJsonSame(p[i], q[i]);
      }
    }
  }

  // ---------- computeResourceHash ----------

  /** A request whose origin is already normalized; a missing query is the empty one. */
  datatype Request = Request(serverOrigin: Text, verb: Text, path: Text, query: Query, body: Option<Json>)

  predicate ValidRequest(r: Request) { r.body.Some? ==> WellFormed(r.body.value) }

  predicate IsTokenUnit(u: Unit) {
    || IsAlphaNumeric(u) || u == 33 || 35 <= u <= 39 || u == 42 || u == 43 || u == 45 || u == 46
    || u == 94 || u == 95 || u == 96 || u == 124 || u == 126
  }

  function NormalizeMethod(verb: Text): Option<Text> {
    if verb != [] && forall i | 0 <= i < |verb| :: IsTokenUnit(verb[i]) then Some(Upper(verb)) else None
  }

  function ValidatePath(path: Text): Option<Text> {
    if path == [] || path[0] != 47 || (|path| > 1 && path[1] == 47) || 63 in path || 35 in path
    then None else Some(path)
  }

  function Body(r: Request): Json { if r.body.Some? then r.body.value else Null }

  function BodyAndQuery(r: Request): seq<Pair<Json>> {
    [Pair(Ascii("body"), Body(r)), Pair(Ascii("query"), QueryJson(CanonicalQuery(r.query)))]
  }

  function BodyAndQueryHash(sha: HashFunction, r: Request): Text { CanonicalHash(sha, Obj(BodyAndQuery(r))) }

  function ResourceFields(digest: Text, verb: Text, path: Text, origin: Text): seq<Pair<Json>> {
    [Pair(Ascii("bodyAndQueryHash"), Str(digest)), Pair(Ascii("method"), Str(verb)),
     Pair(Ascii("path"), Str(path)), Pair(Ascii("serverOrigin"), Str(origin))]
  }

  /** The object whose hash is the resource hash, when method and path are acceptable. */
  function ResourceJson(sha: HashFunction, r: Request): Option<Json> {
    match (NormalizeMethod(r.verb), ValidatePath(r.path))
    case (Some(verb), Some(path)) =>
      Some(Obj(ResourceFields(BodyAndQueryHash(sha, r), verb, path, r.serverOrigin)))
    case _ => None
  }

  function ResourceHash(sha: HashFunction, r: Request): Option<Text> {
    match ResourceJson(sha, r)
    case Some(v) => Some(CanonicalHash(sha, v))
    case None => None
  }

  /** Requests for the same resource: method case, query order across keys, body entry order
      and a missing body in place of null are the only freedoms. */
  ghost predicate SameResource(r: Request, s: Request) {
    && r.serverOrigin == s.serverOrigin
    && Upper(r.verb) == Upper(s.verb)
    && r.path == s.path
    && SameValues(r.query, s.query)
    && Same(Body(r), Body(s))
  }

  lemma ResourceKeysUnique(digest: Text, verb: Text, path: Text, origin: Text)
    ensures UniqueKeys(ResourceFields(digest, verb, path, origin))
  {
    var f := ResourceFields(digest, verb, path, origin);
    assert |f[0].key| == 16 && |f[1].key| == 6 && |f[2].key| == 4 && |f[3].key| == 12;
  }

  lemma BodyKeysUnique(r: Request)
    ensures UniqueKeys(BodyAndQuery(r))
  {
    assert |BodyAndQuery(r)[0].key| == 4 && |BodyAndQuery(r)[1].key| == 5;
  }

  lemma BodyAndQuerySame(r: Request, s: Request)
    ensures Same(Obj(BodyAndQuery(r)), Obj(BodyAndQuery(s))) <==>
            Same(Body(r), Body(s)) && SameValues(r.query, s.query)
  {
    var f, g := BodyAndQuery(r), BodyAndQuery(s);
    BodyKeysUnique(r);
    RecordSame(f, g);
    QueryJsonSame(CanonicalQuery(r.query), CanonicalQuery(s.query));
    QueryKernel(r.query, s.query);
    assert SameFields(f, g) <==> Same(f[0].value, g[0].value) && Same(f[1].value, g[1].value);
  }

  lemma BodyAndQueryWellFormed(r: Request)
    requires ValidRequest(r)
    ensures WellFormed(Obj(BodyAndQuery(r)))
  {
    BodyKeysUnique(r);
    QueryJsonSame(CanonicalQuery(r.query), CanonicalQuery(r.query));
  }

  lemma ResourceJsonSame(d: Text, m: Text, p: Text, o: Text, d': Text, m': Text, p': Text, o': Text)
    ensures Same(Obj(ResourceFields(d, m, p, o)), Obj(ResourceFields(d', m', p', o'))) <==>
            d == d' && m == m' && p == p' && o == o'
    ensures WellFormed(Obj(ResourceFields(d, m, p, o)))
  {
    var f, g := ResourceFields(d, m, p, o), ResourceFields(d', m', p', o');
    ResourceKeysUnique(d, m, p, o);
    RecordSame(f, g);
    assert Same(f[0].value, g[0].value) <==> d == d';
    assert Same(f[1].value, g[1].value) <==> m == m';
    assert Same(f[2].value, g[2].value) <==> p == p';
    assert Same(f[3].value, g[3].value) <==> o == o';
  }

  /** The pairs of byte strings that the two hash computations feed to the hash. */
  ghost predicate NoResourceCollision(sha: HashFunction, r: Request, s: Request) {
    && NoCollision(sha, CanonicalBytes(Obj(BodyAndQuery(r))), CanonicalBytes(Obj(BodyAndQuery(s))))
    && (ResourceJson(sha, r).Some? && ResourceJson(sha, s).Some? ==>
        NoCollision(sha, CanonicalBytes(ResourceJson(sha, r).value), CanonicalBytes(ResourceJson(sha, s).value)))
  }

  /** Resource hashes are equal exactly for requests of the same resource. */
  lemma ResourceBinding(sha: HashFunction, r: Request, s: Request)
    requires ValidRequest(r) && ValidRequest(s)
    requires ResourceHash(sha, r).Some? && ResourceHash(sha, s).Some?
    requires NoResourceCollision(sha, r, s)
    ensures ResourceHash(sha, r) == ResourceHash(sha, s) <==> SameResource(r, s)
  {
    var d, d' := BodyAndQueryHash(sha, r), BodyAndQueryHash(sha, s);
    BodyAndQueryWellFormed(r);
    BodyAndQueryWellFormed(s);
    CanonicalHashBinds(sha, Obj(BodyAndQuery(r)), Obj(BodyAndQuery(s)));
    BodyAndQuerySame(r, s);
    assert d == d' <==> Same(Body(r), Body(s)) && SameValues(r.query, s.query);
    ResourceJsonSame(d, Upper(r.verb), r.path, r.serverOrigin, d', Upper(s.verb), s.path, s.serverOrigin);
    ResourceJsonSame(d', Upper(s.verb), s.path, s.serverOrigin, d, Upper(r.verb), r.path, r.serverOrigin);
    CanonicalHashBinds(sha, ResourceJson(sha, r).value, ResourceJson(sha, s).value);
  }

  // ---------- canonicalBody of the settlement middleware ----------

  function InsertBy<V>(before: (Text, Text) -> bool, p: Pair<V>, s: seq<Pair<V>>): (r: seq<Pair<V>>)
    ensures |r| == |s| + 1
  {
    if s == [] || !before(s[0].key, p.key) then [p] + s else [s[0]] + InsertBy(before, p, s[1..])
  }

  /** A stable sort by an arbitrary comparison of keys, such as `localeCompare`. */
  function SortBy<V>(before: (Text, Text) -> bool, s: seq<Pair<V>>): (r: seq<Pair<V>>)
    ensures |r| == |s|
  {
    if s == [] then [] else InsertBy(before, s[0], SortBy(before, s[1..]))
  }

  /** The body normalizer that sorts every object by the given comparison. */
  function SettlementBody(before: (Text, Text) -> bool, v: Json): Json {
    match v
    case Arr(items) => Arr(SettlementItems(before, items))
    case Obj(fields) => Obj(SortBy(before, SettlementFields(before, fields)))
    case _ => v
  }

  function SettlementItems(before: (Text, Text) -> bool, items: seq<Json>): (r: seq<Json>)
    ensures |r| == |items|
    ensures forall i | 0 <= i < |items| :: r[i] == SettlementBody(before, items[i])
  {
    if items == [] then [] else [SettlementBody(before, items[0])] + SettlementItems(before, items[1..])
  }

  function SettlementFields(before: (Text, Text) -> bool, fields: seq<Pair<Json>>): (r: seq<Pair<Json>>)
    ensures |r| == |fields|
    ensures forall i | 0 <= i < |fields| :: r[i] == Pair(fields[i].key, SettlementBody(before, fields[i].value))
  {
    if fields == [] then []
    else [Pair(fields[0].key, SettlementBody(before, fields[0].value))] + SettlementFields(before, fields[1..])
  }

  lemma {:induction false} InsertByContents<V>(before: (Text, Text) -> bool, p: Pair<V>, s: seq<Pair<V>>)
    ensures multiset(InsertBy(before, p, s)) == multiset{p} + multiset(s)
  {
    if s != [] && before(s[0].key, p.key) {
      InsertByContents(before, p, s[1..]);
      assert s == [s[0]] + s[1..];
    }
  }

  lemma {:induction false} SortByContents<V>(before: (Text, Text) -> bool, s: seq<Pair<V>>)
    ensures multiset(SortBy(before, s)) == multiset(s)
  {
    if s != [] {
      SortByContents(before, s[1..]);
      InsertByContents(before, s[0], SortBy(before, s[1..]));
      assert s == [s[0]] + s[1..];
    }
  }

  /** A rearrangement of entries with different keys has different keys. */
  lemma ArrangedUnique<V>(s: seq<Pair<V>>, r: seq<Pair<V>>)
    requires UniqueKeys(s) && multiset(r) == multiset(s)
    ensures UniqueKeys(r)
  {
    forall i, j | 0 <= i < j < |r| ensures r[i].key != r[j].key {
      assert r[i] in multiset(s) && r[j] in multiset(s);
      if r[i].key == r[j].key {
        var m :| 0 <= m < |s| && s[m] == r[i];
        var n :| 0 <= n < |s| && s[n] == r[j];
        OnceIn(s, r[i]);
        TwiceIn(r, i, j);
      }
    }
  }

  lemma TwiceIn<V>(r: seq<Pair<V>>, i: nat, j: nat)
    requires i < j < |r| && r[i] == r[j]
    ensures multiset(r)[r[i]] >= 2
  {
    assert r == r[..j] + [r[j]] + r[j + 1..];
    assert r[i] == r[..j][i] && r[i] in multiset(r[..j]);
  }

  lemma OnceIn<V>(s: seq<Pair<V>>, p: Pair<V>)
    requires UniqueKeys(s) && p in s
    ensures multiset(s)[p] == 1
  {
    var k :| 0 <= k < |s| && s[k] == p;
    assert s == s[..k] + [p] + s[k + 1..];
    assert p !in s[..k] && p !in s[k + 1..];
  }

  lemma ArrangedSame(f: seq<Pair<Json>>, nf: seq<Pair<Json>>, g: seq<Pair<Json>>)
    requires SameKeys(f, nf) && SameFields(f, nf) && multiset(g) == multiset(nf)
    ensures Same(Obj(f), Obj(g))
  {
    forall i | 0 <= i < |f| ensures Has(g, f[i]) {
      assert nf[i] in multiset(g);
      var j :| 0 <= j < |g| && g[j] == nf[i];
      assert Same(f[i].value, nf[i].value);
    }
    forall j | 0 <= j < |g| ensures HasFor(f, g[j]) {
      assert g[j] in multiset(nf);
      var i :| 0 <= i < |nf| && nf[i] == g[j];
      assert Same(f[i].value, nf[i].value);
    }
  }

  /** No entry comes before its predecessor in the given comparison. */
  predicate Arranged<V>(before: (Text, Text) -> bool, s: seq<Pair<V>>) {
    forall i | 0 < i < |s| :: !before(s[i].key, s[i - 1].key)
  }

  lemma {:induction false} InsertByArranged<V>(before: (Text, Text) -> bool, p: Pair<V>, s: seq<Pair<V>>)
    requires Arranged(before, s) && forall j, k :: before(j, k) ==> !before(k, j)
    ensures Arranged(before, InsertBy(before, p, s))
    ensures s != [] && before(s[0].key, p.key) ==> InsertBy(before, p, s)[0] == s[0]
    ensures s == [] || !before(s[0].key, p.key) ==> InsertBy(before, p, s)[0] == p
  {
    if s != [] && before(s[0].key, p.key) {
      assert forall i | 0 < i < |s[1..]| :: s[1..][i] == s[i + 1] && s[1..][i - 1] == s[i];
      InsertByArranged(before, p, s[1..]);
    }
  }

  lemma {:induction false} SortByArranged<V>(before: (Text, Text) -> bool, s: seq<Pair<V>>)
    requires forall j, k :: before(j, k) ==> !before(k, j)
    ensures Arranged(before, SortBy(before, s))
  {
    if s != [] {
      SortByArranged(before, s[1..]);
      InsertByArranged(before, s[0], SortBy(before, s[1..]));
    }
  }

  /** The normalized object has the normalized entries, arranged by the comparison. */
  lemma SettlementBodyShape(before: (Text, Text) -> bool, fields: seq<Pair<Json>>)
    requires forall j, k :: before(j, k) ==> !before(k, j)
    ensures var r := SettlementBody(before, Obj(fields));
      && r.Obj? && Arranged(before, r.fields) && |r.fields| == |fields|
      && multiset(r.fields) ==
           multiset(seq(|fields|, i requires 0 <= i < |fields| =>
             Pair(fields[i].key, SettlementBody(before, fields[i].value))))
  {
    var nf := SettlementFields(before, fields);
    SortByArranged(before, nf);
    SortByContents(before, nf);
    assert nf ==
      seq(|fields|, i requires 0 <= i < |fields| => Pair(fields[i].key, SettlementBody(before, fields[i].value)));
  }

  /** Sorting the entries of a body, in whatever order, leaves it the same value. */
  lemma {:induction false} SettlementBodySame(before: (Text, Text) -> bool, v: Json)
    requires WellFormed(v)
    ensures WellFormed(SettlementBody(before, v)) && Same(v, SettlementBody(before, v))
  {
    if v.Arr? {
      forall i | 0 <= i < |v.items|
        ensures WellFormed(SettlementBody(before, v.items[i])) && Same(v.items[i], SettlementBody(before, v.items[i]))
      {
        SettlementBodySame(before, v.items[i]);
      }
    } else if v.Obj? {
      var nf := SettlementFields(before, v.fields);
      forall i | 0 <= i < |v.fields| ensures WellFormed(nf[i].value) && Same(v.fields[i].value, nf[i].value) {
        SettlementBodySame(before, v.fields[i].value);
      }
      SortByContents(before, nf);
      var g := SortBy(before, nf);
      ArrangedUnique(nf, g);
      forall j | 0 <= j < |g| ensures WellFormed(g[j].value) {
        assert g[j] in multiset(nf);
      }
      ArrangedSame(v.fields, nf, g);
    }
  }

  // ---------- canonicalBody of the facilitator middleware ----------

  /** The body normalizer that rebuilds arrays and objects entry by entry. */
  method ExpressBody(v: Json) returns (r: Json)
    ensures r == v
    decreases v
  {
    match v {
      case Arr(items) =>
        var output: seq<Json> := [];
        for i := 0 to |items|
          invariant output == items[..i]
        {
          var item := ExpressBody(items[i]);
          output := output + [item];
        }
        assert items[..|items|] == items;
        r := Arr(output);
      case Obj(fields) =>
        var output: seq<Pair<Json>> := [];
        for i := 0 to |fields|
          invariant output == fields[..i]
        {
          var item := ExpressBody(fields[i].value);
          output := output + [Pair(fields[i].key, item)];
        }
        assert fields[..|fields|] == fields;
        r := Obj(output);
      case _ =>
        r := v;
    }
  }

  /** A request hashes alike whichever normalizer its body went through. */
  lemma NormalizersAgree(sha: HashFunction, before: (Text, Text) -> bool, r: Request)
    requires ValidRequest(r) && r.body.Some?
    ensures ResourceHash(sha, r.(body := Some(SettlementBody(before, r.body.value)))) == ResourceHash(sha, r)
  {
    var s := r.(body := Some(SettlementBody(before, r.body.value)));
    SettlementBodySame(before, r.body.value);
    BodyAndQueryWellFormed(r);
    BodyAndQueryWellFormed(s);
    BodyAndQuerySame(r, s);
    CanonicalHashBinds(sha, Obj(BodyAndQuery(r)), Obj(BodyAndQuery(s)));
  }
}
