/** Canonical text is uniquely decodable: two JSON values print alike exactly when they
    are the same value, and the text can be read back. */
module CanonicalText {
  import opened Texts
  import opened StableSort
  import opened Json
  import opened JsonParser

  /** The representative of a value: entries sorted by key at every level, zero unsigned. */
  function Norm(v: Json): Json {
    match v
    case Num(n) => Num(Unsigned(n))
    case Arr(items) => Arr(NormItems(items))
    case Obj(fields) => Obj(Sort(NormFields(fields)))
    case _ => v
  }

  function NormItems(items: seq<Json>): (r: seq<Json>)
    ensures |r| == |items|
    ensures forall i | 0 <= i < |items| :: r[i] == Norm(items[i])
  {
    if items == [] then [] else [Norm(items[0])] + NormItems(items[1..])
  }

  function NormFields(fields: seq<Pair<Json>>): (r: seq<Pair<Json>>)
    ensures |r| == |fields|
    ensures forall i | 0 <= i < |fields| :: r[i] == Pair(fields[i].key, Norm(fields[i].value))
  {
    if fields == [] then []
    else [Pair(fields[0].key, Norm(fields[0].value))] + NormFields(fields[1..])
  }

  // ---------- Canonical text is the plain text of the representative ----------

  lemma {:induction false} PrintFieldsMap(fields: seq<Pair<Json>>)
    ensures PrintFields(fields) == MapValues(Print, fields)
  {
    if fields != [] {
      PrintFieldsMap(fields[1..]);
      assert MapValues(Print, fields)[1..] == MapValues(Print, fields[1..]);
    }
  }

  lemma {:induction false} CanonicalizeNorm(v: Json)
    ensures Canonicalize(v) == Print(Norm(v))
    decreases v, 1
  {
    if v.Arr? {
      CanonicalizeNormItems(v.items);
    } else if v.Obj? {
      CanonicalizeNormFields(v.fields);
      SortMap(Print, NormFields(v.fields));
      PrintFieldsMap(Sort(NormFields(v.fields)));
    }
  }

  lemma {:induction false} CanonicalizeNormItems(items: seq<Json>)
    ensures CanonicalItems(items) == PrintItems(NormItems(items))
    decreases items, 0
  {
    if items != [] {
      CanonicalizeNorm(items[0]);
      CanonicalizeNormItems(items[1..]);
      assert NormItems(items)[1..] == NormItems(items[1..]);
    }
  }

  lemma {:induction false} CanonicalizeNormFields(fields: seq<Pair<Json>>)
    ensures CanonicalFields(fields) == MapValues(Print, NormFields(fields))
    decreases fields, 0
  {
    if fields != [] {
      CanonicalizeNorm(fields[0].value);
      CanonicalizeNormFields(fields[1..]);
      assert MapValues(Print, NormFields(fields))[1..] == MapValues(Print, NormFields(fields[1..]));
    }
  }

  lemma SortOrigin<V>(s: seq<Pair<V>>, j: nat) returns (i: nat)
    requires j < |Sort(s)|
    ensures i < |s| && Sort(s)[j] == s[i]
  {
    SortContents(s);
    assert Sort(s)[j] in multiset(Sort(s));
    i :| 0 <= i < |s| && Sort(s)[j] == s[i];
  }

  lemma {:induction false} NormPrintable(v: Json)
    requires WellFormed(v)
    ensures Printable(Norm(v))
  {
    if v.Arr? {
      forall i | 0 <= i < |v.items| ensures Printable(Norm(v.items[i])) {
        NormPrintable(v.items[i]);
      }
    } else if v.Obj? {
      var nf := NormFields(v.fields);
      forall j | 0 <= j < |Sort(nf)| ensures Printable(Sort(nf)[j].value) {
        var i := SortOrigin(nf, j);
        NormPrintable(v.fields[i].value);
      }
    }
  }

  /** Reading canonical text back in front of any delimited rest gives the representative. */
  lemma ParseCanonical(v: Json, rest: Text)
    requires WellFormed(v) && Delimited(rest)
    ensures Parse(Canonicalize(v) + rest) == Some((Norm(v), rest))
  {
    CanonicalizeNorm(v);
    NormPrintable(v);
    ParsePrint(Norm(v), rest);
  }

  // ---------- Representatives are equal exactly for the same value ----------

  ghost predicate Contained(nf: seq<Pair<Json>>, ng: seq<Pair<Json>>) {
    forall i | 0 <= i < |nf| :: nf[i] in ng
  }

  lemma ContainedValues(nf: seq<Pair<Json>>, ng: seq<Pair<Json>>, i: nat)
    requires UniqueKeys(nf) && UniqueKeys(ng) && Contained(nf, ng) && i < |nf|
    ensures ValuesOf(nf[i].key, nf) == ValuesOf(nf[i].key, ng)
  {
    assert nf[i] in ng;
    var j :| 0 <= j < |ng| && ng[j] == nf[i];
    ValuesUnique(nf, i);
    ValuesUnique(ng, j);
  }

  /** With unique keys, sequences with the same entries sort alike, and conversely. */
  lemma SortByEntries(nf: seq<Pair<Json>>, ng: seq<Pair<Json>>)
    requires UniqueKeys(nf) && UniqueKeys(ng)
    ensures Sort(nf) == Sort(ng) <==> Contained(nf, ng) && Contained(ng, nf)
  {
    if Contained(nf, ng) && Contained(ng, nf) {
      forall k: Text ensures ValuesOf(k, nf) == ValuesOf(k, ng) {
        if i :| 0 <= i < |nf| && nf[i].key == k {
          ContainedValues(nf, ng, i);
        } else {
          ValuesMissing(k, nf);
          ValuesMissing(k, ng);
        }
      }
      SortKernel(nf, ng);
    }
    if Sort(nf) == Sort(ng) {
      SortContents(nf);
      SortContents(ng);
      forall i | 0 <= i < |nf| ensures nf[i] in ng { assert nf[i] in multiset(ng); }
      forall j | 0 <= j < |ng| ensures ng[j] in nf { assert ng[j] in multiset(nf); }
    }
  }

  lemma {:induction false} NormSame(v: Json, w: Json)
    requires WellFormed(v) && WellFormed(w)
    ensures Norm(v) == Norm(w) <==> Same(v, w)
    decreases v, 2
  {
    if v.Arr? && w.Arr? {
      NormSameItems(v.items, w.items);
    } else if v.Obj? && w.Obj? {
      NormSameFields(v.fields, w.fields);
    }
  }

  lemma {:induction false} NormSameItems(xs: seq<Json>, ys: seq<Json>)
    requires WellFormed(Arr(xs)) && WellFormed(Arr(ys))
    ensures NormItems(xs) == NormItems(ys) <==> Same(Arr(xs), Arr(ys))
    decreases xs
  {
    if |xs| == |ys| {
      forall i | 0 <= i < |xs| ensures Norm(xs[i]) == Norm(ys[i]) <==> Same(xs[i], ys[i]) {
        NormSame(xs[i], ys[i]);
      }
      if Same(Arr(xs), Arr(ys)) {
        assert NormItems(xs) == NormItems(ys);
      } else {
        var i :| 0 <= i < |xs| && !Same(xs[i], ys[i]);
        assert NormItems(xs)[i] != NormItems(ys)[i];
      }
    }
  }

  lemma {:induction false} NormSameFields(f: seq<Pair<Json>>, g: seq<Pair<Json>>)
    requires WellFormed(Obj(f)) && WellFormed(Obj(g))
    ensures Sort(NormFields(f)) == Sort(NormFields(g)) <==> Same(Obj(f), Obj(g))
    decreases f, 1
  {
    forall i | 0 <= i < |f| ensures NormFields(f)[i] in NormFields(g) <==> Has(g, f[i]) {
      NormHas(f, i, g);
    }
    forall j | 0 <= j < |g| ensures NormFields(g)[j] in NormFields(f) <==> HasFor(f, g[j]) {
      NormHasFor(f, g, j);
    }
    ContainedHas(f, g, NormFields(f), NormFields(g));
    ContainedHasFor(f, g, NormFields(f), NormFields(g));
    SameByEntries(f, g);
  }

  ghost predicate AllHave(g: seq<Pair<Json>>, f: seq<Pair<Json>>) { forall i | 0 <= i < |f| :: Has(g, f[i]) }

  ghost predicate AllHaveFor(f: seq<Pair<Json>>, g: seq<Pair<Json>>) { forall j | 0 <= j < |g| :: HasFor(f, g[j]) }

  lemma SameObjects(f: seq<Pair<Json>>, g: seq<Pair<Json>>)
    ensures Same(Obj(f), Obj(g)) <==> AllHave(g, f) && AllHaveFor(f, g)
  {}

  lemma NormUnique(f: seq<Pair<Json>>)
    requires WellFormed(Obj(f))
    ensures UniqueKeys(NormFields(f))
  {}

  lemma SameByEntries(f: seq<Pair<Json>>, g: seq<Pair<Json>>)
    requires WellFormed(Obj(f)) && WellFormed(Obj(g))
    requires Contained(NormFields(f), NormFields(g)) <==> AllHave(g, f)
    requires Contained(NormFields(g), NormFields(f)) <==> AllHaveFor(f, g)
    ensures Sort(NormFields(f)) == Sort(NormFields(g)) <==> Same(Obj(f), Obj(g))
  {
    NormUnique(f);
    NormUnique(g);
    SortByEntries(NormFields(f), NormFields(g));
    SameObjects(f, g);
  }

  lemma ContainedHas(f: seq<Pair<Json>>, g: seq<Pair<Json>>, nf: seq<Pair<Json>>, ng: seq<Pair<Json>>)
    requires |nf| == |f| && forall i | 0 <= i < |f| :: nf[i] in ng <==> Has(g, f[i])
    ensures Contained(nf, ng) <==> AllHave(g, f)
  {
    if !Contained(nf, ng) {
      var i :| 0 <= i < |nf| && nf[i] !in ng;
      assert !Has(g, f[i]);
    }
  }

  lemma ContainedHasFor(f: seq<Pair<Json>>, g: seq<Pair<Json>>, nf: seq<Pair<Json>>, ng: seq<Pair<Json>>)
    requires |ng| == |g| && forall j | 0 <= j < |g| :: ng[j] in nf <==> HasFor(f, g[j])
    ensures Contained(ng, nf) <==> AllHaveFor(f, g)
  {
    if !Contained(ng, nf) {
      var j :| 0 <= j < |ng| && ng[j] !in nf;
      assert !HasFor(f, g[j]);
    }
  }

  lemma {:induction false} NormHas(f: seq<Pair<Json>>, i: nat, g: seq<Pair<Json>>)
    requires WellFormed(Obj(f)) && WellFormed(Obj(g)) && i < |f|
    ensures NormFields(f)[i] in NormFields(g) <==> Has(g, f[i])
    decreases f, 0
  {
    forall j | 0 <= j < |g|
      ensures NormFields(f)[i] == NormFields(g)[j] <==> g[j].key == f[i].key && Same(f[i].value, g[j].value)
    {
      NormSame(f[i].value, g[j].value);
    }
  }

  lemma {:induction false} NormHasFor(f: seq<Pair<Json>>, g: seq<Pair<Json>>, j: nat)
    requires WellFormed(Obj(f)) && WellFormed(Obj(g)) && j < |g|
    ensures NormFields(g)[j] in NormFields(f) <==> HasFor(f, g[j])
    decreases f, 0
  {
    forall i | 0 <= i < |f|
      ensures NormFields(g)[j] == NormFields(f)[i] <==> f[i].key == g[j].key && Same(f[i].value, g[j].value)
    {
      NormSame(f[i].value, g[j].value);
    }
  }

  // ---------- The main results ----------

  /** Two values have the same canonical text exactly when they are the same value. */
  lemma UniquelyDecodable(v: Json, w: Json)
    requires WellFormed(v) && WellFormed(w)
    ensures Canonicalize(v) == Canonicalize(w) <==> Same(v, w)
  {
    NormSame(v, w);
    CanonicalizeNorm(v);
    CanonicalizeNorm(w);
    ParseCanonical(v, []);
    ParseCanonical(w, []);
    assert Canonicalize(v) + [] == Canonicalize(v);
    assert Canonicalize(w) + [] == Canonicalize(w);
  }

  /** No canonical text in front of a delimiter is a proper prefix of another one. */
  lemma PrefixFree(v: Json, restV: Text, w: Json, restW: Text)
    requires WellFormed(v) && WellFormed(w) && Delimited(restV) && Delimited(restW)
    requires Canonicalize(v) + restV == Canonicalize(w) + restW
    ensures Same(v, w) && restV == restW
  {
    ParseCanonical(v, restV);
    ParseCanonical(w, restW);
    NormSame(v, w);
  }
}
