/** Keyed sequences, the stable sort by key that object printing and query
    canonicalization share, and the exact kernel of that sort. */
module StableSort {
  import opened Texts

  datatype Pair<+V> = Pair(key: Text, value: V)

  predicate Sorted<V>(s: seq<Pair<V>>) {
    forall i, j | 0 <= i < j < |s| :: !Less(s[j].key, s[i].key)
  }

  predicate UniqueKeys<V>(s: seq<Pair<V>>) {
    forall i, j | 0 <= i < j < |s| :: s[i].key != s[j].key
  }

  /** Places p in front of the first pair whose key is not smaller. */
  function Insert<V>(p: Pair<V>, s: seq<Pair<V>>): (r: seq<Pair<V>>)
    ensures |r| == |s| + 1
  {
    if s == [] || !Less(s[0].key, p.key) then [p] + s else [s[0]] + Insert(p, s[1..])
  }

  /** Sorts by key; pairs with equal keys stay in the order they came in. */
  function Sort<V>(s: seq<Pair<V>>): (r: seq<Pair<V>>)
    ensures |r| == |s|
  {
    if s == [] then [] else Insert(s[0], Sort(s[1..]))
  }

  /** The values filed under one key, in order. */
  function ValuesOf<V>(k: Text, s: seq<Pair<V>>): seq<V> {
    if s == [] then []
    else (if s[0].key == k then [s[0].value] else []) + ValuesOf(k, s[1..])
  }

  ghost predicate SameValues<V>(s: seq<Pair<V>>, t: seq<Pair<V>>) {
    forall k: Text :: ValuesOf(k, s) == ValuesOf(k, t)
  }

  lemma {:induction false} InsertContents<V>(p: Pair<V>, s: seq<Pair<V>>)
    ensures multiset(Insert(p, s)) == multiset{p} + multiset(s)
  {
    if s != [] && Less(s[0].key, p.key) {
      InsertContents(p, s[1..]);
      assert s == [s[0]] + s[1..];
    }
  }

  lemma {:induction false} SortContents<V>(s: seq<Pair<V>>)
    ensures multiset(Sort(s)) == multiset(s)
  {
    if s != [] {
      SortContents(s[1..]);
      InsertContents(s[0], Sort(s[1..]));
      assert s == [s[0]] + s[1..];
    }
  }

  lemma {:induction false} InsertSorted<V>(p: Pair<V>, s: seq<Pair<V>>)
    requires Sorted(s)
    ensures Sorted(Insert(p, s))
  {
    if s == [] {
    } else if Less(s[0].key, p.key) {
      InsertSorted(p, s[1..]);
      var r := Insert(p, s[1..]);
      InsertContents(p, s[1..]);
      forall j | 0 <= j < |r| ensures !Less(r[j].key, s[0].key) {
        assert r[j] in multiset(r);
        if r[j] == p {
          if Less(p.key, s[0].key) {
            LessTransitive(s[0].key, p.key, s[0].key);
            LessIrreflexive(s[0].key);
          }
        } else {
          assert r[j] in s[1..];
        }
      }
    } else {
      forall j | 0 <= j < |s| ensures !Less(s[j].key, p.key) {
        if Less(s[j].key, p.key) {
          LessTotal(s[0].key, p.key);
          if s[0].key != p.key {
            LessTransitive(s[j].key, p.key, s[0].key);
          }
          LessIrreflexive(s[0].key);
        }
      }
    }
  }

  lemma {:induction false} SortSorted<V>(s: seq<Pair<V>>)
    ensures Sorted(Sort(s))
  {
    if s != [] {
      SortSorted(s[1..]);
      InsertSorted(s[0], Sort(s[1..]));
    }
  }

  lemma {:induction false} InsertValues<V>(k: Text, p: Pair<V>, s: seq<Pair<V>>)
    ensures ValuesOf(k, Insert(p, s)) == (if p.key == k then [p.value] else []) + ValuesOf(k, s)
  {
    if s != [] && Less(s[0].key, p.key) {
      LessIrreflexive(p.key);
      InsertValues(k, p, s[1..]);
      assert Insert(p, s)[1..] == Insert(p, s[1..]);
    } else {
      assert Insert(p, s)[1..] == s;
    }
  }

  /** Sorting moves no value from one key to another and keeps the order within a key. */
  lemma {:induction false} SortValues<V>(k: Text, s: seq<Pair<V>>)
    ensures ValuesOf(k, Sort(s)) == ValuesOf(k, s)
  {
    if s != [] {
      SortValues(k, s[1..]);
      InsertValues(k, s[0], Sort(s[1..]));
    }
  }

  lemma {:induction false} ValuesMissing<V>(k: Text, s: seq<Pair<V>>)
    requires forall i | 0 <= i < |s| :: s[i].key != k
    ensures ValuesOf(k, s) == []
  {
    if s != [] {
      ValuesMissing(k, s[1..]);
    }
  }

  lemma HeadNotAfter<V>(s: seq<Pair<V>>, t: seq<Pair<V>>)
    requires Sorted(s) && Sorted(t) && SameValues(s, t)
    requires s != [] && t != []
    ensures !Less(s[0].key, t[0].key)
  {
    if Less(s[0].key, t[0].key) {
      assert ValuesOf(s[0].key, s) == ValuesOf(s[0].key, t);
      LessIrreflexive(s[0].key);
      ValuesMissing(s[0].key, t);
    }
  }

  lemma EmptyAgree<V>(s: seq<Pair<V>>, t: seq<Pair<V>>)
    requires SameValues(s, t)
    ensures s == [] <==> t == []
  {
    var k := if s != [] then s[0].key else if t != [] then t[0].key else [];
    assert ValuesOf(k, s) == ValuesOf(k, t);
  }

  lemma HeadsAgree<V>(s: seq<Pair<V>>, t: seq<Pair<V>>)
    requires Sorted(s) && Sorted(t) && SameValues(s, t)
    requires s != [] && t != []
    ensures s[0] == t[0]
  {
    HeadNotAfter(s, t);
    HeadNotAfter(t, s);
    LessTotal(s[0].key, t[0].key);
    assert ValuesOf(s[0].key, s)[0] == ValuesOf(s[0].key, t)[0];
  }

  lemma TailsAgree<V>(s: seq<Pair<V>>, t: seq<Pair<V>>)
    requires SameValues(s, t)
    requires s != [] && t != [] && s[0] == t[0]
    ensures SameValues(s[1..], t[1..])
  {
    forall k: Text ensures ValuesOf(k, s[1..]) == ValuesOf(k, t[1..]) {
      assert ValuesOf(k, s) == ValuesOf(k, t);
      var n := if s[0].key == k then 1 else 0;
      assert ValuesOf(k, s)[n..] == ValuesOf(k, t)[n..];
    }
  }

  /** A sorted sequence is determined by the values filed under each key. */
  lemma {:induction false} SortedDetermined<V>(s: seq<Pair<V>>, t: seq<Pair<V>>)
    requires Sorted(s) && Sorted(t) && SameValues(s, t)
    ensures s == t
  {
    EmptyAgree(s, t);
    if s != [] {
      HeadsAgree(s, t);
      TailsAgree(s, t);
      SortedDetermined(s[1..], t[1..]);
      assert s == [s[0]] + s[1..];
      assert t == [t[0]] + t[1..];
    }
  }

  /** The kernel of the stable sort: two sequences sort alike exactly when every key
      carries the same values in the same order. */
  lemma SortKernel<V>(s: seq<Pair<V>>, t: seq<Pair<V>>)
    ensures Sort(s) == Sort(t) <==> SameValues(s, t)
  {
    forall k: Text
      ensures ValuesOf(k, Sort(s)) == ValuesOf(k, s) && ValuesOf(k, Sort(t)) == ValuesOf(k, t)
    {
      SortValues(k, s);
      SortValues(k, t);
    }
    if SameValues(s, t) {
      SortSorted(s);
      SortSorted(t);
      assert SameValues(Sort(s), Sort(t));
      SortedDetermined(Sort(s), Sort(t));
    } else {
      var k: Text :| ValuesOf(k, s) != ValuesOf(k, t);
      assert ValuesOf(k, Sort(s)) != ValuesOf(k, Sort(t));
    }
  }

  lemma SortFixedPoint<V>(s: seq<Pair<V>>)
    requires Sorted(s)
    ensures Sort(s) == s
  {
    SortSorted(s);
    forall k: Text ensures ValuesOf(k, Sort(s)) == ValuesOf(k, s) {
      SortValues(k, s);
    }
    SortedDetermined(Sort(s), s);
  }

  function MapValues<V, W>(f: V -> W, s: seq<Pair<V>>): (r: seq<Pair<W>>)
    ensures |r| == |s|
    ensures forall i | 0 <= i < |s| :: r[i] == Pair(s[i].key, f(s[i].value))
  {
    seq(|s|, i requires 0 <= i < |s| => Pair(s[i].key, f(s[i].value)))
  }

  lemma {:induction false} InsertMap<V, W>(f: V -> W, p: Pair<V>, s: seq<Pair<V>>)
    ensures MapValues(f, Insert(p, s)) == Insert(Pair(p.key, f(p.value)), MapValues(f, s))
  {
    if s != [] && Less(s[0].key, p.key) {
      InsertMap(f, p, s[1..]);
      assert MapValues(f, s)[1..] == MapValues(f, s[1..]);
    }
  }

  /** Sorting commutes with a change of values. */
  lemma {:induction false} SortMap<V, W>(f: V -> W, s: seq<Pair<V>>)
    ensures MapValues(f, Sort(s)) == Sort(MapValues(f, s))
  {
    if s != [] {
      SortMap(f, s[1..]);
      InsertMap(f, s[0], Sort(s[1..]));
      assert MapValues(f, s)[1..] == MapValues(f, s[1..]);
    }
  }

  /** With unique keys a key files at most the one value found at its index. */
  lemma {:induction false} ValuesUnique<V>(s: seq<Pair<V>>, i: nat)
    requires UniqueKeys(s) && i < |s|
    ensures ValuesOf(s[i].key, s) == [s[i].value]
  {
    if i == 0 {
      ValuesMissing(s[0].key, s[1..]);
    } else {
      ValuesUnique(s[1..], i - 1);
    }
  }

  lemma SortKeepsUnique<V>(s: seq<Pair<V>>)
    requires UniqueKeys(s)
    ensures UniqueKeys(Sort(s))
  {
    var r := Sort(s);
    forall i, j | 0 <= i < j < |r| ensures r[i].key != r[j].key {
      if r[i].key == r[j].key {
        SortContents(s);
        assert r[i] in multiset(r);
        var m :| 0 <= m < |s| && s[m] == r[i];
        ValuesUnique(s, m);
        SortValues(r[i].key, s);
        TwoValues(r, i, j);
      }
    }
  }

  lemma {:induction false} TwoValues<V>(s: seq<Pair<V>>, i: nat, j: nat)
    requires i < j < |s| && s[i].key == s[j].key
    ensures |ValuesOf(s[i].key, s)| >= 2
  {
    if i == 0 {
      SomeValue(s[1..], j - 1);
    } else {
      TwoValues(s[1..], i - 1, j - 1);
    }
  }

  lemma {:induction false} SomeValue<V>(s: seq<Pair<V>>, i: nat)
    requires i < |s|
    ensures s[i].value in ValuesOf(s[i].key, s)
  {
    if i > 0 {
      SomeValue(s[1..], i - 1);
    }
  }
}
