/** The pruned once-only nonce set, against the full history that it forgets parts of. */
module NonceStore {
  import opened Texts

  /** What is left of the map after its prune loop. */
  function Pruned(m: map<Text, int>, now: int): map<Text, int> { map n | n in m && m[n] > now :: m[n] }

  datatype Request = Request(nonce: Text, expiresAt: int, now: int)

  function TryConsume(m: map<Text, int>, r: Request): (map<Text, int>, bool) {
    var live := Pruned(m, r.now);
    if r.nonce in live then (live, false) else (live[r.nonce := r.expiresAt], true)
  }

  class InMemoryNonceStore {
    var consumed: map<Text, int>

    constructor ()
      ensures consumed == map[]
    {
      consumed := map[];
    }

    method Consume(nonce: Text, expiresAt: int, now: int) returns (ok: bool)
      modifies this
      ensures (consumed, ok) == TryConsume(old(consumed), Request(nonce, expiresAt, now))
    {
      consumed := DeleteExpired(consumed, now);
      if nonce in consumed {
        return false;
      }
      consumed := consumed[nonce := expiresAt];
      return true;
    }
  }

  /** The prune loop: visits the keys in any order and deletes the expired ones. */
  method DeleteExpired(m: map<Text, int>, now: int) returns (r: map<Text, int>)
    ensures r == Pruned(m, now)
    ensures forall n | n in m :: n in r <==> m[n] > now
  {
    r := m;
    var rest := m.Keys;
    while rest != {}
      invariant rest <= m.Keys
      invariant r.Keys <= m.Keys && forall n | n in r :: r[n] == m[n]
      invariant forall n | n in m :: n in r <==> n in rest || m[n] > now
    {
      var key :| key in rest;
      rest := rest - {key};
      if m[key] <= now {
        r := r - {key};
      }
    }
  }

  // ---------- The history ----------

  /** An accepted use. */
  datatype Use = Use(nonce: Text, expiresAt: int)

  /** Some recorded use of the nonce has not expired. */
  ghost predicate Live(history: seq<Use>, nonce: Text, now: int) {
    exists i | 0 <= i < |history| :: history[i].nonce == nonce && history[i].expiresAt > now
  }

  /** The map holds every use that is live at `clock`, and nothing that was never used. */
  ghost predicate Represents(m: map<Text, int>, history: seq<Use>, clock: int) {
    && (forall i | 0 <= i < |history| && history[i].expiresAt > clock ::
          history[i].nonce in m && m[history[i].nonce] == history[i].expiresAt)
    && (forall n | n in m :: Used(history, n, m[n]))
  }

  ghost predicate Used(history: seq<Use>, nonce: Text, expiresAt: int) {
    exists i | 0 <= i < |history| :: history[i] == Use(nonce, expiresAt)
  }

  lemma PrunedExact(m: map<Text, int>, history: seq<Use>, clock: int, nonce: Text, now: int)
    requires Represents(m, history, clock) && clock <= now
    ensures nonce in Pruned(m, now) <==> Live(history, nonce, now)
    ensures Represents(Pruned(m, now), history, now)
  {
    if nonce in Pruned(m, now) {
      assert Used(history, nonce, m[nonce]);
    }
  }

  lemma UsedAppend(history: seq<Use>, u: Use, nonce: Text, expiresAt: int)
    requires Used(history, nonce, expiresAt)
    ensures Used(history + [u], nonce, expiresAt)
  {
    var i :| 0 <= i < |history| && history[i] == Use(nonce, expiresAt);
    assert (history + [u])[i] == Use(nonce, expiresAt);
  }

  /** Recording a use that was accepted keeps the correspondence. */
  lemma AcceptedRepresents(m: map<Text, int>, history: seq<Use>, clock: int, u: Use)
    requires Represents(m, history, clock) && u.nonce !in m
    ensures Represents(m[u.nonce := u.expiresAt], history + [u], clock)
  {
    var m', history' := m[u.nonce := u.expiresAt], history + [u];
    assert history'[|history|] == u;
    forall n | n in m' ensures Used(history', n, m'[n]) {
      if n != u.nonce {
        UsedAppend(history, u, n, m[n]);
      }
    }
  }

  // ---------- Runs ----------

  predicate Ordered(clock: int, rs: seq<Request>)
    decreases |rs|
  {
    rs == [] || (clock <= rs[0].now && Ordered(rs[0].now, rs[1..]))
  }

  function Answers(m: map<Text, int>, rs: seq<Request>): seq<bool>
    decreases |rs|
  {
    if rs == [] then []
    else
      var (m', ok) := TryConsume(m, rs[0]);
      [ok] + Answers(m', rs[1..])
  }

  /** The answers of a store that forgets nothing. */
  ghost function HistoryAnswers(history: seq<Use>, rs: seq<Request>): seq<bool>
    decreases |rs|
  {
    if rs == [] then []
    else
      var ok := !Live(history, rs[0].nonce, rs[0].now);
      [ok] + HistoryAnswers(if ok then history + [Use(rs[0].nonce, rs[0].expiresAt)] else history, rs[1..])
  }

  /** With a clock that never goes back, pruning is invisible. */
  lemma {:induction false} PruningInvisible(m: map<Text, int>, history: seq<Use>, clock: int, rs: seq<Request>)
    requires Represents(m, history, clock) && Ordered(clock, rs)
    ensures Answers(m, rs) == HistoryAnswers(history, rs)
    decreases |rs|
  {
    if rs != [] {
      var r := rs[0];
      PrunedExact(m, history, clock, r.nonce, r.now);
      if !Live(history, r.nonce, r.now) {
        AcceptedRepresents(Pruned(m, r.now), history, r.now, Use(r.nonce, r.expiresAt));
        PruningInvisible(TryConsume(m, r).0, history + [Use(r.nonce, r.expiresAt)], r.now, rs[1..]);
      } else {
        PruningInvisible(TryConsume(m, r).0, history, r.now, rs[1..]);
      }
    }
  }

  // ---------- Any clock ----------

  /** A use in the history, and whether a later request came at or after its expiry, so that the
      prune of that request dropped it. */
  datatype Recorded = Recorded(use: Use, forgotten: bool)

  function UsesOf(h: seq<Recorded>): (history: seq<Use>)
    ensures |history| == |h| && forall i | 0 <= i < |h| :: history[i] == h[i].use
  {
    seq(|h|, i requires 0 <= i < |h| => h[i].use)
  }

  function Swept(h: seq<Recorded>, now: int): (r: seq<Recorded>)
    ensures |r| == |h|
    ensures forall i | 0 <= i < |h| :: r[i] == Recorded(h[i].use, h[i].forgotten || h[i].use.expiresAt <= now)
  {
    seq(|h|, i requires 0 <= i < |h| => Recorded(h[i].use, h[i].forgotten || h[i].use.expiresAt <= now))
  }

  /** Some live use of the nonce has not been forgotten. */
  ghost predicate Remembered(h: seq<Recorded>, nonce: Text, now: int) {
    exists i | 0 <= i < |h| :: !h[i].forgotten && h[i].use.nonce == nonce && h[i].use.expiresAt > now
  }

  /** The history after a request that is answered by the full history. */
  ghost function After(h: seq<Recorded>, r: Request): seq<Recorded> {
    Swept(h, r.now) + if Live(UsesOf(h), r.nonce, r.now) then [] else [Recorded(Use(r.nonce, r.expiresAt), false)]
  }

  /** No request falls into a gap: whenever a live use of its nonce is recorded, one that has not
      been forgotten is. */
  ghost predicate Safe(h: seq<Recorded>, rs: seq<Request>)
    decreases |rs|
  {
    rs == [] ||
    ((Live(UsesOf(h), rs[0].nonce, rs[0].now) ==> Remembered(h, rs[0].nonce, rs[0].now))
     && Safe(After(h, rs[0]), rs[1..]))
  }

  /** The map holds exactly the uses that have not been forgotten. */
  ghost predicate Holds(m: map<Text, int>, h: seq<Recorded>) {
    && (forall i | 0 <= i < |h| && !h[i].forgotten ::
          h[i].use.nonce in m && m[h[i].use.nonce] == h[i].use.expiresAt)
    && (forall n | n in m :: Kept(h, n, m[n]))
  }

  ghost predicate Kept(h: seq<Recorded>, nonce: Text, expiresAt: int) {
    exists i | 0 <= i < |h| :: h[i] == Recorded(Use(nonce, expiresAt), false)
  }

  lemma PruneHolds(m: map<Text, int>, h: seq<Recorded>, nonce: Text, now: int)
    requires Holds(m, h)
    ensures Holds(Pruned(m, now), Swept(h, now))
    ensures nonce in Pruned(m, now) <==> Remembered(h, nonce, now)
  {
    forall n | n in Pruned(m, now) ensures Kept(Swept(h, now), n, m[n]) && Remembered(h, n, now) {
      assert Kept(h, n, m[n]);
      var i :| 0 <= i < |h| && h[i] == Recorded(Use(n, m[n]), false);
      assert Swept(h, now)[i] == Recorded(Use(n, m[n]), false);
    }
  }

  lemma AcceptHolds(m: map<Text, int>, h: seq<Recorded>, u: Use)
    requires Holds(m, h) && u.nonce !in m
    ensures Holds(m[u.nonce := u.expiresAt], h + [Recorded(u, false)])
  {
    var m', h' := m[u.nonce := u.expiresAt], h + [Recorded(u, false)];
    assert h'[|h|] == Recorded(u, false);
    forall n | n in m' ensures Kept(h', n, m'[n]) {
      if n != u.nonce {
        assert Kept(h, n, m[n]);
        var i :| 0 <= i < |h| && h[i] == Recorded(Use(n, m[n]), false);
        assert h'[i] == h[i];
      }
    }
  }

  lemma RememberedLive(h: seq<Recorded>, nonce: Text, now: int)
    ensures Remembered(h, nonce, now) ==> Live(UsesOf(h), nonce, now)
  {
    if i :| 0 <= i < |h| && !h[i].forgotten && h[i].use.nonce == nonce && h[i].use.expiresAt > now {
      assert UsesOf(h)[i].nonce == nonce && UsesOf(h)[i].expiresAt > now;
    }
  }

  lemma AfterUses(h: seq<Recorded>, r: Request)
    ensures UsesOf(After(h, r)) ==
      if Live(UsesOf(h), r.nonce, r.now) then UsesOf(h) else UsesOf(h) + [Use(r.nonce, r.expiresAt)]
  {}

  /** For every clock, forward or backward: the pruned map answers as the full history would if
      and only if no request falls into a gap. */
  lemma {:induction false} PruningInvisibleExactly(m: map<Text, int>, h: seq<Recorded>, rs: seq<Request>)
    requires Holds(m, h)
    ensures Answers(m, rs) == HistoryAnswers(UsesOf(h), rs) <==> Safe(h, rs)
    decreases |rs|
  {
    if rs != [] {
      var r := rs[0];
      PruneHolds(m, h, r.nonce, r.now);
      RememberedLive(h, r.nonce, r.now);
      AfterUses(h, r);
      if Live(UsesOf(h), r.nonce, r.now) <==> Remembered(h, r.nonce, r.now) {
        if !Live(UsesOf(h), r.nonce, r.now) {
          AcceptHolds(Pruned(m, r.now), Swept(h, r.now), Use(r.nonce, r.expiresAt));
        } else {
          assert Swept(h, r.now) + [] == Swept(h, r.now);
        }
        var next := TryConsume(m, r).0;
        PruningInvisibleExactly(next, After(h, r), rs[1..]);
        SameHead(!Live(UsesOf(h), r.nonce, r.now), Answers(next, rs[1..]),
                 HistoryAnswers(UsesOf(After(h, r)), rs[1..]));
      } else {
        assert Answers(m, rs)[0] != HistoryAnswers(UsesOf(h), rs)[0];
      }
    }
  }

  lemma SameHead(b: bool, s: seq<bool>, t: seq<bool>)
    ensures [b] + s == [b] + t <==> s == t
  {
    assert ([b] + s)[1..] == s && ([b] + t)[1..] == t;
  }

  lemma NothingHeld()
    ensures Holds(map[], []) && UsesOf([]) == []
  {}

  /** From the empty store. */
  lemma FreshStoreExact(rs: seq<Request>)
    ensures Answers(map[], rs) == HistoryAnswers([], rs) <==> Safe([], rs)
  {
    NothingHeld();
    PruningInvisibleExactly(map[], [], rs);
  }

  /** A clock that never goes back leaves no gaps. */
  lemma {:induction false} OrderedSafe(h: seq<Recorded>, clock: int, rs: seq<Request>)
    requires Ordered(clock, rs)
    requires forall i | 0 <= i < |h| && h[i].forgotten :: h[i].use.expiresAt <= clock
    ensures Safe(h, rs)
    decreases |rs|
  {
    if rs != [] {
      var r := rs[0];
      if i :| 0 <= i < |UsesOf(h)| && UsesOf(h)[i].nonce == r.nonce && UsesOf(h)[i].expiresAt > r.now {
        assert !h[i].forgotten && h[i].use.nonce == r.nonce && h[i].use.expiresAt > r.now;
      }
      OrderedSafe(After(h, r), r.now, rs[1..]);
    }
  }

  /** A forgotten live use alone is no gap: the later use of the nonce, still in the map, refuses
      the request as the full history does. */
  lemma LaterUseStands(a: Text, b: Text)
    requires a != b
    ensures var rs := [Request(a, 20, 10), Request(b, 40, 30), Request(a, 50, 35), Request(a, 60, 10)];
      && Answers(map[], rs) == HistoryAnswers([], rs)
      && Live([Use(a, 20), Use(b, 40), Use(a, 50)], a, 10)
      && rs[0].expiresAt > rs[3].now && rs[0].expiresAt <= rs[1].now
  {
    LaterUseSafe(a, b);
    FreshStoreExact([Request(a, 20, 10), Request(b, 40, 30), Request(a, 50, 35), Request(a, 60, 10)]);
    assert [Use(a, 20), Use(b, 40), Use(a, 50)][0].nonce == a;
  }

  lemma SafeStep(h: seq<Recorded>, r: Request, rest: seq<Request>, h': seq<Recorded>)
    requires Live(UsesOf(h), r.nonce, r.now) ==> Remembered(h, r.nonce, r.now)
    requires After(h, r) == h' && Safe(h', rest)
    ensures Safe(h, [r] + rest)
  {
    assert ([r] + rest)[1..] == rest;
  }

  lemma LaterUseSafe(a: Text, b: Text)
    requires a != b
    ensures Safe([], [Request(a, 20, 10), Request(b, 40, 30), Request(a, 50, 35), Request(a, 60, 10)])
  {
    var r1, r2, r3, r4 := Request(a, 20, 10), Request(b, 40, 30), Request(a, 50, 35), Request(a, 60, 10);
    var h0: seq<Recorded> := [];
    var h1 := [Recorded(Use(a, 20), false)];
    var h2 := [Recorded(Use(a, 20), true), Recorded(Use(b, 40), false)];
    var h3 := [Recorded(Use(a, 20), true), Recorded(Use(b, 40), false), Recorded(Use(a, 50), false)];
    assert !h3[2].forgotten && Remembered(h3, a, 10);
    SafeStep(h3, r4, [], After(h3, r4));
    assert !Live(UsesOf(h2), a, 35) && After(h2, r3) == h3;
    SafeStep(h2, r3, [r4], h3);
    assert !Live(UsesOf(h1), b, 30) && After(h1, r2) == h2;
    SafeStep(h1, r2, [r3, r4], h2);
    assert !Live(UsesOf(h0), a, 10) && After(h0, r1) == h1;
    SafeStep(h0, r1, [r2, r3, r4], h1);
    assert [r4] + [] == [r4] && [r3] + [r4] == [r3, r4] && [r2] + [r3, r4] == [r2, r3, r4];
    assert [r1] + [r2, r3, r4] == [r1, r2, r3, r4];
  }

  /** A gap: the clock goes back past a prune, and a nonce that is live then is accepted again. */
  lemma ClockGoingBack(a: Text, b: Text)
    requires a != b
    ensures Answers(map[], [Request(a, 20, 10), Request(b, 40, 30), Request(a, 20, 10)]) == [true, true, true]
    ensures HistoryAnswers([], [Request(a, 20, 10), Request(b, 40, 30), Request(a, 20, 10)]) == [true, true, false]
  {
    var r1, r2 := Request(a, 20, 10), Request(b, 40, 30);
    assert [r1, r2, r1][1..] == [r2, r1] && [r2, r1][1..] == [r1] && [r1][1..] == [];
    var m0: map<Text, int> := map[];
    var m1, m2 := TryConsume(m0, r1).0, TryConsume(TryConsume(m0, r1).0, r2).0;
    assert m1 == map[a := 20];
    assert Pruned(m1, 30) == map[] && m2 == map[b := 40];
    assert Answers(m2, [r1]) == [true] + Answers(TryConsume(m2, r1).0, []);
    assert Answers(m1, [r2, r1]) == [true, true];
    var h1, h2 := [Use(a, 20)], [Use(a, 20), Use(b, 40)];
    assert h2[0].nonce == a && Live(h2, a, 10);
    assert HistoryAnswers(h2, [r1]) == [false] + HistoryAnswers(h2, []);
    assert !Live(h1, b, 30) && h1 + [Use(b, 40)] == h2;
    assert HistoryAnswers(h1, [r2, r1]) == [true, false];
    assert !Live([], a, 10) && [] + [Use(a, 20)] == h1;
  }
}
