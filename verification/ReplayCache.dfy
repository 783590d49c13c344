/** The replay cache of the agent bridge: reservations in flight and committed authorizations. */
module ReplayCache {
  import opened Texts

  datatype CacheEntry = CacheEntry(invoiceHash: Text, nonce: Text, expiresAt: int)

  datatype Cache = Cache(
    inFlightInvoices: set<Text>, inFlightNonces: set<Text>,
    committedInvoices: map<Text, CacheEntry>, committedNonces: map<Text, CacheEntry>)

  const EMPTY: Cache := Cache({}, {}, map[], map[])

  datatype CacheError = ConcurrentConflict | DuplicateInvoice | NonceReuse

  // ---------- What the operations compute ----------

  function Unexpired(m: map<Text, CacheEntry>, now: int): map<Text, CacheEntry> {
    map k | k in m && m[k].expiresAt > now :: m[k]
  }

  function Prune(c: Cache, now: int): Cache {
    c.(committedInvoices := Unexpired(c.committedInvoices, now), committedNonces := Unexpired(c.committedNonces, now))
  }

  function Reserve(c: Cache, invoiceHash: Text, nonce: Text, now: int): (Cache, Result<(), CacheError>) {
    var p := Prune(c, now);
    if invoiceHash in p.inFlightInvoices || nonce in p.inFlightNonces then (p, Err(ConcurrentConflict))
    else if invoiceHash in p.committedInvoices then (p, Err(DuplicateInvoice))
    else if nonce in p.committedNonces then (p, Err(NonceReuse))
    else
      (p.(inFlightInvoices := p.inFlightInvoices + {invoiceHash}, inFlightNonces := p.inFlightNonces + {nonce}), Ok(()))
  }

  function Rollback(c: Cache, invoiceHash: Text, nonce: Text): Cache {
    c.(inFlightInvoices := c.inFlightInvoices - {invoiceHash}, inFlightNonces := c.inFlightNonces - {nonce})
  }

  function Commit(c: Cache, invoiceHash: Text, nonce: Text, expiresAt: int): Cache {
    var entry := CacheEntry(invoiceHash, nonce, expiresAt);
    Rollback(c, invoiceHash, nonce).(
      committedInvoices := c.committedInvoices[invoiceHash := entry],
      committedNonces := c.committedNonces[nonce := entry])
  }

  /** A second rollback of the same reservation does nothing. */
  lemma RollbackTwice(c: Cache, invoiceHash: Text, nonce: Text)
    ensures Rollback(Rollback(c, invoiceHash, nonce), invoiceHash, nonce) == Rollback(c, invoiceHash, nonce)
  {
    assert c.inFlightInvoices - {invoiceHash} - {invoiceHash} == c.inFlightInvoices - {invoiceHash};
    assert c.inFlightNonces - {nonce} - {nonce} == c.inFlightNonces - {nonce};
  }

  /** Reserving and rolling back leaves what the prune leaves. */
  lemma ReserveRollback(c: Cache, invoiceHash: Text, nonce: Text, now: int)
    requires Reserve(c, invoiceHash, nonce, now).1.Ok?
    ensures Rollback(Reserve(c, invoiceHash, nonce, now).0, invoiceHash, nonce) == Prune(c, now)
  {
    assert c.inFlightInvoices + {invoiceHash} - {invoiceHash} == c.inFlightInvoices;
    assert c.inFlightNonces + {nonce} - {nonce} == c.inFlightNonces;
  }

  // ---------- A cache that forgets nothing ----------

  /** A committed authorization, and whether a later reservation came at or after its expiry, so
      that the prune of that reservation dropped it. */
  datatype Grant = Grant(entry: CacheEntry, forgotten: bool)

  datatype Past = Past(inFlightInvoices: set<Text>, inFlightNonces: set<Text>, grants: seq<Grant>)

  function Swept(grants: seq<Grant>, now: int): (r: seq<Grant>)
    ensures |r| == |grants|
    ensures forall i | 0 <= i < |r| ::
      r[i] == Grant(grants[i].entry, grants[i].forgotten || grants[i].entry.expiresAt <= now)
  {
    seq(|grants|, i requires 0 <= i < |grants| =>
      Grant(grants[i].entry, grants[i].forgotten || grants[i].entry.expiresAt <= now))
  }

  /** Some unexpired grant is for the invoice, or has the nonce. */
  ghost predicate LiveInvoice(grants: seq<Grant>, invoiceHash: Text, now: int) {
    exists g | g in grants :: g.entry.invoiceHash == invoiceHash && g.entry.expiresAt > now
  }

  ghost predicate LiveNonce(grants: seq<Grant>, nonce: Text, now: int) {
    exists g | g in grants :: g.entry.nonce == nonce && g.entry.expiresAt > now
  }

  /** Some such grant has not been forgotten. */
  ghost predicate RememberedInvoice(grants: seq<Grant>, invoiceHash: Text, now: int) {
    exists g | g in grants :: !g.forgotten && g.entry.invoiceHash == invoiceHash && g.entry.expiresAt > now
  }

  ghost predicate RememberedNonce(grants: seq<Grant>, nonce: Text, now: int) {
    exists g | g in grants :: !g.forgotten && g.entry.nonce == nonce && g.entry.expiresAt > now
  }

  /** What a reservation should be answered. */
  ghost function HistoryAnswer(p: Past, e: CacheEntry, now: int): Result<(), CacheError> {
    if e.invoiceHash in p.inFlightInvoices || e.nonce in p.inFlightNonces then Err(ConcurrentConflict)
    else if LiveInvoice(p.grants, e.invoiceHash, now) then Err(DuplicateInvoice)
    else if LiveNonce(p.grants, e.nonce, now) then Err(NonceReuse)
    else Ok(())
  }

  /** The grant that should refuse the reservation, if there is one, has not been forgotten. */
  ghost predicate NoGap(p: Past, e: CacheEntry, now: int) {
    || e.invoiceHash in p.inFlightInvoices || e.nonce in p.inFlightNonces
    || if LiveInvoice(p.grants, e.invoiceHash, now) then RememberedInvoice(p.grants, e.invoiceHash, now)
       else LiveNonce(p.grants, e.nonce, now) ==> RememberedNonce(p.grants, e.nonce, now)
  }

  // ---------- The cache against it ----------

  ghost predicate Backs(grants: seq<Grant>, e: CacheEntry) { Grant(e, false) in grants }

  /** The committed maps hold exactly the grants that have not been forgotten. */
  ghost predicate Remembers(c: Cache, grants: seq<Grant>) {
    && (forall g | g in grants && !g.forgotten ::
          && g.entry.invoiceHash in c.committedInvoices && c.committedInvoices[g.entry.invoiceHash] == g.entry
          && g.entry.nonce in c.committedNonces && c.committedNonces[g.entry.nonce] == g.entry)
    && (forall h | h in c.committedInvoices ::
          Backs(grants, c.committedInvoices[h]) && c.committedInvoices[h].invoiceHash == h)
    && (forall n | n in c.committedNonces ::
          Backs(grants, c.committedNonces[n]) && c.committedNonces[n].nonce == n)
  }

  /** Nothing is in flight and committed at once. */
  ghost predicate KeysApart(c: Cache) {
    c.inFlightInvoices !! c.committedInvoices.Keys && c.inFlightNonces !! c.committedNonces.Keys
  }

  lemma SweptEntry(grants: seq<Grant>, now: int, g: Grant)
    ensures g in grants ==> Grant(g.entry, g.forgotten || g.entry.expiresAt <= now) in Swept(grants, now)
    ensures g in Swept(grants, now) && !g.forgotten ==> g in grants && g.entry.expiresAt > now
  {
    if g in grants {
      var i :| 0 <= i < |grants| && grants[i] == g;
      assert Swept(grants, now)[i] == Grant(g.entry, g.forgotten || g.entry.expiresAt <= now);
    }
  }

  lemma PruneRemembers(c: Cache, grants: seq<Grant>, now: int)
    requires Remembers(c, grants)
    ensures Remembers(Prune(c, now), Swept(grants, now))
  {
    var p, swept := Prune(c, now), Swept(grants, now);
    forall g | g in swept && !g.forgotten
      ensures g.entry.invoiceHash in p.committedInvoices && p.committedInvoices[g.entry.invoiceHash] == g.entry
      ensures g.entry.nonce in p.committedNonces && p.committedNonces[g.entry.nonce] == g.entry
    {
      SweptEntry(grants, now, g);
    }
    forall h | h in p.committedInvoices ensures Backs(swept, p.committedInvoices[h]) {
      SweptEntry(grants, now, Grant(c.committedInvoices[h], false));
    }
    forall n | n in p.committedNonces ensures Backs(swept, p.committedNonces[n]) {
      SweptEntry(grants, now, Grant(c.committedNonces[n], false));
    }
  }

  lemma PruneKnows(c: Cache, grants: seq<Grant>, e: CacheEntry, now: int)
    requires Remembers(c, grants)
    ensures e.invoiceHash in Prune(c, now).committedInvoices <==> RememberedInvoice(grants, e.invoiceHash, now)
    ensures e.nonce in Prune(c, now).committedNonces <==> RememberedNonce(grants, e.nonce, now)
  {
    if e.invoiceHash in Prune(c, now).committedInvoices {
      assert Backs(grants, c.committedInvoices[e.invoiceHash]);
    }
    if e.nonce in Prune(c, now).committedNonces {
      assert Backs(grants, c.committedNonces[e.nonce]);
    }
  }

  lemma RememberedIsLive(grants: seq<Grant>, e: CacheEntry, now: int)
    ensures RememberedInvoice(grants, e.invoiceHash, now) ==> LiveInvoice(grants, e.invoiceHash, now)
    ensures RememberedNonce(grants, e.nonce, now) ==> LiveNonce(grants, e.nonce, now)
  {}

  /** For every clock: a reservation is answered as the full history answers it if and only if
      the grant that refuses it, if there is one, has not been forgotten. */
  lemma AnswerExact(c: Cache, p: Past, e: CacheEntry, now: int)
    requires Remembers(c, p.grants)
    requires c.inFlightInvoices == p.inFlightInvoices && c.inFlightNonces == p.inFlightNonces
    ensures Reserve(c, e.invoiceHash, e.nonce, now).1 == HistoryAnswer(p, e, now) <==> NoGap(p, e, now)
  {
    PruneKnows(c, p.grants, e, now);
    RememberedIsLive(p.grants, e, now);
  }

  lemma ReserveRemembers(c: Cache, grants: seq<Grant>, e: CacheEntry, now: int)
    requires Remembers(c, grants) && KeysApart(c)
    ensures var c' := Reserve(c, e.invoiceHash, e.nonce, now).0; Remembers(c', Swept(grants, now)) && KeysApart(c')
  {
    PruneRemembers(c, grants, now);
    ReserveMaps(c, e, now);
    SameCommitted(Prune(c, now), Reserve(c, e.invoiceHash, e.nonce, now).0, Swept(grants, now));
  }

  /** A reservation prunes, and puts nothing in flight that is committed. */
  lemma ReserveMaps(c: Cache, e: CacheEntry, now: int)
    requires KeysApart(c)
    ensures var c' := Reserve(c, e.invoiceHash, e.nonce, now).0;
      && c'.committedInvoices == Prune(c, now).committedInvoices && c'.committedNonces == Prune(c, now).committedNonces
      && KeysApart(c')
  {}

  lemma SameCommitted(c: Cache, c': Cache, grants: seq<Grant>)
    requires Remembers(c, grants)
    requires c'.committedInvoices == c.committedInvoices && c'.committedNonces == c.committedNonces
    ensures Remembers(c', grants)
  {}

  /** A commit of texts in flight overwrites nothing. */
  lemma CommitRemembers(c: Cache, grants: seq<Grant>, e: CacheEntry)
    requires Remembers(c, grants) && KeysApart(c)
    requires e.invoiceHash in c.inFlightInvoices && e.nonce in c.inFlightNonces
    ensures var c' := Commit(c, e.invoiceHash, e.nonce, e.expiresAt);
      Remembers(c', grants + [Grant(e, false)]) && KeysApart(c')
  {}

  // ---------- Runs of the cache ----------

  datatype Op =
    | ReserveOp(entry: CacheEntry, now: int)
    | CommitOp(entry: CacheEntry)
    | RollbackOp(invoiceHash: Text, nonce: Text)

  function CacheStep(c: Cache, op: Op): Cache {
    match op
    case ReserveOp(e, now) => Reserve(c, e.invoiceHash, e.nonce, now).0
    case CommitOp(e) => Commit(c, e.invoiceHash, e.nonce, e.expiresAt)
    case RollbackOp(h, n) => Rollback(c, h, n)
  }

  ghost function PastStep(p: Past, op: Op): Past {
    match op
    case ReserveOp(e, now) =>
      var grants := Swept(p.grants, now);
      if HistoryAnswer(p, e, now).Ok?
      then Past(p.inFlightInvoices + {e.invoiceHash}, p.inFlightNonces + {e.nonce}, grants)
      else Past(p.inFlightInvoices, p.inFlightNonces, grants)
    case CommitOp(e) =>
      Past(p.inFlightInvoices - {e.invoiceHash}, p.inFlightNonces - {e.nonce}, p.grants + [Grant(e, false)])
    case RollbackOp(h, n) => Past(p.inFlightInvoices - {h}, p.inFlightNonces - {n}, p.grants)
  }

  /** The answers to the reservations of a run. */
  function Answers(c: Cache, ops: seq<Op>): seq<Result<(), CacheError>>
    decreases |ops|
  {
    if ops == [] then []
    else
      (if ops[0].ReserveOp? then [Reserve(c, ops[0].entry.invoiceHash, ops[0].entry.nonce, ops[0].now).1] else [])
      + Answers(CacheStep(c, ops[0]), ops[1..])
  }

  ghost function HistoryAnswers(p: Past, ops: seq<Op>): seq<Result<(), CacheError>>
    decreases |ops|
  {
    if ops == [] then []
    else
      (if ops[0].ReserveOp? then [HistoryAnswer(p, ops[0].entry, ops[0].now)] else [])
      + HistoryAnswers(PastStep(p, ops[0]), ops[1..])
  }

  /** What is committed is in flight, as the bridge commits. */
  ghost predicate Proper(p: Past, ops: seq<Op>)
    decreases |ops|
  {
    ops == [] ||
    ((ops[0].CommitOp? ==> ops[0].entry.invoiceHash in p.inFlightInvoices && ops[0].entry.nonce in p.inFlightNonces)
     && Proper(PastStep(p, ops[0]), ops[1..]))
  }

  /** No reservation of the run falls into a gap. */
  ghost predicate Safe(p: Past, ops: seq<Op>)
    decreases |ops|
  {
    ops == [] || ((ops[0].ReserveOp? ==> NoGap(p, ops[0].entry, ops[0].now)) && Safe(PastStep(p, ops[0]), ops[1..]))
  }

  ghost predicate Holds(c: Cache, p: Past) {
    && c.inFlightInvoices == p.inFlightInvoices && c.inFlightNonces == p.inFlightNonces
    && KeysApart(c) && Remembers(c, p.grants)
  }

  lemma StepHolds(c: Cache, p: Past, op: Op)
    requires Holds(c, p)
    requires op.ReserveOp? ==> NoGap(p, op.entry, op.now)
    requires op.CommitOp? ==> op.entry.invoiceHash in p.inFlightInvoices && op.entry.nonce in p.inFlightNonces
    ensures Holds(CacheStep(c, op), PastStep(p, op))
  {
    match op
    case ReserveOp(e, now) => ReserveHolds(c, p, e, now);
    case CommitOp(e) => CommitRemembers(c, p.grants, e);
    case RollbackOp(h, n) => SameCommitted(c, Rollback(c, h, n), p.grants);
  }

  lemma ReserveHolds(c: Cache, p: Past, e: CacheEntry, now: int)
    requires Holds(c, p) && NoGap(p, e, now)
    ensures Holds(CacheStep(c, ReserveOp(e, now)), PastStep(p, ReserveOp(e, now)))
  {
    AnswerExact(c, p, e, now);
    ReserveRemembers(c, p.grants, e, now);
    ReserveFlight(c, p, e, now);
    assert PastStep(p, ReserveOp(e, now)).grants == Swept(p.grants, now);
  }

  lemma ReserveFlight(c: Cache, p: Past, e: CacheEntry, now: int)
    requires c.inFlightInvoices == p.inFlightInvoices && c.inFlightNonces == p.inFlightNonces
    requires Reserve(c, e.invoiceHash, e.nonce, now).1 == HistoryAnswer(p, e, now)
    ensures var c', p' := Reserve(c, e.invoiceHash, e.nonce, now).0, PastStep(p, ReserveOp(e, now));
      c'.inFlightInvoices == p'.inFlightInvoices && c'.inFlightNonces == p'.inFlightNonces
  {}

  lemma SameTail<T>(prefix: seq<T>, s: seq<T>, t: seq<T>)
    ensures prefix + s == prefix + t <==> s == t
  {
    assert (prefix + s)[|prefix|..] == s && (prefix + t)[|prefix|..] == t;
  }

  /** For every clock, forward or backward: over a run of reservations, commits and rollbacks the
      cache answers as the full history would if and only if no reservation falls into a gap. */
  lemma {:induction false} CacheExact(c: Cache, p: Past, ops: seq<Op>)
    requires Holds(c, p) && Proper(p, ops)
    ensures Answers(c, ops) == HistoryAnswers(p, ops) <==> Safe(p, ops)
    decreases |ops|
  {
    if ops != [] {
      var op := ops[0];
      if op.ReserveOp? {
        AnswerExact(c, p, op.entry, op.now);
      }
      if op.ReserveOp? && !NoGap(p, op.entry, op.now) {
        assert Answers(c, ops)[0] != HistoryAnswers(p, ops)[0];
      } else {
        StepHolds(c, p, op);
        CacheExact(CacheStep(c, op), PastStep(p, op), ops[1..]);
        SameTail(if op.ReserveOp? then [HistoryAnswer(p, op.entry, op.now)] else [],
                 Answers(CacheStep(c, op), ops[1..]), HistoryAnswers(PastStep(p, op), ops[1..]));
      }
    }
  }

  /** A gap: the clock goes back past a prune, and a committed authorization that is valid then is
      reserved a second time. */
  lemma ClockGoingBack(a: Text, b: Text, m: Text, n: Text)
    requires a != b && m != n
    ensures var c1 := Commit(Reserve(EMPTY, a, m, 10).0, a, m, 20);
      var c2 := Commit(Reserve(c1, b, n, 30).0, b, n, 40);
      && Reserve(c1, a, m, 10).1 == Err(DuplicateInvoice)
      && Reserve(c2, a, m, 10).1 == Ok(())
  {}

  // ---------- The object of the source ----------

  class InMemoryAuthorizationReplayCache {
    var inFlightInvoices: set<Text>
    var inFlightNonces: set<Text>
    var committedInvoices: map<Text, CacheEntry>
    var committedNonces: map<Text, CacheEntry>

    constructor ()
      ensures State() == EMPTY
    {
      inFlightInvoices, inFlightNonces, committedInvoices, committedNonces := {}, {}, map[], map[];
    }

    ghost function State(): Cache
      reads this
    {
      Cache(inFlightInvoices, inFlightNonces, committedInvoices, committedNonces)
    }

    /** `prune`; returns how many invoice entries were deleted. */
    method PruneExpired(now: int) returns (prunedCount: nat)
      modifies this
      ensures State() == Prune(old(State()), now)
      ensures prunedCount == |old(committedInvoices).Keys - committedInvoices.Keys|
    {
      var count;
      committedInvoices, count := DeleteExpired(committedInvoices, now);
      prunedCount := count;
      committedNonces, count := DeleteExpired(committedNonces, now);
    }

    method TryReserve(invoiceHash: Text, nonce: Text, expiresAt: int, now: int) returns (r: Result<(), CacheError>)
      modifies this
      ensures (State(), r) == Reserve(old(State()), invoiceHash, nonce, now)
    {
      var _ := PruneExpired(now);
      if invoiceHash in inFlightInvoices {
        return Err(ConcurrentConflict);
      }
      if nonce in inFlightNonces {
        return Err(ConcurrentConflict);
      }
      if invoiceHash in committedInvoices && committedInvoices[invoiceHash].expiresAt > now {
        return Err(DuplicateInvoice);
      }
      if nonce in committedNonces && committedNonces[nonce].expiresAt > now {
        return Err(NonceReuse);
      }
      inFlightInvoices := inFlightInvoices + {invoiceHash};
      inFlightNonces := inFlightNonces + {nonce};
      r := Ok(());
    }

    method CommitReservation(invoiceHash: Text, nonce: Text, expiresAt: int)
      modifies this
      ensures State() == Commit(old(State()), invoiceHash, nonce, expiresAt)
    {
      inFlightInvoices := inFlightInvoices - {invoiceHash};
      inFlightNonces := inFlightNonces - {nonce};
      var entry := CacheEntry(invoiceHash, nonce, expiresAt);
      committedInvoices := committedInvoices[invoiceHash := entry];
      committedNonces := committedNonces[nonce := entry];
    }

    method RollbackReservation(invoiceHash: Text, nonce: Text)
      modifies this
      ensures State() == Rollback(old(State()), invoiceHash, nonce)
    {
      inFlightInvoices := inFlightInvoices - {invoiceHash};
      inFlightNonces := inFlightNonces - {nonce};
    }
  }

  /** One prune loop: visits the keys in any order and deletes the expired entries. */
  method DeleteExpired(m: map<Text, CacheEntry>, now: int) returns (r: map<Text, CacheEntry>, deleted: nat)
    ensures r == Unexpired(m, now)
    ensures forall k | k in m :: k in r <==> m[k].expiresAt > now
    ensures deleted == |m.Keys - r.Keys|
  {
    r, deleted := m, 0;
    var rest := m.Keys;
    while rest != {}
      invariant rest <= m.Keys
      invariant r.Keys <= m.Keys && forall k | k in r :: r[k] == m[k]
      invariant forall k | k in m :: k in r <==> k in rest || m[k].expiresAt > now
      invariant deleted == |m.Keys - r.Keys|
    {
      var key :| key in rest;
      rest := rest - {key};
      if m[key].expiresAt <= now {
        ghost var before := m.Keys - r.Keys;
        r := r - {key};
        deleted := deleted + 1;
        assert m.Keys - r.Keys == before + {key};
      }
    }
  }
}
