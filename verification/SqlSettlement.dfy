/** Settlement verifiers over the SQL table: the same interleavings, the same answers, and the
    guarantees of the in-memory runs carried over to the rows. */
module SqlSettlement {
  import opened Texts
  import opened Radix
  import opened Invoices
  import opened InvoiceStore
  import opened SqlStore
  import opened Settlement
  import opened StoreSimulation
  import V = SettlementRuns

  datatype SqlSys = SqlSys(table: Table, procs: map<nat, V.Proc>)

  const SQL_START: SqlSys := SqlSys([], map[])

  function SqlLookup(table: Table, p: V.Proc): V.Proc {
    if !p.Arrived? then p
    else match SelectRecord(table, ByHash(p.claim.invoiceHash))
      case None => V.Done(p.claim, Refused(UnknownInvoice))
      case Some(invoice) => V.LookedUp(p.claim, invoice)
  }

  function SqlCommit(t: SqlSys, id: nat): SqlSys
    requires id in t.procs && t.procs[id].Ready?
  {
    var p := t.procs[id];
    var (table', result) := SqlCommitPaid(t.table, p.claim.invoiceHash, p.claim.txid, p.now);
    SqlSys(table', t.procs[id := V.Done(p.claim, CommitOutcome(result, p.index, p.tx))])
  }

  /** The steps of the verifiers with every store access on the table. Invoices are issued with
      allocation only. */
  function TableStep(w: V.World, t: SqlSys, e: V.Event): SqlSys {
    match e
    case IssueRecord(_) => t
    case IssueFresh(params) => t.(table := SqlIssueWithAllocation(w.env, t.table, params).0)
    case Arrive(id, claim) => if id in t.procs then t else t.(procs := t.procs[id := V.Arrived(claim)])
    case Lookup(id) => if id !in t.procs then t else t.(procs := t.procs[id := SqlLookup(t.table, t.procs[id])])
    case ReadClock(id, now) => if id !in t.procs then t else t.(procs := t.procs[id := V.ClockStep(t.procs[id], now)])
    case Fetch(id, f) => if id !in t.procs then t else t.(procs := t.procs[id := V.FetchStep(w, t.procs[id], f)])
    case Commit(id) => if id in t.procs && t.procs[id].Ready? then SqlCommit(t, id) else t
  }

  function TableRun(w: V.World, t: SqlSys, events: seq<V.Event>): SqlSys
    decreases |events|
  {
    if events == [] then t else TableRun(w, TableStep(w, t, events[0]), events[1..])
  }

  /** The invoice that an issuance on the table would construct. */
  function RowProspect(env: Env, table: Table, p: Params): Option<Invoice> {
    match env.allocate(NextIndex(table))
    case None => None
    case Some(payTo) => ParamsInvoice(p, payTo)
  }

  /** A schema-valid issuance with an address to allocate whose hash does not collide, or one
      that is refused for its nonce. */
  predicate Issuable(env: Env, table: Table, p: Params) {
    && (RowProspect(env, table, p).Some? || exists i | 0 <= i < |table| :: table[i].nonce == p.nonce)
    && (RowProspect(env, table, p).Some? ==>
          forall i | 0 <= i < |table| && table[i].invoiceHash == env.id(RowProspect(env, table, p).value) ::
            InvoiceOf(RowToRecord(table[i])) == RowProspect(env, table, p).value)
  }

  predicate LegalOnTable(w: V.World, t: SqlSys, e: V.Event) {
    V.Legal(w, e) && !e.IssueRecord? && (e.IssueFresh? ==> Issuable(w.env, t.table, e.params))
  }

  predicate LegalTableRun(w: V.World, t: SqlSys, events: seq<V.Event>)
    decreases |events|
  {
    events == [] || (LegalOnTable(w, t, events[0]) && LegalTableRun(w, TableStep(w, t, events[0]), events[1..]))
  }

  // ---------- The table runs as the maps do ----------

  ghost predicate Same(w: V.World, s: V.Sys, t: SqlSys) { Related(w.env, s.store, t.table) && s.procs == t.procs }

  lemma SameCollisions(env: Env, m: Mem, table: Table, p: Params)
    requires Related(env, m, table) && Issuable(env, table, p)
    ensures CollisionFree(env, m, p) && (p.nonce in m.nonceToInvoice || Prospect(env, m, p).Some?)
  {
    assert Prospect(env, m, p) == RowProspect(env, table, p);
    if Prospect(env, m, p).Some? && env.id(Prospect(env, m, p).value) in m.records {
      var i := RowAt(m, table, env.id(Prospect(env, m, p).value));
    }
    if i :| 0 <= i < |table| && table[i].nonce == p.nonce {
      assert RowFiled(m, table[i]);
      assert m.records[table[i].invoiceHash].nonce == p.nonce;
    }
  }

  lemma IssueSame(w: V.World, s: V.Sys, t: SqlSys, p: Params)
    requires GoodEnv(w.env) && Same(w, s, t) && !p.state.Paid? && Issuable(w.env, t.table, p)
    ensures Same(w, V.Step(w, s, V.IssueFresh(p)), TableStep(w, t, V.IssueFresh(p)))
  {
    SameCollisions(w.env, s.store, t.table, p);
    IssueSimulates(w.env, s.store, t.table, p);
  }

  /** Steps that leave the stores alone keep them related. */
  lemma SameStores(w: V.World, s: V.Sys, t: SqlSys, s': V.Sys, t': SqlSys)
    requires Same(w, s, t) && s'.store == s.store && t'.table == t.table && s'.procs == t'.procs
    ensures Same(w, s', t')
  {}

  lemma LookupProcs(w: V.World, s: V.Sys, t: SqlSys, id: nat)
    requires s.procs == t.procs
    requires forall h :: SelectRecord(t.table, ByHash(h)) == GetByInvoiceHash(s.store, h)
    ensures V.Step(w, s, V.Lookup(id)).procs == TableStep(w, t, V.Lookup(id)).procs
  {}

  lemma LookupSame(w: V.World, s: V.Sys, t: SqlSys, id: nat)
    requires Same(w, s, t)
    ensures Same(w, V.Step(w, s, V.Lookup(id)), TableStep(w, t, V.Lookup(id)))
  {
    forall h ensures SelectRecord(t.table, ByHash(h)) == GetByInvoiceHash(s.store, h) {
      HashLookup(s.store, t.table, h);
    }
    LookupProcs(w, s, t, id);
    SameStores(w, s, t, V.Step(w, s, V.Lookup(id)), TableStep(w, t, V.Lookup(id)));
  }

  /** A verifier commits for an invoice it has looked up, so no commit is misdirected. */
  lemma ReadyKnown(w: V.World, seen: set<Tx>, s: V.Sys, id: nat)
    requires V.Inv(w, seen, s) && id in s.procs && s.procs[id].Ready?
    ensures s.procs[id].claim.invoiceHash in s.store.records
  {
    assert V.ProcOk(w, seen, s.store, s.procs[id]);
  }

  lemma CommitSame(w: V.World, s: V.Sys, t: SqlSys, id: nat)
    requires Same(w, s, t) && id in s.procs && s.procs[id].Ready?
    requires s.procs[id].claim.invoiceHash in s.store.records
    ensures Same(w, V.CommitStep(s, id), SqlCommit(t, id))
  {
    var p := s.procs[id];
    CommitSimulates(w.env, s.store, t.table, p.claim.invoiceHash, p.claim.txid, p.now);
  }

  /** A commit that is not enabled. */
  lemma NoCommit(w: V.World, s: V.Sys, t: SqlSys, id: nat)
    requires s.procs == t.procs && !(id in s.procs && s.procs[id].Ready?)
    ensures V.Step(w, s, V.Commit(id)) == s && TableStep(w, t, V.Commit(id)) == t
  {}

  lemma DoCommit(w: V.World, s: V.Sys, t: SqlSys, id: nat)
    requires s.procs == t.procs && id in s.procs && s.procs[id].Ready?
    ensures V.Step(w, s, V.Commit(id)) == V.CommitStep(s, id) && TableStep(w, t, V.Commit(id)) == SqlCommit(t, id)
  {}

  /** Steps that do not touch the store. */
  lemma ProcSteps(w: V.World, s: V.Sys, t: SqlSys, e: V.Event)
    requires s.procs == t.procs && (e.Arrive? || e.ReadClock? || e.Fetch?)
    ensures V.Step(w, s, e).procs == TableStep(w, t, e).procs
    ensures V.Step(w, s, e).store == s.store && TableStep(w, t, e).table == t.table
  {}

  lemma StepSame(w: V.World, seen: set<Tx>, s: V.Sys, t: SqlSys, e: V.Event)
    requires GoodEnv(w.env) && V.Inv(w, seen, s) && Same(w, s, t) && LegalOnTable(w, t, e)
    ensures Same(w, V.Step(w, s, e), TableStep(w, t, e))
  {
    match e
    case IssueFresh(p) => IssueSame(w, s, t, p);
    case Lookup(id) => LookupSame(w, s, t, id);
    case Commit(id) =>
      if id in s.procs && s.procs[id].Ready? {
        ReadyKnown(w, seen, s, id);
        CommitSame(w, s, t, id);
        DoCommit(w, s, t, id);
      } else {
        NoCommit(w, s, t, id);
      }
    case _ =>
      ProcSteps(w, s, t, e);
      SameStores(w, s, t, V.Step(w, s, e), TableStep(w, t, e));
  }

  lemma {:induction false} LegalTableLegal(w: V.World, t: SqlSys, events: seq<V.Event>)
    requires LegalTableRun(w, t, events)
    ensures V.LegalRun(w, events)
    decreases |events|
  {
    if events != [] {
      LegalTableLegal(w, TableStep(w, t, events[0]), events[1..]);
      assert forall i | 0 < i < |events| :: events[i] == events[1..][i - 1];
    }
  }

  lemma CoveredRest(seen: set<Tx>, events: seq<V.Event>)
    requires V.Covered(seen, events) && events != []
    ensures V.Covered(seen, events[1..])
  {}

  lemma {:induction false} RunSame(w: V.World, seen: set<Tx>, s: V.Sys, t: SqlSys, events: seq<V.Event>)
    requires GoodEnv(w.env) && V.Inv(w, seen, s) && Same(w, s, t) && LegalTableRun(w, t, events)
    requires V.Covered(seen, events)
    ensures Same(w, V.Run(w, s, events), TableRun(w, t, events))
    decreases |events|
  {
    if events != [] {
      var e := events[0];
      StepSame(w, seen, s, t, e);
      V.StepKeeps(w, seen, s, e);
      CoveredRest(seen, events);
      var s', t' := V.Step(w, s, e), TableStep(w, t, e);
      RunSame(w, seen, s', t', events[1..]);
      assert V.Run(w, s, events) == V.Run(w, s', events[1..]) && TableRun(w, t, events) == TableRun(w, t', events[1..]);
    }
  }

  /** Over every legal interleaving, the verifiers on the table are at every moment where the
      verifiers on the maps are, with the same answers, and the stores are related. */
  lemma TableAnswersAlike(w: V.World, events: seq<V.Event>)
    requires GoodEnv(w.env) && LegalTableRun(w, SQL_START, events)
    ensures V.LegalRun(w, events)
    ensures TableRun(w, SQL_START, events).procs == V.Run(w, V.START, events).procs
    ensures Related(w.env, V.Run(w, V.START, events).store, TableRun(w, SQL_START, events).table)
  {
    LegalTableLegal(w, SQL_START, events);
    EmptyRelated(w.env);
    RunSame(w, V.AnswersIn(events), V.START, SQL_START, events);
  }

  // ---------- What the runs guarantee of the rows ----------

  lemma {:induction false} RunSplit(w: V.World, t: SqlSys, before: seq<V.Event>, after: seq<V.Event>)
    ensures TableRun(w, t, before + after) == TableRun(w, TableRun(w, t, before), after)
    ensures LegalTableRun(w, t, before + after) <==>
      LegalTableRun(w, t, before) && LegalTableRun(w, TableRun(w, t, before), after)
    decreases |before|
  {
    if before == [] {
      assert before + after == after;
    } else {
      assert (before + after)[1..] == before[1..] + after;
      RunSplit(w, TableStep(w, t, before[0]), before[1..], after);
    }
  }

  lemma {:induction false} MemRunSplit(w: V.World, s: V.Sys, before: seq<V.Event>, after: seq<V.Event>)
    ensures V.Run(w, s, before + after) == V.Run(w, V.Run(w, s, before), after)
    decreases |before|
  {
    if before == [] {
      assert before + after == after;
    } else {
      assert (before + after)[1..] == before[1..] + after;
      MemRunSplit(w, V.Step(w, s, before[0]), before[1..], after);
    }
  }

  /** An UNLOCKED answer given over the table stays true: at every later moment the row is found
      by invoice and by txid, as answered. */
  lemma TableUnlockedForever(w: V.World, before: seq<V.Event>, after: seq<V.Event>, id: nat)
    requires GoodEnv(w.env) && LegalTableRun(w, SQL_START, before + after)
    requires var t := TableRun(w, SQL_START, before);
      id in t.procs && t.procs[id].Done? && t.procs[id].outcome.Unlocked?
    ensures var p := TableRun(w, SQL_START, before).procs[id];
      var later := TableRun(w, SQL_START, before + after).table;
      && SelectRecord(later, ByHash(p.claim.invoiceHash)) == Some(p.outcome.record)
      && SelectRecord(later, ByTxid(p.claim.txid)) == Some(p.outcome.record)
      && p.outcome.record.state.Paid? && p.outcome.record.settledTxid == Some(p.claim.txid)
  {
    RunSplit(w, SQL_START, before, after);
    MemRunSplit(w, V.START, before, after);
    TableAnswersAlike(w, before);
    TableAnswersAlike(w, before + after);
    LegalParts(w, before, after);
    V.UnlockedForever(w, before, after, id);
    var p := TableRun(w, SQL_START, before).procs[id];
    var m, later := V.Run(w, V.START, before + after).store, TableRun(w, SQL_START, before + after).table;
    HashLookup(m, later, p.claim.invoiceHash);
    OwnerLookup(m, later, p.claim.invoiceHash, p.claim.txid);
  }

  lemma LegalParts(w: V.World, before: seq<V.Event>, after: seq<V.Event>)
    requires V.LegalRun(w, before + after)
    ensures V.LegalRun(w, before) && V.LegalRun(w, after)
  {
    assert forall i | 0 <= i < |before| :: before[i] == (before + after)[i];
    assert forall i | 0 <= i < |after| :: after[i] == (before + after)[|before| + i];
  }

  lemma OwnerLookup(m: Mem, table: Table, h: Text, txid: Text)
    requires Consistent(m) && SameRecords(m, table)
    requires h in m.records && m.records[h].state.Paid? && m.records[h].settledTxid == Some(txid)
    ensures SelectRecord(table, ByTxid(txid)) == Some(m.records[h])
  {
    TxidLookup(m, table, txid);
  }

  /** Every paid row was settled inside its time window, by a txid of its own, and is found
      unchanged in every later table. */
  lemma TableSettledInWindow(w: V.World, before: seq<V.Event>, after: seq<V.Event>, i: nat)
    requires GoodEnv(w.env) && LegalTableRun(w, SQL_START, before + after)
    requires var table := TableRun(w, SQL_START, before).table; i < |table| && table[i].state.Paid?
    ensures var table := TableRun(w, SQL_START, before).table;
      var row := table[i];
      && row.settledAt.Some? && row.issuedAt <= row.settledAt.value < row.expiresAt
      && row.settledTxid.Some? && SelectRecord(table, ByTxid(row.settledTxid.value)) == Some(RowToRecord(row))
      && SelectRecord(TableRun(w, SQL_START, before + after).table, ByHash(row.invoiceHash)) == Some(RowToRecord(row))
  {
    RunSplit(w, SQL_START, before, after);
    MemRunSplit(w, V.START, before, after);
    TableAnswersAlike(w, before);
    TableAnswersAlike(w, before + after);
    LegalParts(w, before, after);
    var m, table := V.Run(w, V.START, before).store, TableRun(w, SQL_START, before).table;
    var h := table[i].invoiceHash;
    assert RowFiled(m, table[i]);
    V.SettledInWindow(w, before, after, h);
    OwnerLookup(m, table, h, m.records[h].settledTxid.value);
    HashLookup(V.Run(w, V.START, before + after).store, TableRun(w, SQL_START, before + after).table, h);
  }
}
