/** Any number of settlement verifiers over one store, interleaved at their awaits. */
module SettlementRuns {
  import opened Texts
  import opened InvoiceStore
  import opened Settlement
  import opened Sums

  /** The outside: the foreign functions, and the outputs each txid has on the chain. */
  datatype World = World(env: Env, scriptOf: ScriptOf, chain: Text -> seq<Output>)

  /** One call of `verifySettlementProof`, at its point of suspension. */
  datatype Proc =
    | Arrived(claim: Claim)
    | LookedUp(claim: Claim, invoice: Record)
    | Querying(claim: Claim, invoice: Record, now: int)
    | Ready(claim: Claim, invoice: Record, now: int, index: nat, tx: Tx)
    | Done(claim: Claim, outcome: Outcome)

  /** The output that a paid invoice was paid with. */
  datatype Payment = Payment(txid: Text, index: nat, tx: Tx)

  /** `payments` is history: the program never reads it. */
  datatype Sys = Sys(store: Mem, procs: map<nat, Proc>, payments: map<Text, Payment>)

  datatype Event =
    | IssueRecord(record: Record)
    | IssueFresh(params: Params)
    | Arrive(id: nat, claim: Claim)
    | Lookup(id: nat)
    | ReadClock(id: nat, now: int)
    | Fetch(id: nat, fetched: Fetched)
    | Commit(id: nat)

  const START: Sys := Sys(EMPTY, map[], map[])

  // ---------- Steps; an event that is not enabled does nothing ----------

  function LookupStep(store: Mem, p: Proc): Proc {
    if !p.Arrived? then p
    else match GetByInvoiceHash(store, p.claim.invoiceHash)
      case None => Done(p.claim, Refused(UnknownInvoice))
      case Some(invoice) => LookedUp(p.claim, invoice)
  }

  function ClockStep(p: Proc, now: int): Proc {
    if !p.LookedUp? then p
    else match ClockCheck(p.claim, p.invoice, now)
      case None => Querying(p.claim, p.invoice, now)
      case Some(code) => Done(p.claim, Refused(code))
  }

  function FetchStep(w: World, p: Proc, f: Fetched): Proc {
    if !p.Querying? then p
    else match Inspect(w.scriptOf, p.claim, p.invoice, f)
      case Err(code) => Done(p.claim, Refused(code))
      case Ok(i) => Ready(p.claim, p.invoice, p.now, i, f.tx)
  }

  function CommitStep(s: Sys, id: nat): Sys
    requires id in s.procs && s.procs[id].Ready?
  {
    var p := s.procs[id];
    var (store', result) := CommitPaid(s.store, p.claim.invoiceHash, p.claim.txid, p.now);
    Sys(store', s.procs[id := Done(p.claim, CommitOutcome(result, p.index, p.tx))],
        if result.Committed? && !result.idempotent
        then s.payments[p.claim.invoiceHash := Payment(p.claim.txid, p.index, p.tx)]
        else s.payments)
  }

  function Step(w: World, s: Sys, e: Event): Sys {
    match e
    case IssueRecord(r) => s.(store := Issue(s.store, r).0)
    case IssueFresh(params) => s.(store := IssueWithAllocation(w.env, s.store, params).0)
    case Arrive(id, claim) => if id in s.procs then s else s.(procs := s.procs[id := Arrived(claim)])
    case Lookup(id) => if id !in s.procs then s else s.(procs := s.procs[id := LookupStep(s.store, s.procs[id])])
    case ReadClock(id, now) => if id !in s.procs then s else s.(procs := s.procs[id := ClockStep(s.procs[id], now)])
    case Fetch(id, f) => if id !in s.procs then s else s.(procs := s.procs[id := FetchStep(w, s.procs[id], f)])
    case Commit(id) => if id in s.procs && s.procs[id].Ready? then CommitStep(s, id) else s
  }

  function Run(w: World, s: Sys, events: seq<Event>): Sys
    decreases |events|
  {
    if events == [] then s else Run(w, Step(w, s, events[0]), events[1..])
  }

  /** Invoices are issued unsettled, proofs fit their schema, and the chain never shows one
      txid with two lists of outputs. The source may fail, lie about anything else, and answer
      differently each time. */
  predicate Legal(w: World, e: Event) {
    match e
    case IssueRecord(r) => Unsettled(r)
    case IssueFresh(params) => !params.state.Paid?
    case Arrive(_, claim) => ValidClaim(claim)
    case Fetch(_, f) => f.Found? ==> f.tx.outputs == w.chain(Lower(f.tx.txid))
    case _ => true
  }

  /** The source answered tx at some step of the run. */
  ghost predicate Answered(events: seq<Event>, tx: Tx) {
    exists i, id: nat | 0 <= i < |events| :: events[i] == Fetch(id, Found(tx))
  }

  function AnswersIn(events: seq<Event>): (seen: set<Tx>)
    ensures forall tx | tx in seen :: Answered(events, tx)
  {
    set i | 0 <= i < |events| && events[i].Fetch? && events[i].fetched.Found? :: events[i].fetched.tx
  }

  /** Every answer of the run is among the seen ones. */
  ghost predicate Covered(seen: set<Tx>, events: seq<Event>) {
    forall i | 0 <= i < |events| && events[i].Fetch? && events[i].fetched.Found? :: events[i].fetched.tx in seen
  }

  ghost predicate LegalRun(w: World, events: seq<Event>) { forall i | 0 <= i < |events| :: Legal(w, events[i]) }

  // ---------- The invariant ----------

  /** What an invoice read earlier still says about the store. */
  ghost predicate Snapshot(store: Mem, claim: Claim, invoice: Record) {
    && claim.invoiceHash in store.records
    && SameTerms(invoice, store.records[claim.invoiceHash])
    && (invoice.state.Paid? ==> store.records[claim.invoiceHash] == invoice)
  }

  ghost predicate OnChain(w: World, invoice: Record, p: Payment) {
    GoodPayment(w.scriptOf, invoice, p.txid, p.tx, p.index) && p.tx.outputs == w.chain(Lower(p.txid))
  }

  /** A good payment by a transaction that the source did answer with. */
  ghost predicate Observed(w: World, seen: set<Tx>, invoice: Record, p: Payment) {
    OnChain(w, invoice, p) && p.tx in seen
  }

  /** An UNLOCKED answer names the record as the store holds it, bound to the proof's txid. */
  ghost predicate AnswerStands(w: World, seen: set<Tx>, store: Mem, claim: Claim, a: Outcome) {
    a.Unlocked? ==>
      && claim.invoiceHash in store.records && store.records[claim.invoiceHash] == a.record
      && a.record.state.Paid? && a.record.settledTxid == Some(claim.txid)
      && Observed(w, seen, a.record, Payment(claim.txid, a.outputIndex, a.tx))
  }

  ghost predicate ProcOk(w: World, seen: set<Tx>, store: Mem, p: Proc) {
    && ValidClaim(p.claim)
    && match p
       case Arrived(claim) => true
       case LookedUp(claim, invoice) => Snapshot(store, claim, invoice)
       case Querying(claim, invoice, now) => Snapshot(store, claim, invoice) && ClockCheck(claim, invoice, now).None?
       case Ready(claim, invoice, now, i, tx) =>
         && Snapshot(store, claim, invoice) && ClockCheck(claim, invoice, now).None?
         && Observed(w, seen, invoice, Payment(claim.txid, i, tx))
         && Inspect(w.scriptOf, claim, invoice, Found(tx)) == Ok(i)
       case Done(claim, outcome) => AnswerStands(w, seen, store, claim, outcome)
  }

  /** One payment for every paid invoice, made inside its time window. */
  ghost predicate Backed(w: World, seen: set<Tx>, store: Mem, payments: map<Text, Payment>) {
    && (forall h | h in store.records :: store.records[h].state.Paid? <==> h in payments)
    && (forall h | h in payments :: h in store.records && PaidBy(w, seen, store.records[h], payments[h]))
  }

  ghost predicate PaidBy(w: World, seen: set<Tx>, r: Record, p: Payment) {
    && r.settledTxid == Some(Lower(p.txid))
    && Observed(w, seen, r, p)
    && r.settledAt.Some? && r.issuedAt <= r.settledAt.value < r.expiresAt
  }

  ghost predicate ProcsOk(w: World, seen: set<Tx>, store: Mem, procs: map<nat, Proc>) {
    forall id | id in procs :: ProcOk(w, seen, store, procs[id])
  }

  ghost predicate Inv(w: World, seen: set<Tx>, s: Sys) {
    Consistent(s.store) && ProcsOk(w, seen, s.store, s.procs) && Backed(w, seen, s.store, s.payments)
  }

  // ---------- One step ----------

  lemma SameTermsSameGood(w: World, r: Record, t: Record, p: Payment)
    requires SameTerms(r, t)
    ensures OnChain(w, r, p) <==> OnChain(w, t, p)
  {}

  lemma ProcKept(w: World, seen: set<Tx>, m: Mem, m': Mem, p: Proc)
    requires ProcOk(w, seen, m, p) && Extends(m, m')
    ensures ProcOk(w, seen, m', p)
  {}

  lemma ProcsKept(w: World, seen: set<Tx>, m: Mem, m': Mem, procs: map<nat, Proc>)
    requires ProcsOk(w, seen, m, procs) && Extends(m, m')
    ensures ProcsOk(w, seen, m', procs)
  {
    forall id | id in procs ensures ProcOk(w, seen, m', procs[id]) {
      ProcKept(w, seen, m, m', procs[id]);
    }
  }

  /** Issuing adds no paid record. */
  lemma BackedKept(w: World, seen: set<Tx>, m: Mem, m': Mem, payments: map<Text, Payment>)
    requires Backed(w, seen, m, payments) && Extends(m, m')
    requires forall h | h in m'.records && m'.records[h].state.Paid? :: h in m.records && m.records[h].state.Paid?
    ensures Backed(w, seen, m', payments)
  {
    forall h | h in payments ensures h in m'.records && PaidBy(w, seen, m'.records[h], payments[h]) {
      assert m.records[h].state.Paid?;
    }
  }

  lemma IssueRecordStep(w: World, seen: set<Tx>, s: Sys, r: Record)
    requires Inv(w, seen, s) && Unsettled(r)
    ensures Inv(w, seen, Step(w, s, IssueRecord(r))) && Extends(s.store, Step(w, s, IssueRecord(r)).store)
  {
    var m' := Issue(s.store, r).0;
    IssueKeeps(s.store, r);
    ProcsKept(w, seen, s.store, m', s.procs);
    forall h | h in m'.records && m'.records[h].state.Paid?
      ensures h in s.store.records && s.store.records[h].state.Paid?
    {
      IssueUnpaid(s.store, r, h);
    }
    BackedKept(w, seen, s.store, m', s.payments);
  }

  lemma IssueFreshStep(w: World, seen: set<Tx>, s: Sys, params: Params)
    requires Inv(w, seen, s) && !params.state.Paid?
    ensures Inv(w, seen, Step(w, s, IssueFresh(params))) && Extends(s.store, Step(w, s, IssueFresh(params)).store)
  {
    var m' := IssueWithAllocation(w.env, s.store, params).0;
    IssueWithAllocationKeeps(w.env, s.store, params);
    ProcsKept(w, seen, s.store, m', s.procs);
    forall h | h in m'.records && m'.records[h].state.Paid?
      ensures h in s.store.records && s.store.records[h].state.Paid?
    {
      AllocationUnpaid(w.env, s.store, params, h);
    }
    BackedKept(w, seen, s.store, m', s.payments);
  }

  lemma FetchStepOk(w: World, seen: set<Tx>, store: Mem, p: Proc, f: Fetched)
    requires ProcOk(w, seen, store, p) && (f.Found? ==> f.tx.outputs == w.chain(Lower(f.tx.txid)) && f.tx in seen)
    ensures ProcOk(w, seen, store, FetchStep(w, p, f))
  {
    if p.Querying? && Inspect(w.scriptOf, p.claim, p.invoice, f).Ok? {
      InspectExact(w.scriptOf, p.claim, p.invoice, f, Inspect(w.scriptOf, p.claim, p.invoice, f).value);
    }
  }

  lemma ProcStep(w: World, seen: set<Tx>, s: Sys, id: nat, p: Proc)
    requires Inv(w, seen, s) && ProcOk(w, seen, s.store, p)
    ensures Inv(w, seen, s.(procs := s.procs[id := p]))
  {}

  /** A verifier that turns the invoice to PAID saw it unpaid, so its clock was in the window. */
  lemma FirstCommit(w: World, seen: set<Tx>, s: Sys, id: nat)
    requires Inv(w, seen, s) && id in s.procs && s.procs[id].Ready?
    requires var p := s.procs[id]; !s.store.records[p.claim.invoiceHash].state.Paid?
    ensures var p := s.procs[id];
      PaidBy(w, seen, Settled(s.store.records[p.claim.invoiceHash], Lower(p.claim.txid), p.now),
             Payment(p.claim.txid, p.index, p.tx))
  {
    var p := s.procs[id];
    var r := s.store.records[p.claim.invoiceHash];
    assert ProcOk(w, seen, s.store, p);
    SameTermsSameGood(w, p.invoice, r, Payment(p.claim.txid, p.index, p.tx));
    SameTermsSameGood(w, r, Settled(r, Lower(p.claim.txid), p.now), Payment(p.claim.txid, p.index, p.tx));
  }

  lemma CommitBacked(w: World, seen: set<Tx>, s: Sys, id: nat)
    requires Inv(w, seen, s) && id in s.procs && s.procs[id].Ready?
    ensures Backed(w, seen, CommitStep(s, id).store, CommitStep(s, id).payments)
  {
    var p := s.procs[id];
    var h := p.claim.invoiceHash;
    var s' := CommitStep(s, id);
    assert ProcOk(w, seen, s.store, p);
    if s'.store == s.store {
      BackedSame(w, seen, s, s');
    } else {
      FirstCommit(w, seen, s, id);
      BackedMore(w, seen, s.store, s.payments, h, Settled(s.store.records[h], Lower(p.claim.txid), p.now),
                 Payment(p.claim.txid, p.index, p.tx), s'.store);
    }
  }

  lemma BackedSame(w: World, seen: set<Tx>, s: Sys, s': Sys)
    requires Backed(w, seen, s.store, s.payments) && s'.store == s.store && s'.payments == s.payments
    ensures Backed(w, seen, s'.store, s'.payments)
  {}

  /** One more record is paid, by one more payment. */
  lemma BackedMore(w: World, seen: set<Tx>, m: Mem, payments: map<Text, Payment>, h: Text, r: Record, p: Payment,
      m': Mem)
    requires Backed(w, seen, m, payments) && PaidBy(w, seen, r, p) && r.state.Paid?
    requires m'.records == m.records[h := r]
    ensures Backed(w, seen, m', payments[h := p])
  {}

  lemma CommitStands(w: World, seen: set<Tx>, m: Mem, c: Claim, invoice: Record, now: int, i: nat, tx: Tx)
    requires ValidClaim(c) && Snapshot(m, c, invoice) && Observed(w, seen, invoice, Payment(c.txid, i, tx))
    requires Matched(m)
    ensures var (m', result) := CommitPaid(m, c.invoiceHash, c.txid, now);
      AnswerStands(w, seen, m', c, CommitOutcome(result, i, tx))
  {
    LowerHash(c.txid);
    var result := CommitPaid(m, c.invoiceHash, c.txid, now).1;
    if result.Committed? {
      SameTermsSameGood(w, invoice, result.record, Payment(c.txid, i, tx));
    }
  }

  lemma CommitAnswer(w: World, seen: set<Tx>, s: Sys, id: nat)
    requires Inv(w, seen, s) && id in s.procs && s.procs[id].Ready?
    ensures ProcOk(w, seen, CommitStep(s, id).store, CommitStep(s, id).procs[id])
  {
    var p := s.procs[id];
    assert ProcOk(w, seen, s.store, p);
    CommitStands(w, seen, s.store, p.claim, p.invoice, p.now, p.index, p.tx);
  }

  lemma CommitStepKeeps(w: World, seen: set<Tx>, s: Sys, id: nat)
    requires Inv(w, seen, s) && id in s.procs && s.procs[id].Ready?
    ensures Inv(w, seen, CommitStep(s, id)) && Extends(s.store, CommitStep(s, id).store)
  {
    var p := s.procs[id];
    var s' := CommitStep(s, id);
    CommitPaidKeeps(s.store, p.claim.invoiceHash, p.claim.txid, p.now);
    ProcsKept(w, seen, s.store, s'.store, s.procs);
    CommitAnswer(w, seen, s, id);
    CommitBacked(w, seen, s, id);
  }

  lemma StepKeeps(w: World, seen: set<Tx>, s: Sys, e: Event)
    requires Inv(w, seen, s) && Legal(w, e) && (e.Fetch? && e.fetched.Found? ==> e.fetched.tx in seen)
    ensures Inv(w, seen, Step(w, s, e)) && Extends(s.store, Step(w, s, e).store)
  {
    ExtendsReflexive(s.store, s.store);
    match e
    case IssueRecord(r) => IssueRecordStep(w, seen, s, r);
    case IssueFresh(params) => IssueFreshStep(w, seen, s, params);
    case Commit(id) =>
      if id in s.procs && s.procs[id].Ready? {
        CommitStepKeeps(w, seen, s, id);
      }
    case _ => ProcEventKeeps(w, seen, s, e);
  }

  /** Events that move one verifier and leave the store alone. */
  lemma ProcEventKeeps(w: World, seen: set<Tx>, s: Sys, e: Event)
    requires Inv(w, seen, s) && Legal(w, e) && (e.Fetch? && e.fetched.Found? ==> e.fetched.tx in seen)
    requires e.Arrive? || e.Lookup? || e.ReadClock? || e.Fetch?
    ensures Inv(w, seen, Step(w, s, e)) && Step(w, s, e).store == s.store
  {
    match e
    case Arrive(id, claim) =>
      if id !in s.procs {
        ProcStep(w, seen, s, id, Arrived(claim));
      }
    case Lookup(id) =>
      if id in s.procs {
        ProcStep(w, seen, s, id, LookupStep(s.store, s.procs[id]));
      }
    case ReadClock(id, now) =>
      if id in s.procs {
        ProcStep(w, seen, s, id, ClockStep(s.procs[id], now));
      }
    case Fetch(id, f) =>
      if id in s.procs {
        FetchStepOk(w, seen, s.store, s.procs[id], f);
        ProcStep(w, seen, s, id, FetchStep(w, s.procs[id], f));
      }
  }

  // ---------- Runs ----------

  /** The invariant holds after every legal run, however the verifiers interleave, and no
      record that was PAID on the way is ever changed again. */
  lemma {:induction false} RunKeeps(w: World, seen: set<Tx>, s: Sys, events: seq<Event>)
    requires Inv(w, seen, s) && LegalRun(w, events) && Covered(seen, events)
    ensures Inv(w, seen, Run(w, s, events)) && Extends(s.store, Run(w, s, events).store)
    decreases |events|
  {
    if events == [] {
      ExtendsReflexive(s.store, s.store);
    } else {
      assert Legal(w, events[0]);
      StepKeeps(w, seen, s, events[0]);
      assert LegalRun(w, events[1..]) && Covered(seen, events[1..]);
      RunKeeps(w, seen, Step(w, s, events[0]), events[1..]);
      ExtendsTransitive(s.store, Step(w, s, events[0]).store, Run(w, s, events).store);
    }
  }

  lemma ReachableInv(w: World, events: seq<Event>)
    requires LegalRun(w, events)
    ensures Inv(w, AnswersIn(events), Run(w, START, events))
  {
    RunKeeps(w, AnswersIn(events), START, events);
  }

  /** The state after two runs in a row. */
  lemma LaterInv(w: World, before: seq<Event>, after: seq<Event>)
    requires LegalRun(w, before) && LegalRun(w, after)
    ensures var s := Run(w, START, before);
      var later := Run(w, s, after);
      && Inv(w, AnswersIn(before), s) && Extends(s.store, later.store)
      && Inv(w, AnswersIn(before) + AnswersIn(after), later)
  {
    ReachableInv(w, before);
    var seen := AnswersIn(before) + AnswersIn(after);
    RunKeeps(w, seen, START, before);
    RunKeeps(w, seen, Run(w, START, before), after);
  }

  // ---------- What the runs guarantee ----------

  /** Once an UNLOCKED answer is given it stays true: at every later moment the store holds the
      very record that was answered, PAID, bound to the txid of the proof. */
  lemma {:induction false} DoneStays(w: World, s: Sys, events: seq<Event>, id: nat)
    requires id in s.procs && s.procs[id].Done?
    ensures id in Run(w, s, events).procs && Run(w, s, events).procs[id] == s.procs[id]
    decreases |events|
  {
    if events != [] {
      DoneStays(w, Step(w, s, events[0]), events[1..], id);
    }
  }

  lemma UnlockedForever(w: World, before: seq<Event>, after: seq<Event>, id: nat)
    requires LegalRun(w, before) && LegalRun(w, after)
    requires var s := Run(w, START, before); id in s.procs && s.procs[id].Done? && s.procs[id].outcome.Unlocked?
    ensures var p := Run(w, START, before).procs[id];
      var later := Run(w, Run(w, START, before), after);
      && id in later.procs && later.procs[id] == p
      && GetByInvoiceHash(later.store, p.claim.invoiceHash) == Some(p.outcome.record)
      && GetBySettledTxid(later.store, p.claim.txid) == Some(p.outcome.record)
      && p.outcome.record.state.Paid? && p.outcome.record.settledTxid == Some(p.claim.txid)
      && Answered(before, p.outcome.tx)
      && OnChain(w, p.outcome.record, Payment(p.claim.txid, p.outcome.outputIndex, p.outcome.tx))
      && (p.outcome.tx.timeFirstSeen > 0 ==> p.outcome.tx.timeFirstSeen >= p.outcome.record.issuedAt - 10)
      && (p.outcome.tx.timeFirstSeen == 0 ==>
            p.outcome.tx.block.Some? && p.outcome.tx.block.value.timestamp >= p.outcome.record.issuedAt - 10)
  {
    var s := Run(w, START, before);
    var later := Run(w, s, after);
    var seen := AnswersIn(before) + AnswersIn(after);
    LaterInv(w, before, after);
    DoneStays(w, s, after, id);
    var p := later.procs[id];
    assert ProcOk(w, AnswersIn(before), s.store, p) && ProcOk(w, seen, later.store, p);
    LowerHash(p.claim.txid);
    assert later.store.txidToInvoice[p.claim.txid] == p.claim.invoiceHash;
    assert IsHash(p.claim.invoiceHash);
  }

  /** Whatever was waited for in between, an invoice is settled inside its time window, and
      no later event, expiry and retries included, moves the time. */
  lemma SettledInWindow(w: World, before: seq<Event>, after: seq<Event>, h: Text)
    requires LegalRun(w, before) && LegalRun(w, after)
    requires var s := Run(w, START, before); h in s.store.records && s.store.records[h].state.Paid?
    ensures var r := Run(w, START, before).store.records[h];
      var later := Run(w, Run(w, START, before), after).store;
      && r.settledAt.Some? && r.issuedAt <= r.settledAt.value < r.expiresAt
      && h in later.records && later.records[h] == r
  {
    var s := Run(w, START, before);
    LaterInv(w, before, after);
    assert PaidBy(w, AnswersIn(before), s.store.records[h], s.payments[h]);
  }

  /** Paid invoices and settling txids are in one-to-one correspondence. */
  lemma PaidOneToOne(w: World, events: seq<Event>, h: Text, t: Text)
    requires LegalRun(w, events)
    ensures var m := Run(w, START, events).store;
      t in m.txidToInvoice && m.txidToInvoice[t] == h <==>
        h in m.records && m.records[h].state.Paid? && m.records[h].settledTxid == Some(t)
  {
    ReachableInv(w, events);
    var m := Run(w, START, events).store;
    assert Matched(m);
  }

  // ---------- Conservation of money ----------

  datatype Outpoint = Outpoint(txid: Text, index: nat)

  function PointOf(p: Payment): Outpoint { Outpoint(Lower(p.txid), p.index) }

  function SatsAt(w: World, o: Outpoint): nat {
    if o.index < |w.chain(o.txid)| then w.chain(o.txid)[o.index].sats else 0
  }

  function PaidSet(m: Mem): set<Text> { set h | h in m.records && m.records[h].state.Paid? }

  function Points(s: Sys): set<Outpoint> { set h | h in s.payments :: PointOf(s.payments[h]) }

  function AmountOf(m: Mem): Text -> nat { h => if h in m.records then m.records[h].amountSats else 0 }

  function PointFor(payments: map<Text, Payment>): Text -> Outpoint {
    h => if h in payments then PointOf(payments[h]) else Outpoint([], 0)
  }

  lemma PaymentPays(w: World, seen: set<Tx>, s: Sys, h: Text)
    requires Inv(w, seen, s) && h in s.payments
    ensures h in s.store.records && s.store.records[h].amountSats == SatsAt(w, PointOf(s.payments[h]))
  {
    assert PaidBy(w, seen, s.store.records[h], s.payments[h]);
  }

  lemma LowerLower(t: Text)
    ensures Lower(Lower(t)) == Lower(t)
  {}

  lemma PointsDistinct(w: World, seen: set<Tx>, s: Sys, g: Text, h: Text)
    requires Inv(w, seen, s) && g in s.payments && h in s.payments && PointOf(s.payments[g]) == PointOf(s.payments[h])
    ensures g == h
  {
    assert PaidBy(w, seen, s.store.records[g], s.payments[g]) && PaidBy(w, seen, s.store.records[h], s.payments[h]);
    assert Matched(s.store);
  }

  function SatsOn(w: World): Outpoint -> nat { o => SatsAt(w, o) }

  lemma ImageIsPoints(w: World, seen: set<Tx>, s: Sys)
    requires Backed(w, seen, s.store, s.payments)
    ensures IsImage(Points(s), PaidSet(s.store), PointFor(s.payments))
  {
    assert PaidSet(s.store) == s.payments.Keys;
    forall o | o in Points(s) ensures exists h | h in PaidSet(s.store) :: PointFor(s.payments)(h) == o {
      var h :| h in s.payments && PointOf(s.payments[h]) == o;
      assert PointFor(s.payments)(h) == o;
    }
  }

  lemma PaidInPayments(w: World, seen: set<Tx>, s: Sys, h: Text)
    requires Inv(w, seen, s) && h in PaidSet(s.store)
    ensures h in s.payments && PointFor(s.payments)(h) == PointOf(s.payments[h])
    ensures AmountOf(s.store)(h) == SatsOn(w)(PointFor(s.payments)(h))
  {
    PaymentPays(w, seen, s, h);
  }

  lemma PaidImage(w: World, seen: set<Tx>, s: Sys)
    requires Inv(w, seen, s)
    ensures forall h | h in PaidSet(s.store) :: AmountOf(s.store)(h) == SatsOn(w)(PointFor(s.payments)(h))
  {
    forall h | h in PaidSet(s.store) ensures AmountOf(s.store)(h) == SatsOn(w)(PointFor(s.payments)(h)) {
      PaidInPayments(w, seen, s, h);
    }
  }

  lemma PaidImageDistinct(w: World, seen: set<Tx>, s: Sys, g: Text, h: Text)
    requires Inv(w, seen, s) && g in PaidSet(s.store) && h in PaidSet(s.store)
    requires PointFor(s.payments)(g) == PointFor(s.payments)(h)
    ensures g == h
  {
    PaidInPayments(w, seen, s, g);
    PaidInPayments(w, seen, s, h);
    PointsDistinct(w, seen, s, g, h);
  }

  ghost predicate Carries(paid: set<Text>, amount: Text -> nat, image: Text -> Outpoint, at: Outpoint -> nat) {
    && (forall h | h in paid :: amount(h) == at(image(h)))
    && (forall g, h | g in paid && h in paid && image(g) == image(h) :: g == h)
  }

  lemma CarriesSums(paid: set<Text>, amount: Text -> nat, image: Text -> Outpoint, at: Outpoint -> nat,
      points: set<Outpoint>)
    requires Carries(paid, amount, image, at)
    requires IsImage(points, paid, image)
    ensures Sum(paid, amount) == Sum(points, at) && |points| == |paid|
  {
    SumImage(paid, amount, image, at, points);
  }

  lemma PaidCarries(w: World, seen: set<Tx>, s: Sys)
    requires Inv(w, seen, s)
    ensures Carries(PaidSet(s.store), AmountOf(s.store), PointFor(s.payments), SatsOn(w))
  {
    PaidImage(w, seen, s);
    forall g, h | g in PaidSet(s.store) && h in PaidSet(s.store) && PointFor(s.payments)(g) == PointFor(s.payments)(h)
      ensures g == h
    {
      PaidImageDistinct(w, seen, s, g, h);
    }
  }

  lemma AmountsMatch(w: World, seen: set<Tx>, s: Sys)
    requires Inv(w, seen, s)
    ensures Sum(PaidSet(s.store), AmountOf(s.store)) == Sum(Points(s), SatsOn(w))
    ensures |Points(s)| == |PaidSet(s.store)|
  {
    PaidCarries(w, seen, s);
    ImageIsPoints(w, seen, s);
    CarriesSums(PaidSet(s.store), AmountOf(s.store), PointFor(s.payments), SatsOn(w), Points(s));
  }

  /** tx is the transaction of the outpoint, is confirmed or final, was first seen, or else mined, at
      most ten seconds before the invoice, and its output pays the record exactly, without tokens. */
  ghost predicate PaidWith(w: World, r: Record, o: Outpoint, tx: Tx) {
    && r.settledTxid == Some(o.txid) && Lower(tx.txid) == o.txid && tx.outputs == w.chain(o.txid)
    && (tx.block.Some? || tx.isFinal) && tx.timeFirstSeen >= 0
    && (tx.timeFirstSeen > 0 ==> tx.timeFirstSeen >= r.issuedAt - 10)
    && (tx.timeFirstSeen == 0 ==> tx.block.Some? && tx.block.value.timestamp >= r.issuedAt - 10)
    && o.index < |tx.outputs| && w.scriptOf(r.payTo).Some?
    && Lower(tx.outputs[o.index].script) == Lower(w.scriptOf(r.payTo).value)
    && !tx.outputs[o.index].hasToken && tx.outputs[o.index].sats == r.amountSats
  }

  /** The source answered, at a step of the run, with a transaction that pays the record there. */
  ghost predicate PaidFromRun(w: World, events: seq<Event>, r: Record, o: Outpoint) {
    r.state.Paid? && exists tx :: Answered(events, tx) && PaidWith(w, r, o, tx)
  }

  ghost predicate PaysInvoice(w: World, events: seq<Event>, m: Mem, o: Outpoint) {
    exists h | h in m.records :: PaidFromRun(w, events, m.records[h], o)
  }

  lemma PaymentBacks(w: World, events: seq<Event>, s: Sys, h: Text)
    requires Inv(w, AnswersIn(events), s) && h in s.payments
    ensures h in s.store.records && PaidFromRun(w, events, s.store.records[h], PointOf(s.payments[h]))
  {
    var p, r := s.payments[h], s.store.records[h];
    assert PaidBy(w, AnswersIn(events), r, p);
    LowerLower(p.txid);
    assert Answered(events, p.tx) && PaidWith(w, r, PointOf(p), p.tx);
  }

  lemma PaymentAnswered(w: World, events: seq<Event>, s: Sys, o: Outpoint)
    requires Inv(w, AnswersIn(events), s) && o in Points(s)
    ensures PaysInvoice(w, events, s.store, o)
  {
    var h :| h in s.payments && PointOf(s.payments[h]) == o;
    PaymentBacks(w, events, s, h);
  }

  /** Every paid invoice of a run was paid by a transaction that the source answered with during the
      run, confirmed or final and inside the temporal fence. */
  lemma PaidInvoiceBacked(w: World, events: seq<Event>, h: Text)
    requires LegalRun(w, events)
    requires var m := Run(w, START, events).store; h in m.records && m.records[h].state.Paid?
    ensures exists o :: PaidFromRun(w, events, Run(w, START, events).store.records[h], o)
  {
    ReachableInv(w, events);
    PaymentBacks(w, events, Run(w, START, events), h);
  }

  /** In every reachable state the amounts of the paid invoices add up to the value of as many
      distinct chain outputs, each of which pays one of these invoices exactly, without tokens,
      in a transaction that the source answered with during the run, confirmed or final and
      observed no earlier than the fence allows. */
  lemma MoneyConserved(w: World, events: seq<Event>)
    requires LegalRun(w, events)
    ensures var s := Run(w, START, events);
      && Sum(PaidSet(s.store), AmountOf(s.store)) == Sum(Points(s), SatsOn(w))
      && |Points(s)| == |PaidSet(s.store)|
      && forall o | o in Points(s) :: PaysInvoice(w, events, s.store, o)
  {
    var s := Run(w, START, events);
    ReachableInv(w, events);
    AmountsMatch(w, AnswersIn(events), s);
    forall o | o in Points(s) ensures PaysInvoice(w, events, s.store, o) {
      PaymentAnswered(w, events, s, o);
    }
  }

  // ---------- The interleaved verifier against the sequential one ----------

  /** The only visible trace of an interleaving: the invoice was paid with another txid while
      this verifier waited, and its own txid has settled some third invoice. */
  predicate LateReuse(store: Mem, claim: Claim) {
    && claim.invoiceHash in store.records && store.records[claim.invoiceHash].state.Paid?
    && store.records[claim.invoiceHash].settledTxid != Some(claim.txid)
    && claim.txid in store.txidToInvoice
  }

  /** A commit that finds the invoice paid by another transaction. */
  lemma LateCommit(w: World, m: Mem, c: Claim, now: int, i: nat, tx: Tx)
    requires Matched(m) && ValidClaim(c) && c.invoiceHash in m.records
    requires var r := m.records[c.invoiceHash];
      r.state.Paid? && r.settledTxid != Some(c.txid) && ClockCheck(c, r, now) == Some(TxidConflict)
    ensures Verify(w.scriptOf, m, c, now, Found(tx)) == (m, Refused(TxidConflict))
    ensures var (m', result) := CommitPaid(m, c.invoiceHash, c.txid, now);
      && m' == m
      && CommitOutcome(result, i, tx) == Refused(if c.txid in m.txidToInvoice then TxidReusedCode else TxidConflict)
  {
    LowerHash(c.txid);
  }

  lemma PlainCommit(w: World, m: Mem, c: Claim, now: int, i: nat, tx: Tx)
    requires c.invoiceHash in m.records && ClockCheck(c, m.records[c.invoiceHash], now).None?
    requires Inspect(w.scriptOf, c, m.records[c.invoiceHash], Found(tx)) == Ok(i)
    ensures var (m', result) := CommitPaid(m, c.invoiceHash, c.txid, now);
      Verify(w.scriptOf, m, c, now, Found(tx)) == (m', CommitOutcome(result, i, tx))
  {}

  /** In every reachable state, a verifier that reaches its commit leaves the store as if it had
      run alone at that moment, and gives the same answer, except that a late reuse is reported
      as TXID_REUSED where the uninterrupted run reports TXID_CONFLICT. */
  lemma CommitIsSerial(w: World, events: seq<Event>, id: nat)
    requires LegalRun(w, events)
    requires var s := Run(w, START, events); id in s.procs && s.procs[id].Ready?
    ensures var s := Run(w, START, events);
      var p := s.procs[id];
      var alone := Verify(w.scriptOf, s.store, p.claim, p.now, Found(p.tx));
      var answer := CommitStep(s, id).procs[id].outcome;
      && CommitStep(s, id).store == alone.0
      && (answer == alone.1 <==> !LateReuse(s.store, p.claim))
      && (answer != alone.1 ==> answer == Refused(TxidReusedCode) && alone.1 == Refused(TxidConflict))
  {
    ReachableInv(w, events);
    CommitSerial(w, AnswersIn(events), Run(w, START, events), id);
  }

  lemma CommitSerial(w: World, seen: set<Tx>, s: Sys, id: nat)
    requires Inv(w, seen, s) && id in s.procs && s.procs[id].Ready?
    ensures var p := s.procs[id];
      var alone := Verify(w.scriptOf, s.store, p.claim, p.now, Found(p.tx));
      var answer := CommitStep(s, id).procs[id].outcome;
      && CommitStep(s, id).store == alone.0
      && (answer == alone.1 <==> !LateReuse(s.store, p.claim))
      && (answer != alone.1 ==> answer == Refused(TxidReusedCode) && alone.1 == Refused(TxidConflict))
  {
    var p := s.procs[id];
    assert ProcOk(w, seen, s.store, p);
    var r := s.store.records[p.claim.invoiceHash];
    if r.state.Paid? && r.settledTxid != Some(p.claim.txid) {
      LateCommit(w, s.store, p.claim, p.now, p.index, p.tx);
    } else {
      SameScan(w.scriptOf, p.claim, p.invoice, r, Found(p.tx));
      PlainCommit(w, s.store, p.claim, p.now, p.index, p.tx);
    }
  }

  lemma SameScan(scriptOf: ScriptOf, c: Claim, r: Record, t: Record, f: Fetched)
    requires SameTerms(r, t)
    ensures Inspect(scriptOf, c, r, f) == Inspect(scriptOf, c, t, f)
  {}

  /** The steps of one verifier, uninterrupted, are the sequential procedure. */
  lemma SerialIsRun(w: World, s: Sys, id: nat, c: Claim, now: int, f: Fetched)
    requires id !in s.procs
    ensures var alone := Verify(w.scriptOf, s.store, c, now, f);
      var s' := Run(w, s, [Arrive(id, c), Lookup(id), ReadClock(id, now), Fetch(id, f), Commit(id)]);
      s'.store == alone.0 && s'.procs == s.procs[id := Done(c, alone.1)]
  {
    var s1 := Step(w, s, Arrive(id, c));
    var s2 := Step(w, s1, Lookup(id));
    var s3 := Step(w, s2, ReadClock(id, now));
    var s4 := Step(w, s3, Fetch(id, f));
    var s5 := Step(w, s4, Commit(id));
    RunFive(w, s, Arrive(id, c), Lookup(id), ReadClock(id, now), Fetch(id, f), Commit(id));
    assert s5.procs == s.procs[id := s5.procs[id]];
  }

  lemma RunFive(w: World, s: Sys, a: Event, b: Event, c: Event, d: Event, e: Event)
    ensures Run(w, s, [a, b, c, d, e]) == Step(w, Step(w, Step(w, Step(w, Step(w, s, a), b), c), d), e)
  {
    assert [a, b, c, d, e][1..] == [b, c, d, e] && [b, c, d, e][1..] == [c, d, e];
    assert [c, d, e][1..] == [d, e] && [d, e][1..] == [e] && [e][1..] == [];
    calc {
      Run(w, s, [a, b, c, d, e]);
      Run(w, Step(w, s, a), [b, c, d, e]);
      Run(w, Step(w, Step(w, s, a), b), [c, d, e]);
      Run(w, Step(w, Step(w, Step(w, s, a), b), c), [d, e]);
      Run(w, Step(w, Step(w, Step(w, Step(w, s, a), b), c), d), [e]);
      Run(w, Step(w, Step(w, Step(w, Step(w, Step(w, s, a), b), c), d), e), []);
    }
  }
}
