/** The in-memory authoritative invoice store: its state, its operations, its invariants. */
module InvoiceStore {
  import opened Texts
  import opened Radix
  import opened Invoices

  datatype InvoiceState = Issued | Verifying | Paid

  /** An invoice record; network and scheme are fixed literals. */
  datatype Record = Record(
    invoiceHash: Text, nonce: Text, resourceHash: Text, amountSats: nat, payTo: Text,
    issuedAt: nat, expiresAt: nat, state: InvoiceState,
    settledTxid: Option<Text>, settledAt: Option<int>, derivationIndex: Option<nat>)

  datatype Params = Params(
    nonce: Text, resourceHash: Text, amountSats: int, issuedAt: int, expiresAt: int, state: InvoiceState)

  /** Foreign functions: address derivation (None when it throws) and the invoice hash. */
  datatype Env = Env(allocate: nat -> Option<Text>, id: Invoice -> Text)

  datatype IssueError =
    | NonceAlreadyUsed | PayToAlreadyUsed | DerivationIndexAlreadyUsed | InvoiceAlreadyExists
    | AllocatorFailed | InvalidInvoice

  datatype CommitResult =
    | Committed(idempotent: bool, record: Record)
    | InvoiceNotFound
    | Conflict
    | TxidReused

  /** The five maps and the counter. */
  datatype Mem = Mem(
    records: map<Text, Record>, nonceToInvoice: map<Text, Text>, txidToInvoice: map<Text, Text>,
    payToToInvoice: map<Text, Text>, indexToInvoice: map<nat, Text>, nextIndex: nat)

  const EMPTY: Mem := Mem(map[], map[], map[], map[], map[], 0)

  /** The invoice that the schema makes of the parameters, if it accepts them. */
  function ParamsInvoice(p: Params, payTo: Text): (r: Option<Invoice>)
    ensures r.Some? ==> ValidInvoice(r.value) && p.amountSats > 0 && p.issuedAt >= 0 && p.expiresAt >= 0
  {
    if p.amountSats <= 0 || p.issuedAt < 0 || p.expiresAt < 0 then None
    else
      var i := Invoice(p.resourceHash, Decimal(p.amountSats), payTo, p.nonce, p.issuedAt, p.expiresAt);
      if ValidInvoice(i) then Some(i) else None
  }

  function NewRecord(p: Params, payTo: Text, hash: Text, index: nat): Record
    requires p.amountSats >= 0 && p.issuedAt >= 0 && p.expiresAt >= 0
  {
    Record(hash, p.nonce, p.resourceHash, p.amountSats, payTo, p.issuedAt, p.expiresAt, p.state, None, None,
           Some(index))
  }

  // ---------- What the operations compute ----------

  function Issue(m: Mem, r: Record): (Mem, Result<(), IssueError>) {
    if r.invoiceHash in m.records then (m, Err(InvoiceAlreadyExists))
    else if r.nonce in m.nonceToInvoice then (m, Err(NonceAlreadyUsed))
    else if r.derivationIndex.Some? && r.payTo in m.payToToInvoice then (m, Err(PayToAlreadyUsed))
    else if r.derivationIndex.Some? && r.derivationIndex.value in m.indexToInvoice then
      (m, Err(DerivationIndexAlreadyUsed))
    else
      var indexed :=
        if r.derivationIndex.None? then m
        else
          var index := r.derivationIndex.value;
          m.(indexToInvoice := m.indexToInvoice[index := r.invoiceHash],
             nextIndex := if m.nextIndex > index then m.nextIndex else index + 1);
      (indexed.(records := m.records[r.invoiceHash := r],
                nonceToInvoice := m.nonceToInvoice[r.nonce := r.invoiceHash],
                payToToInvoice := m.payToToInvoice[r.payTo := r.invoiceHash]), Ok(()))
  }

  /** The index is taken before anything after the nonce check can fail. */
  function IssueWithAllocation(env: Env, m: Mem, p: Params): (Mem, Result<Record, IssueError>) {
    if p.nonce in m.nonceToInvoice then (m, Err(NonceAlreadyUsed))
    else
      var index := m.nextIndex;
      var burnt := m.(nextIndex := index + 1);
      match env.allocate(index)
      case None => (burnt, Err(AllocatorFailed))
      case Some(payTo) =>
        if payTo in m.payToToInvoice then (burnt, Err(PayToAlreadyUsed))
        else match ParamsInvoice(p, payTo)
          case None => (burnt, Err(InvalidInvoice))
          case Some(invoice) =>
            var hash := env.id(invoice);
            if hash in m.records then (burnt, Err(InvoiceAlreadyExists))
            else
              var r := NewRecord(p, payTo, hash, index);
              (burnt.(records := m.records[hash := r],
                      nonceToInvoice := m.nonceToInvoice[p.nonce := hash],
                      payToToInvoice := m.payToToInvoice[payTo := hash],
                      indexToInvoice := m.indexToInvoice[index := hash]), Ok(r))
  }

  function Settled(r: Record, txid: Text, paidAt: int): Record {
    r.(state := Paid, settledTxid := Some(txid), settledAt := Some(paidAt))
  }

  function CommitPaid(m: Mem, hash: Text, txid: Text, paidAt: int): (Mem, CommitResult) {
    var lower := Lower(txid);
    if hash !in m.records then (m, InvoiceNotFound)
    else if lower in m.txidToInvoice && m.txidToInvoice[lower] != hash then (m, TxidReused)
    else
      var existing := m.records[hash];
      if existing.state.Paid? then
        (m, if existing.settledTxid == Some(lower) then Committed(true, existing) else Conflict)
      else
        var updated := Settled(existing, lower, paidAt);
        (m.(records := m.records[hash := updated], txidToInvoice := m.txidToInvoice[lower := hash]),
         Committed(false, updated))
  }

  function GetByInvoiceHash(m: Mem, hash: Text): Option<Record> {
    if hash in m.records then Some(m.records[hash]) else None
  }

  function Follow(m: Mem, index: map<Text, Text>, key: Text): Option<Record> {
    if key !in index || index[key] == [] then None else GetByInvoiceHash(m, index[key])
  }

  function GetBySettledTxid(m: Mem, txid: Text): Option<Record> { Follow(m, m.txidToInvoice, Lower(txid)) }

  function GetByPayTo(m: Mem, payTo: Text): Option<Record> { Follow(m, m.payToToInvoice, payTo) }

  // ---------- Invariants ----------

  /** Records are filed under their hash, nonces belong to one record each. */
  ghost predicate Filed(m: Mem) {
    && (forall h | h in m.records ::
          && m.records[h].invoiceHash == h
          && m.records[h].nonce in m.nonceToInvoice && m.nonceToInvoice[m.records[h].nonce] == h)
    && (forall n | n in m.nonceToInvoice ::
          m.nonceToInvoice[n] in m.records && m.records[m.nonceToInvoice[n]].nonce == n)
  }

  /** Paid records and bound txids are in one-to-one correspondence. */
  ghost predicate Matched(m: Mem) {
    && (forall h | h in m.records ::
          && (m.records[h].state.Paid? <==> m.records[h].settledTxid.Some?)
          && (m.records[h].state.Paid? <==> m.records[h].settledAt.Some?)
          && (m.records[h].state.Paid? ==>
                m.records[h].settledTxid.value in m.txidToInvoice
                && m.txidToInvoice[m.records[h].settledTxid.value] == h))
    && (forall t | t in m.txidToInvoice ::
          && m.txidToInvoice[t] in m.records
          && m.records[m.txidToInvoice[t]].settledTxid == Some(t))
  }

  ghost predicate Consistent(m: Mem) { Filed(m) && Matched(m) }

  /** A record that has not been settled, as the middleware issues them. */
  predicate Unsettled(r: Record) { !r.state.Paid? && r.settledTxid.None? && r.settledAt.None? }

  /** Every record of m is still there; a paid one is unchanged; another one kept its terms. */
  ghost predicate Extends(m: Mem, m': Mem) {
    forall h | h in m.records ::
      && h in m'.records
      && (m.records[h].state.Paid? ==> m'.records[h] == m.records[h])
      && SameTerms(m.records[h], m'.records[h])
  }

  /** The fields that settlement never touches. */
  predicate SameTerms(r: Record, s: Record) {
    s.(state := r.state, settledTxid := r.settledTxid, settledAt := r.settledAt) == r
  }

  /** m' is m with one fresh unsettled record filed. */
  ghost predicate Adds(m: Mem, m': Mem, r: Record) {
    && r.invoiceHash !in m.records && r.nonce !in m.nonceToInvoice && Unsettled(r)
    && m'.records == m.records[r.invoiceHash := r]
    && m'.nonceToInvoice == m.nonceToInvoice[r.nonce := r.invoiceHash]
    && m'.txidToInvoice == m.txidToInvoice
  }

  lemma AddFiled(m: Mem, m': Mem, r: Record)
    requires Filed(m) && Adds(m, m', r)
    ensures Filed(m')
  {
    forall h | h in m'.records
      ensures m'.records[h].invoiceHash == h
      ensures m'.records[h].nonce in m'.nonceToInvoice && m'.nonceToInvoice[m'.records[h].nonce] == h
    {
      if h != r.invoiceHash {
        assert m'.records[h] == m.records[h];
      }
    }
    forall n | n in m'.nonceToInvoice
      ensures m'.nonceToInvoice[n] in m'.records && m'.records[m'.nonceToInvoice[n]].nonce == n
    {
      if n != r.nonce {
        assert m'.nonceToInvoice[n] == m.nonceToInvoice[n];
      }
    }
  }

  lemma AddMatched(m: Mem, m': Mem, r: Record)
    requires Matched(m) && Adds(m, m', r)
    ensures Matched(m')
  {
    forall t | t in m'.txidToInvoice
      ensures m'.txidToInvoice[t] in m'.records && m'.records[m'.txidToInvoice[t]].settledTxid == Some(t)
    {
      assert t in m.txidToInvoice;
    }
  }

  lemma AddKeeps(m: Mem, m': Mem, r: Record)
    requires Consistent(m) && Adds(m, m', r)
    ensures Consistent(m') && Extends(m, m')
  {
    AddFiled(m, m', r);
    AddMatched(m, m', r);
  }

  lemma ExtendsReflexive(m: Mem, m': Mem)
    requires m'.records == m.records
    ensures Extends(m, m')
  {}

  lemma IssueKeeps(m: Mem, r: Record)
    requires Consistent(m) && Unsettled(r)
    ensures Consistent(Issue(m, r).0) && Extends(m, Issue(m, r).0)
  {
    var m' := Issue(m, r).0;
    if Issue(m, r).1.Ok? {
      AddKeeps(m, m', r);
    } else {
      ExtendsReflexive(m, m');
    }
  }

  /** Whatever fails, the records and the bindings are as before. */
  lemma AllocationShape(env: Env, m: Mem, p: Params)
    requires !p.state.Paid?
    ensures var (m', result) := IssueWithAllocation(env, m, p);
      if result.Ok? then Adds(m, m', result.value)
      else m'.(nextIndex := m.nextIndex) == m
  {}

  /** Issuing makes no record paid. */
  lemma AddsUnpaid(m: Mem, m': Mem, r: Record, h: Text)
    requires Adds(m, m', r) && h in m'.records && m'.records[h].state.Paid?
    ensures h in m.records && m.records[h] == m'.records[h]
  {}

  lemma IssueUnpaid(m: Mem, r: Record, h: Text)
    requires Unsettled(r)
    requires var m' := Issue(m, r).0; h in m'.records && m'.records[h].state.Paid?
    ensures h in m.records && m.records[h].state.Paid?
  {}

  lemma AllocationUnpaid(env: Env, m: Mem, p: Params, h: Text)
    requires !p.state.Paid?
    requires var m' := IssueWithAllocation(env, m, p).0; h in m'.records && m'.records[h].state.Paid?
    ensures h in m.records && m.records[h].state.Paid?
  {
    AllocationShape(env, m, p);
    var (m', result) := IssueWithAllocation(env, m, p);
    if result.Ok? {
      AddsUnpaid(m, m', result.value, h);
    }
  }

  lemma IssueWithAllocationKeeps(env: Env, m: Mem, p: Params)
    requires Consistent(m) && !p.state.Paid?
    ensures Consistent(IssueWithAllocation(env, m, p).0) && Extends(m, IssueWithAllocation(env, m, p).0)
  {
    var (m', result) := IssueWithAllocation(env, m, p);
    AllocationShape(env, m, p);
    if result.Ok? {
      AddKeeps(m, m', result.value);
    } else {
      ExtendsReflexive(m, m');
    }
  }

  lemma CommitFiled(m: Mem, hash: Text, txid: Text, paidAt: int)
    requires Filed(m)
    ensures Filed(CommitPaid(m, hash, txid, paidAt).0)
  {
    var m' := CommitPaid(m, hash, txid, paidAt).0;
    forall h | h in m'.records
      ensures m'.records[h].invoiceHash == h
      ensures m'.records[h].nonce in m'.nonceToInvoice && m'.nonceToInvoice[m'.records[h].nonce] == h
    {
      assert m'.records[h].nonce == m.records[h].nonce;
    }
  }

  lemma CommitMatched(m: Mem, hash: Text, txid: Text, paidAt: int)
    requires Matched(m)
    ensures Matched(CommitPaid(m, hash, txid, paidAt).0)
  {
    var m' := CommitPaid(m, hash, txid, paidAt).0;
    if m' != m {
      var lower := Lower(txid);
      assert lower !in m.txidToInvoice;
      forall h | h in m'.records && h != hash ensures m'.records[h] == m.records[h] {}
      forall t | t in m'.txidToInvoice
        ensures m'.txidToInvoice[t] in m'.records && m'.records[m'.txidToInvoice[t]].settledTxid == Some(t)
      {
        if t != lower {
          assert m.records[m.txidToInvoice[t]].settledTxid == Some(t);
        }
      }
    }
  }

  lemma CommitPaidKeeps(m: Mem, hash: Text, txid: Text, paidAt: int)
    requires Consistent(m)
    ensures Consistent(CommitPaid(m, hash, txid, paidAt).0) && Extends(m, CommitPaid(m, hash, txid, paidAt).0)
  {
    CommitFiled(m, hash, txid, paidAt);
    CommitMatched(m, hash, txid, paidAt);
    CommitExtends(m, hash, txid, paidAt);
  }

  lemma CommitExtends(m: Mem, hash: Text, txid: Text, paidAt: int)
    ensures Extends(m, CommitPaid(m, hash, txid, paidAt).0)
  {
    var m' := CommitPaid(m, hash, txid, paidAt).0;
    forall h | h in m.records ensures h in m'.records && SameTerms(m.records[h], m'.records[h]) {
      assert h != hash ==> m'.records[h] == m.records[h];
    }
  }

  lemma ExtendsTransitive(a: Mem, b: Mem, c: Mem)
    requires Extends(a, b) && Extends(b, c)
    ensures Extends(a, c)
  {}

  /** A successful commit binds the invoice and the txid to each other for good: in every
      later store, repeating it answers with the same record and changes nothing, and pairing
      either of them with another partner is refused. */
  lemma CommitBinds(m: Mem, hash: Text, txid: Text, paidAt: int, later: Mem)
    requires Consistent(m) && CommitPaid(m, hash, txid, paidAt).1.Committed?
    requires Consistent(later) && Extends(CommitPaid(m, hash, txid, paidAt).0, later)
    ensures forall t: Text, at: int | Lower(t) == Lower(txid) ::
      CommitPaid(later, hash, t, at) == (later, Committed(true, CommitPaid(m, hash, txid, paidAt).1.record))
    ensures forall t: Text, at: int | Lower(t) != Lower(txid) ::
      CommitPaid(later, hash, t, at) ==
        (later, if Lower(t) in later.txidToInvoice then TxidReused else Conflict)
    ensures forall h: Text, t: Text, at: int | h in later.records && h != hash && Lower(t) == Lower(txid) ::
      CommitPaid(later, h, t, at) == (later, TxidReused)
  {
    var r := CommitPaid(m, hash, txid, paidAt).1.record;
    CommitRecorded(m, hash, txid, paidAt);
    assert later.records[hash] == r;
    BoundStays(later, hash, r, Lower(txid));
  }

  lemma CommitRecorded(m: Mem, hash: Text, txid: Text, paidAt: int)
    requires CommitPaid(m, hash, txid, paidAt).1.Committed?
    ensures var (m', result) := CommitPaid(m, hash, txid, paidAt);
      && hash in m'.records && m'.records[hash] == result.record
      && result.record.state.Paid? && result.record.settledTxid == Some(Lower(txid))
  {}

  /** What a paid record bound to the txid t makes of any further commit. */
  lemma BoundStays(later: Mem, hash: Text, r: Record, t: Text)
    requires Consistent(later) && hash in later.records && later.records[hash] == r
    requires r.state.Paid? && r.settledTxid == Some(t)
    ensures forall u: Text, at: int | Lower(u) == t :: CommitPaid(later, hash, u, at) == (later, Committed(true, r))
    ensures forall u: Text, at: int | Lower(u) != t ::
      CommitPaid(later, hash, u, at) == (later, if Lower(u) in later.txidToInvoice then TxidReused else Conflict)
    ensures forall h: Text, u: Text, at: int | h in later.records && h != hash && Lower(u) == t ::
      CommitPaid(later, h, u, at) == (later, TxidReused)
  {
    assert t in later.txidToInvoice && later.txidToInvoice[t] == hash;
    forall u: Text, at: int | Lower(u) != t
      ensures CommitPaid(later, hash, u, at) ==
        (later, if Lower(u) in later.txidToInvoice then TxidReused else Conflict)
    {
      OtherTxid(later, hash, u, at);
    }
  }

  lemma OtherTxid(later: Mem, hash: Text, u: Text, at: int)
    requires Matched(later) && hash in later.records && later.records[hash].state.Paid?
    requires later.records[hash].settledTxid != Some(Lower(u))
    ensures CommitPaid(later, hash, u, at) == (later, if Lower(u) in later.txidToInvoice then TxidReused else Conflict)
  {}

  /** Issuing keeps the correspondence of paid records and txids exactly for unsettled records:
      a record issued as PAID is not entered under its txid. */
  lemma IssueKeepsExactly(m: Mem, r: Record)
    requires Consistent(m) && Issue(m, r).1.Ok?
    ensures Consistent(Issue(m, r).0) <==> Unsettled(r)
  {
    var m' := Issue(m, r).0;
    assert m'.records[r.invoiceHash] == r && m'.txidToInvoice == m.txidToInvoice;
    if Unsettled(r) {
      IssueKeeps(m, r);
    } else if r.settledTxid.Some? && r.settledTxid.value in m.txidToInvoice {
      assert m.txidToInvoice[r.settledTxid.value] in m.records;
    }
  }

  lemma AllocationKeepsExactly(env: Env, m: Mem, p: Params)
    requires Consistent(m) && IssueWithAllocation(env, m, p).1.Ok?
    ensures Consistent(IssueWithAllocation(env, m, p).0) <==> !p.state.Paid?
  {
    var (m', result) := IssueWithAllocation(env, m, p);
    assert m'.records[result.value.invoiceHash] == result.value;
    if !p.state.Paid? {
      IssueWithAllocationKeeps(env, m, p);
    }
  }

  // ---------- What is recorded, in the terms of the caller ----------

  /** The record is filed under the hash of its own terms. */
  ghost predicate TermsHashed(env: Env, r: Record) {
    r.invoiceHash ==
      env.id(Invoice(r.resourceHash, Decimal(r.amountSats), r.payTo, r.nonce, r.issuedAt, r.expiresAt))
  }

  /** An issuance records the terms it was given, under their hash, with the next index and its
      address. */
  lemma IssuedTerms(env: Env, m: Mem, p: Params)
    requires IssueWithAllocation(env, m, p).1.Ok?
    ensures var (m', result) := IssueWithAllocation(env, m, p);
      var r := result.value;
      && r.nonce == p.nonce && r.resourceHash == p.resourceHash && r.amountSats == p.amountSats
      && r.issuedAt == p.issuedAt && r.expiresAt == p.expiresAt && r.state == p.state
      && r.settledTxid == None && r.settledAt == None
      && r.derivationIndex == Some(m.nextIndex) && Some(r.payTo) == env.allocate(m.nextIndex)
      && r.invoiceHash ==
           env.id(Invoice(r.resourceHash, Decimal(r.amountSats), r.payTo, r.nonce, r.issuedAt, r.expiresAt))
      && m' == Mem(
           m.records[r.invoiceHash := r], m.nonceToInvoice[r.nonce := r.invoiceHash], m.txidToInvoice,
           m.payToToInvoice[r.payTo := r.invoiceHash], m.indexToInvoice[m.nextIndex := r.invoiceHash], m.nextIndex + 1)
  {}

  /** The parameters and the address make a schema-valid invoice. */
  ghost predicate Acceptable(p: Params, payTo: Text) {
    p.amountSats > 0 && 0 <= p.issuedAt && 0 <= p.expiresAt
    && ValidInvoice(Invoice(p.resourceHash, Decimal(p.amountSats), payTo, p.nonce, p.issuedAt, p.expiresAt))
  }

  ghost function InvoiceFor(p: Params, payTo: Text): Invoice
    requires Acceptable(p, payTo)
  {
    Invoice(p.resourceHash, Decimal(p.amountSats), payTo, p.nonce, p.issuedAt, p.expiresAt)
  }

  lemma ParamsExact(p: Params, payTo: Text)
    ensures ParamsInvoice(p, payTo) == if Acceptable(p, payTo) then Some(InvoiceFor(p, payTo)) else None
  {}

  /** Of several obstacles the first one in this order is reported; all but a taken nonce burn the
      index. */
  lemma IssueRefusal(env: Env, m: Mem, p: Params)
    ensures var (m', result) := IssueWithAllocation(env, m, p);
      var payTo := env.allocate(m.nextIndex);
      && (if p.nonce in m.nonceToInvoice then result == Err(NonceAlreadyUsed)
          else if payTo.None? then result == Err(AllocatorFailed)
          else if payTo.value in m.payToToInvoice then result == Err(PayToAlreadyUsed)
          else if !Acceptable(p, payTo.value) then result == Err(InvalidInvoice)
          else if env.id(InvoiceFor(p, payTo.value)) in m.records then result == Err(InvoiceAlreadyExists)
          else result.Ok?)
      && (result.Err? ==> m' == m.(nextIndex := if p.nonce in m.nonceToInvoice then m.nextIndex else m.nextIndex + 1))
  {
    if env.allocate(m.nextIndex).Some? {
      ParamsExact(p, env.allocate(m.nextIndex).value);
    }
  }

  /** Issuing a finished record: what it files, and which clash refuses it. */
  lemma IssueExact(m: Mem, r: Record)
    ensures var (m', result) := Issue(m, r);
      && (result == Err(InvoiceAlreadyExists) <==> r.invoiceHash in m.records)
      && (result == Err(NonceAlreadyUsed) <==> r.invoiceHash !in m.records && r.nonce in m.nonceToInvoice)
      && (result == Err(PayToAlreadyUsed) <==>
            && r.invoiceHash !in m.records && r.nonce !in m.nonceToInvoice
            && r.derivationIndex.Some? && r.payTo in m.payToToInvoice)
      && (result == Err(DerivationIndexAlreadyUsed) <==>
            && r.invoiceHash !in m.records && r.nonce !in m.nonceToInvoice
            && r.derivationIndex.Some? && r.payTo !in m.payToToInvoice && r.derivationIndex.value in m.indexToInvoice)
      && (result.Err? ==> m' == m && result.error !in {AllocatorFailed, InvalidInvoice})
      && (result.Ok? ==>
            && m'.records == m.records[r.invoiceHash := r]
            && m'.nonceToInvoice == m.nonceToInvoice[r.nonce := r.invoiceHash]
            && m'.payToToInvoice == m.payToToInvoice[r.payTo := r.invoiceHash]
            && m'.txidToInvoice == m.txidToInvoice
            && (r.derivationIndex.None? ==> m'.indexToInvoice == m.indexToInvoice && m'.nextIndex == m.nextIndex)
            && (r.derivationIndex.Some? ==>
                  && m'.indexToInvoice == m.indexToInvoice[r.derivationIndex.value := r.invoiceHash]
                  && m'.nextIndex >= m.nextIndex && m'.nextIndex > r.derivationIndex.value
                  && (m'.nextIndex == m.nextIndex || m'.nextIndex == r.derivationIndex.value + 1)))
  {}

  /** Settling: what it writes, and which refusal it gives. */
  lemma CommitExact(m: Mem, hash: Text, txid: Text, paidAt: int)
    ensures var (m', result) := CommitPaid(m, hash, txid, paidAt);
      && (result == InvoiceNotFound <==> hash !in m.records)
      && (result == TxidReused <==>
            hash in m.records && Lower(txid) in m.txidToInvoice && m.txidToInvoice[Lower(txid)] != hash)
      && (result == Conflict <==>
            && hash in m.records && (Lower(txid) in m.txidToInvoice ==> m.txidToInvoice[Lower(txid)] == hash)
            && m.records[hash].state.Paid? && m.records[hash].settledTxid != Some(Lower(txid)))
      && (!result.Committed? || result.idempotent ==> m' == m)
      && (result.Committed? ==> (result.idempotent <==> m.records[hash].state.Paid?))
      && (result.Committed? && result.idempotent ==> result.record == m.records[hash])
      && (result.Committed? && !result.idempotent ==>
            && result.record == m.records[hash].(state := Paid, settledTxid := Some(Lower(txid)),
                                                 settledAt := Some(paidAt))
            && m' == m.(records := m.records[hash := result.record],
                        txidToInvoice := m.txidToInvoice[Lower(txid) := hash]))
  {}

  /** The lookups: by hash, by lower-cased txid, by address. */
  lemma LookupsExact(m: Mem, key: Text, r: Record)
    ensures GetByInvoiceHash(m, key) == Some(r) <==> key in m.records && m.records[key] == r
    ensures GetBySettledTxid(m, key) == Some(r) <==>
      && Lower(key) in m.txidToInvoice && m.txidToInvoice[Lower(key)] != []
      && m.txidToInvoice[Lower(key)] in m.records && m.records[m.txidToInvoice[Lower(key)]] == r
    ensures GetByPayTo(m, key) == Some(r) <==>
      && key in m.payToToInvoice && m.payToToInvoice[key] != []
      && m.payToToInvoice[key] in m.records && m.records[m.payToToInvoice[key]] == r
  {}
}
