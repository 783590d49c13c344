/** The two invoice stores answer alike: the five maps and the counter are the indexes of the
    table, with exactly two exceptions, both characterized. */
module StoreSimulation {
  import opened Texts
  import opened Radix
  import opened Invoices
  import opened InvoiceStore
  import opened SqlStore

  // ---------- Hypotheses on foreign code ----------

  ghost predicate GoodEnv(env: Env) {
    && (forall i: nat, j: nat :: env.allocate(i).Some? && env.allocate(i) == env.allocate(j) ==> i == j)
    && (forall invoice: Invoice :: IsHash(env.id(invoice)))
  }

  function InvoiceOf(r: Record): Invoice {
    Invoice(r.resourceHash, Decimal(r.amountSats), r.payTo, r.nonce, r.issuedAt, r.expiresAt)
  }

  /** The invoice that an issuance would construct at the next index. */
  function Prospect(env: Env, m: Mem, p: Params): Option<Invoice> {
    match env.allocate(m.nextIndex)
    case None => None
    case Some(payTo) => ParamsInvoice(p, payTo)
  }

  /** The invoice to be issued does not collide with a recorded one. */
  predicate CollisionFree(env: Env, m: Mem, p: Params) {
    Prospect(env, m, p).Some? ==>
      var invoice := Prospect(env, m, p).value;
      env.id(invoice) in m.records ==> InvoiceOf(m.records[env.id(invoice)]) == invoice
  }

  // ---------- The relation ----------

  /** Every record was allocated: its index is below the counter and owns its address. */
  ghost predicate Allocated(env: Env, m: Mem) {
    && (forall h | h in m.records ::
          && h != []
          && m.records[h].derivationIndex.Some? && m.records[h].derivationIndex.value < m.nextIndex
          && env.allocate(m.records[h].derivationIndex.value) == Some(m.records[h].payTo)
          && m.records[h].payTo in m.payToToInvoice && m.payToToInvoice[m.records[h].payTo] == h)
    && (forall a | a in m.payToToInvoice ::
          m.payToToInvoice[a] in m.records && m.records[m.payToToInvoice[a]].payTo == a)
  }

  /** Every row is a record. */
  ghost predicate RowsFiled(m: Mem, t: Table) {
    forall i | 0 <= i < |t| :: RowFiled(m, t[i])
  }

  predicate RowFiled(m: Mem, row: Row) {
    row.invoiceHash in m.records && m.records[row.invoiceHash] == RowToRecord(row)
  }

  /** Every record is a row. */
  ghost predicate RecordsRowed(m: Mem, t: Table) {
    forall h | h in m.records :: HasRow(t, h)
  }

  predicate HasRow(t: Table, h: Text) { exists i | 0 <= i < |t| :: t[i].invoiceHash == h }

  ghost predicate SameRecords(m: Mem, t: Table) { RowsFiled(m, t) && RecordsRowed(m, t) }

  ghost predicate Related(env: Env, m: Mem, t: Table) {
    Consistent(m) && Allocated(env, m) && SameRecords(m, t) && m.nextIndex == NextIndex(t)
  }

  // ---------- Lookups ----------

  lemma RowAt(m: Mem, t: Table, hash: Text) returns (i: nat)
    requires SameRecords(m, t) && hash in m.records
    ensures i < |t| && t[i].invoiceHash == hash && RowToRecord(t[i]) == m.records[hash]
  {
    assert HasRow(t, hash);
    i :| 0 <= i < |t| && t[i].invoiceHash == hash;
    assert RowFiled(m, t[i]);
  }

  lemma HashLookup(m: Mem, t: Table, hash: Text)
    requires SameRecords(m, t)
    ensures SelectRecord(t, ByHash(hash)) == GetByInvoiceHash(m, hash)
  {
    if hash in m.records {
      var i := RowAt(m, t, hash);
      assert ByHash(hash)(t[i]);
    }
  }

  function TxidOwner(m: Mem, txid: Text): Option<Record> {
    if txid in m.txidToInvoice && m.txidToInvoice[txid] in m.records
    then Some(m.records[m.txidToInvoice[txid]]) else None
  }

  lemma TxidLookup(m: Mem, t: Table, txid: Text)
    requires Consistent(m) && SameRecords(m, t)
    ensures SelectRecord(t, ByTxid(txid)) == TxidOwner(m, txid)
  {
    if txid in m.txidToInvoice {
      var i := RowAt(m, t, m.txidToInvoice[txid]);
      assert ByTxid(txid)(t[i]);
    }
    var row := Select(t, ByTxid(txid));
    if row.Some? {
      var i :| 0 <= i < |t| && t[i] == row.value;
      assert RowFiled(m, t[i]);
    }
  }

  lemma PayToLookup(env: Env, m: Mem, t: Table, payTo: Text)
    requires Allocated(env, m) && SameRecords(m, t)
    ensures SelectRecord(t, ByPayTo(payTo)) == GetByPayTo(m, payTo)
  {
    if payTo in m.payToToInvoice {
      var i := RowAt(m, t, m.payToToInvoice[payTo]);
      assert ByPayTo(payTo)(t[i]);
    }
    var row := Select(t, ByPayTo(payTo));
    if row.Some? {
      var i :| 0 <= i < |t| && t[i] == row.value;
      assert RowFiled(m, t[i]);
    }
  }

  // ---------- Issuance ----------

  lemma FreshAddress(env: Env, m: Mem, payTo: Text)
    requires GoodEnv(env) && Allocated(env, m) && env.allocate(m.nextIndex) == Some(payTo)
    ensures payTo !in m.payToToInvoice
    ensures forall h | h in m.records :: m.records[h].payTo != payTo
  {
    forall h | h in m.records ensures m.records[h].payTo != payTo {
      var i := m.records[h].derivationIndex.value;
      assert env.allocate(i) == env.allocate(m.nextIndex) ==> i == m.nextIndex;
    }
  }

  lemma FreshHash(env: Env, m: Mem, p: Params)
    requires GoodEnv(env) && Allocated(env, m) && CollisionFree(env, m, p) && Prospect(env, m, p).Some?
    ensures env.id(Prospect(env, m, p).value) !in m.records
  {
    FreshAddress(env, m, env.allocate(m.nextIndex).value);
    assert Prospect(env, m, p).value.payTo == env.allocate(m.nextIndex).value;
    forall h | h in m.records ensures InvoiceOf(m.records[h]) != Prospect(env, m, p).value {
      assert InvoiceOf(m.records[h]).payTo == m.records[h].payTo;
    }
  }

  lemma NoOtherClash(m: Mem, prior: Row, row: Row)
    requires RowFiled(m, prior) && row.invoiceHash !in m.records && row.settledTxid.None?
    requires m.records[prior.invoiceHash].payTo != row.payTo && prior.derivationIndex < row.derivationIndex
    ensures !Clashes(InvoiceHash, prior, row) && !Clashes(PayTo, prior, row)
    ensures !Clashes(DerivationIndex, prior, row) && !Clashes(SettledTxid, prior, row)
  {}

  lemma NonceClash(m: Mem, t: Table, row: Row)
    requires Consistent(m) && SameRecords(m, t)
    ensures Violates(Nonce, t, row) <==> row.nonce in m.nonceToInvoice
  {
    if row.nonce in m.nonceToInvoice {
      var i := RowAt(m, t, m.nonceToInvoice[row.nonce]);
      assert Clashes(Nonce, t[i], row);
    }
    if Violates(Nonce, t, row) {
      var i :| 0 <= i < |t| && Clashes(Nonce, t[i], row);
      assert RowFiled(m, t[i]);
    }
  }

  lemma NothingElseViolated(m: Mem, t: Table, row: Row)
    requires RowsFiled(m, t)
    requires row.invoiceHash !in m.records && row.settledTxid.None? && row.derivationIndex == NextIndex(t)
    requires forall h | h in m.records :: m.records[h].payTo != row.payTo
    ensures !Violates(InvoiceHash, t, row) && !Violates(PayTo, t, row)
    ensures !Violates(DerivationIndex, t, row) && !Violates(SettledTxid, t, row)
  {
    forall i | 0 <= i < |t|
      ensures !Clashes(InvoiceHash, t[i], row) && !Clashes(PayTo, t[i], row)
      ensures !Clashes(DerivationIndex, t[i], row) && !Clashes(SettledTxid, t[i], row)
    {
      assert RowFiled(m, t[i]);
      NoOtherClash(m, t[i], row);
    }
  }

  /** With an injective allocator and no collision only the nonce can clash. */
  lemma OnlyNonceClashes(m: Mem, t: Table, row: Row)
    requires Consistent(m) && SameRecords(m, t)
    requires row.invoiceHash !in m.records && row.settledTxid.None? && row.derivationIndex == NextIndex(t)
    requires forall h | h in m.records :: m.records[h].payTo != row.payTo
    ensures Violation(t, row) == if row.nonce in m.nonceToInvoice then Some(Nonce) else None
  {
    NothingElseViolated(m, t, row);
    NonceClash(m, t, row);
  }

  lemma AppendedRecords(m: Mem, t: Table, m': Mem, row: Row)
    requires SameRecords(m, t) && row.invoiceHash !in m.records
    requires m'.records == m.records[row.invoiceHash := RowToRecord(row)]
    ensures SameRecords(m', t + [row])
  {
    var t' := t + [row];
    forall i | 0 <= i < |t'| ensures RowFiled(m', t'[i]) {
      if i < |t| {
        assert RowFiled(m, t[i]);
      }
    }
    forall h | h in m'.records ensures HasRow(t', h) {
      if h == row.invoiceHash {
        assert t'[|t|].invoiceHash == h;
      } else {
        var i := RowAt(m, t, h);
        assert t'[i].invoiceHash == h;
      }
    }
  }

  lemma NewRowRecord(p: Params, payTo: Text, hash: Text, index: nat)
    requires p.amountSats >= 0 && p.issuedAt >= 0 && p.expiresAt >= 0
    ensures RowToRecord(NewRow(p, payTo, hash, index)) == NewRecord(p, payTo, hash, index)
  {
    DecimalRoundTrip(p.amountSats);
  }

  lemma AppendedIndex(t: Table, row: Row)
    requires row.derivationIndex == NextIndex(t)
    ensures NextIndex(t + [row]) == NextIndex(t) + 1
  {
    assert (t + [row])[..|t|] == t;
  }

  /** After a successful issuance the relation holds again. */
  lemma IssuedRelated(env: Env, m: Mem, t: Table, p: Params, payTo: Text, hash: Text)
    requires GoodEnv(env) && Related(env, m, t) && !p.state.Paid?
    requires env.allocate(m.nextIndex) == Some(payTo) && ParamsInvoice(p, payTo).Some?
    requires hash == env.id(ParamsInvoice(p, payTo).value)
    requires p.nonce !in m.nonceToInvoice && payTo !in m.payToToInvoice && hash !in m.records
    ensures Related(env, IssueWithAllocation(env, m, p).0, t + [NewRow(p, payTo, hash, m.nextIndex)])
  {
    var row := NewRow(p, payTo, hash, m.nextIndex);
    IssueWithAllocationKeeps(env, m, p);
    NewRowRecord(p, payTo, hash, m.nextIndex);
    AppendedRecords(m, t, IssueWithAllocation(env, m, p).0, row);
    AppendedIndex(t, row);
    IssuedAllocated(env, m, p, payTo, hash);
  }

  lemma IssuedAllocated(env: Env, m: Mem, p: Params, payTo: Text, hash: Text)
    requires GoodEnv(env) && Consistent(m) && Allocated(env, m)
    requires env.allocate(m.nextIndex) == Some(payTo) && ParamsInvoice(p, payTo).Some?
    requires hash == env.id(ParamsInvoice(p, payTo).value)
    requires p.nonce !in m.nonceToInvoice && payTo !in m.payToToInvoice && hash !in m.records
    ensures Allocated(env, IssueWithAllocation(env, m, p).0)
  {
    var m' := IssueWithAllocation(env, m, p).0;
    var r := NewRecord(p, payTo, hash, m.nextIndex);
    assert IsHash(env.id(ParamsInvoice(p, payTo).value));
    assert m'.records == m.records[hash := r] && m'.payToToInvoice == m.payToToInvoice[payTo := hash];
    AddAllocated(env, m, m', hash, r);
  }

  lemma AddAllocated(env: Env, m: Mem, m': Mem, hash: Text, r: Record)
    requires Allocated(env, m) && hash != [] && hash !in m.records && r.payTo !in m.payToToInvoice
    requires r.derivationIndex == Some(m.nextIndex) && env.allocate(m.nextIndex) == Some(r.payTo)
    requires m'.records == m.records[hash := r] && m'.payToToInvoice == m.payToToInvoice[r.payTo := hash]
    requires m'.nextIndex == m.nextIndex + 1
    ensures Allocated(env, m')
  {
    forall h | h in m'.records && h != hash
      ensures m'.records[h] == m.records[h] && m.records[h].payTo != r.payTo
    {
      assert m.records[h].payTo in m.payToToInvoice;
    }
  }

  /** With an acceptable invoice only a taken nonce matters, to both stores alike. */
  lemma ProspectSimulates(env: Env, m: Mem, t: Table, p: Params)
    requires GoodEnv(env) && Related(env, m, t) && CollisionFree(env, m, p) && !p.state.Paid?
    requires Prospect(env, m, p).Some?
    ensures var (m', a) := IssueWithAllocation(env, m, p);
      var (t', b) := SqlIssueWithAllocation(env, t, p);
      a == b && Related(env, m', t')
  {
    var payTo, hash := env.allocate(m.nextIndex).value, env.id(Prospect(env, m, p).value);
    FreshAddress(env, m, payTo);
    FreshHash(env, m, p);
    OnlyNonceClashes(m, t, NewRow(p, payTo, hash, m.nextIndex));
    SameIssue(env, m, t, p, payTo, hash);
    if p.nonce !in m.nonceToInvoice {
      IssuedRelated(env, m, t, p, payTo, hash);
    }
  }

  lemma SameIssue(env: Env, m: Mem, t: Table, p: Params, payTo: Text, hash: Text)
    requires NextIndex(t) == m.nextIndex && env.allocate(m.nextIndex) == Some(payTo) && ParamsInvoice(p, payTo).Some?
    requires hash == env.id(ParamsInvoice(p, payTo).value) && payTo !in m.payToToInvoice && hash !in m.records
    requires Violation(t, NewRow(p, payTo, hash, m.nextIndex)) ==
      if p.nonce in m.nonceToInvoice then Some(Nonce) else None
    ensures IssueWithAllocation(env, m, p).1 == SqlIssueWithAllocation(env, t, p).1
    ensures p.nonce in m.nonceToInvoice ==>
      IssueWithAllocation(env, m, p).0 == m && SqlIssueWithAllocation(env, t, p).0 == t
    ensures p.nonce !in m.nonceToInvoice ==>
      SqlIssueWithAllocation(env, t, p).0 == t + [NewRow(p, payTo, hash, m.nextIndex)]
  {}

  /** Without one, the store in memory looks at the nonce and may burn an index. */
  lemma NoProspectDiffers(env: Env, m: Mem, t: Table, p: Params)
    requires GoodEnv(env) && Related(env, m, t) && Prospect(env, m, p).None?
    ensures var (m', a) := IssueWithAllocation(env, m, p);
      var (t', b) := SqlIssueWithAllocation(env, t, p);
      && (a == b <==> p.nonce !in m.nonceToInvoice)
      && (Related(env, m', t') <==> p.nonce in m.nonceToInvoice)
  {
    if env.allocate(m.nextIndex).Some? {
      FreshAddress(env, m, env.allocate(m.nextIndex).value);
    }
    var m', t' := IssueWithAllocation(env, m, p).0, SqlIssueWithAllocation(env, t, p).0;
    assert t' == t;
    if p.nonce in m.nonceToInvoice {
      assert m' == m;
    } else {
      assert m'.nextIndex != NextIndex(t');
    }
  }

  /** Where the two stores part: a taken nonce hides an allocator or schema failure from one
      of them only, and with a fresh nonce such a failure burns an index in one of them only. */
  lemma IssueSimulates(env: Env, m: Mem, t: Table, p: Params)
    requires GoodEnv(env) && Related(env, m, t) && CollisionFree(env, m, p) && !p.state.Paid?
    ensures var (m', a) := IssueWithAllocation(env, m, p);
      var (t', b) := SqlIssueWithAllocation(env, t, p);
      && (a == b <==> p.nonce !in m.nonceToInvoice || Prospect(env, m, p).Some?)
      && (Related(env, m', t') <==> p.nonce in m.nonceToInvoice || Prospect(env, m, p).Some?)
  {
    if Prospect(env, m, p).Some? {
      ProspectSimulates(env, m, t, p);
    } else {
      NoProspectDiffers(env, m, t, p);
    }
  }

  // ---------- Settlement ----------

  lemma UpdatedRecords(m: Mem, t: Table, m': Mem, hash: Text, txid: Text, paidAt: int)
    requires SameRecords(m, t) && hash in m.records
    requires m'.records == m.records[hash := Settled(m.records[hash], txid, paidAt)]
    ensures SameRecords(m', Update(t, hash, txid, paidAt))
  {
    var t' := Update(t, hash, txid, paidAt);
    forall i | 0 <= i < |t'| ensures RowFiled(m', t'[i]) {
      assert RowFiled(m, t[i]);
      assert t'[i] == PaidRow(t[i], hash, txid, paidAt);
    }
    forall h | h in m'.records ensures HasRow(t', h) {
      var i := RowAt(m, t, h);
      assert t'[i].invoiceHash == h;
    }
  }

  lemma {:induction false} SameIndexes(t: Table, t': Table)
    requires |t| == |t'| && forall i | 0 <= i < |t| :: t'[i].derivationIndex == t[i].derivationIndex
    ensures NextIndex(t') == NextIndex(t)
  {
    if t != [] {
      SameIndexes(t[..|t| - 1], t'[..|t| - 1]);
    }
  }

  lemma CommitWrites(m: Mem, hash: Text, txid: Text, paidAt: int)
    requires CommitPaid(m, hash, txid, paidAt).0 != m
    ensures var m' := CommitPaid(m, hash, txid, paidAt).0;
      && hash in m.records && m'.nextIndex == m.nextIndex
      && m'.records == m.records[hash := Settled(m.records[hash], Lower(txid), paidAt)]
  {}

  lemma UpdateKeepsIndex(t: Table, hash: Text, txid: Text, paidAt: int)
    ensures NextIndex(Update(t, hash, txid, paidAt)) == NextIndex(t)
  {
    SameIndexes(t, Update(t, hash, txid, paidAt));
  }

  /** The three cases of a settlement on related stores. */
  lemma ReusedAnswers(m: Mem, t: Table, hash: Text, txid: Text, paidAt: int)
    requires Consistent(m) && SameRecords(m, t)
    requires Lower(txid) in m.txidToInvoice && m.txidToInvoice[Lower(txid)] != hash
    ensures CommitPaid(m, hash, txid, paidAt) == (m, if hash in m.records then TxidReused else InvoiceNotFound)
    ensures SqlCommitPaid(t, hash, txid, paidAt) == (t, TxidReused)
  {
    TxidRowHash(m, t, Lower(txid));
  }

  lemma UnknownAnswers(m: Mem, t: Table, hash: Text, txid: Text, paidAt: int)
    requires Consistent(m) && SameRecords(m, t)
    requires hash !in m.records && Lower(txid) !in m.txidToInvoice
    ensures CommitPaid(m, hash, txid, paidAt) == (m, InvoiceNotFound)
    ensures SqlCommitPaid(t, hash, txid, paidAt) == (t, InvoiceNotFound)
  {
    HashLookup(m, t, hash);
    TxidRowHash(m, t, Lower(txid));
  }

  lemma KnownAnswers(m: Mem, t: Table, hash: Text, txid: Text, paidAt: int)
    requires Consistent(m) && SameRecords(m, t) && hash in m.records
    requires Lower(txid) in m.txidToInvoice ==> m.txidToInvoice[Lower(txid)] == hash
    ensures var (m', a) := CommitPaid(m, hash, txid, paidAt);
      SqlCommitPaid(t, hash, txid, paidAt) == (if m' == m then t else Update(t, hash, Lower(txid), paidAt), a)
  {
    HashLookup(m, t, hash);
    TxidRowHash(m, t, Lower(txid));
  }

  lemma CommitAnswers(m: Mem, t: Table, hash: Text, txid: Text, paidAt: int)
    requires Consistent(m) && SameRecords(m, t)
    ensures var (m', a) := CommitPaid(m, hash, txid, paidAt);
      var (t', b) := SqlCommitPaid(t, hash, txid, paidAt);
      && (a == b <==> hash in m.records || Lower(txid) !in m.txidToInvoice)
      && (a != b ==> a == InvoiceNotFound && b == TxidReused)
      && t' == if m' == m then t else Update(t, hash, Lower(txid), paidAt)
  {
    if Lower(txid) in m.txidToInvoice && m.txidToInvoice[Lower(txid)] != hash {
      ReusedAnswers(m, t, hash, txid, paidAt);
    } else if hash in m.records {
      KnownAnswers(m, t, hash, txid, paidAt);
    } else {
      UnknownAnswers(m, t, hash, txid, paidAt);
    }
  }

  lemma TxidRowHash(m: Mem, t: Table, txid: Text)
    requires Consistent(m) && SameRecords(m, t)
    ensures var row := Select(t, ByTxid(txid));
      && (row.Some? <==> txid in m.txidToInvoice)
      && (row.Some? ==> row.value.invoiceHash == m.txidToInvoice[txid])
  {
    TxidLookup(m, t, txid);
  }

  lemma CommitAllocated(env: Env, m: Mem, hash: Text, txid: Text, paidAt: int)
    requires Allocated(env, m)
    ensures Allocated(env, CommitPaid(m, hash, txid, paidAt).0)
  {
    var m' := CommitPaid(m, hash, txid, paidAt).0;
    forall h | h in m'.records
      ensures m'.records[h].derivationIndex == m.records[h].derivationIndex && m'.records[h].payTo == m.records[h].payTo
    {}
  }

  /** Settlement keeps the stores related; they answer alike except for an unknown invoice
      paired with a bound txid, which one store calls unknown and the other calls reused. */
  lemma CommitSimulates(env: Env, m: Mem, t: Table, hash: Text, txid: Text, paidAt: int)
    requires Related(env, m, t)
    ensures var (m', a) := CommitPaid(m, hash, txid, paidAt);
      var (t', b) := SqlCommitPaid(t, hash, txid, paidAt);
      && Related(env, m', t')
      && (a == b <==> hash in m.records || Lower(txid) !in m.txidToInvoice)
      && (a != b ==> a == InvoiceNotFound && b == TxidReused)
  {
    CommitAnswers(m, t, hash, txid, paidAt);
    if CommitPaid(m, hash, txid, paidAt).0 != m {
      CommitWrites(m, hash, txid, paidAt);
      CommitPaidKeeps(m, hash, txid, paidAt);
      CommitAllocated(env, m, hash, txid, paidAt);
      UpdatedRecords(m, t, CommitPaid(m, hash, txid, paidAt).0, hash, Lower(txid), paidAt);
      UpdateKeepsIndex(t, hash, Lower(txid), paidAt);
    }
  }

  // ---------- Runs ----------

  datatype Op =
    | IssueOp(params: Params)
    | CommitOp(hash: Text, txid: Text, paidAt: int)
    | ByHashOp(hash: Text)
    | ByTxidOp(txid: Text)
    | ByPayToOp(payTo: Text)
    | NextIndexOp

  datatype Answer =
    | IssueAnswer(issued: Result<Record, IssueError>)
    | CommitAnswer(committed: CommitResult)
    | RecordAnswer(found: Option<Record>)
    | IndexAnswer(index: nat)

  function MemStep(env: Env, m: Mem, op: Op): (Mem, Answer) {
    match op
    case IssueOp(p) => var (m', a) := IssueWithAllocation(env, m, p); (m', IssueAnswer(a))
    case CommitOp(hash, txid, paidAt) => var (m', a) := CommitPaid(m, hash, txid, paidAt); (m', CommitAnswer(a))
    case ByHashOp(hash) => (m, RecordAnswer(GetByInvoiceHash(m, hash)))
    case ByTxidOp(txid) => (m, RecordAnswer(GetBySettledTxid(m, txid)))
    case ByPayToOp(payTo) => (m, RecordAnswer(GetByPayTo(m, payTo)))
    case NextIndexOp => (m, IndexAnswer(m.nextIndex))
  }

  function SqlStep(env: Env, t: Table, op: Op): (Table, Answer) {
    match op
    case IssueOp(p) => var (t', a) := SqlIssueWithAllocation(env, t, p); (t', IssueAnswer(a))
    case CommitOp(hash, txid, paidAt) => var (t', a) := SqlCommitPaid(t, hash, txid, paidAt); (t', CommitAnswer(a))
    case ByHashOp(hash) => (t, RecordAnswer(SelectRecord(t, ByHash(hash))))
    case ByTxidOp(txid) => (t, RecordAnswer(SelectRecord(t, ByTxid(Lower(txid)))))
    case ByPayToOp(payTo) => (t, RecordAnswer(SelectRecord(t, ByPayTo(payTo))))
    case NextIndexOp => (t, IndexAnswer(NextIndex(t)))
  }

  /** The middleware issues unpaid invoices; their hashes do not collide. */
  predicate Admissible(env: Env, m: Mem, op: Op) {
    op.IssueOp? ==> !op.params.state.Paid? && CollisionFree(env, m, op.params)
  }

  /** Allocation and schema accept an issuance; a settlement does not pair an unknown invoice
      with a bound txid. */
  predicate Agreeable(env: Env, m: Mem, op: Op) {
    match op
    case IssueOp(p) => Prospect(env, m, p).Some?
    case CommitOp(hash, txid, _) => hash in m.records || Lower(txid) !in m.txidToInvoice
    case _ => true
  }

  /** One step: the stores answer alike and stay related exactly when the step is agreeable. */
  lemma StepSimulates(env: Env, m: Mem, t: Table, op: Op)
    requires GoodEnv(env) && Related(env, m, t) && Admissible(env, m, op)
    ensures var (m', a) := MemStep(env, m, op);
      var (t', b) := SqlStep(env, t, op);
      a == b && Related(env, m', t') <==> Agreeable(env, m, op)
  {
    match op
    case IssueOp(p) => IssueSimulates(env, m, t, p);
    case CommitOp(hash, txid, paidAt) => CommitSimulates(env, m, t, hash, txid, paidAt);
    case _ => LookupSimulates(env, m, t, op);
  }

  lemma LookupSimulates(env: Env, m: Mem, t: Table, op: Op)
    requires Related(env, m, t) && !op.IssueOp? && !op.CommitOp?
    ensures MemStep(env, m, op).0 == m && SqlStep(env, t, op).0 == t
    ensures MemStep(env, m, op).1 == SqlStep(env, t, op).1
  {
    match op
    case ByHashOp(hash) => HashLookup(m, t, hash);
    case ByTxidOp(txid) => TxidLookup(m, t, Lower(txid));
    case ByPayToOp(payTo) => PayToLookup(env, m, t, payTo);
    case NextIndexOp =>
  }

  function MemRun(env: Env, m: Mem, ops: seq<Op>): (Mem, seq<Answer>)
    decreases |ops|
  {
    if ops == [] then (m, [])
    else
      var (m', a) := MemStep(env, m, ops[0]);
      var (end, rest) := MemRun(env, m', ops[1..]);
      (end, [a] + rest)
  }

  function SqlRun(env: Env, t: Table, ops: seq<Op>): (Table, seq<Answer>)
    decreases |ops|
  {
    if ops == [] then (t, [])
    else
      var (t', a) := SqlStep(env, t, ops[0]);
      var (end, rest) := SqlRun(env, t', ops[1..]);
      (end, [a] + rest)
  }

  /** Every issuance of the run is schema-valid, with an address to allocate, unpaid and free of
      collisions. Settlements and lookups are arbitrary. */
  ghost predicate IssuableRun(env: Env, m: Mem, ops: seq<Op>)
    decreases |ops|
  {
    ops == [] ||
    (Admissible(env, m, ops[0]) && (ops[0].IssueOp? ==> Prospect(env, m, ops[0].params).Some?)
     && IssuableRun(env, MemStep(env, m, ops[0]).0, ops[1..]))
  }

  /** A settlement of an unknown invoice by a txid that has settled another one. */
  predicate Misdirected(m: Mem, op: Op) {
    op.CommitOp? && op.hash !in m.records && Lower(op.txid) in m.txidToInvoice
  }

  /** What the two stores answer to one operation. */
  predicate Alike(m: Mem, op: Op, a: Answer, b: Answer) {
    if Misdirected(m, op) then a == CommitAnswer(InvoiceNotFound) && b == CommitAnswer(TxidReused) else a == b
  }

  /** An issuable step keeps the stores related, and answered alike. */
  lemma IssuableStep(env: Env, m: Mem, t: Table, op: Op)
    requires GoodEnv(env) && Related(env, m, t) && Admissible(env, m, op)
    requires op.IssueOp? ==> Prospect(env, m, op.params).Some?
    ensures var (m', a) := MemStep(env, m, op);
      var (t', b) := SqlStep(env, t, op);
      Related(env, m', t') && Alike(m, op, a, b)
  {
    if op.CommitOp? {
      CommitSimulates(env, m, t, op.hash, op.txid, op.paidAt);
    } else {
      StepSimulates(env, m, t, op);
    }
  }

  /** The in-memory store before operation i of a run. */
  function MemBefore(env: Env, m: Mem, ops: seq<Op>, i: nat): Mem
    requires i <= |ops|
  {
    MemRun(env, m, ops[..i]).0
  }

  lemma MemBeforeStep(env: Env, m: Mem, ops: seq<Op>, i: nat)
    requires 0 < i <= |ops|
    ensures MemBefore(env, m, ops, i) == MemBefore(env, MemStep(env, m, ops[0]).0, ops[1..], i - 1)
  {
    assert ops[..i][0] == ops[0] && ops[..i][1..] == ops[1..][..i - 1];
  }

  lemma {:induction false} RunLengths(env: Env, m: Mem, t: Table, ops: seq<Op>)
    ensures |MemRun(env, m, ops).1| == |SqlRun(env, t, ops).1| == |ops|
    decreases |ops|
  {
    if ops != [] {
      RunLengths(env, MemStep(env, m, ops[0]).0, SqlStep(env, t, ops[0]).0, ops[1..]);
    }
  }

  lemma {:induction false} RunRelated(env: Env, m: Mem, t: Table, ops: seq<Op>)
    requires GoodEnv(env) && Related(env, m, t) && IssuableRun(env, m, ops)
    ensures Related(env, MemRun(env, m, ops).0, SqlRun(env, t, ops).0)
    decreases |ops|
  {
    if ops != [] {
      IssuableStep(env, m, t, ops[0]);
      RunRelated(env, MemStep(env, m, ops[0]).0, SqlStep(env, t, ops[0]).0, ops[1..]);
    }
  }

  /** Answer i of a run is the first one, or answer i - 1 of the rest. */
  lemma MemAnswer(env: Env, m: Mem, ops: seq<Op>, i: nat)
    requires i < |ops| == |MemRun(env, m, ops).1|
    ensures var (m', a) := MemStep(env, m, ops[0]);
      |MemRun(env, m', ops[1..]).1| == |ops| - 1
      && MemRun(env, m, ops).1[i] == if i == 0 then a else MemRun(env, m', ops[1..]).1[i - 1]
  {}

  lemma SqlAnswer(env: Env, t: Table, ops: seq<Op>, i: nat)
    requires i < |ops| == |SqlRun(env, t, ops).1|
    ensures var (t', b) := SqlStep(env, t, ops[0]);
      |SqlRun(env, t', ops[1..]).1| == |ops| - 1
      && SqlRun(env, t, ops).1[i] == if i == 0 then b else SqlRun(env, t', ops[1..]).1[i - 1]
  {}

  lemma NothingBefore(env: Env, m: Mem, ops: seq<Op>)
    ensures MemBefore(env, m, ops, 0) == m
  {
    assert ops[..0] == [];
  }

  lemma {:induction false} RunAlike(env: Env, m: Mem, t: Table, ops: seq<Op>, i: nat)
    requires GoodEnv(env) && Related(env, m, t) && IssuableRun(env, m, ops) && i < |ops|
    requires |MemRun(env, m, ops).1| == |SqlRun(env, t, ops).1| == |ops|
    ensures Alike(MemBefore(env, m, ops, i), ops[i], MemRun(env, m, ops).1[i], SqlRun(env, t, ops).1[i])
    decreases |ops|
  {
    IssuableStep(env, m, t, ops[0]);
    MemAnswer(env, m, ops, i);
    SqlAnswer(env, t, ops, i);
    if i == 0 {
      NothingBefore(env, m, ops);
    } else {
      RunAlike(env, MemStep(env, m, ops[0]).0, SqlStep(env, t, ops[0]).0, ops[1..], i - 1);
      MemBeforeStep(env, m, ops, i);
    }
  }

  lemma EmptyRelated(env: Env)
    ensures Related(env, EMPTY, [])
  {}

  /** Over every run of schema-valid issuances, settlements and lookups from empty stores, both
      give the same answer at every position, except that a misdirected settlement is an unknown
      invoice to one and a reused txid to the other; and they stay related to the end. */
  lemma StoresAgree(env: Env, ops: seq<Op>)
    requires GoodEnv(env) && IssuableRun(env, EMPTY, ops)
    ensures |MemRun(env, EMPTY, ops).1| == |SqlRun(env, [], ops).1| == |ops|
    ensures forall i | 0 <= i < |ops| ::
      Alike(MemBefore(env, EMPTY, ops, i), ops[i], MemRun(env, EMPTY, ops).1[i], SqlRun(env, [], ops).1[i])
    ensures Related(env, MemRun(env, EMPTY, ops).0, SqlRun(env, [], ops).0)
  {
    RunLengths(env, EMPTY, [], ops);
    EmptyRelated(env);
    RunRelated(env, EMPTY, [], ops);
    forall i | 0 <= i < |ops|
      ensures Alike(MemBefore(env, EMPTY, ops, i), ops[i], MemRun(env, EMPTY, ops).1[i], SqlRun(env, [], ops).1[i])
    {
      RunAlike(env, EMPTY, [], ops, i);
    }
  }

  /** A zero amount passes the nonce check and then fails: one store loses index 0 for good. */
  lemma BurntIndex(env: Env, p: Params)
    requires env.allocate(0).Some? && p.amountSats == 0
    ensures MemRun(env, EMPTY, [IssueOp(p), NextIndexOp]).1 == [IssueAnswer(Err(InvalidInvoice)), IndexAnswer(1)]
    ensures SqlRun(env, [], [IssueOp(p), NextIndexOp]).1 == [IssueAnswer(Err(InvalidInvoice)), IndexAnswer(0)]
  {
    var ops := [IssueOp(p), NextIndexOp];
    assert ops[1..] == [NextIndexOp];
    var m1 := MemStep(env, EMPTY, ops[0]).0;
    assert MemRun(env, m1, [NextIndexOp]).1 == [IndexAnswer(1)] + MemRun(env, m1, []).1;
    assert SqlStep(env, [], ops[0]) == ([], IssueAnswer(Err(InvalidInvoice)));
    assert SqlRun(env, [], [NextIndexOp]).1 == [IndexAnswer(0)] + SqlRun(env, [], []).1;
  }
}
