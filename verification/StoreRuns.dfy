/** What every run of either invoice store keeps, with no hypothesis on its operations: records and
    rows are filed under the hash of their own terms, and no UNIQUE column repeats a value. */
module StoreRuns {
  import opened Texts
  import opened Radix
  import opened Invoices
  import opened InvoiceStore
  import opened SqlStore
  import opened StoreSimulation

  // ---------- Filed under the hash of their terms ----------

  ghost predicate RecordsHashed(env: Env, m: Mem) {
    forall h | h in m.records :: m.records[h].invoiceHash == h && TermsHashed(env, m.records[h])
  }

  ghost predicate RowHashed(env: Env, row: Row) {
    row.invoiceHash ==
      env.id(Invoice(row.resourceHash, row.amountSats, row.payTo, row.nonce, row.issuedAt, row.expiresAt))
  }

  ghost predicate RowsHashed(env: Env, t: Table) { forall i | 0 <= i < |t| :: RowHashed(env, t[i]) }

  lemma MemStepHashed(env: Env, m: Mem, op: Op)
    requires RecordsHashed(env, m)
    ensures RecordsHashed(env, MemStep(env, m, op).0)
  {
    match op
    case IssueOp(p) => IssueHashed(env, m, p);
    case CommitOp(hash, txid, paidAt) => CommitHashed(env, m, hash, txid, paidAt);
    case _ =>
  }

  lemma IssueHashed(env: Env, m: Mem, p: Params)
    requires RecordsHashed(env, m)
    ensures RecordsHashed(env, IssueWithAllocation(env, m, p).0)
  {
    if IssueWithAllocation(env, m, p).1.Ok? {
      IssuedTerms(env, m, p);
    } else {
      IssueRefusal(env, m, p);
    }
  }

  lemma CommitHashed(env: Env, m: Mem, hash: Text, txid: Text, paidAt: int)
    requires RecordsHashed(env, m)
    ensures RecordsHashed(env, CommitPaid(m, hash, txid, paidAt).0)
  {
    CommitExact(m, hash, txid, paidAt);
  }

  lemma SqlStepHashed(env: Env, t: Table, op: Op)
    requires RowsHashed(env, t)
    ensures RowsHashed(env, SqlStep(env, t, op).0)
  {
    match op
    case IssueOp(p) => SqlIssueHashed(env, t, p);
    case CommitOp(hash, txid, paidAt) => SqlCommitHashed(env, t, hash, txid, paidAt);
    case _ =>
  }

  lemma SqlIssueHashed(env: Env, t: Table, p: Params)
    requires RowsHashed(env, t)
    ensures RowsHashed(env, SqlIssueWithAllocation(env, t, p).0)
  {
    if SqlIssueWithAllocation(env, t, p).1.Ok? {
      SqlIssuedTerms(env, t, p);
      var t' := SqlIssueWithAllocation(env, t, p).0;
      forall i | 0 <= i < |t'| ensures RowHashed(env, t'[i]) {
        if i < |t| {
          assert t'[..|t|][i] == t[i];
        }
      }
    } else {
      SqlIssueRefusal(env, t, p);
    }
  }

  lemma SqlCommitHashed(env: Env, t: Table, hash: Text, txid: Text, paidAt: int)
    requires RowsHashed(env, t)
    ensures RowsHashed(env, SqlCommitPaid(t, hash, txid, paidAt).0)
  {
    var t' := SqlCommitPaid(t, hash, txid, paidAt).0;
    forall i | 0 <= i < |t'| ensures RowHashed(env, t'[i]) {
      assert RowHashed(env, t[i]);
    }
  }

  lemma {:induction false} MemRunHashed(env: Env, m: Mem, ops: seq<Op>)
    requires RecordsHashed(env, m)
    ensures RecordsHashed(env, MemRun(env, m, ops).0)
    decreases |ops|
  {
    if ops != [] {
      MemStepHashed(env, m, ops[0]);
      MemRunHashed(env, MemStep(env, m, ops[0]).0, ops[1..]);
    }
  }

  lemma {:induction false} SqlRunHashed(env: Env, t: Table, ops: seq<Op>)
    requires RowsHashed(env, t)
    ensures RowsHashed(env, SqlRun(env, t, ops).0)
    decreases |ops|
  {
    if ops != [] {
      SqlStepHashed(env, t, ops[0]);
      SqlRunHashed(env, SqlStep(env, t, ops[0]).0, ops[1..]);
    }
  }

  /** After every run of issuances, settlements and lookups each record, and each row, is filed under
      the hash of the invoice with its own terms. */
  lemma FiledUnderTerms(env: Env, ops: seq<Op>)
    ensures RecordsHashed(env, MemRun(env, EMPTY, ops).0)
    ensures RowsHashed(env, SqlRun(env, [], ops).0)
  {
    MemRunHashed(env, EMPTY, ops);
    SqlRunHashed(env, [], ops);
  }

  /** A client that computes the hash of the invoice it was issued finds its record, in either store. */
  lemma IssuedFound(env: Env, m: Mem, t: Table, p: Params, payTo: Text)
    requires p.amountSats >= 0 && p.issuedAt >= 0 && p.expiresAt >= 0
    ensures var id := env.id(
        Invoice(p.resourceHash, Decimal(p.amountSats), payTo, p.nonce, p.issuedAt, p.expiresAt));
      && (IssueWithAllocation(env, m, p).1.Ok? && env.allocate(m.nextIndex) == Some(payTo) ==>
            GetByInvoiceHash(IssueWithAllocation(env, m, p).0, id) == Some(IssueWithAllocation(env, m, p).1.value))
      && (SqlIssueWithAllocation(env, t, p).1.Ok? && env.allocate(NextIndex(t)) == Some(payTo) ==>
            SelectRecord(SqlIssueWithAllocation(env, t, p).0, ByHash(id)) ==
              Some(SqlIssueWithAllocation(env, t, p).1.value))
  {
    if IssueWithAllocation(env, m, p).1.Ok? {
      IssuedTerms(env, m, p);
    }
    if SqlIssueWithAllocation(env, t, p).1.Ok? && env.allocate(NextIndex(t)) == Some(payTo) {
      SqlIssuedFound(env, t, p, payTo);
    }
  }

  lemma SqlIssuedFound(env: Env, t: Table, p: Params, payTo: Text)
    requires SqlIssueWithAllocation(env, t, p).1.Ok? && env.allocate(NextIndex(t)) == Some(payTo)
    ensures Acceptable(p, payTo)
    ensures var (t', result) := SqlIssueWithAllocation(env, t, p);
      SelectRecord(t', ByHash(env.id(InvoiceFor(p, payTo)))) == Some(result.value)
  {
    SqlIssueAppends(env, t, p);
    var hash := env.id(InvoiceFor(p, payTo));
    var row := NewRow(p, payTo, hash, NextIndex(t));
    SqlIssueAt(env, t, p, payTo);
    NewRowRefusal(t, p, payTo, hash);
    SelectLast(t, ByHash(hash), row);
    NewRowRecord(p, payTo, hash, NextIndex(t));
  }

  lemma {:induction false} SelectLast(t: Table, where: Row -> bool, row: Row)
    requires where(row) && forall i | 0 <= i < |t| :: !where(t[i])
    ensures Select(t + [row], where) == Some(row)
  {
    if t != [] {
      SelectLast(t[1..], where, row);
      assert (t + [row])[1..] == t[1..] + [row];
    }
  }

  // ---------- UNIQUE ----------

  lemma IssueUnique(env: Env, t: Table, p: Params)
    requires Unique(t)
    ensures Unique(SqlIssueWithAllocation(env, t, p).0)
  {
    if SqlIssueWithAllocation(env, t, p).1.Ok? {
      SqlIssueAppends(env, t, p);
      var payTo := env.allocate(NextIndex(t)).value;
      SqlIssueAt(env, t, p, payTo);
      InsertExact(t, NewRow(p, payTo, env.id(InvoiceFor(p, payTo)), NextIndex(t)));
    } else {
      SqlIssueRefusal(env, t, p);
    }
  }

  /** The UPDATE of a settlement writes a txid that no other row has. */
  lemma CommitUnique(t: Table, hash: Text, txid: Text, paidAt: int)
    requires Unique(t)
    ensures Unique(SqlCommitPaid(t, hash, txid, paidAt).0)
  {
    var (t', result) := SqlCommitPaid(t, hash, txid, paidAt);
    SqlCommitExact(t, hash, txid, paidAt);
    if result.Committed? && !result.idempotent {
      var i :| 0 <= i < |t| && SettlesRow(t, t', i, hash, Lower(txid), paidAt, result);
      OneWritten(t, i, hash, Lower(txid), paidAt);
    }
  }

  lemma OneWritten(t: Table, i: nat, hash: Text, lower: Text, paidAt: int)
    requires Unique(t) && i < |t| && t[i].invoiceHash == hash
    requires forall k | 0 <= k < |t| && t[k].settledTxid == Some(lower) :: t[k].invoiceHash == hash
    ensures Unique(t[i := t[i].(state := Paid, settledTxid := Some(lower), settledAt := Some(paidAt))])
  {
    RowsDiffer(t);
    var t' := t[i := t[i].(state := Paid, settledTxid := Some(lower), settledAt := Some(paidAt))];
    forall j, k | 0 <= j < k < |t'| ensures Distinct(t'[j], t'[k]) {
      assert Distinct(t[j], t[k]);
    }
  }

  lemma StepUnique(env: Env, t: Table, op: Op)
    requires Unique(t)
    ensures Unique(SqlStep(env, t, op).0)
  {
    match op
    case IssueOp(p) => IssueUnique(env, t, p);
    case CommitOp(hash, txid, paidAt) => CommitUnique(t, hash, txid, paidAt);
    case _ =>
  }

  lemma {:induction false} RunUnique(env: Env, t: Table, ops: seq<Op>)
    requires Unique(t)
    ensures Unique(SqlRun(env, t, ops).0)
    decreases |ops|
  {
    if ops != [] {
      StepUnique(env, t, ops[0]);
      RunUnique(env, SqlStep(env, t, ops[0]).0, ops[1..]);
    }
  }

  /** In the table of every run no two rows share a value in a UNIQUE column, so the UPDATE that
      settles an invoice never fails. */
  lemma ColumnsUnique(env: Env, ops: seq<Op>)
    ensures Unique(SqlRun(env, [], ops).0)
  {
    RunUnique(env, [], ops);
  }
}
