/** The SQLite invoice store: one table with UNIQUE columns, changed inside transactions. */
module SqlStore {
  import opened Texts
  import opened Radix
  import opened Invoices
  import opened InvoiceStore

  /** Amounts are stored as decimal text. */
  type AmountText = t: Text | AllDigits(t) witness [48]

  datatype Row = Row(
    invoiceHash: Text, nonce: Text, resourceHash: Text, amountSats: AmountText, payTo: Text,
    issuedAt: nat, expiresAt: nat, state: InvoiceState,
    settledTxid: Option<Text>, settledAt: Option<int>, derivationIndex: nat)

  type Table = seq<Row>

  function RowToRecord(row: Row): Record {
    Record(row.invoiceHash, row.nonce, row.resourceHash, DecimalValue(row.amountSats), row.payTo,
           row.issuedAt, row.expiresAt, row.state, row.settledTxid, row.settledAt, Some(row.derivationIndex))
  }

  datatype Column = InvoiceHash | Nonce | PayTo | SettledTxid | DerivationIndex

  predicate Clashes(column: Column, a: Row, b: Row) {
    match column
    case InvoiceHash => a.invoiceHash == b.invoiceHash
    case Nonce => a.nonce == b.nonce
    case PayTo => a.payTo == b.payTo
    case SettledTxid => a.settledTxid.Some? && a.settledTxid == b.settledTxid
    case DerivationIndex => a.derivationIndex == b.derivationIndex
  }

  predicate Violates(column: Column, table: Table, row: Row) {
    exists i | 0 <= i < |table| :: Clashes(column, table[i], row)
  }

  /** The UNIQUE column an insertion is refused for; several are tried in declared order. */
  function Violation(table: Table, row: Row): Option<Column> {
    if Violates(InvoiceHash, table, row) then Some(InvoiceHash)
    else if Violates(Nonce, table, row) then Some(Nonce)
    else if Violates(PayTo, table, row) then Some(PayTo)
    else if Violates(DerivationIndex, table, row) then Some(DerivationIndex)
    else if Violates(SettledTxid, table, row) then Some(SettledTxid)
    else None
  }

  /** How the store names a refused column. */
  function ColumnError(column: Column): IssueError {
    match column
    case Nonce => NonceAlreadyUsed
    case PayTo => PayToAlreadyUsed
    case DerivationIndex => DerivationIndexAlreadyUsed
    case _ => InvoiceAlreadyExists
  }

  /** `COALESCE(MAX(derivation_index), -1) + 1`. */
  function NextIndex(table: Table): (n: nat)
    ensures forall i | 0 <= i < |table| :: table[i].derivationIndex < n
    ensures n > 0 ==> exists i | 0 <= i < |table| :: table[i].derivationIndex == n - 1
  {
    if table == [] then 0
    else
      var rest := NextIndex(table[..|table| - 1]);
      var last := table[|table| - 1].derivationIndex;
      if last >= rest then last + 1 else rest
  }

  /** The first row that satisfies a condition. */
  function Select(table: Table, where: Row -> bool): (r: Option<Row>)
    ensures r.Some? ==> r.value in table && where(r.value)
    ensures r.None? ==> forall i | 0 <= i < |table| :: !where(table[i])
  {
    if table == [] then None
    else if where(table[0]) then Some(table[0])
    else Select(table[1..], where)
  }

  function SelectRecord(table: Table, where: Row -> bool): Option<Record> {
    match Select(table, where)
    case Some(row) => Some(RowToRecord(row))
    case None => None
  }

  function NewRow(p: Params, payTo: Text, hash: Text, index: nat): Row
    requires p.amountSats >= 0 && p.issuedAt >= 0 && p.expiresAt >= 0
  {
    Row(hash, p.nonce, p.resourceHash, Decimal(p.amountSats), payTo, p.issuedAt, p.expiresAt, p.state, None, None,
        index)
  }

  function ByHash(hash: Text): Row -> bool { (row: Row) => row.invoiceHash == hash }
  function ByTxid(txid: Text): Row -> bool { (row: Row) => row.settledTxid == Some(txid) }
  function ByPayTo(payTo: Text): Row -> bool { (row: Row) => row.payTo == payTo }

  // ---------- What the operations compute ----------

  /** A failed transaction leaves the table as it was, index included. */
  function SqlIssueWithAllocation(env: Env, table: Table, p: Params): (Table, Result<Record, IssueError>) {
    var index := NextIndex(table);
    match env.allocate(index)
    case None => (table, Err(AllocatorFailed))
    case Some(payTo) =>
      match ParamsInvoice(p, payTo)
      case None => (table, Err(InvalidInvoice))
      case Some(invoice) =>
        var hash := env.id(invoice);
        var row := NewRow(p, payTo, hash, index);
        match Violation(table, row)
        case Some(column) => (table, Err(ColumnError(column)))
        case None => (table + [row], Ok(NewRecord(p, payTo, hash, index)))
  }

  function PaidRow(row: Row, hash: Text, txid: Text, paidAt: int): Row {
    if row.invoiceHash == hash
    then row.(state := Paid, settledTxid := Some(txid), settledAt := Some(paidAt)) else row
  }

  function Update(table: Table, hash: Text, txid: Text, paidAt: int): (r: Table)
    ensures |r| == |table|
    ensures forall i | 0 <= i < |table| :: r[i] == PaidRow(table[i], hash, txid, paidAt)
  {
    seq(|table|, i requires 0 <= i < |table| => PaidRow(table[i], hash, txid, paidAt))
  }

  /** The txid is looked up before the invoice. */
  function SqlCommitPaid(table: Table, hash: Text, txid: Text, paidAt: int): (Table, CommitResult) {
    var lower := Lower(txid);
    var txRow := Select(table, ByTxid(lower));
    if txRow.Some? && txRow.value.invoiceHash != hash then (table, TxidReused)
    else match Select(table, ByHash(hash))
      case None => (table, InvoiceNotFound)
      case Some(row) =>
        var existing := RowToRecord(row);
        if existing.state.Paid? then
          (table, if existing.settledTxid == Some(lower) then Committed(true, existing) else Conflict)
        else (Update(table, hash, lower, paidAt), Committed(false, Settled(existing, lower, paidAt)))
  }

  // ---------- What the operations do, column by column ----------

  ghost predicate SharesHash(t: Table, row: Row) { exists i | 0 <= i < |t| :: t[i].invoiceHash == row.invoiceHash }
  ghost predicate SharesNonce(t: Table, row: Row) { exists i | 0 <= i < |t| :: t[i].nonce == row.nonce }
  ghost predicate SharesPayTo(t: Table, row: Row) { exists i | 0 <= i < |t| :: t[i].payTo == row.payTo }
  ghost predicate SharesIndex(t: Table, row: Row) {
    exists i | 0 <= i < |t| :: t[i].derivationIndex == row.derivationIndex
  }
  ghost predicate SharesTxid(t: Table, row: Row) {
    exists i | 0 <= i < |t| :: t[i].settledTxid.Some? && t[i].settledTxid == row.settledTxid
  }

  /** No two rows share a value in one of the five UNIQUE columns; NULL is shared freely. */
  ghost predicate Unique(t: Table) {
    forall i, j | 0 <= i < j < |t| :: Distinct(t[i], t[j])
  }

  predicate Distinct(a: Row, b: Row) {
    && a.invoiceHash != b.invoiceHash && a.nonce != b.nonce && a.payTo != b.payTo
    && a.derivationIndex != b.derivationIndex && (a.settledTxid.Some? ==> a.settledTxid != b.settledTxid)
  }

  /** A row is refused for the first column, in declared order, whose value is taken. */
  lemma ViolationExact(t: Table, row: Row)
    ensures Violation(t, row) ==
      if SharesHash(t, row) then Some(InvoiceHash)
      else if SharesNonce(t, row) then Some(Nonce)
      else if SharesPayTo(t, row) then Some(PayTo)
      else if SharesIndex(t, row) then Some(DerivationIndex)
      else if SharesTxid(t, row) then Some(SettledTxid)
      else None
  {
    ViolatesExact(t, row);
  }

  lemma ViolatesExact(t: Table, row: Row)
    ensures Violates(InvoiceHash, t, row) <==> SharesHash(t, row)
    ensures Violates(Nonce, t, row) <==> SharesNonce(t, row)
    ensures Violates(PayTo, t, row) <==> SharesPayTo(t, row)
    ensures Violates(DerivationIndex, t, row) <==> SharesIndex(t, row)
    ensures Violates(SettledTxid, t, row) <==> SharesTxid(t, row)
  {
    forall i | 0 <= i < |t|
      ensures Clashes(InvoiceHash, t[i], row) <==> t[i].invoiceHash == row.invoiceHash
      ensures Clashes(Nonce, t[i], row) <==> t[i].nonce == row.nonce
      ensures Clashes(PayTo, t[i], row) <==> t[i].payTo == row.payTo
      ensures Clashes(DerivationIndex, t[i], row) <==> t[i].derivationIndex == row.derivationIndex
      ensures Clashes(SettledTxid, t[i], row) <==> t[i].settledTxid.Some? && t[i].settledTxid == row.settledTxid
    {}
  }

  /** In a table without duplicates an insertion is refused exactly if it would make one. */
  lemma InsertExact(t: Table, row: Row)
    requires Unique(t)
    ensures Violation(t, row).None? <==> Unique(t + [row])
  {
    ViolationExact(t, row);
    if Violation(t, row).None? {
      forall i, j | 0 <= i < j < |t + [row]| ensures Distinct((t + [row])[i], (t + [row])[j]) {}
    } else {
      var i :| 0 <= i < |t| && !Distinct(t[i], row);
      assert (t + [row])[i] == t[i] && (t + [row])[|t|] == row;
    }
  }

  lemma SqlIssueAppends(env: Env, t: Table, p: Params)
    requires SqlIssueWithAllocation(env, t, p).1.Ok?
    ensures env.allocate(NextIndex(t)).Some? && Acceptable(p, env.allocate(NextIndex(t)).value)
    ensures var payTo := env.allocate(NextIndex(t)).value;
      var hash := env.id(InvoiceFor(p, payTo));
      SqlIssueWithAllocation(env, t, p) ==
        (t + [NewRow(p, payTo, hash, NextIndex(t))], Ok(NewRecord(p, payTo, hash, NextIndex(t))))
  {
    ParamsExact(p, env.allocate(NextIndex(t)).value);
  }

  /** The row repeats the terms it was made for, the amount as decimal text. */
  ghost predicate RowOf(row: Row, p: Params, payTo: Text, hash: Text, index: nat) {
    && row.nonce == p.nonce && row.resourceHash == p.resourceHash && p.amountSats >= 0
    && row.amountSats == Decimal(p.amountSats) && row.issuedAt == p.issuedAt && row.expiresAt == p.expiresAt
    && row.state == p.state && row.settledTxid == None && row.settledAt == None
    && row.derivationIndex == index && row.payTo == payTo && row.invoiceHash == hash
  }

  /** An issuance appends one row: the terms it was given, under the hash of the invoice they make,
      with the next index and its address; and answers with the same terms. */
  lemma SqlIssuedTerms(env: Env, t: Table, p: Params)
    requires SqlIssueWithAllocation(env, t, p).1.Ok?
    ensures var (t', result) := SqlIssueWithAllocation(env, t, p);
      && env.allocate(NextIndex(t)).Some? && |t'| == |t| + 1 && t'[..|t|] == t
      && var row := t'[|t|];
         && RowOf(row, p, env.allocate(NextIndex(t)).value, row.invoiceHash, NextIndex(t))
         && row.invoiceHash ==
              env.id(Invoice(row.resourceHash, row.amountSats, row.payTo, row.nonce, row.issuedAt, row.expiresAt))
         && result.value == Record(row.invoiceHash, row.nonce, row.resourceHash, p.amountSats, row.payTo, row.issuedAt,
                                   row.expiresAt, row.state, None, None, Some(row.derivationIndex))
  {
    SqlIssueAppends(env, t, p);
    var payTo := env.allocate(NextIndex(t)).value;
    var hash := env.id(InvoiceFor(p, payTo));
    var row, t' := NewRow(p, payTo, hash, NextIndex(t)), SqlIssueWithAllocation(env, t, p).0;
    assert t'[|t|] == row && t'[..|t|] == t;
  }

  /** The column for which a new row is refused. */
  ghost function Refusal(t: Table, p: Params, payTo: Text, hash: Text): Option<IssueError> {
    if exists i | 0 <= i < |t| :: t[i].invoiceHash == hash then Some(InvoiceAlreadyExists)
    else if exists i | 0 <= i < |t| :: t[i].nonce == p.nonce then Some(NonceAlreadyUsed)
    else if exists i | 0 <= i < |t| :: t[i].payTo == payTo then Some(PayToAlreadyUsed)
    else None
  }

  lemma NewRowRefusal(t: Table, p: Params, payTo: Text, hash: Text)
    requires p.amountSats >= 0 && p.issuedAt >= 0 && p.expiresAt >= 0
    ensures var v := Violation(t, NewRow(p, payTo, hash, NextIndex(t)));
      Refusal(t, p, payTo, hash) == if v.Some? then Some(ColumnError(v.value)) else None
  {
    ViolationExact(t, NewRow(p, payTo, hash, NextIndex(t)));
  }

  lemma SqlIssueAt(env: Env, t: Table, p: Params, payTo: Text)
    requires env.allocate(NextIndex(t)) == Some(payTo) && Acceptable(p, payTo)
    ensures var (t', result) := SqlIssueWithAllocation(env, t, p);
      var v := Violation(t, NewRow(p, payTo, env.id(InvoiceFor(p, payTo)), NextIndex(t)));
      if v.Some? then result == Err(ColumnError(v.value)) && t' == t else result.Ok?
  {
    ParamsExact(p, payTo);
  }

  /** Of several obstacles the first one in this order is reported; the table stays as it was. */
  lemma SqlIssueRefusal(env: Env, t: Table, p: Params)
    ensures var (t', result) := SqlIssueWithAllocation(env, t, p);
      var payTo := env.allocate(NextIndex(t));
      && (result.Err? ==> t' == t)
      && if payTo.None? then result == Err(AllocatorFailed)
         else if !Acceptable(p, payTo.value) then result == Err(InvalidInvoice)
         else
           var refusal := Refusal(t, p, payTo.value, env.id(InvoiceFor(p, payTo.value)));
           if refusal.Some? then result == Err(refusal.value) else result.Ok?
  {
    var payTo := env.allocate(NextIndex(t));
    if payTo.Some? {
      ParamsExact(p, payTo.value);
      if Acceptable(p, payTo.value) {
        SqlIssueAt(env, t, p, payTo.value);
        NewRowRefusal(t, p, payTo.value, env.id(InvoiceFor(p, payTo.value)));
      }
    }
  }

  /** A transaction that settles writes the three settlement columns of the invoice's rows only; the
      answers look at the txid first. */
  lemma SqlCommitExact(t: Table, hash: Text, txid: Text, paidAt: int)
    requires Unique(t)
    ensures var (t', result) := SqlCommitPaid(t, hash, txid, paidAt);
      && (result == TxidReused <==>
            exists i | 0 <= i < |t| :: t[i].settledTxid == Some(Lower(txid)) && t[i].invoiceHash != hash)
      && (result == InvoiceNotFound <==>
            && (forall i | 0 <= i < |t| :: t[i].settledTxid != Some(Lower(txid)))
            && (forall i | 0 <= i < |t| :: t[i].invoiceHash != hash))
      && (!result.Committed? || result.idempotent ==> t' == t)
      && (result.Conflict? ==> exists i | 0 <= i < |t| ::
            t[i].invoiceHash == hash && t[i].state.Paid? && t[i].settledTxid != Some(Lower(txid)))
      && (result.Committed? ==> exists i | 0 <= i < |t| :: SettlesRow(t, t', i, hash, Lower(txid), paidAt, result))
  {
    RowsDiffer(t);
    var lower := Lower(txid);
    var txRow, row := Select(t, ByTxid(lower)), Select(t, ByHash(hash));
    if i :| 0 <= i < |t| && t[i].settledTxid == Some(lower) {
      assert ByTxid(lower)(t[i]);
      assert txRow.Some?;
      var j :| 0 <= j < |t| && t[j] == txRow.value;
    }
    if i :| 0 <= i < |t| && t[i].invoiceHash == hash {
      assert ByHash(hash)(t[i]);
    }
    if row.Some? {
      var i :| 0 <= i < |t| && t[i] == row.value;
      var (t', result) := SqlCommitPaid(t, hash, txid, paidAt);
      if result.Committed? {
        SettledRow(t, hash, txid, paidAt, i);
      }
    }
  }

  /** Row i is the invoice's; it is answered as it was paid before, or is written now. */
  ghost predicate SettlesRow(t: Table, t': Table, i: nat, hash: Text, lower: Text, paidAt: int, result: CommitResult)
    requires i < |t| && result.Committed?
  {
    && t[i].invoiceHash == hash && (result.idempotent <==> t[i].state.Paid?)
    && (result.idempotent ==> t[i].settledTxid == Some(lower) && result.record == RowToRecord(t[i]))
    && (!result.idempotent ==>
          && t' == t[i := t[i].(state := Paid, settledTxid := Some(lower), settledAt := Some(paidAt))]
          && result.record == RowToRecord(t'[i]))
  }

  lemma SettledRow(t: Table, hash: Text, txid: Text, paidAt: int, i: nat)
    requires Unique(t) && i < |t| && Select(t, ByHash(hash)) == Some(t[i])
    requires SqlCommitPaid(t, hash, txid, paidAt).1.Committed?
    ensures var (t', result) := SqlCommitPaid(t, hash, txid, paidAt);
      SettlesRow(t, t', i, hash, Lower(txid), paidAt, result)
  {
    RowsDiffer(t);
    var (t', result) := SqlCommitPaid(t, hash, txid, paidAt);
    if !result.idempotent {
      forall j | 0 <= j < |t| && j != i ensures t'[j] == t[j] {}
    }
  }

  lemma RowsDiffer(t: Table)
    requires Unique(t)
    ensures forall i, j | 0 <= i < |t| && 0 <= j < |t| && i != j ::
      t[i].invoiceHash != t[j].invoiceHash && (t[i].settledTxid.Some? ==> t[i].settledTxid != t[j].settledTxid)
  {
    forall i, j | 0 <= i < |t| && 0 <= j < |t| && i != j
      ensures t[i].invoiceHash != t[j].invoiceHash
      ensures t[i].settledTxid.Some? ==> t[i].settledTxid != t[j].settledTxid
    {
      assert Distinct(t[if i < j then i else j], t[if i < j then j else i]);
    }
  }

  /** The lookups find a row exactly if there is one. */
  lemma SelectExact(t: Table, where: Row -> bool, row: Row)
    requires forall i, j | 0 <= i < j < |t| && where(t[i]) && where(t[j]) :: t[i] == t[j]
    ensures Select(t, where) == Some(row) <==> row in t && where(row)
  {
    var r := Select(t, where);
    if r.Some? && row in t && where(row) {
      var i :| 0 <= i < |t| && t[i] == row;
      var j :| 0 <= j < |t| && t[j] == r.value;
    }
  }

  // ---------- The store object ----------

  class Database {
    var table: Table

    constructor ()
      ensures table == []
    {
      table := [];
    }

    method IssueWithAllocation(env: Env, params: Params) returns (r: Result<Record, IssueError>)
      modifies this
      ensures (table, r) == SqlIssueWithAllocation(env, old(table), params)
      ensures r.Ok? ==>
        && r.value.nonce == params.nonce && r.value.resourceHash == params.resourceHash
        && r.value.amountSats == params.amountSats && r.value.issuedAt == params.issuedAt
        && r.value.expiresAt == params.expiresAt && r.value.state == params.state
        && r.value.derivationIndex == Some(NextIndex(old(table)))
        && env.allocate(NextIndex(old(table))) == Some(r.value.payTo) && TermsHashed(env, r.value)
    {
      var begin := table;
      var derivationIndex := NextIndex(table);
      var payTo := env.allocate(derivationIndex);
      if payTo.None? {
        table := begin;
        return Err(AllocatorFailed);
      }
      var invoice := ParamsInvoice(params, payTo.value);
      if invoice.None? {
        table := begin;
        return Err(InvalidInvoice);
      }
      var invoiceHash := env.id(invoice.value);
      var inserted := Insert(NewRow(params, payTo.value, invoiceHash, derivationIndex));
      if inserted.Err? {
        table := begin;
        return Err(ColumnError(inserted.error));
      }
      r := Ok(NewRecord(params, payTo.value, invoiceHash, derivationIndex));
    }

    method Insert(row: Row) returns (r: Result<(), Column>)
      modifies this
      ensures match Violation(old(table), row)
        case Some(column) => r == Err(column) && table == old(table)
        case None => r == Ok(()) && table == old(table) + [row]
    {
      var violation := Violation(table, row);
      if violation.Some? {
        return Err(violation.value);
      }
      table := table + [row];
      r := Ok(());
    }

    method GetByInvoiceHash(invoiceHash: Text) returns (r: Option<Record>)
      ensures r == SelectRecord(table, ByHash(invoiceHash))
    {
      r := SelectRecord(table, ByHash(invoiceHash));
    }

    method GetBySettledTxid(txid: Text) returns (r: Option<Record>)
      ensures r == SelectRecord(table, ByTxid(Lower(txid)))
    {
      r := SelectRecord(table, ByTxid(Lower(txid)));
    }

    method GetByPayTo(payTo: Text) returns (r: Option<Record>)
      ensures r == SelectRecord(table, ByPayTo(payTo))
    {
      r := SelectRecord(table, ByPayTo(payTo));
    }

    method CommitPaid(invoiceHash: Text, txid: Text, paidAt: int) returns (r: CommitResult)
      modifies this
      ensures (table, r) == SqlCommitPaid(old(table), invoiceHash, txid, paidAt)
    {
      var begin := table;
      var lowerTxid := Lower(txid);
      var txRow := Select(table, ByTxid(lowerTxid));
      if txRow.Some? && txRow.value.invoiceHash != invoiceHash {
        table := begin;
        return TxidReused;
      }
      var row := Select(table, ByHash(invoiceHash));
      if row.None? {
        table := begin;
        return InvoiceNotFound;
      }
      var existing := RowToRecord(row.value);
      if existing.state.Paid? {
        table := begin;
        return if existing.settledTxid == Some(lowerTxid) then Committed(true, existing) else Conflict;
      }
      table := Update(table, invoiceHash, lowerTxid, paidAt);
      r := Committed(false, existing.(state := Paid, settledTxid := Some(lowerTxid), settledAt := Some(paidAt)));
    }
  }
}
