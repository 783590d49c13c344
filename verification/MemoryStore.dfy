/** The in-memory store as the object that the source keeps: every method is proved to
    compute the operation of the same name on the five maps and the counter. */
module MemoryStore {
  import opened Texts
  import opened InvoiceStore

  class InMemoryStore {
    var records: map<Text, Record>
    var nonceToInvoice: map<Text, Text>
    var txidToInvoice: map<Text, Text>
    var payToToInvoice: map<Text, Text>
    var indexToInvoice: map<nat, Text>
    var nextDerivationIndex: nat

    constructor ()
      ensures State() == EMPTY
    {
      records, nonceToInvoice, txidToInvoice := map[], map[], map[];
      payToToInvoice, indexToInvoice, nextDerivationIndex := map[], map[], 0;
    }

    ghost function State(): Mem
      reads this
    {
      Mem(records, nonceToInvoice, txidToInvoice, payToToInvoice, indexToInvoice, nextDerivationIndex)
    }

    method Issue(record: Record) returns (r: Result<(), IssueError>)
      modifies this
      ensures (State(), r) == InvoiceStore.Issue(old(State()), record)
    {
      if record.invoiceHash in records {
        return Err(InvoiceAlreadyExists);
      }
      if record.nonce in nonceToInvoice {
        return Err(NonceAlreadyUsed);
      }
      if record.derivationIndex.Some? {
        var index := record.derivationIndex.value;
        if record.payTo in payToToInvoice {
          return Err(PayToAlreadyUsed);
        }
        if index in indexToInvoice {
          return Err(DerivationIndexAlreadyUsed);
        }
        payToToInvoice := payToToInvoice[record.payTo := record.invoiceHash];
        indexToInvoice := indexToInvoice[index := record.invoiceHash];
        nextDerivationIndex := if nextDerivationIndex > index then nextDerivationIndex else index + 1;
      } else {
        payToToInvoice := payToToInvoice[record.payTo := record.invoiceHash];
      }
      records := records[record.invoiceHash := record];
      nonceToInvoice := nonceToInvoice[record.nonce := record.invoiceHash];
      r := Ok(());
    }

    method IssueWithAllocation(env: Env, params: Params) returns (r: Result<Record, IssueError>)
      modifies this
      ensures (State(), r) == InvoiceStore.IssueWithAllocation(env, old(State()), params)
      ensures r.Ok? ==>
        && r.value.nonce == params.nonce && r.value.resourceHash == params.resourceHash
        && r.value.amountSats == params.amountSats && r.value.issuedAt == params.issuedAt
        && r.value.expiresAt == params.expiresAt && r.value.state == params.state
        && r.value.derivationIndex == Some(old(nextDerivationIndex))
        && env.allocate(old(nextDerivationIndex)) == Some(r.value.payTo)
        && TermsHashed(env, r.value) && records == old(records)[r.value.invoiceHash := r.value]
    {
      if params.nonce in nonceToInvoice {
        return Err(NonceAlreadyUsed);
      }
      var derivationIndex := nextDerivationIndex;
      nextDerivationIndex := nextDerivationIndex + 1;
      var payTo := env.allocate(derivationIndex);
      if payTo.None? {
        return Err(AllocatorFailed);
      }
      if payTo.value in payToToInvoice {
        return Err(PayToAlreadyUsed);
      }
      var invoice := ParamsInvoice(params, payTo.value);
      if invoice.None? {
        return Err(InvalidInvoice);
      }
      var invoiceHash := env.id(invoice.value);
      if invoiceHash in records {
        return Err(InvoiceAlreadyExists);
      }
      var record := NewRecord(params, payTo.value, invoiceHash, derivationIndex);
      records := records[invoiceHash := record];
      nonceToInvoice := nonceToInvoice[params.nonce := invoiceHash];
      payToToInvoice := payToToInvoice[payTo.value := invoiceHash];
      indexToInvoice := indexToInvoice[derivationIndex := invoiceHash];
      r := Ok(record);
    }

    method GetByInvoiceHash(invoiceHash: Text) returns (r: Option<Record>)
      ensures r == InvoiceStore.GetByInvoiceHash(State(), invoiceHash)
    {
      r := if invoiceHash in records then Some(records[invoiceHash]) else None;
    }

    method GetBySettledTxid(txid: Text) returns (r: Option<Record>)
      ensures r == InvoiceStore.GetBySettledTxid(State(), txid)
    {
      var lower := Lower(txid);
      if lower !in txidToInvoice || txidToInvoice[lower] == [] {
        return None;
      }
      r := GetByInvoiceHash(txidToInvoice[lower]);
    }

    method GetByPayTo(payTo: Text) returns (r: Option<Record>)
      ensures r == InvoiceStore.GetByPayTo(State(), payTo)
    {
      if payTo !in payToToInvoice || payToToInvoice[payTo] == [] {
        return None;
      }
      r := GetByInvoiceHash(payToToInvoice[payTo]);
    }

    method CommitPaid(invoiceHash: Text, txid: Text, paidAt: int) returns (r: CommitResult)
      modifies this
      ensures (State(), r) == InvoiceStore.CommitPaid(old(State()), invoiceHash, txid, paidAt)
    {
      var lowerTxid := Lower(txid);
      if invoiceHash !in records {
        return InvoiceNotFound;
      }
      if lowerTxid in txidToInvoice && txidToInvoice[lowerTxid] != invoiceHash {
        return TxidReused;
      }
      var existing := records[invoiceHash];
      if existing.state.Paid? {
        if existing.settledTxid == Some(lowerTxid) {
          return Committed(true, existing);
        }
        return Conflict;
      }
      var updated := existing.(state := Paid, settledTxid := Some(lowerTxid), settledAt := Some(paidAt));
      records := records[invoiceHash := updated];
      txidToInvoice := txidToInvoice[lowerTxid := invoiceHash];
      r := Committed(false, updated);
    }
  }
}
