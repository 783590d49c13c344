/** The decisions of settlement verification: time window, finality, temporal fence, output
    scan; and the verifier as the sequential procedure that the source writes. */
module Settlement {
  import opened Texts
  import opened InvoiceStore
  import opened MemoryStore

  const FENCE_TOLERANCE := 10

  datatype Output = Output(script: Text, sats: nat, hasToken: bool)
  datatype Block = Block(height: int, hash: Text, timestamp: int)
  datatype Tx = Tx(txid: Text, outputs: seq<Output>, block: Option<Block>, isFinal: bool, timeFirstSeen: int)

  /** What the transaction source answers. */
  datatype Fetched = TxMissing | SourceFailed | Found(tx: Tx)

  datatype Code =
    | UnknownInvoice | ResourceMismatch | InvoiceExpired | InvoiceNotYetValid | InvalidServerTime
    | TxNotFound | TransactionNotFinal | TransactionTimeUnknown | HistoricalTransaction
    | PayToMismatch | AmountMismatch | TokenOutputDisallowed | OutputNotFound
    | TxidConflict | TxidReusedCode | ChronikUnavailable | MalformedChronikTx

  /** A schema-valid proof and, if the caller names a resource, that resource's hash. */
  datatype Claim = Claim(invoiceHash: Text, txid: Text, expectedResource: Option<Text>)

  predicate ValidClaim(c: Claim) { IsHash(c.invoiceHash) && IsHash(c.txid) }

  datatype Outcome =
    | Unlocked(record: Record, outputIndex: nat, tx: Tx, idempotent: bool)
    | Refused(code: Code)

  /** Address to locking script; None when the address is not a valid CashAddr. */
  type ScriptOf = Text -> Option<Text>

  // ---------- Checks before the chain query ----------

  predicate SafeTime(t: int) { 0 <= t <= MAX_SAFE_INTEGER }

  /** The refusal, if any, that the snapshot and the clock call for. */
  function ClockCheck(c: Claim, invoice: Record, now: int): Option<Code> {
    if c.expectedResource.Some? && c.expectedResource.value != invoice.resourceHash then Some(ResourceMismatch)
    else if !SafeTime(now) then Some(InvalidServerTime)
    else if now < invoice.issuedAt then Some(InvoiceNotYetValid)
    else if !invoice.state.Paid? && now >= invoice.expiresAt then Some(InvoiceExpired)
    else if invoice.state.Paid? && invoice.settledTxid != Some(c.txid) then Some(TxidConflict)
    else None
  }

  // ---------- The output scan ----------

  predicate PaysScript(o: Output, script: Text) { Lower(o.script) == script }

  predicate Pays(o: Output, script: Text, amount: nat) { PaysScript(o, script) && !o.hasToken && o.sats == amount }

  predicate AnyPays(outputs: seq<Output>, script: Text, amount: nat) {
    exists i | 0 <= i < |outputs| :: Pays(outputs[i], script, amount)
  }

  predicate AnyScript(outputs: seq<Output>, script: Text) {
    exists i | 0 <= i < |outputs| :: PaysScript(outputs[i], script)
  }

  predicate AnyToken(outputs: seq<Output>, script: Text) {
    exists i | 0 <= i < |outputs| :: PaysScript(outputs[i], script) && outputs[i].hasToken
  }

  /** Why outputs none of which pays exactly are refused. */
  function ScanRefusal(outputs: seq<Output>, script: Text): Code {
    if !AnyScript(outputs, script) then PayToMismatch
    else if AnyToken(outputs, script) then TokenOutputDisallowed
    else AmountMismatch
  }

  /** The scan goes through the outputs once and stops at the first one that pays exactly.
      Without one, the refusal depends on which kinds of output pay the script at all. */
  method ScanOutputs(outputs: seq<Output>, script: Text, amount: nat) returns (r: Result<nat, Code>)
    ensures r.Ok? ==>
      && r.value < |outputs| && Lower(outputs[r.value].script) == script
      && !outputs[r.value].hasToken && outputs[r.value].sats == amount
    ensures r.Ok? ==> forall j | 0 <= j < r.value ::
      Lower(outputs[j].script) == script ==> outputs[j].hasToken || outputs[j].sats != amount
    ensures r.Err? ==> forall j | 0 <= j < |outputs| ::
      Lower(outputs[j].script) == script ==> outputs[j].hasToken || outputs[j].sats != amount
    ensures r == Err(PayToMismatch) <==> forall j | 0 <= j < |outputs| :: Lower(outputs[j].script) != script
    ensures r == Err(TokenOutputDisallowed) ==>
      exists j | 0 <= j < |outputs| :: Lower(outputs[j].script) == script && outputs[j].hasToken
    ensures r == Err(AmountMismatch) ==>
      forall j | 0 <= j < |outputs| :: Lower(outputs[j].script) == script ==> !outputs[j].hasToken
    ensures r.Err? ==> r.error in {PayToMismatch, TokenOutputDisallowed, AmountMismatch}
  {
    var matched := None;
    var hasScriptMatch := false;
    var hasTokenOutput := false;
    var wrongAmountSeen: Option<nat> := None;
    for i := 0 to |outputs|
      invariant matched == None
      invariant forall j | 0 <= j < i :: !Pays(outputs[j], script, amount)
      invariant hasScriptMatch <==> exists j | 0 <= j < i :: PaysScript(outputs[j], script)
      invariant hasTokenOutput <==> exists j | 0 <= j < i :: PaysScript(outputs[j], script) && outputs[j].hasToken
      invariant wrongAmountSeen.Some? <==>
        exists j | 0 <= j < i :: PaysScript(outputs[j], script) && !outputs[j].hasToken
    {
      if Lower(outputs[i].script) == script {
        hasScriptMatch := true;
        if outputs[i].hasToken {
          hasTokenOutput := true;
        } else if outputs[i].sats == amount {
          matched := Some(i);
          break;
        } else {
          wrongAmountSeen := Some(outputs[i].sats);
        }
      }
    }
    if !hasScriptMatch {
      return Err(PayToMismatch);
    }
    if matched.None? {
      if hasTokenOutput {
        return Err(TokenOutputDisallowed);
      }
      if wrongAmountSeen.Some? {
        return Err(AmountMismatch);
      }
      return Err(OutputNotFound);
    }
    r := Ok(matched.value);
  }

  /** The result that `ScanOutputs` is specified to have, as a function. */
  function Scan(outputs: seq<Output>, script: Text, amount: nat): (r: Result<nat, Code>)
    ensures r.Ok? ==> r.value < |outputs| && Pays(outputs[r.value], script, amount)
    ensures r.Ok? ==> forall j | 0 <= j < r.value :: !Pays(outputs[j], script, amount)
    ensures r.Ok? <==> AnyPays(outputs, script, amount)
  {
    if AnyPays(outputs, script, amount) then Ok(FirstPaying(outputs, script, amount))
    else Err(ScanRefusal(outputs, script))
  }

  function FirstPaying(outputs: seq<Output>, script: Text, amount: nat): (i: nat)
    requires AnyPays(outputs, script, amount)
    ensures i < |outputs| && Pays(outputs[i], script, amount)
    ensures forall j | 0 <= j < i :: !Pays(outputs[j], script, amount)
  {
    if Pays(outputs[0], script, amount) then 0
    else
      assert AnyPays(outputs[1..], script, amount) by {
        var i :| 0 <= i < |outputs| && Pays(outputs[i], script, amount);
        assert outputs[1..][i - 1] == outputs[i];
      }
      var rest := FirstPaying(outputs[1..], script, amount);
      assert forall j | 0 <= j < rest + 1 :: j == 0 || outputs[j] == outputs[1..][j - 1];
      1 + rest
  }

  // ---------- Inspection of the transaction ----------

  /** `isValidChronikBlock`. */
  predicate ValidBlock(b: Block) { SafeTime(b.height) && IsHash(b.hash) && SafeTime(b.timestamp) }

  predicate Confirmed(tx: Tx) { tx.block.Some? && ValidBlock(tx.block.value) }

  /** When the transaction was first observed, if there is trustworthy evidence. */
  function ObservedAt(tx: Tx): Option<int> {
    if tx.timeFirstSeen > 0 then Some(tx.timeFirstSeen)
    else if Confirmed(tx) then Some(tx.block.value.timestamp)
    else None
  }

  function Inspect(scriptOf: ScriptOf, c: Claim, invoice: Record, f: Fetched): Result<nat, Code> {
    match f
    case TxMissing => Err(TxNotFound)
    case SourceFailed => Err(ChronikUnavailable)
    case Found(tx) =>
      if Lower(tx.txid) != Lower(c.txid) then Err(MalformedChronikTx)
      else if tx.block.Some? && !ValidBlock(tx.block.value) then Err(MalformedChronikTx)
      else if !SafeTime(tx.timeFirstSeen) then Err(MalformedChronikTx)
      else if !Confirmed(tx) && !tx.isFinal then Err(TransactionNotFinal)
      else if ObservedAt(tx).None? then Err(TransactionTimeUnknown)
      else if ObservedAt(tx).value < invoice.issuedAt - FENCE_TOLERANCE then Err(HistoricalTransaction)
      else match scriptOf(invoice.payTo)
        case None => Err(PayToMismatch)
        case Some(script) => Scan(tx.outputs, Lower(script), invoice.amountSats)
  }

  /** Output i of tx is a payment of the invoice: right script, exact amount, no token; tx is final
      or confirmed, and was first seen, or else mined, at most ten seconds before the invoice. */
  predicate GoodPayment(scriptOf: ScriptOf, invoice: Record, txid: Text, tx: Tx, i: nat) {
    && Lower(tx.txid) == Lower(txid)
    && (tx.block.Some? ==> SoundBlock(tx.block.value)) && 0 <= tx.timeFirstSeen <= 9007199254740991
    && (tx.block.Some? || tx.isFinal)
    && (tx.timeFirstSeen > 0 ==> tx.timeFirstSeen >= invoice.issuedAt - 10)
    && (tx.timeFirstSeen == 0 ==> tx.block.Some? && tx.block.value.timestamp >= invoice.issuedAt - 10)
    && scriptOf(invoice.payTo).Some? && i < |tx.outputs|
    && Lower(tx.outputs[i].script) == Lower(scriptOf(invoice.payTo).value)
    && !tx.outputs[i].hasToken && tx.outputs[i].sats == invoice.amountSats
  }

  predicate SoundBlock(b: Block) {
    0 <= b.height <= 9007199254740991 && IsHash(b.hash) && 0 <= b.timestamp <= 9007199254740991
  }

  /** Inspection accepts exactly the transactions with a good payment, at its least index. */
  lemma InspectExact(scriptOf: ScriptOf, c: Claim, invoice: Record, f: Fetched, i: nat)
    ensures Inspect(scriptOf, c, invoice, f) == Ok(i) <==>
      && f.Found? && GoodPayment(scriptOf, invoice, c.txid, f.tx, i)
      && forall j | 0 <= j < i :: !GoodPayment(scriptOf, invoice, c.txid, f.tx, j)
  {
    if Inspect(scriptOf, c, invoice, f).Ok? {
      var least := Inspect(scriptOf, c, invoice, f).value;
      assert GoodPayment(scriptOf, invoice, c.txid, f.tx, least);
      assert forall j | 0 <= j < least :: !GoodPayment(scriptOf, invoice, c.txid, f.tx, j);
    } else if f.Found? && GoodPayment(scriptOf, invoice, c.txid, f.tx, i) {
      assert AnyPays(f.tx.outputs, Lower(scriptOf(invoice.payTo).value), invoice.amountSats);
    }
  }

  /** The code of last resort of the output scan is never used. */
  lemma OutputNotFoundUnreachable(scriptOf: ScriptOf, c: Claim, invoice: Record, f: Fetched)
    ensures Inspect(scriptOf, c, invoice, f) != Err(OutputNotFound)
  {}

  // ---------- The commit ----------

  function CommitOutcome(result: CommitResult, i: nat, tx: Tx): Outcome {
    match result
    case Committed(idempotent, record) => Unlocked(record, i, tx, idempotent)
    case Conflict => Refused(TxidConflict)
    case TxidReused => Refused(TxidReusedCode)
    case InvoiceNotFound => Refused(UnknownInvoice)
  }

  // ---------- The procedure, run without interruption ----------

  function Verify(scriptOf: ScriptOf, m: Mem, c: Claim, now: int, f: Fetched): (Mem, Outcome) {
    match GetByInvoiceHash(m, c.invoiceHash)
    case None => (m, Refused(UnknownInvoice))
    case Some(invoice) =>
      match ClockCheck(c, invoice, now)
      case Some(code) => (m, Refused(code))
      case None =>
        match Inspect(scriptOf, c, invoice, f)
        case Err(code) => (m, Refused(code))
        case Ok(i) =>
          var (m', result) := CommitPaid(m, c.invoiceHash, c.txid, now);
          (m', CommitOutcome(result, i, f.tx))
  }

  /** The snapshot and the clock allow a settlement, or the repetition of one. */
  predicate Timely(c: Claim, invoice: Record, now: int) {
    && (c.expectedResource.Some? ==> c.expectedResource.value == invoice.resourceHash)
    && 0 <= now <= 9007199254740991 && invoice.issuedAt <= now
    && if invoice.state.Paid? then invoice.settledTxid == Some(c.txid) else now < invoice.expiresAt
  }

  /** Some output of the fetched transaction is a good payment of the invoice. */
  ghost predicate Paying(scriptOf: ScriptOf, c: Claim, invoice: Record, f: Fetched) {
    f.Found? && exists i: nat :: GoodPayment(scriptOf, invoice, c.txid, f.tx, i)
  }

  lemma InspectAccepts(scriptOf: ScriptOf, c: Claim, invoice: Record, f: Fetched)
    ensures Inspect(scriptOf, c, invoice, f).Ok? <==> Paying(scriptOf, c, invoice, f)
  {
    if Inspect(scriptOf, c, invoice, f).Ok? {
      InspectExact(scriptOf, c, invoice, f, Inspect(scriptOf, c, invoice, f).value);
    }
    if f.Found? {
      forall i: nat | GoodPayment(scriptOf, invoice, c.txid, f.tx, i) ensures Inspect(scriptOf, c, invoice, f).Ok? {
        assert AnyPays(f.tx.outputs, Lower(scriptOf(invoice.payTo).value), invoice.amountSats);
      }
    }
  }

  /** An uninterrupted run unlocks exactly a known invoice in its window, for its resource, with
      a good payment, seen inside the temporal fence, by a transaction that settles no other
      invoice. */
  lemma UnlockExact(scriptOf: ScriptOf, m: Mem, c: Claim, now: int, f: Fetched)
    requires Consistent(m) && ValidClaim(c)
    ensures Verify(scriptOf, m, c, now, f).1.Unlocked? <==>
      && c.invoiceHash in m.records && Timely(c, m.records[c.invoiceHash], now)
      && Paying(scriptOf, c, m.records[c.invoiceHash], f)
      && (f.tx.timeFirstSeen > 0 ==> f.tx.timeFirstSeen >= m.records[c.invoiceHash].issuedAt - 10)
      && (f.tx.timeFirstSeen == 0 ==>
            f.tx.block.Some? && f.tx.block.value.timestamp >= m.records[c.invoiceHash].issuedAt - 10)
      && (c.txid in m.txidToInvoice ==> m.txidToInvoice[c.txid] == c.invoiceHash)
  {
    LowerHash(c.txid);
    if c.invoiceHash in m.records {
      InspectAccepts(scriptOf, c, m.records[c.invoiceHash], f);
    }
  }

  /** What an UNLOCKED answer says and does: the least paying output of the fetched transaction,
      and the record as settled, now by this txid or earlier. */
  lemma UnlockAnswer(scriptOf: ScriptOf, m: Mem, c: Claim, now: int, f: Fetched)
    requires ValidClaim(c) && Verify(scriptOf, m, c, now, f).1.Unlocked?
    ensures c.invoiceHash in m.records && f.Found?
    ensures var (m', a) := Verify(scriptOf, m, c, now, f);
      var r := m.records[c.invoiceHash];
      && a.tx == f.tx && GoodPayment(scriptOf, r, c.txid, f.tx, a.outputIndex)
      && (forall j | 0 <= j < a.outputIndex :: !GoodPayment(scriptOf, r, c.txid, f.tx, j))
      && (a.idempotent <==> r.state.Paid?)
      && (a.idempotent ==> a.record == r && m' == m)
      && (!a.idempotent ==>
            && a.record == r.(state := Paid, settledTxid := Some(c.txid), settledAt := Some(now))
            && m' == m.(records := m.records[c.invoiceHash := a.record],
                        txidToInvoice := m.txidToInvoice[c.txid := c.invoiceHash]))
  {
    LowerHash(c.txid);
    var r := m.records[c.invoiceHash];
    InspectExact(scriptOf, c, r, f, Inspect(scriptOf, c, r, f).value);
  }

  // ---------- Which refusal ----------

  /** The first thing that is wrong with the transaction. */
  ghost function TxFault(scriptOf: ScriptOf, invoice: Record, txid: Text, tx: Tx): Option<Code> {
    if Lower(tx.txid) != Lower(txid) || (tx.block.Some? && !SoundBlock(tx.block.value))
      || tx.timeFirstSeen < 0 || tx.timeFirstSeen > 9007199254740991 then Some(MalformedChronikTx)
    else if tx.block.None? && !tx.isFinal then Some(TransactionNotFinal)
    else if tx.timeFirstSeen == 0 && tx.block.None? then Some(TransactionTimeUnknown)
    else if (if tx.timeFirstSeen > 0 then tx.timeFirstSeen else tx.block.value.timestamp) < invoice.issuedAt - 10
      then Some(HistoricalTransaction)
    else if scriptOf(invoice.payTo).None? then Some(PayToMismatch)
    else OutputFault(tx.outputs, Lower(scriptOf(invoice.payTo).value), invoice.amountSats)
  }

  /** Without an exact token-free payment: no output to the script, one with a token among them, or
      only other amounts. */
  ghost function OutputFault(outputs: seq<Output>, script: Text, amount: nat): Option<Code> {
    if exists o | o in outputs :: Lower(o.script) == script && !o.hasToken && o.sats == amount then None
    else if forall o | o in outputs :: Lower(o.script) != script then Some(PayToMismatch)
    else if exists o | o in outputs :: Lower(o.script) == script && o.hasToken then Some(TokenOutputDisallowed)
    else Some(AmountMismatch)
  }

  lemma ScanFault(outputs: seq<Output>, script: Text, amount: nat)
    ensures OutputFault(outputs, script, amount) ==
      if Scan(outputs, script, amount).Ok? then None else Some(Scan(outputs, script, amount).error)
  {
    if o :| o in outputs && Lower(o.script) == script {
      var i :| 0 <= i < |outputs| && outputs[i] == o;
      assert PaysScript(outputs[i], script);
    }
    forall o | o in outputs && Lower(o.script) == script && o.hasToken ensures AnyToken(outputs, script) {
      var i :| 0 <= i < |outputs| && outputs[i] == o;
    }
    forall o | o in outputs && Lower(o.script) == script && !o.hasToken && o.sats == amount
      ensures AnyPays(outputs, script, amount)
    {
      var i :| 0 <= i < |outputs| && outputs[i] == o;
      assert Pays(outputs[i], script, amount);
    }
  }

  lemma InspectFault(scriptOf: ScriptOf, c: Claim, invoice: Record, tx: Tx)
    ensures TxFault(scriptOf, invoice, c.txid, tx) ==
      var r := Inspect(scriptOf, c, invoice, Found(tx));
      if r.Ok? then None else Some(r.error)
  {
    if scriptOf(invoice.payTo).Some? {
      ScanFault(tx.outputs, Lower(scriptOf(invoice.payTo).value), invoice.amountSats);
    }
  }

  /** Of several faults the first one in this order is reported; without any the claim is unlocked. */
  lemma RefusalExact(scriptOf: ScriptOf, m: Mem, c: Claim, now: int, f: Fetched)
    requires ValidClaim(c)
    ensures var answer := Verify(scriptOf, m, c, now, f).1;
      if c.invoiceHash !in m.records then answer == Refused(UnknownInvoice)
      else
        var r := m.records[c.invoiceHash];
        if c.expectedResource.Some? && c.expectedResource != Some(r.resourceHash) then
          answer == Refused(ResourceMismatch)
        else if now < 0 || now > 9007199254740991 then answer == Refused(InvalidServerTime)
        else if now < r.issuedAt then answer == Refused(InvoiceNotYetValid)
        else if r.state.Paid? && r.settledTxid != Some(c.txid) then answer == Refused(TxidConflict)
        else if !r.state.Paid? && now >= r.expiresAt then answer == Refused(InvoiceExpired)
        else if f.TxMissing? then answer == Refused(TxNotFound)
        else if f.SourceFailed? then answer == Refused(ChronikUnavailable)
        else if TxFault(scriptOf, r, c.txid, f.tx).Some? then
          answer == Refused(TxFault(scriptOf, r, c.txid, f.tx).value)
        else if c.txid in m.txidToInvoice && m.txidToInvoice[c.txid] != c.invoiceHash then
          answer == Refused(TxidReusedCode)
        else answer.Unlocked?
  {
    LowerHash(c.txid);
    if c.invoiceHash in m.records && f.Found? {
      InspectFault(scriptOf, c, m.records[c.invoiceHash], f.tx);
    }
  }

  /** A run that does not unlock, and one that repeats a settlement, leave the store as it was. */
  lemma RefusalTouchesNothing(scriptOf: ScriptOf, m: Mem, c: Claim, now: int, f: Fetched)
    ensures var (m', answer) := Verify(scriptOf, m, c, now, f);
      answer.Refused? || answer.idempotent ==> m' == m
  {}

  lemma ScanUnique(outputs: seq<Output>, script: Text, amount: nat, r: Result<nat, Code>)
    requires r.Ok? ==> r.value < |outputs| && Pays(outputs[r.value], script, amount)
    requires r.Ok? ==> forall j | 0 <= j < r.value :: !Pays(outputs[j], script, amount)
    requires r.Err? ==> forall j | 0 <= j < |outputs| :: !Pays(outputs[j], script, amount)
    requires r == Err(PayToMismatch) <==> forall j | 0 <= j < |outputs| :: !PaysScript(outputs[j], script)
    requires r == Err(TokenOutputDisallowed) ==>
      exists j | 0 <= j < |outputs| :: PaysScript(outputs[j], script) && outputs[j].hasToken
    requires r == Err(AmountMismatch) ==>
      forall j | 0 <= j < |outputs| :: PaysScript(outputs[j], script) ==> !outputs[j].hasToken
    requires r.Err? ==> r.error in {PayToMismatch, TokenOutputDisallowed, AmountMismatch}
    ensures r == Scan(outputs, script, amount)
  {
    var s := Scan(outputs, script, amount);
    if r.Ok? {
      assert !(s.value < r.value) && !(r.value < s.value);
    }
  }

  method VerifySettlementProof(scriptOf: ScriptOf, store: InMemoryStore, proof: Claim, now: int, fetched: Fetched)
    returns (outcome: Outcome)
    modifies store
    ensures (store.State(), outcome) == Verify(scriptOf, old(store.State()), proof, now, fetched)
    ensures outcome.Unlocked? && ValidClaim(proof) ==>
      && proof.invoiceHash in old(store.records) && fetched.Found?
      && GoodPayment(scriptOf, old(store.records)[proof.invoiceHash], proof.txid, fetched.tx, outcome.outputIndex)
      && Timely(proof, old(store.records)[proof.invoiceHash], now)
      && outcome.record.settledTxid == Some(proof.txid)
  {
    if Verify(scriptOf, store.State(), proof, now, fetched).1.Unlocked? && ValidClaim(proof) {
      UnlockAnswer(scriptOf, store.State(), proof, now, fetched);
    }
    var lookup := store.GetByInvoiceHash(proof.invoiceHash);
    if lookup.None? {
      return Refused(UnknownInvoice);
    }
    var invoice := lookup.value;
    var refusal := ClockCheck(proof, invoice, now);
    if refusal.Some? {
      return Refused(refusal.value);
    }
    if fetched.TxMissing? {
      return Refused(TxNotFound);
    }
    if fetched.SourceFailed? {
      return Refused(ChronikUnavailable);
    }
    var tx := fetched.tx;
    if Lower(tx.txid) != Lower(proof.txid) {
      return Refused(MalformedChronikTx);
    }
    var validConfirmedBlock := false;
    if tx.block.Some? {
      if !ValidBlock(tx.block.value) {
        return Refused(MalformedChronikTx);
      }
      validConfirmedBlock := true;
    }
    if !SafeTime(tx.timeFirstSeen) {
      return Refused(MalformedChronikTx);
    }
    if !validConfirmedBlock && !tx.isFinal {
      return Refused(TransactionNotFinal);
    }
    var observedAt;
    if tx.timeFirstSeen > 0 {
      observedAt := tx.timeFirstSeen;
    } else if validConfirmedBlock {
      observedAt := tx.block.value.timestamp;
    } else {
      return Refused(TransactionTimeUnknown);
    }
    if observedAt < invoice.issuedAt - FENCE_TOLERANCE {
      return Refused(HistoricalTransaction);
    }
    var script := scriptOf(invoice.payTo);
    if script.None? {
      return Refused(PayToMismatch);
    }
    var scan := ScanOutputs(tx.outputs, Lower(script.value), invoice.amountSats);
    ScanUnique(tx.outputs, Lower(script.value), invoice.amountSats, scan);
    if scan.Err? {
      return Refused(scan.error);
    }
    var commit := store.CommitPaid(proof.invoiceHash, proof.txid, now);
    outcome := CommitOutcome(commit, scan.value, tx);
  }
}
