/** The prepaid-credit ledger of the facilitator and what one verification does to it. */
module Ledgers {
  import opened Texts
  import opened Radix
  import opened Invoices
  import opened Authorizations
  import opened NonceStore
  import R = Resource
  import S = Settlement

  datatype Account = Account(txid: Text, outIdx: nat, payer: Text, fundingValueSats: nat, remainingBalanceSats: nat)

  datatype Entry = Entry(
    txid: Text, outIdx: nat, payer: Text, payTo: Text, fundingValueSats: nat, remainingBalanceSats: nat,
    debitedSats: nat, invoiceId: Text, nonce: Text, authorizationDigest: Text, idempotencyKey: Text)

  /** The body of a successful response. */
  datatype Response = Response(
    invoiceId: Text, authorizationDigest: Text, debitedSats: Text, remainingBalanceSats: Text, txid: Text, outIdx: nat)

  datatype IdempotencyRecord = IdempotencyRecord(requestDigest: Text, response: Response)

  /** What `transact` guards. */
  datatype Ledger = Ledger(
    accounts: map<Text, Account>, entries: seq<Entry>, idempotency: map<Text, IdempotencyRecord>,
    nonces: map<Text, int>)

  const EMPTY: Ledger := Ledger(map[], [], map[], map[])

  datatype VerifyRequest = VerifyRequest(
    invoice: Invoice, authorization: Authorization, resource: R.Request, idempotencyKey: Text)

  datatype SignatureAnswer = SignatureValid | SignatureInvalid | SignatureThrew

  /** What the clock, the signature verifier and the transaction provider answer. */
  datatype Answers = Answers(now: int, signature: SignatureAnswer, funding: S.Fetched)

  datatype FailureCode =
    | Unauthorized(code: AuthorizationCode)
    | FundingNotFound | FundingChanged | PayerMismatch | InsufficientCredit | IdempotencyConflict

  datatype Outcome = Verified(response: Response) | Failed(code: FailureCode) | Threw

  predicate ValidVerifyRequest(q: VerifyRequest) { ValidInvoice(q.invoice) && ValidAuthorization(q.authorization) }

  /** The requests that the schema lets through. */
  type Verify = q: VerifyRequest | ValidVerifyRequest(q)
    witness VerifyRequest(
      AN_INVOICE, Authorization(A_HASH, A_HASH, [49], AN_ADDRESS, A_NONCE, AN_ADDRESS, A_HASH, 0, [65]),
      R.Request([], [], [], [], None), [])

  // ---------- inspectFundingTransaction ----------

  datatype Inspection = Funded(output: S.Output) | NotFunded(insufficient: bool) | InspectionThrew

  predicate Settled(tx: S.Tx) { (tx.block.Some? ==> S.ValidBlock(tx.block.value)) && (tx.block.Some? || tx.isFinal) }

  function InspectFunding(f: S.Fetched, txid: Text, outIdx: nat, amount: nat): Inspection {
    match f
    case SourceFailed => InspectionThrew
    case TxMissing => NotFunded(false)
    case Found(tx) =>
      if tx.txid != txid then NotFunded(false)
      else if outIdx >= |tx.outputs| then NotFunded(false)
      else if tx.outputs[outIdx].sats < amount then NotFunded(true)
      else if tx.outputs[outIdx].hasToken then NotFunded(false)
      else if tx.block.Some? && !S.ValidBlock(tx.block.value) then NotFunded(false)
      else if tx.block.None? && !tx.isFinal then NotFunded(false)
      else Funded(tx.outputs[outIdx])
  }

  /** Funding is accepted exactly for a settled token-free output of the named outpoint that is
      worth at least the amount. */
  lemma InspectFundingExact(f: S.Fetched, txid: Text, outIdx: nat, amount: nat, o: S.Output)
    ensures InspectFunding(f, txid, outIdx, amount) == Funded(o) <==>
      && f.Found? && f.tx.txid == txid && outIdx < |f.tx.outputs| && f.tx.outputs[outIdx] == o
      && o.sats >= amount && !o.hasToken && Settled(f.tx)
  {}

  // ---------- The key of an outpoint ----------

  function OutpointKey(txid: Text, outIdx: nat): Text { txid + [58] + Decimal(outIdx) }

  lemma OutpointKeyInjective(s: Text, m: nat, t: Text, n: nat)
    requires IsHash(s) && IsHash(t) && OutpointKey(s, m) == OutpointKey(t, n)
    ensures s == t && m == n
  {
    var k := OutpointKey(s, m);
    assert s == k[..64] == t;
    assert Decimal(m) == k[65..] == Decimal(n);
    DecimalRoundTrip(m);
    DecimalRoundTrip(n);
  }

  // ---------- Verification, in the three stretches between its awaits ----------

  function Digest(sha: R.HashFunction, q: Verify, hash: Text): Text {
    RequestDigest(sha, q.authorization, q.invoice, hash)
  }

  /** Up to the signature check: the idempotency lookup and the bindings. None: go on. */
  function Opening(sha: R.HashFunction, l: Ledger, q: Verify, hash: Text, now: int): Option<Outcome> {
    if q.idempotencyKey in l.idempotency then
      var previous := l.idempotency[q.idempotencyKey];
      if previous.requestDigest != Digest(sha, q, hash) then Some(Failed(IdempotencyConflict))
      else Some(Verified(previous.response))
    else match CheckBinding(sha, q.invoice, q.authorization, q.resource, now)
      case Some(code) => Some(Failed(Unauthorized(code)))
      case None => None
  }

  /** Up to the funding query: the signature and the nonce, which is only staged. */
  function AfterSignature(l: Ledger, q: Verify, now: int, signature: SignatureAnswer): (Ledger, Option<Outcome>) {
    match signature
    case SignatureThrew => (l, Some(Threw))
    case SignatureInvalid => (l, Some(Failed(Unauthorized(InvalidSignature))))
    case SignatureValid =>
      var l' := l.(nonces := Pruned(l.nonces, now));
      if q.invoice.nonce in l'.nonces then (l', Some(Failed(Unauthorized(NonceReused)))) else (l', None)
  }

  function Amount(q: Verify): nat { DecimalValue(q.invoice.amountSats) }

  function Key(q: Verify): Text { OutpointKey(q.authorization.txid, q.authorization.vout) }

  /** The account that is debited, existing or new. */
  function FundingAccount(l: Ledger, q: Verify, output: S.Output): Account {
    if Key(q) in l.accounts then l.accounts[Key(q)]
    else Account(q.authorization.txid, q.authorization.vout, q.authorization.payer, output.sats, output.sats)
  }

  function ResponseFor(sha: R.HashFunction, q: Verify, remaining: nat): Response {
    Response(InvoiceHash(sha, q.invoice), AuthorizationDigest(sha, q.authorization), Decimal(Amount(q)),
             Decimal(remaining), q.authorization.txid, q.authorization.vout)
  }

  function EntryFor(sha: R.HashFunction, q: Verify, account: Account): Entry {
    Entry(q.authorization.txid, q.authorization.vout, q.authorization.payer, q.invoice.payTo,
          account.fundingValueSats, account.remainingBalanceSats, Amount(q), InvoiceHash(sha, q.invoice),
          q.invoice.nonce, AuthorizationDigest(sha, q.authorization), q.idempotencyKey)
  }

  /** To the end: the funding checks, the debit, and the commit of all that was staged. */
  function AfterFunding(sha: R.HashFunction, l: Ledger, q: Verify, hash: Text, funding: S.Fetched): (Ledger, Outcome) {
    match InspectFunding(funding, q.authorization.txid, q.authorization.vout, Amount(q))
    case InspectionThrew => (l, Threw)
    case NotFunded(insufficient) => (l, Failed(if insufficient then InsufficientCredit else FundingNotFound))
    case Funded(output) =>
      var known := Key(q) in l.accounts;
      if known && l.accounts[Key(q)].fundingValueSats != output.sats then (l, Failed(FundingChanged))
      else if known && l.accounts[Key(q)].payer != q.authorization.payer then (l, Failed(PayerMismatch))
      else
        var before := FundingAccount(l, q, output);
        if before.remainingBalanceSats < Amount(q) then (l, Failed(InsufficientCredit))
        else
          var account := Debited(before, Amount(q));
          (DebitedLedger(sha, l, q, hash, account), Verified(ResponseFor(sha, q, account.remainingBalanceSats)))
  }

  /** The checks that the output and the existing account must pass. */
  predicate CanDebit(l: Ledger, q: Verify, output: S.Output) {
    && (Key(q) in l.accounts ==>
          l.accounts[Key(q)].fundingValueSats == output.sats && l.accounts[Key(q)].payer == q.authorization.payer)
    && FundingAccount(l, q, output).remainingBalanceSats >= Amount(q)
  }

  function Debited(account: Account, amount: nat): Account
    requires account.remainingBalanceSats >= amount
  {
    account.(remainingBalanceSats := account.remainingBalanceSats - amount)
  }

  function DebitedLedger(sha: R.HashFunction, l: Ledger, q: Verify, hash: Text, account: Account): Ledger {
    var response := ResponseFor(sha, q, account.remainingBalanceSats);
    Ledger(l.accounts[Key(q) := account], l.entries + [EntryFor(sha, q, account)],
           l.idempotency[q.idempotencyKey := IdempotencyRecord(Digest(sha, q, hash), response)],
           l.nonces[q.invoice.nonce := q.invoice.expiresAt])
  }

  /** The operation passed to `transact`, run without interruption. */
  function VerifyLocked(sha: R.HashFunction, l: Ledger, q: Verify, hash: Text, a: Answers): (Ledger, Outcome) {
    match Opening(sha, l, q, hash, a.now)
    case Some(outcome) => (l, outcome)
    case None =>
      match AfterSignature(l, q, a.now, a.signature)
      case (l', Some(outcome)) => (l', outcome)
      case (l', None) => AfterFunding(sha, l', q, hash, a.funding)
  }

  function VerifyPayment(sha: R.HashFunction, l: Ledger, q: Verify, a: Answers): (Ledger, Outcome) {
    match R.ResourceHash(sha, q.resource)
    case None => (l, Failed(Unauthorized(Malformed)))
    case Some(hash) => VerifyLocked(sha, l, q, hash, a)
  }

  // ---------- The objects of the source ----------

  class InMemoryTransactionalLedger {
    var accounts: map<Text, Account>
    var entries: seq<Entry>
    var idempotency: map<Text, IdempotencyRecord>
    var nonces: map<Text, int>

    constructor ()
      ensures State() == EMPTY
    {
      accounts, entries, idempotency, nonces := map[], [], map[], map[];
    }

    ghost function State(): Ledger
      reads this
    {
      Ledger(accounts, entries, idempotency, nonces)
    }

    /** `consume` of a transaction: prunes the shared map, stages the use. */
    method Consume(stagedNonces: map<Text, int>, nonce: Text, expiresAt: int, now: int)
      returns (staged: map<Text, int>, ok: bool)
      modifies this
      ensures State() == old(State()).(nonces := Pruned(old(nonces), now))
      ensures ok <==> nonce !in nonces && nonce !in stagedNonces
      ensures staged == if ok then stagedNonces[nonce := expiresAt] else stagedNonces
    {
      nonces := DeleteExpired(nonces, now);
      if nonce in nonces || nonce in stagedNonces {
        return stagedNonces, false;
      }
      return stagedNonces[nonce := expiresAt], true;
    }

    /** `commit` of a transaction. */
    method Commit(stagedNonces: map<Text, int>, account: Account, entry: Entry, idempotencyKey: Text,
        requestDigest: Text, response: Response)
      modifies this
      ensures State() ==
        Ledger(old(accounts)[OutpointKey(account.txid, account.outIdx) := account], old(entries) + [entry],
               old(idempotency)[idempotencyKey := IdempotencyRecord(requestDigest, response)],
               old(nonces) + stagedNonces)
    {
      var rest := stagedNonces.Keys;
      while rest != {}
        invariant rest <= stagedNonces.Keys
        invariant accounts == old(accounts) && entries == old(entries) && idempotency == old(idempotency)
        invariant nonces == old(nonces) + (map n | n in stagedNonces && n !in rest :: stagedNonces[n])
      {
        var nonce :| nonce in rest;
        rest := rest - {nonce};
        nonces := nonces[nonce := stagedNonces[nonce]];
      }
      accounts := accounts[OutpointKey(account.txid, account.outIdx) := account];
      entries := entries + [entry];
      idempotency := idempotency[idempotencyKey := IdempotencyRecord(requestDigest, response)];
    }
  }

  /** Accounts are filed under the key of their outpoint. */
  ghost predicate Keyed(l: Ledger) {
    forall k | k in l.accounts :: k == OutpointKey(l.accounts[k].txid, l.accounts[k].outIdx)
  }

  lemma KeyedDebit(l: Ledger, q: Verify, output: S.Output)
    requires Keyed(l)
    ensures var a := FundingAccount(l, q, output); OutpointKey(a.txid, a.outIdx) == Key(q)
  {}

  method VerifyOnLedger(sha: R.HashFunction, ledger: InMemoryTransactionalLedger, input: Verify, answers: Answers)
    returns (outcome: Outcome)
    requires Keyed(ledger.State())
    modifies ledger
    ensures (ledger.State(), outcome) == VerifyPayment(sha, old(ledger.State()), input, answers)
    ensures Keyed(ledger.State())
  {
    var resource := R.ResourceHash(sha, input.resource);
    if resource.None? {
      return Failed(Unauthorized(Malformed));
    }
    var requestDigest := Digest(sha, input, resource.value);
    if input.idempotencyKey in ledger.idempotency {
      var previous := ledger.idempotency[input.idempotencyKey];
      if previous.requestDigest != requestDigest {
        return Failed(IdempotencyConflict);
      }
      return Verified(previous.response);
    }
    var refusal := CheckBinding(sha, input.invoice, input.authorization, input.resource, answers.now);
    if refusal.Some? {
      return Failed(Unauthorized(refusal.value));
    }
    if answers.signature.SignatureThrew? {
      return Threw;
    }
    if answers.signature.SignatureInvalid? {
      return Failed(Unauthorized(InvalidSignature));
    }
    var staged, ok := ledger.Consume(map[], input.invoice.nonce, input.invoice.expiresAt, answers.now);
    if !ok {
      return Failed(Unauthorized(NonceReused));
    }
    outcome := DebitOnLedger(sha, ledger, input, resource.value, staged, answers.funding);
  }

  method CommitDebit(sha: R.HashFunction, ledger: InMemoryTransactionalLedger, input: Verify, hash: Text,
      staged: map<Text, int>, account: Account)
    returns (outcome: Outcome)
    requires staged == map[input.invoice.nonce := input.invoice.expiresAt]
    requires OutpointKey(account.txid, account.outIdx) == Key(input)
    modifies ledger
    ensures Keyed(old(ledger.State())) ==> Keyed(ledger.State())
    ensures ledger.State() == DebitedLedger(sha, old(ledger.State()), input, hash, account)
    ensures outcome == Verified(ResponseFor(sha, input, account.remainingBalanceSats))
  {
    var body := ResponseFor(sha, input, account.remainingBalanceSats);
    ledger.Commit(staged, account, EntryFor(sha, input, account), input.idempotencyKey, Digest(sha, input, hash), body);
    assert old(ledger.nonces) + staged == old(ledger.nonces)[input.invoice.nonce := input.invoice.expiresAt];
    outcome := Verified(body);
  }

  method DebitOnLedger(sha: R.HashFunction, ledger: InMemoryTransactionalLedger, input: Verify, hash: Text,
      staged: map<Text, int>, funding: S.Fetched)
    returns (outcome: Outcome)
    requires Keyed(ledger.State()) && staged == map[input.invoice.nonce := input.invoice.expiresAt]
    modifies ledger
    ensures (ledger.State(), outcome) == AfterFunding(sha, old(ledger.State()), input, hash, funding)
    ensures Keyed(ledger.State())
  {
    var txid, vout := input.authorization.txid, input.authorization.vout;
    var amount := DecimalValue(input.invoice.amountSats);
    var inspection := InspectFunding(funding, txid, vout, amount);
    if inspection.InspectionThrew? {
      return Threw;
    }
    if inspection.NotFunded? {
      return Failed(if inspection.insufficient then InsufficientCredit else FundingNotFound);
    }
    var output := inspection.output;
    var account: Account;
    if OutpointKey(txid, vout) in ledger.accounts {
      var existing := ledger.accounts[OutpointKey(txid, vout)];
      if existing.fundingValueSats != output.sats {
        return Failed(FundingChanged);
      }
      if existing.payer != input.authorization.payer {
        return Failed(PayerMismatch);
      }
      account := existing;
    } else {
      account := Account(txid, vout, input.authorization.payer, output.sats, output.sats);
    }
    if account.remainingBalanceSats < amount {
      return Failed(InsufficientCredit);
    }
    assert account == FundingAccount(ledger.State(), input, output);
    account := Debited(account, amount);
    KeyedDebit(ledger.State(), input, output);
    outcome := CommitDebit(sha, ledger, input, hash, staged, account);
  }
}
