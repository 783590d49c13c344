/** Runs of the facilitator: conservation of credit, one debit per invoice, idempotency. */
module LedgerRuns {
  import opened Texts
  import opened Radix
  import opened Utf8
  import opened Invoices
  import opened Authorizations
  import opened NonceStore
  import opened Ledgers
  import R = Resource
  import S = Settlement

  datatype Call = Call(input: Verify, answers: Answers)

  // ---------- When a verification debits ----------

  ghost predicate Debits(sha: R.HashFunction, l: Ledger, q: Verify, a: Answers, output: S.Output) {
    && R.ResourceHash(sha, q.resource).Some? && q.idempotencyKey !in l.idempotency
    && q.invoice.issuedAt <= a.now < q.invoice.expiresAt
    && Bound(sha, q.invoice, q.authorization, q.resource)
    && a.signature.SignatureValid?
    && q.invoice.nonce !in Pruned(l.nonces, a.now)
    && InspectFunding(a.funding, q.authorization.txid, q.authorization.vout, Amount(q)) == Funded(output)
    && CanDebit(l, q, output)
  }

  function Swept(l: Ledger, now: int): Ledger { l.(nonces := Pruned(l.nonces, now)) }

  function BalanceLeft(l: Ledger, q: Verify, output: S.Output): nat
    requires CanDebit(l, q, output)
  {
    Debited(FundingAccount(l, q, output), Amount(q)).remainingBalanceSats
  }

  function AfterDebit(sha: R.HashFunction, l: Ledger, q: Verify, now: int, output: S.Output): Ledger
    requires CanDebit(l, q, output)
  {
    DebitedLedger(sha, Swept(l, now), q, q.invoice.resourceHash, Debited(FundingAccount(l, q, output), Amount(q)))
  }

  lemma FundedDebit(sha: R.HashFunction, l: Ledger, q: Verify, hash: Text, f: S.Fetched, output: S.Output,
      before: Account)
    requires InspectFunding(f, q.authorization.txid, q.authorization.vout, Amount(q)) == Funded(output)
    requires CanDebit(l, q, output) && before == FundingAccount(l, q, output)
    ensures var account := Debited(before, Amount(q));
      AfterFunding(sha, l, q, hash, f) ==
        (DebitedLedger(sha, l, q, hash, account), Verified(ResponseFor(sha, q, account.remainingBalanceSats)))
  {}

  lemma OpeningExact(sha: R.HashFunction, l: Ledger, q: Verify, hash: Text, now: int)
    requires R.ResourceHash(sha, q.resource) == Some(hash)
    ensures Opening(sha, l, q, hash, now).None? <==>
      && q.idempotencyKey !in l.idempotency && q.invoice.issuedAt <= now < q.invoice.expiresAt
      && Bound(sha, q.invoice, q.authorization, q.resource)
    ensures Opening(sha, l, q, hash, now).Some? && Opening(sha, l, q, hash, now).value.Verified? ==>
      q.idempotencyKey in l.idempotency
  {
    CheckBindingExact(sha, q.invoice, q.authorization, q.resource, now);
  }

  /** A verification debits exactly under these conditions; the response tells the balance left. */
  lemma DebitStep(sha: R.HashFunction, l: Ledger, q: Verify, a: Answers, output: S.Output)
    requires Debits(sha, l, q, a, output)
    ensures VerifyPayment(sha, l, q, a) ==
      (AfterDebit(sha, l, q, a.now, output),
       Verified(ResponseFor(sha, q, BalanceLeft(l, q, output))))
  {
    OpeningExact(sha, l, q, q.invoice.resourceHash, a.now);
    VerifyThrough(sha, l, q, q.invoice.resourceHash, a);
    DebitFunding(sha, l, q, a, output);
  }

  lemma DebitFunding(sha: R.HashFunction, l: Ledger, q: Verify, a: Answers, output: S.Output)
    requires CanDebit(l, q, output)
    requires InspectFunding(a.funding, q.authorization.txid, q.authorization.vout, Amount(q)) == Funded(output)
    ensures AfterFunding(sha, Swept(l, a.now), q, q.invoice.resourceHash, a.funding) ==
      (AfterDebit(sha, l, q, a.now, output), Verified(ResponseFor(sha, q, BalanceLeft(l, q, output))))
  {
    var l', before := Swept(l, a.now), FundingAccount(l, q, output);
    CanDebitSwept(l, q, a.now, output);
    assert before == FundingAccount(l', q, output);
    FundedDebit(sha, l', q, q.invoice.resourceHash, a.funding, output, before);
  }

  lemma VerifyThrough(sha: R.HashFunction, l: Ledger, q: Verify, hash: Text, a: Answers)
    requires R.ResourceHash(sha, q.resource) == Some(hash) && Opening(sha, l, q, hash, a.now).None?
    requires a.signature.SignatureValid? && q.invoice.nonce !in Pruned(l.nonces, a.now)
    ensures VerifyPayment(sha, l, q, a) == AfterFunding(sha, Swept(l, a.now), q, hash, a.funding)
  {
    assert AfterSignature(l, q, a.now, a.signature) == (Swept(l, a.now), None);
  }

  lemma OtherFunding(sha: R.HashFunction, l: Ledger, q: Verify, hash: Text, f: S.Fetched)
    requires forall output ::
      InspectFunding(f, q.authorization.txid, q.authorization.vout, Amount(q)) == Funded(output) ==>
        !CanDebit(l, q, output)
    ensures AfterFunding(sha, l, q, hash, f).0 == l && !AfterFunding(sha, l, q, hash, f).1.Verified?
  {
    var i := InspectFunding(f, q.authorization.txid, q.authorization.vout, Amount(q));
    assert i.Funded? ==> !CanDebit(l, q, i.output);
  }

  lemma CanDebitSwept(l: Ledger, q: Verify, now: int, output: S.Output)
    ensures CanDebit(Swept(l, now), q, output) <==> CanDebit(l, q, output)
  {}

  /** Any other verification leaves accounts, entries and stored responses as they were; it
      succeeds only as the replay of a stored response. */
  lemma OtherStep(sha: R.HashFunction, l: Ledger, q: Verify, a: Answers)
    requires forall output :: !Debits(sha, l, q, a, output)
    ensures var (l', outcome) := VerifyPayment(sha, l, q, a);
      && (l' == l || l' == Swept(l, a.now))
      && (outcome.Verified? ==> l' == l && q.idempotencyKey in l.idempotency)
  {
    if R.ResourceHash(sha, q.resource).Some? {
      var hash := R.ResourceHash(sha, q.resource).value;
      OpeningExact(sha, l, q, hash, a.now);
      if Opening(sha, l, q, hash, a.now).None? && AfterSignature(l, q, a.now, a.signature).1.None? {
        forall output |
          InspectFunding(a.funding, q.authorization.txid, q.authorization.vout, Amount(q)) == Funded(output)
          ensures !CanDebit(Swept(l, a.now), q, output)
        {
          CanDebitSwept(l, q, a.now, output);
          assert !Debits(sha, l, q, a, output);
        }
        OtherFunding(sha, Swept(l, a.now), q, hash, a.funding);
      }
    }
  }

  /** A verification that is not answered with success leaves accounts and entries untouched. */
  lemma FailureTouchesNothing(sha: R.HashFunction, l: Ledger, q: Verify, a: Answers)
    requires !VerifyPayment(sha, l, q, a).1.Verified?
    ensures var l' := VerifyPayment(sha, l, q, a).0;
      l'.accounts == l.accounts && l'.entries == l.entries && l'.idempotency == l.idempotency
  {
    forall output ensures !Debits(sha, l, q, a, output) {
      if Debits(sha, l, q, a, output) {
        DebitStep(sha, l, q, a, output);
      }
    }
    OtherStep(sha, l, q, a);
  }

  // ---------- The books ----------

  function KeyOf(e: Entry): Text { OutpointKey(e.txid, e.outIdx) }

  /** What the entries have debited from an outpoint. */
  function DebitSum(entries: seq<Entry>, k: Text): nat
    decreases |entries|
  {
    if entries == [] then 0
    else
      var last := entries[|entries| - 1];
      DebitSum(entries[..|entries| - 1], k) + if KeyOf(last) == k then last.debitedSats else 0
  }

  ghost predicate HasEntry(entries: seq<Entry>, k: Text) { exists i | 0 <= i < |entries| :: KeyOf(entries[i]) == k }

  /** What funded the outpoint is what remains plus what was debited; `nat` keeps both at or
      above zero. */
  ghost predicate AccountOk(a: Account, entries: seq<Entry>, k: Text) {
    && IsHash(a.txid) && k == OutpointKey(a.txid, a.outIdx)
    && a.fundingValueSats == a.remainingBalanceSats + DebitSum(entries, k)
    && HasEntry(entries, k)
  }

  /** An entry names its account's payer and value, and the balance right after it. */
  ghost predicate EntryOk(accounts: map<Text, Account>, entries: seq<Entry>, i: nat)
    requires i < |entries|
  {
    var e := entries[i];
    && KeyOf(e) in accounts && e.payer == accounts[KeyOf(e)].payer && e.debitedSats > 0
    && e.fundingValueSats == accounts[KeyOf(e)].fundingValueSats
    && e.fundingValueSats == e.remainingBalanceSats + DebitSum(entries[..i + 1], KeyOf(e))
  }

  ghost predicate Books(accounts: map<Text, Account>, entries: seq<Entry>) {
    && (forall k | k in accounts :: AccountOk(accounts[k], entries, k))
    && (forall i | 0 <= i < |entries| :: EntryOk(accounts, entries, i))
  }

  /** e posts a debit that takes the account to `a`. */
  predicate Posts(accounts: map<Text, Account>, a: Account, e: Entry) {
    && IsHash(a.txid) && a.txid == e.txid && a.outIdx == e.outIdx && a.payer == e.payer && e.debitedSats > 0
    && a.fundingValueSats == e.fundingValueSats && a.remainingBalanceSats == e.remainingBalanceSats
    && if KeyOf(e) in accounts
       then accounts[KeyOf(e)] == a.(remainingBalanceSats := a.remainingBalanceSats + e.debitedSats)
       else a.fundingValueSats == a.remainingBalanceSats + e.debitedSats
  }

  lemma {:induction false} DebitSumNone(entries: seq<Entry>, k: Text)
    requires !HasEntry(entries, k)
    ensures DebitSum(entries, k) == 0
    decreases |entries|
  {
    if entries != [] {
      var init := entries[..|entries| - 1];
      assert forall i | 0 <= i < |init| :: init[i] == entries[i];
      DebitSumNone(init, k);
    }
  }

  lemma DebitSumAppend(entries: seq<Entry>, e: Entry, k: Text)
    ensures DebitSum(entries + [e], k) == DebitSum(entries, k) + if KeyOf(e) == k then e.debitedSats else 0
  {
    assert (entries + [e])[..|entries|] == entries;
  }

  lemma HasEntryAppend(entries: seq<Entry>, e: Entry, k: Text)
    ensures HasEntry(entries + [e], k) <==> HasEntry(entries, k) || KeyOf(e) == k
  {
    assert (entries + [e])[|entries|] == e;
    if HasEntry(entries, k) {
      var i :| 0 <= i < |entries| && KeyOf(entries[i]) == k;
      assert KeyOf((entries + [e])[i]) == k;
    }
  }

  lemma EntryHasAccount(accounts: map<Text, Account>, entries: seq<Entry>, k: Text)
    requires Books(accounts, entries)
    ensures HasEntry(entries, k) ==> k in accounts
  {
    if HasEntry(entries, k) {
      var i :| 0 <= i < |entries| && KeyOf(entries[i]) == k;
      assert EntryOk(accounts, entries, i);
    }
  }

  lemma PostKeepsAccounts(accounts: map<Text, Account>, entries: seq<Entry>, a: Account, e: Entry, k: Text)
    requires Books(accounts, entries) && Posts(accounts, a, e)
    requires k in accounts || k == KeyOf(e)
    ensures AccountOk(if k == KeyOf(e) then a else accounts[k], entries + [e], k)
  {
    DebitSumAppend(entries, e, k);
    HasEntryAppend(entries, e, k);
    if k in accounts {
      assert AccountOk(accounts[k], entries, k);
    } else {
      EntryHasAccount(accounts, entries, k);
      DebitSumNone(entries, k);
    }
  }

  lemma PostKeepsEntry(accounts: map<Text, Account>, entries: seq<Entry>, a: Account, e: Entry, i: nat)
    requires Books(accounts, entries) && Posts(accounts, a, e) && i <= |entries|
    ensures EntryOk(accounts[KeyOf(e) := a], entries + [e], i)
  {
    var entries' := entries + [e];
    if i < |entries| {
      assert EntryOk(accounts, entries, i);
      assert entries'[..i + 1] == entries[..i + 1];
    } else {
      assert entries'[..i + 1] == entries';
      PostKeepsAccounts(accounts, entries, a, e, KeyOf(e));
    }
  }

  lemma PostKeepsBooks(accounts: map<Text, Account>, entries: seq<Entry>, a: Account, e: Entry)
    requires Books(accounts, entries) && Posts(accounts, a, e)
    ensures Books(accounts[KeyOf(e) := a], entries + [e])
  {
    var accounts' := accounts[KeyOf(e) := a];
    forall k | k in accounts' ensures AccountOk(accounts'[k], entries + [e], k) {
      PostKeepsAccounts(accounts, entries, a, e, k);
    }
    forall i | 0 <= i < |entries + [e]| ensures EntryOk(accounts', entries + [e], i) {
      PostKeepsEntry(accounts, entries, a, e, i);
    }
  }

  // ---------- Stored responses ----------

  function EntryResponse(e: Entry): Response {
    Response(e.invoiceId, e.authorizationDigest, Decimal(e.debitedSats), Decimal(e.remainingBalanceSats),
             e.txid, e.outIdx)
  }

  /** Entries and idempotency keys are in bijection; a stored response tells its entry. */
  ghost predicate Filed(entries: seq<Entry>, idempotency: map<Text, IdempotencyRecord>) {
    && (forall i | 0 <= i < |entries| ::
          && entries[i].idempotencyKey in idempotency
          && idempotency[entries[i].idempotencyKey].response == EntryResponse(entries[i]))
    && (forall i, j | 0 <= i < j < |entries| :: entries[i].idempotencyKey != entries[j].idempotencyKey)
    && (forall k | k in idempotency :: FiledUnder(entries, k))
  }

  ghost predicate FiledUnder(entries: seq<Entry>, k: Text) {
    exists i | 0 <= i < |entries| :: entries[i].idempotencyKey == k
  }

  lemma FileKeeps(entries: seq<Entry>, idempotency: map<Text, IdempotencyRecord>, e: Entry, r: IdempotencyRecord)
    requires Filed(entries, idempotency) && e.idempotencyKey !in idempotency && r.response == EntryResponse(e)
    ensures Filed(entries + [e], idempotency[e.idempotencyKey := r])
  {
    var entries', idempotency' := entries + [e], idempotency[e.idempotencyKey := r];
    assert entries'[|entries|] == e;
    forall k | k in idempotency' ensures FiledUnder(entries', k) {
      if k != e.idempotencyKey {
        assert FiledUnder(entries, k);
        var i :| 0 <= i < |entries| && entries[i].idempotencyKey == k;
        assert entries'[i].idempotencyKey == k;
      }
    }
  }

  // ---------- The history of debited invoices ----------

  function Uses(debits: seq<Invoice>): (h: seq<Use>)
    ensures |h| == |debits| && forall i | 0 <= i < |h| :: h[i] == Use(debits[i].nonce, debits[i].expiresAt)
  {
    seq(|debits|, i requires 0 <= i < |debits| => Use(debits[i].nonce, debits[i].expiresAt))
  }

  ghost predicate Recorded(sha: R.HashFunction, entries: seq<Entry>, debits: seq<Invoice>) {
    && |entries| == |debits|
    && forall i | 0 <= i < |entries| :: EntryOf(sha, entries[i], debits[i])
  }

  /** No invoice is debited twice. */
  ghost predicate Once(debits: seq<Invoice>) {
    forall i, j | 0 <= i < j < |debits| :: debits[i] != debits[j]
  }

  /** The ledger, the history of debited invoices, and the latest clock reading. */
  datatype State = State(ledger: Ledger, debits: seq<Invoice>, clock: int)

  const START: State := State(Ledgers.EMPTY, [], 0)

  /** What holds whatever the clock does. */
  ghost predicate Inv(sha: R.HashFunction, s: State) {
    && Books(s.ledger.accounts, s.ledger.entries)
    && Filed(s.ledger.entries, s.ledger.idempotency)
    && Recorded(sha, s.ledger.entries, s.debits)
  }

  /** What needs a clock that never goes back. */
  ghost predicate Timely(s: State) {
    Once(s.debits) && Represents(s.ledger.nonces, Uses(s.debits), s.clock)
  }

  function Step(sha: R.HashFunction, s: State, c: Call): State {
    var l' := VerifyPayment(sha, s.ledger, c.input, c.answers).0;
    State(l', if |l'.entries| > |s.ledger.entries| then s.debits + [c.input.invoice] else s.debits, c.answers.now)
  }

  function Run(sha: R.HashFunction, s: State, calls: seq<Call>): State
    decreases |calls|
  {
    if calls == [] then s else Run(sha, Step(sha, s, calls[0]), calls[1..])
  }

  /** The clock never goes back. */
  predicate Ordered(clock: int, calls: seq<Call>)
    decreases |calls|
  {
    calls == [] || (clock <= calls[0].answers.now && Ordered(calls[0].answers.now, calls[1..]))
  }

  /** Everything that was recorded is still there. */
  ghost predicate Grows(l: Ledger, l': Ledger) {
    && l.entries <= l'.entries
    && (forall k | k in l.idempotency :: k in l'.idempotency && l'.idempotency[k] == l.idempotency[k])
    && (forall k | k in l.accounts ::
          && k in l'.accounts && l'.accounts[k].remainingBalanceSats <= l.accounts[k].remainingBalanceSats
          && l'.accounts[k].(remainingBalanceSats := l.accounts[k].remainingBalanceSats) == l.accounts[k])
  }

  lemma RepresentsLater(m: map<Text, int>, h: seq<Use>, clock: int, now: int)
    requires Represents(m, h, clock) && clock <= now
    ensures Represents(m, h, now)
  {}

  lemma DebitPosts(sha: R.HashFunction, s: State, q: Verify, a: Answers, output: S.Output)
    requires Inv(sha, s) && Debits(sha, s.ledger, q, a, output)
    ensures var account := Debited(FundingAccount(s.ledger, q, output), Amount(q));
      Posts(s.ledger.accounts, account, EntryFor(sha, q, account)) && Key(q) == KeyOf(EntryFor(sha, q, account))
  {
    if Key(q) in s.ledger.accounts {
      AccountOfKey(s.ledger, q);
    }
    AccountPosts(sha, s.ledger, q, output);
  }

  lemma AccountPosts(sha: R.HashFunction, l: Ledger, q: Verify, output: S.Output)
    requires CanDebit(l, q, output)
    requires Key(q) in l.accounts ==>
      l.accounts[Key(q)].txid == q.authorization.txid && l.accounts[Key(q)].outIdx == q.authorization.vout
    ensures var account := Debited(FundingAccount(l, q, output), Amount(q));
      Posts(l.accounts, account, EntryFor(sha, q, account)) && Key(q) == KeyOf(EntryFor(sha, q, account))
  {
    AmountIsDecimal(q.invoice.amountSats);
  }

  lemma AccountOfKey(l: Ledger, q: Verify)
    requires Books(l.accounts, l.entries) && Key(q) in l.accounts
    ensures l.accounts[Key(q)].txid == q.authorization.txid && l.accounts[Key(q)].outIdx == q.authorization.vout
  {
    var a := l.accounts[Key(q)];
    assert AccountOk(a, l.entries, Key(q));
    OutpointKeyInjective(a.txid, a.outIdx, q.authorization.txid, q.authorization.vout);
  }

  /** A live recorded use would have stopped the debit, so the invoice is new. */
  lemma DebitIsNew(sha: R.HashFunction, s: State, q: Verify, a: Answers, output: S.Output)
    requires Timely(s) && Debits(sha, s.ledger, q, a, output) && s.clock <= a.now
    ensures Once(s.debits + [q.invoice])
    ensures Represents(Pruned(s.ledger.nonces, a.now)[q.invoice.nonce := q.invoice.expiresAt],
                       Uses(s.debits + [q.invoice]), a.now)
  {
    var h, u := Uses(s.debits), Use(q.invoice.nonce, q.invoice.expiresAt);
    PrunedExact(s.ledger.nonces, h, s.clock, q.invoice.nonce, a.now);
    assert forall i | 0 <= i < |h| :: h[i].nonce == q.invoice.nonce ==> h[i].expiresAt <= a.now;
    forall i | 0 <= i < |s.debits| ensures s.debits[i] != q.invoice {
      assert h[i] == Use(s.debits[i].nonce, s.debits[i].expiresAt);
    }
    AcceptedRepresents(Pruned(s.ledger.nonces, a.now), h, a.now, u);
    assert Uses(s.debits + [q.invoice]) == h + [u];
  }

  /** The record of the debit: what is added to each part of the state. */
  function Posted(s: State, account: Account, e: Entry, r: IdempotencyRecord, invoice: Invoice, now: int): State {
    State(Ledger(s.ledger.accounts[KeyOf(e) := account], s.ledger.entries + [e],
                 s.ledger.idempotency[e.idempotencyKey := r],
                 Pruned(s.ledger.nonces, now)[invoice.nonce := invoice.expiresAt]),
          s.debits + [invoice], now)
  }

  lemma DebitIsPosted(sha: R.HashFunction, s: State, q: Verify, a: Answers, output: S.Output)
    requires Debits(sha, s.ledger, q, a, output)
    ensures var account := Debited(FundingAccount(s.ledger, q, output), Amount(q));
      Step(sha, s, Call(q, a)) ==
        Posted(s, account, EntryFor(sha, q, account),
               IdempotencyRecord(Digest(sha, q, q.invoice.resourceHash),
                                 ResponseFor(sha, q, account.remainingBalanceSats)),
               q.invoice, a.now)
  {
    DebitStep(sha, s.ledger, q, a, output);
  }

  /** The entry tells the invoice it was debited for. */
  predicate EntryOf(sha: R.HashFunction, e: Entry, invoice: Invoice) {
    && e.invoiceId == InvoiceHash(sha, invoice) && e.nonce == invoice.nonce && e.payTo == invoice.payTo
    && Decimal(e.debitedSats) == invoice.amountSats
  }

  lemma RecordedAppend(sha: R.HashFunction, entries: seq<Entry>, debits: seq<Invoice>, e: Entry, invoice: Invoice)
    requires Recorded(sha, entries, debits) && EntryOf(sha, e, invoice)
    ensures Recorded(sha, entries + [e], debits + [invoice])
  {}

  lemma PostedGrows(s: State, account: Account, e: Entry, r: IdempotencyRecord, invoice: Invoice, now: int)
    requires Posts(s.ledger.accounts, account, e) && e.idempotencyKey !in s.ledger.idempotency
    ensures Grows(s.ledger, Posted(s, account, e, r, invoice, now).ledger)
  {}

  lemma PostedKeeps(sha: R.HashFunction, s: State, account: Account, e: Entry, r: IdempotencyRecord,
      invoice: Invoice, now: int)
    requires Inv(sha, s) && Posts(s.ledger.accounts, account, e)
    requires e.idempotencyKey !in s.ledger.idempotency && r.response == EntryResponse(e)
    requires EntryOf(sha, e, invoice)
    ensures Inv(sha, Posted(s, account, e, r, invoice, now))
  {
    var l := s.ledger;
    PostKeepsBooks(l.accounts, l.entries, account, e);
    FileKeeps(l.entries, l.idempotency, e, r);
    RecordedAppend(sha, l.entries, s.debits, e, invoice);
    var s' := Posted(s, account, e, r, invoice, now);
    assert Books(s'.ledger.accounts, s'.ledger.entries);
    assert Filed(s'.ledger.entries, s'.ledger.idempotency);
    assert Recorded(sha, s'.ledger.entries, s'.debits);
  }

  lemma DebitKeeps(sha: R.HashFunction, s: State, q: Verify, a: Answers, output: S.Output)
    requires Inv(sha, s) && Debits(sha, s.ledger, q, a, output)
    ensures Inv(sha, Step(sha, s, Call(q, a))) && Grows(s.ledger, Step(sha, s, Call(q, a)).ledger)
  {
    var account := Debited(FundingAccount(s.ledger, q, output), Amount(q));
    DebitIsPosted(sha, s, q, a, output);
    DebitPosts(sha, s, q, a, output);
    AmountIsDecimal(q.invoice.amountSats);
    var e := EntryFor(sha, q, account);
    var response := ResponseFor(sha, q, account.remainingBalanceSats);
    var r := IdempotencyRecord(Digest(sha, q, q.invoice.resourceHash), response);
    PostedKeeps(sha, s, account, e, r, q.invoice, a.now);
    PostedGrows(s, account, e, r, q.invoice, a.now);
  }

  lemma StepKeeps(sha: R.HashFunction, s: State, c: Call)
    requires Inv(sha, s)
    ensures Inv(sha, Step(sha, s, c)) && Grows(s.ledger, Step(sha, s, c).ledger)
  {
    if output :| Debits(sha, s.ledger, c.input, c.answers, output) {
      DebitKeeps(sha, s, c.input, c.answers, output);
    } else {
      OtherStep(sha, s.ledger, c.input, c.answers);
    }
  }

  lemma StepTimely(sha: R.HashFunction, s: State, c: Call)
    requires Timely(s) && s.clock <= c.answers.now
    ensures Timely(Step(sha, s, c))
  {
    if output :| Debits(sha, s.ledger, c.input, c.answers, output) {
      DebitIsPosted(sha, s, c.input, c.answers, output);
      DebitIsNew(sha, s, c.input, c.answers, output);
    } else {
      OtherStep(sha, s.ledger, c.input, c.answers);
      PrunedExact(s.ledger.nonces, Uses(s.debits), s.clock, c.input.invoice.nonce, c.answers.now);
      RepresentsLater(s.ledger.nonces, Uses(s.debits), s.clock, c.answers.now);
    }
  }

  lemma GrowsTransitive(a: Ledger, b: Ledger, c: Ledger)
    requires Grows(a, b) && Grows(b, c)
    ensures Grows(a, c)
  {}

  lemma {:induction false} RunKeeps(sha: R.HashFunction, s: State, calls: seq<Call>)
    requires Inv(sha, s)
    ensures Inv(sha, Run(sha, s, calls)) && Grows(s.ledger, Run(sha, s, calls).ledger)
    decreases |calls|
  {
    if calls != [] {
      StepKeeps(sha, s, calls[0]);
      RunKeeps(sha, Step(sha, s, calls[0]), calls[1..]);
      GrowsTransitive(s.ledger, Step(sha, s, calls[0]).ledger, Run(sha, s, calls).ledger);
    }
  }

  lemma {:induction false} RunTimely(sha: R.HashFunction, s: State, calls: seq<Call>)
    requires Timely(s) && Ordered(s.clock, calls)
    ensures Timely(Run(sha, s, calls))
    decreases |calls|
  {
    if calls != [] {
      StepTimely(sha, s, calls[0]);
      RunTimely(sha, Step(sha, s, calls[0]), calls[1..]);
    }
  }

  // ---------- What the runs guarantee ----------

  /** After every run, whatever the clock, the verifier and the provider answer: for every
      outpoint what funded it is what remains plus what its entries debited. */
  lemma CreditConserved(sha: R.HashFunction, calls: seq<Call>, txid: Text, outIdx: nat)
    requires OutpointKey(txid, outIdx) in Run(sha, START, calls).ledger.accounts
    ensures var l := Run(sha, START, calls).ledger;
      var a := l.accounts[OutpointKey(txid, outIdx)];
      a.fundingValueSats == a.remainingBalanceSats + DebitSum(l.entries, OutpointKey(txid, outIdx))
  {
    RunKeeps(sha, START, calls);
    var l := Run(sha, START, calls).ledger;
    assert AccountOk(l.accounts[OutpointKey(txid, outIdx)], l.entries, OutpointKey(txid, outIdx));
  }

  /** Entry i records the balance that was left after the debits up to and including its own,
      and names the one payer of its outpoint. */
  lemma EntriesRecordBalances(sha: R.HashFunction, calls: seq<Call>, i: nat, j: nat)
    requires var l := Run(sha, START, calls).ledger; i < |l.entries| && j < |l.entries|
    ensures var es := Run(sha, START, calls).ledger.entries;
      && es[i].fundingValueSats == es[i].remainingBalanceSats + DebitSum(es[..i + 1], KeyOf(es[i]))
      && (KeyOf(es[i]) == KeyOf(es[j]) ==>
            es[i].payer == es[j].payer && es[i].fundingValueSats == es[j].fundingValueSats)
  {
    RunKeeps(sha, START, calls);
    var l := Run(sha, START, calls).ledger;
    assert EntryOk(l.accounts, l.entries, i) && EntryOk(l.accounts, l.entries, j);
  }

  /** With a clock that never goes back no invoice is debited twice, although spent nonces are
      forgotten: two entries with one invoice id would be a hash collision. */
  lemma OneDebitPerInvoice(sha: R.HashFunction, calls: seq<Call>, i: nat, j: nat)
    requires Ordered(0, calls)
    requires i < j < |Run(sha, START, calls).ledger.entries|
    ensures var s := Run(sha, START, calls);
      && |s.debits| == |s.ledger.entries|
      && EntryOf(sha, s.ledger.entries[i], s.debits[i]) && EntryOf(sha, s.ledger.entries[j], s.debits[j])
      && s.debits[i] != s.debits[j]
      && (R.NoCollision(sha, CanonicalBytes(InvoiceJson(s.debits[i])), CanonicalBytes(InvoiceJson(s.debits[j]))) ==>
            s.ledger.entries[i].invoiceId != s.ledger.entries[j].invoiceId)
  {
    var s := Run(sha, START, calls);
    RunKeeps(sha, START, calls);
    RunTimely(sha, START, calls);
    if R.NoCollision(sha, CanonicalBytes(InvoiceJson(s.debits[i])), CanonicalBytes(InvoiceJson(s.debits[j]))) {
      InvoiceHashBinds(sha, s.debits[i], s.debits[j]);
    }
  }

  /** Entries and idempotency keys are in bijection after every run. */
  lemma KeysBijective(sha: R.HashFunction, calls: seq<Call>, k: Text)
    requires k in Run(sha, START, calls).ledger.idempotency
    ensures var l := Run(sha, START, calls).ledger;
      exists i | 0 <= i < |l.entries| ::
        && l.entries[i].idempotencyKey == k && l.idempotency[k].response == EntryResponse(l.entries[i])
        && forall j | 0 <= j < |l.entries| && l.entries[j].idempotencyKey == k :: j == i
    ensures var l := Run(sha, START, calls).ledger;
      forall i | 0 <= i < |l.entries| :: l.entries[i].idempotencyKey in l.idempotency
  {
    RunKeeps(sha, START, calls);
    var l := Run(sha, START, calls).ledger;
    assert FiledUnder(l.entries, k);
    var i :| 0 <= i < |l.entries| && l.entries[i].idempotencyKey == k;
    assert forall j | 0 <= j < |l.entries| && l.entries[j].idempotencyKey == k :: !(j < i) && !(i < j);
  }

  /** The digest is stored with the response of every success. */
  lemma SuccessStored(sha: R.HashFunction, l: Ledger, q: Verify, a: Answers)
    requires VerifyPayment(sha, l, q, a).1.Verified?
    ensures var (l', outcome) := VerifyPayment(sha, l, q, a);
      && R.ResourceHash(sha, q.resource).Some? && q.idempotencyKey in l'.idempotency
      && l'.idempotency[q.idempotencyKey] ==
           IdempotencyRecord(Digest(sha, q, R.ResourceHash(sha, q.resource).value), outcome.response)
  {
    if output :| Debits(sha, l, q, a, output) {
      DebitStep(sha, l, q, a, output);
    } else {
      OtherStep(sha, l, q, a);
    }
  }

  /** No hash that is taken for the digests of the two requests collides. */
  ghost predicate CollisionFree(sha: R.HashFunction, c: Call, d: Call) {
    match (R.ResourceHash(sha, c.input.resource), R.ResourceHash(sha, d.input.resource))
    case (Some(r), Some(t)) =>
      NoDigestCollision(sha, c.input.authorization, c.input.invoice, r, d.input.authorization, d.input.invoice, t)
    case _ => true
  }

  /** Once a key has been answered with success, every later call with the key, at any time and
      whatever happened in between, changes nothing: it gets the same response if it repeats
      authorization, invoice and resource, and a conflict otherwise. */
  lemma IdempotentForever(sha: R.HashFunction, before: seq<Call>, c: Call, between: seq<Call>, d: Call)
    requires var s := Run(sha, START, before); VerifyPayment(sha, s.ledger, c.input, c.answers).1.Verified?
    requires d.input.idempotencyKey == c.input.idempotencyKey && R.ResourceHash(sha, d.input.resource).Some?
    requires CollisionFree(sha, c, d)
    ensures var s := Run(sha, START, before);
      var first := VerifyPayment(sha, s.ledger, c.input, c.answers).1;
      var later := Run(sha, Step(sha, s, c), between).ledger;
      VerifyPayment(sha, later, d.input, d.answers) ==
        (later, if && c.input.authorization == d.input.authorization && c.input.invoice == d.input.invoice
                   && R.ResourceHash(sha, c.input.resource) == R.ResourceHash(sha, d.input.resource)
                then first else Failed(IdempotencyConflict))
  {
    var s := Run(sha, START, before);
    RunKeeps(sha, START, before);
    SuccessStored(sha, s.ledger, c.input, c.answers);
    StepKeeps(sha, s, c);
    RunKeeps(sha, Step(sha, s, c), between);
    var later := Run(sha, Step(sha, s, c), between).ledger;
    assert later.idempotency[c.input.idempotencyKey] == Step(sha, s, c).ledger.idempotency[c.input.idempotencyKey];
    RequestDigestBinds(sha, c.input.authorization, c.input.invoice, R.ResourceHash(sha, c.input.resource).value,
                       d.input.authorization, d.input.invoice, R.ResourceHash(sha, d.input.resource).value);
  }

  /** Pruning against the history: the nonce passes exactly when no recorded debit of it is
      unexpired. */
  lemma NonceCheckExact(sha: R.HashFunction, calls: seq<Call>, nonce: Text, now: int)
    requires Ordered(0, calls) && Run(sha, START, calls).clock <= now
    ensures var s := Run(sha, START, calls);
      nonce !in Pruned(s.ledger.nonces, now) <==>
        !exists i | 0 <= i < |s.debits| :: s.debits[i].nonce == nonce && s.debits[i].expiresAt > now
  {
    RunTimely(sha, START, calls);
    var s := Run(sha, START, calls);
    var h := Uses(s.debits);
    PrunedExact(s.ledger.nonces, h, s.clock, nonce, now);
    if Live(h, nonce, now) {
      var i :| 0 <= i < |h| && h[i].nonce == nonce && h[i].expiresAt > now;
      assert s.debits[i].nonce == nonce && s.debits[i].expiresAt > now;
    } else {
      assert forall i | 0 <= i < |s.debits| :: h[i] == Use(s.debits[i].nonce, s.debits[i].expiresAt);
    }
  }
}
