/** One verification in the terms of its request and the ledger: when it debits and what that
    writes, and which refusal it gives. */
module LedgerAnswers {
  import opened Texts
  import opened Radix
  import opened Invoices
  import opened Authorizations
  import opened NonceStore
  import opened Ledgers
  import opened LedgerRuns
  import R = Resource
  import S = Settlement

  // ---------- The debit ----------

  /** The output that the authorization names is there, settled, free of tokens and large enough. */
  ghost predicate Funds(f: S.Fetched, au: Authorization, amount: nat) {
    && f.Found? && f.tx.txid == au.txid && au.vout < |f.tx.outputs|
    && f.tx.outputs[au.vout].sats >= amount && !f.tx.outputs[au.vout].hasToken
    && (f.tx.block.Some? ==> S.SoundBlock(f.tx.block.value)) && (f.tx.block.Some? || f.tx.isFinal)
  }

  function PointKey(au: Authorization): Text { au.txid + Spell(":") + Decimal(au.vout) }

  /** Every condition of a debit. */
  ghost predicate Debitable(sha: R.HashFunction, l: Ledger, q: Verify, a: Answers, amount: nat) {
    var i, au := q.invoice, q.authorization;
    && q.idempotencyKey !in l.idempotency
    && i.issuedAt <= a.now < i.expiresAt
    && R.ResourceHash(sha, q.resource) == Some(i.resourceHash) && au.resourceHash == i.resourceHash
    && au.amountSats == i.amountSats && au.payTo == i.payTo && au.nonce == i.nonce
    && au.invoiceHash == InvoiceHash(sha, i)
    && a.signature.SignatureValid?
    && (i.nonce in l.nonces ==> l.nonces[i.nonce] <= a.now)
    && Funds(a.funding, au, amount)
    && (PointKey(au) in l.accounts ==>
          && l.accounts[PointKey(au)].fundingValueSats == a.funding.tx.outputs[au.vout].sats
          && l.accounts[PointKey(au)].payer == au.payer && l.accounts[PointKey(au)].remainingBalanceSats >= amount)
  }

  /** What is left on the outpoint after the debit. */
  ghost function Left(l: Ledger, q: Verify, a: Answers, amount: nat): (left: int)
    requires Funds(a.funding, q.authorization, amount)
  {
    (if PointKey(q.authorization) in l.accounts then l.accounts[PointKey(q.authorization)].remainingBalanceSats
     else a.funding.tx.outputs[q.authorization.vout].sats) - amount
  }

  /** The ledger and the response after the debit. */
  ghost predicate DebitWritten(sha: R.HashFunction, l: Ledger, q: Verify, a: Answers, left: nat, l': Ledger, o: Outcome)
    requires q.authorization.vout < if a.funding.Found? then |a.funding.tx.outputs| else 0
  {
    var i, au, k := q.invoice, q.authorization, PointKey(q.authorization);
    var value := a.funding.tx.outputs[au.vout].sats;
    var response := Response(InvoiceHash(sha, i), AuthorizationDigest(sha, au), i.amountSats, Decimal(left), au.txid,
                             au.vout);
    && o == Verified(response)
    && l'.accounts == l.accounts[k := if k in l.accounts then l.accounts[k].(remainingBalanceSats := left)
                                      else Account(au.txid, au.vout, au.payer, value, left)]
    && |l'.entries| == |l.entries| + 1 && l'.entries[..|l.entries|] == l.entries
    && EntryPosted(sha, q, l'.entries[|l.entries|], value, left)
    && l'.idempotency == l.idempotency[q.idempotencyKey :=
         IdempotencyRecord(RequestDigest(sha, au, i, i.resourceHash), response)]
    && l'.nonces == (map n | n in l.nonces && l.nonces[n] > a.now :: l.nonces[n])[i.nonce := i.expiresAt]
  }

  ghost predicate EntryPosted(sha: R.HashFunction, q: Verify, e: Entry, value: nat, left: nat) {
    && e.txid == q.authorization.txid && e.outIdx == q.authorization.vout && e.payer == q.authorization.payer
    && e.payTo == q.invoice.payTo && e.fundingValueSats == value && e.remainingBalanceSats == left
    && Decimal(e.debitedSats) == q.invoice.amountSats && e.invoiceId == InvoiceHash(sha, q.invoice)
    && e.nonce == q.invoice.nonce && e.authorizationDigest == AuthorizationDigest(sha, q.authorization)
    && e.idempotencyKey == q.idempotencyKey
  }

  lemma KeySpelled(q: Verify)
    ensures Key(q) == PointKey(q.authorization)
  {
    assert Spell(":") == [58];
  }

  lemma AmountOfText(q: Verify, amount: nat)
    requires Decimal(amount) == q.invoice.amountSats
    ensures Amount(q) == amount > 0
  {
    DecimalRoundTrip(amount);
    AmountIsDecimal(q.invoice.amountSats);
  }

  lemma FundsExact(f: S.Fetched, au: Authorization, amount: nat)
    ensures Funds(f, au, amount) <==> InspectFunding(f, au.txid, au.vout, amount).Funded?
    ensures Funds(f, au, amount) ==> InspectFunding(f, au.txid, au.vout, amount) == Funded(f.tx.outputs[au.vout])
  {}

  lemma CanDebitExact(l: Ledger, q: Verify, amount: nat, o: S.Output)
    requires Amount(q) == amount && o.sats >= amount
    ensures CanDebit(l, q, o) <==>
      (PointKey(q.authorization) in l.accounts ==>
         && l.accounts[PointKey(q.authorization)].fundingValueSats == o.sats
         && l.accounts[PointKey(q.authorization)].payer == q.authorization.payer
         && l.accounts[PointKey(q.authorization)].remainingBalanceSats >= amount)
  {
    KeySpelled(q);
  }

  lemma DebitableExact(sha: R.HashFunction, l: Ledger, q: Verify, a: Answers, amount: nat)
    requires Amount(q) == amount
    ensures Debitable(sha, l, q, a, amount) <==>
      Funds(a.funding, q.authorization, amount) && Debits(sha, l, q, a, a.funding.tx.outputs[q.authorization.vout])
    ensures !Debitable(sha, l, q, a, amount) ==> forall o :: !Debits(sha, l, q, a, o)
  {
    FundsExact(a.funding, q.authorization, amount);
    if Funds(a.funding, q.authorization, amount) {
      CanDebitExact(l, q, amount, a.funding.tx.outputs[q.authorization.vout]);
    }
  }

  /** The debited account. */
  lemma AccountLeft(l: Ledger, q: Verify, o: S.Output, amount: nat, left: int)
    requires Amount(q) == amount && CanDebit(l, q, o)
    requires left == (if Key(q) in l.accounts then l.accounts[Key(q)].remainingBalanceSats else o.sats) - amount
    ensures BalanceLeft(l, q, o) == left >= 0
    ensures Ledgers.Debited(FundingAccount(l, q, o), amount) ==
      if Key(q) in l.accounts then l.accounts[Key(q)].(remainingBalanceSats := left)
      else Account(q.authorization.txid, q.authorization.vout, q.authorization.payer, o.sats, left)
  {}

  lemma EntryWritten(sha: R.HashFunction, q: Verify, account: Account, value: nat, left: nat)
    requires account.fundingValueSats == value && account.remainingBalanceSats == left
    requires Decimal(Amount(q)) == q.invoice.amountSats
    ensures EntryPosted(sha, q, EntryFor(sha, q, account), value, left)
  {}

  lemma LedgerWritten(sha: R.HashFunction, l: Ledger, q: Verify, a: Answers, account: Account, value: nat, left: nat)
    requires a.funding.Found? && q.authorization.vout < |a.funding.tx.outputs|
    requires value == a.funding.tx.outputs[q.authorization.vout].sats
    requires account.fundingValueSats == value && account.remainingBalanceSats == left
    requires account == if Key(q) in l.accounts then l.accounts[Key(q)].(remainingBalanceSats := left)
      else Account(q.authorization.txid, q.authorization.vout, q.authorization.payer, value, left)
    requires Decimal(Amount(q)) == q.invoice.amountSats && Key(q) == PointKey(q.authorization)
    ensures DebitWritten(sha, l, q, a, left,
      DebitedLedger(sha, LedgerRuns.Swept(l, a.now), q, q.invoice.resourceHash, account),
      Verified(ResponseFor(sha, q, left)))
  {
    EntryWritten(sha, q, account, value, left);
  }

  lemma DebitWrites(sha: R.HashFunction, l: Ledger, q: Verify, a: Answers, amount: nat)
    requires Decimal(amount) == q.invoice.amountSats && Debitable(sha, l, q, a, amount)
    ensures Left(l, q, a, amount) >= 0
    ensures var (l', o) := VerifyPayment(sha, l, q, a); DebitWritten(sha, l, q, a, Left(l, q, a, amount), l', o)
  {
    AmountOfText(q, amount);
    DebitableExact(sha, l, q, a, amount);
    KeySpelled(q);
    var output := a.funding.tx.outputs[q.authorization.vout];
    DebitStep(sha, l, q, a, output);
    AccountLeft(l, q, output, amount, Left(l, q, a, amount));
    LedgerWritten(sha, l, q, a, Ledgers.Debited(FundingAccount(l, q, output), amount), output.sats,
                  Left(l, q, a, amount));
  }

  /** A verification under a new key succeeds exactly if every condition of a debit holds; then it
      writes account, entry, response and nonce. Otherwise it leaves accounts, entries and responses
      as they were, forgets expired nonces at most, and succeeds only as a replay. */
  lemma DebitExact(sha: R.HashFunction, l: Ledger, q: Verify, a: Answers, amount: nat)
    requires Decimal(amount) == q.invoice.amountSats
    ensures var (l', o) := VerifyPayment(sha, l, q, a);
      && (o.Verified? && q.idempotencyKey !in l.idempotency <==> Debitable(sha, l, q, a, amount))
      && (Debitable(sha, l, q, a, amount) ==>
            && Left(l, q, a, amount) >= 0
            && DebitWritten(sha, l, q, a, Left(l, q, a, amount), l', o))
      && (!Debitable(sha, l, q, a, amount) ==>
            && l'.accounts == l.accounts && l'.entries == l.entries && l'.idempotency == l.idempotency
            && (l'.nonces == l.nonces || l'.nonces == map n | n in l.nonces && l.nonces[n] > a.now :: l.nonces[n])
            && (o.Verified? ==> l' == l))
  {
    AmountOfText(q, amount);
    DebitableExact(sha, l, q, a, amount);
    if Debitable(sha, l, q, a, amount) {
      DebitWrites(sha, l, q, a, amount);
    } else {
      OtherStep(sha, l, q, a);
    }
  }

  // ---------- Which refusal ----------

  /** What is wrong with the authorization, up to its signature. */
  ghost function BindingFault(sha: R.HashFunction, q: Verify, now: int): Option<AuthorizationCode> {
    var i, au := q.invoice, q.authorization;
    if now < 0 || now > 9007199254740991 then Some(Malformed)
    else if now < i.issuedAt then Some(NotYetValid)
    else if now >= i.expiresAt then Some(Expired)
    else if R.ResourceHash(sha, q.resource) != Some(i.resourceHash) || au.resourceHash != i.resourceHash then
      Some(ResourceMismatch)
    else if au.amountSats != i.amountSats then Some(AmountMismatch)
    else if au.payTo != i.payTo then Some(PayToMismatch)
    else if au.nonce != i.nonce then Some(NonceMismatch)
    else if au.invoiceHash != InvoiceHash(sha, i) then Some(InvoiceMismatch)
    else None
  }

  /** What is wrong with the funding. A source that fails ends the call with its error. */
  ghost function FundingFault(l: Ledger, q: Verify, f: S.Fetched, amount: nat): Option<FailureCode>
    requires !f.SourceFailed?
  {
    var au := q.authorization;
    if f.TxMissing? || f.tx.txid != au.txid || au.vout >= |f.tx.outputs| then Some(FundingNotFound)
    else if f.tx.outputs[au.vout].sats < amount then Some(InsufficientCredit)
    else if f.tx.outputs[au.vout].hasToken || (f.tx.block.Some? && !S.SoundBlock(f.tx.block.value))
      || (f.tx.block.None? && !f.tx.isFinal) then Some(FundingNotFound)
    else if PointKey(au) !in l.accounts then None
    else if l.accounts[PointKey(au)].fundingValueSats != f.tx.outputs[au.vout].sats then Some(FundingChanged)
    else if l.accounts[PointKey(au)].payer != au.payer then Some(PayerMismatch)
    else if l.accounts[PointKey(au)].remainingBalanceSats < amount then Some(InsufficientCredit)
    else None
  }

  lemma BindingFaultExact(sha: R.HashFunction, q: Verify, now: int)
    requires R.ResourceHash(sha, q.resource).Some?
    ensures CheckBinding(sha, q.invoice, q.authorization, q.resource, now) == BindingFault(sha, q, now)
  {
    AmountIsDecimal(q.invoice.amountSats);
    AmountIsDecimal(q.authorization.amountSats);
  }

  lemma FundingFaultExact(sha: R.HashFunction, l: Ledger, q: Verify, hash: Text, f: S.Fetched, amount: nat)
    requires Amount(q) == amount && !f.SourceFailed?
    ensures FundingFault(l, q, f, amount).Some? ==>
      AfterFunding(sha, l, q, hash, f).1 == Failed(FundingFault(l, q, f, amount).value)
    ensures FundingFault(l, q, f, amount).None? ==> AfterFunding(sha, l, q, hash, f).1.Verified?
  {
    KeySpelled(q);
  }

  lemma FundingFaultSwept(l: Ledger, now: int, q: Verify, f: S.Fetched, amount: nat)
    requires !f.SourceFailed?
    ensures FundingFault(LedgerRuns.Swept(l, now), q, f, amount) == FundingFault(l, q, f, amount)
  {}

  /** Of several faults the first one in this order is reported. */
  lemma FailureExact(sha: R.HashFunction, l: Ledger, q: Verify, a: Answers, amount: nat)
    requires Decimal(amount) == q.invoice.amountSats && q.idempotencyKey !in l.idempotency
    ensures var o := VerifyPayment(sha, l, q, a).1;
      if R.ResourceHash(sha, q.resource).None? then o == Failed(Unauthorized(Malformed))
      else if BindingFault(sha, q, a.now).Some? then o == Failed(Unauthorized(BindingFault(sha, q, a.now).value))
      else if a.signature.SignatureThrew? then o == Threw
      else if a.signature.SignatureInvalid? then o == Failed(Unauthorized(InvalidSignature))
      else if q.invoice.nonce in l.nonces && l.nonces[q.invoice.nonce] > a.now then
        o == Failed(Unauthorized(NonceReused))
      else if a.funding.SourceFailed? then o == Threw
      else if FundingFault(l, q, a.funding, amount).Some? then
        o == Failed(FundingFault(l, q, a.funding, amount).value)
      else o.Verified?
  {
    AmountOfText(q, amount);
    if R.ResourceHash(sha, q.resource).Some? {
      BindingFaultExact(sha, q, a.now);
      if !a.funding.SourceFailed? {
        FundingFaultExact(sha, LedgerRuns.Swept(l, a.now), q, R.ResourceHash(sha, q.resource).value, a.funding, amount);
        FundingFaultSwept(l, a.now, q, a.funding, amount);
      }
    }
  }

  /** A verification without a debit forgets the expired nonces exactly if it gets as far as the
      nonce check. */
  lemma ForgetsExact(sha: R.HashFunction, l: Ledger, q: Verify, a: Answers, amount: nat)
    requires Decimal(amount) == q.invoice.amountSats && !Debitable(sha, l, q, a, amount)
    ensures VerifyPayment(sha, l, q, a).0.nonces ==
      if && q.idempotencyKey !in l.idempotency && R.ResourceHash(sha, q.resource).Some?
         && BindingFault(sha, q, a.now).None? && a.signature.SignatureValid?
      then map n | n in l.nonces && l.nonces[n] > a.now :: l.nonces[n]
      else l.nonces
  {
    AmountOfText(q, amount);
    DebitableExact(sha, l, q, a, amount);
    if R.ResourceHash(sha, q.resource).Some? {
      OpeningFault(sha, l, q, R.ResourceHash(sha, q.resource).value, a.now);
      NoDebitLedger(sha, l, q, R.ResourceHash(sha, q.resource).value, a);
    } else {
      NoResource(sha, l, q, a);
    }
  }

  lemma OpeningFault(sha: R.HashFunction, l: Ledger, q: Verify, hash: Text, now: int)
    requires R.ResourceHash(sha, q.resource) == Some(hash)
    ensures Opening(sha, l, q, hash, now).None? <==>
      q.idempotencyKey !in l.idempotency && BindingFault(sha, q, now).None?
  {
    BindingFaultExact(sha, q, now);
  }

  lemma NoResource(sha: R.HashFunction, l: Ledger, q: Verify, a: Answers)
    requires R.ResourceHash(sha, q.resource).None?
    ensures VerifyPayment(sha, l, q, a).0 == l
  {}

  lemma NoDebitLedger(sha: R.HashFunction, l: Ledger, q: Verify, hash: Text, a: Answers)
    requires forall o :: !Debits(sha, l, q, a, o)
    requires R.ResourceHash(sha, q.resource) == Some(hash)
    ensures VerifyPayment(sha, l, q, a).0 ==
      if Opening(sha, l, q, hash, a.now).None? && a.signature.SignatureValid? then LedgerRuns.Swept(l, a.now) else l
  {
    OpeningExact(sha, l, q, hash, a.now);
    if Opening(sha, l, q, hash, a.now).None? && AfterSignature(l, q, a.now, a.signature).1.None? {
      forall o | InspectFunding(a.funding, q.authorization.txid, q.authorization.vout, Amount(q)) == Funded(o)
        ensures !CanDebit(LedgerRuns.Swept(l, a.now), q, o)
      {
        CanDebitSwept(l, q, a.now, o);
        assert !Debits(sha, l, q, a, o);
      }
      OtherFunding(sha, LedgerRuns.Swept(l, a.now), q, hash, a.funding);
    }
  }
}
