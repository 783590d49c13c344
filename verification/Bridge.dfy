/** The authorization bridge: `authorizePayment` as steps between its awaits, any number of them
    over one replay cache. */
module Bridge {
  import opened Texts
  import opened Radix
  import opened Utf8
  import opened Invoices
  import opened ReplayCache
  import R = Resource

  datatype Code =
    | InvalidClock | KillSwitchActive | InsufficientFundsLimit | MalformedPaymentRequired | ResourceMismatch
    | InvoiceHashMismatch | InvoiceNotYetValid | InvoiceExpired | Cached(error: CacheError)
    | PolicyDecisionInvalid | InvoiceExpiredDuringAuthorization | InvariantBindingMismatch
    | WalletTransportError | MalformedHumanApproval | HumanApprovalExpired

  datatype Config = Config(killSwitch: bool, dailyLimitSats: int)

  /** The HTTP 402 payload with a schema-valid invoice. */
  datatype PaymentRequired = PaymentRequired(invoice: Invoice, invoiceId: Option<Text>, resource: R.Request)

  type Offer = o: PaymentRequired | ValidInvoice(o.invoice)
    witness PaymentRequired(AN_INVOICE, None, R.Request([], [], [], [], None))

  /** What the caller asks for; `intentAccepted`: the intent passes the schema of its owner. */
  datatype Demand = Demand(offer: Offer, expectedResource: Option<R.Request>, intentTtl: int, intentAccepted: bool)

  datatype Verdict = RejectedByPolicy | NeedsHumanApproval | OtherDecision

  datatype PolicyAnswer =
    | PolicyThrew
    | PolicyMalformed
    | Decision(sameIntent: bool, verdict: Verdict, expiresAt: int)

  datatype HumanStatus = ApprovedByHuman | RejectedByHuman | ExpiredAtHuman

  datatype WalletAnswer =
    | WalletThrew
    | WalletMalformed
    | Human(
        sameRequest: bool, sameIntent: bool, sameDecision: bool, recordedAt: int, status: HumanStatus,
        hasApprover: bool)

  datatype Result = Approved | Rejected | Failed(code: Code)

  /** One authorization, at its point of suspension. */
  datatype Authorization =
    | AwaitingPolicy(invoice: Invoice, intentExpiresAt: int)
    | AwaitingWallet(invoice: Invoice, intentExpiresAt: int, policyExpiresAt: int)
    | Finished(result: Result)

  /** An approval that was given, and whether a reservation attempt at or after its expiry has
      come since, so that the prune of that attempt dropped it. */
  datatype Approval = Approval(invoice: Invoice, forgotten: bool)

  /** `approvals` is history: the program never reads it. */
  datatype Sys = Sys(cache: Cache, runs: map<nat, Authorization>, approvals: seq<Approval>)

  const START: Sys := Sys(EMPTY, map[], [])

  datatype Event =
    | Begin(id: nat, demand: Demand, now: int)
    | Policy(id: nat, answer: PolicyAnswer, now: int, requestAccepted: bool)
    | Wallet(id: nat, reply: WalletAnswer)

  predicate SafeTime(t: int) { 0 <= t <= MAX_SAFE_INTEGER }

  function Min(a: int, b: int): int { if a < b then a else b }

  // ---------- Steps ----------

  /** `validatePaymentRequired`, with the codes that the bridge gives its errors. */
  function Validate(sha: R.HashFunction, offer: Offer, expected: Option<R.Request>, now: int): Option<Code> {
    var i := offer.invoice;
    if now < i.issuedAt then Some(InvoiceNotYetValid)
    else if now >= i.expiresAt then Some(InvoiceExpired)
    else if offer.invoiceId.Some? && offer.invoiceId.value != InvoiceHash(sha, i) then Some(InvoiceHashMismatch)
    else match R.ResourceHash(sha, offer.resource)
      case None => Some(MalformedPaymentRequired)
      case Some(hash) =>
        if hash != i.resourceHash then Some(ResourceMismatch)
        else if expected.None? then None
        else match R.ResourceHash(sha, expected.value)
          case None => Some(MalformedPaymentRequired)
          case Some(other) => if hash != other then Some(ResourceMismatch) else None
  }

  /** The checks before the reservation. */
  function Admission(sha: R.HashFunction, config: Config, d: Demand, now: int): Option<Code> {
    if !SafeTime(now) then Some(InvalidClock)
    else if config.killSwitch then Some(KillSwitchActive)
    else if config.dailyLimitSats <= 0 then Some(InsufficientFundsLimit)
    else Validate(sha, d.offer, d.expectedResource, now)
  }

  function IntentExpiry(d: Demand, now: int): int { Min(d.offer.invoice.expiresAt, now + d.intentTtl) }

  /** The checks between the reservation and the first await. */
  function IntentCheck(config: Config, d: Demand, now: int): Option<Code> {
    if IntentExpiry(d, now) <= now then Some(InvoiceExpired)
    else if !d.intentAccepted then Some(MalformedPaymentRequired)
    else if DecimalValue(d.offer.invoice.amountSats) > config.dailyLimitSats then Some(InsufficientFundsLimit)
    else None
  }

  function RollbackFor(sha: R.HashFunction, c: Cache, i: Invoice): Cache { Rollback(c, InvoiceHash(sha, i), i.nonce) }

  function BeginStep(sha: R.HashFunction, config: Config, c: Cache, d: Demand, now: int): (Cache, Authorization) {
    var i := d.offer.invoice;
    match Admission(sha, config, d, now)
    case Some(code) => (c, Finished(Failed(code)))
    case None =>
      match Reserve(c, InvoiceHash(sha, i), i.nonce, now)
      case (c', Err(e)) => (c', Finished(Failed(Cached(e))))
      case (c', Ok(_)) =>
        match IntentCheck(config, d, now)
        case Some(code) => (RollbackFor(sha, c', i), Finished(Failed(code)))
        case None => (c', AwaitingPolicy(i, IntentExpiry(d, now)))
  }

  /** What the policy's answer leads to: an error, a rejection, or (None) the wallet. */
  function PolicyResult(run: Authorization, answer: PolicyAnswer, now: int, requestAccepted: bool): Option<Result>
    requires run.AwaitingPolicy?
  {
    match answer
    case PolicyThrew => Some(Failed(PolicyDecisionInvalid))
    case PolicyMalformed => Some(Failed(PolicyDecisionInvalid))
    case Decision(sameIntent, verdict, expiresAt) =>
      if !sameIntent then Some(Failed(PolicyDecisionInvalid))
      else if verdict.RejectedByPolicy? then Some(Rejected)
      else if !verdict.NeedsHumanApproval? then Some(Failed(PolicyDecisionInvalid))
      else if !SafeTime(now) then Some(Failed(InvalidClock))
      else if now >= run.invoice.expiresAt || now >= run.intentExpiresAt || now >= expiresAt then
        Some(Failed(InvoiceExpiredDuringAuthorization))
      else if !requestAccepted then Some(Failed(InvariantBindingMismatch))
      else None
  }

  /** A rejection rolls back before it returns, an error in the catch block. */
  function PolicyStep(sha: R.HashFunction, c: Cache, run: Authorization, answer: PolicyAnswer, now: int,
      requestAccepted: bool):
      (Cache, Authorization)
    requires run.AwaitingPolicy?
  {
    match PolicyResult(run, answer, now, requestAccepted)
    case None => (c, AwaitingWallet(run.invoice, run.intentExpiresAt, answer.expiresAt))
    case Some(result) => (RollbackFor(sha, c, run.invoice), Finished(result))
  }

  function WalletResult(run: Authorization, answer: WalletAnswer): Result
    requires run.AwaitingWallet?
  {
    match answer
    case WalletThrew => Failed(WalletTransportError)
    case WalletMalformed => Failed(MalformedHumanApproval)
    case Human(sameRequest, sameIntent, sameDecision, recordedAt, status, hasApprover) =>
      if !sameRequest || !sameIntent || !sameDecision then Failed(InvariantBindingMismatch)
      else if recordedAt >= run.intentExpiresAt || recordedAt >= run.policyExpiresAt then Failed(HumanApprovalExpired)
      else match status
        case ApprovedByHuman => if !hasApprover then Failed(MalformedHumanApproval) else Approved
        case RejectedByHuman => Rejected
        case ExpiredAtHuman => Failed(HumanApprovalExpired)
  }

  /** All bindings hold and the window is respected, but the approval itself says expired. */
  predicate ReachesExpired(run: Authorization, answer: WalletAnswer)
    requires run.AwaitingWallet?
  {
    && answer.Human? && answer.sameRequest && answer.sameIntent && answer.sameDecision
    && answer.recordedAt < run.intentExpiresAt && answer.recordedAt < run.policyExpiresAt
    && answer.status.ExpiredAtHuman?
  }

  /** The cache after the wallet's answer. An expired approval rolls back and then throws, so
      that the catch block rolls back once more. */
  function WalletCache(sha: R.HashFunction, c: Cache, run: Authorization, answer: WalletAnswer): Cache
    requires run.AwaitingWallet?
  {
    var i := run.invoice;
    match WalletResult(run, answer)
    case Approved => Commit(c, InvoiceHash(sha, i), i.nonce, i.expiresAt)
    case Rejected => RollbackFor(sha, c, i)
    case Failed(_) =>
      if ReachesExpired(run, answer) then RollbackFor(sha, RollbackFor(sha, c, i), i)
      else RollbackFor(sha, c, i)
  }

  /** The approvals after a reservation attempt at now. */
  function Aged(approvals: seq<Approval>, now: int): (r: seq<Approval>)
    ensures |r| == |approvals|
    ensures forall i | 0 <= i < |r| ::
      r[i] == Approval(approvals[i].invoice, approvals[i].forgotten || approvals[i].invoice.expiresAt <= now)
  {
    seq(|approvals|, i requires 0 <= i < |approvals| =>
      Approval(approvals[i].invoice, approvals[i].forgotten || approvals[i].invoice.expiresAt <= now))
  }

  /** An event that is not enabled does nothing. */
  function Step(sha: R.HashFunction, config: Config, s: Sys, e: Event): Sys {
    match e
    case Begin(id, d, now) =>
      if id in s.runs then s
      else
        var (c', run) := BeginStep(sha, config, s.cache, d, now);
        Sys(c', s.runs[id := run], if Admission(sha, config, d, now).None? then Aged(s.approvals, now) else s.approvals)
    case Policy(id, answer, now, requestAccepted) =>
      if id !in s.runs || !s.runs[id].AwaitingPolicy? then s
      else
        var (c', run) := PolicyStep(sha, s.cache, s.runs[id], answer, now, requestAccepted);
        Sys(c', s.runs[id := run], s.approvals)
    case Wallet(id, answer) =>
      if id !in s.runs || !s.runs[id].AwaitingWallet? then s
      else
        var run := s.runs[id];
        var result := WalletResult(run, answer);
        Sys(WalletCache(sha, s.cache, run, answer), s.runs[id := Finished(result)],
            if result.Approved? then s.approvals + [Approval(run.invoice, false)] else s.approvals)
  }

  function Run(sha: R.HashFunction, config: Config, s: Sys, events: seq<Event>): Sys
    decreases |events|
  {
    if events == [] then s else Run(sha, config, Step(sha, config, s, events[0]), events[1..])
  }

  // ---------- Reservations ----------

  /** What a run reserves, and commits if it is approved. */
  function EntryOf(sha: R.HashFunction, i: Invoice): CacheEntry { CacheEntry(InvoiceHash(sha, i), i.nonce,
      i.expiresAt) }

  predicate Holds(run: Authorization) { !run.Finished? }

  /** What the unfinished runs hold. */
  function HeldBy(sha: R.HashFunction, runs: map<nat, Authorization>): map<nat, CacheEntry> {
    map id | id in runs && Holds(runs[id]) :: EntryOf(sha, runs[id].invoice)
  }

  function Hashes(held: map<nat, CacheEntry>): set<Text> { set id | id in held :: held[id].invoiceHash }

  function Nonces(held: map<nat, CacheEntry>): set<Text> { set id | id in held :: held[id].nonce }

  ghost predicate Distinct(held: map<nat, CacheEntry>) {
    forall i, j | i in held && j in held && i != j ::
      held[i].invoiceHash != held[j].invoiceHash && held[i].nonce != held[j].nonce
  }

  /** The in-flight sets are exactly the pairs that are held, and no two runs hold the same
      invoice or the same nonce. */
  ghost predicate Reserved(c: Cache, held: map<nat, CacheEntry>) {
    c.inFlightInvoices == Hashes(held) && c.inFlightNonces == Nonces(held) && Distinct(held)
  }

  lemma HashesRemove(held: map<nat, CacheEntry>, id: nat)
    requires Distinct(held) && id in held
    ensures Hashes(held - {id}) == Hashes(held) - {held[id].invoiceHash}
  {
    forall h | h in Hashes(held) - {held[id].invoiceHash} ensures h in Hashes(held - {id}) {
      var j :| j in held && held[j].invoiceHash == h;
      assert j in held - {id} && (held - {id})[j].invoiceHash == h;
    }
  }

  lemma NoncesRemove(held: map<nat, CacheEntry>, id: nat)
    requires Distinct(held) && id in held
    ensures Nonces(held - {id}) == Nonces(held) - {held[id].nonce}
  {
    forall n | n in Nonces(held) - {held[id].nonce} ensures n in Nonces(held - {id}) {
      var j :| j in held && held[j].nonce == n;
      assert j in held - {id} && (held - {id})[j].nonce == n;
    }
  }

  lemma HashesAdd(held: map<nat, CacheEntry>, id: nat, pair: CacheEntry)
    requires id !in held
    ensures Hashes(held[id := pair]) == Hashes(held) + {pair.invoiceHash}
  {
    var held' := held[id := pair];
    assert held'[id] == pair;
    forall h | h in Hashes(held) ensures h in Hashes(held') {
      var j :| j in held && held[j].invoiceHash == h;
      assert held'[j].invoiceHash == h;
    }
  }

  lemma NoncesAdd(held: map<nat, CacheEntry>, id: nat, pair: CacheEntry)
    requires id !in held
    ensures Nonces(held[id := pair]) == Nonces(held) + {pair.nonce}
  {
    var held' := held[id := pair];
    assert held'[id] == pair;
    forall n | n in Nonces(held) ensures n in Nonces(held') {
      var j :| j in held && held[j].nonce == n;
      assert held'[j].nonce == n;
    }
  }

  /** Releasing one pair frees nobody else's. */
  lemma ReleaseKeeps(c: Cache, held: map<nat, CacheEntry>, id: nat)
    requires Reserved(c, held) && id in held
    ensures Reserved(Rollback(c, held[id].invoiceHash, held[id].nonce), held - {id})
  {
    HashesRemove(held, id);
    NoncesRemove(held, id);
  }

  lemma ReserveKeeps(c: Cache, held: map<nat, CacheEntry>, id: nat, pair: CacheEntry, now: int)
    requires Reserved(c, held) && id !in held
    requires Reserve(c, pair.invoiceHash, pair.nonce, now).1.Ok?
    ensures Reserved(Reserve(c, pair.invoiceHash, pair.nonce, now).0, held[id := pair])
  {
    HashesAdd(held, id, pair);
    NoncesAdd(held, id, pair);
    forall j | j in held ensures held[j].invoiceHash != pair.invoiceHash && held[j].nonce != pair.nonce {
      assert held[j].invoiceHash in c.inFlightInvoices && held[j].nonce in c.inFlightNonces;
    }
  }

  /** Pruning and committing do not touch the in-flight sets. */
  lemma ReservedSets(c: Cache, c': Cache, held: map<nat, CacheEntry>)
    requires Reserved(c, held)
    requires c'.inFlightInvoices == c.inFlightInvoices && c'.inFlightNonces == c.inFlightNonces
    ensures Reserved(c', held)
  {}

  ghost predicate Inv(sha: R.HashFunction, s: Sys) { Reserved(s.cache, HeldBy(sha, s.runs)) }

  lemma HeldByFinish(sha: R.HashFunction, runs: map<nat, Authorization>, id: nat, result: Result)
    ensures HeldBy(sha, runs[id := Finished(result)]) == HeldBy(sha, runs) - {id}
  {}

  lemma HeldByHold(sha: R.HashFunction, runs: map<nat, Authorization>, id: nat, run: Authorization)
    requires Holds(run)
    ensures HeldBy(sha, runs[id := run]) == HeldBy(sha, runs)[id := EntryOf(sha, run.invoice)]
  {}

  /** A run that ends before it holds anything leaves the in-flight sets as they were. */
  lemma BeginFailed(sha: R.HashFunction, config: Config, c: Cache, d: Demand, now: int)
    requires BeginStep(sha, config, c, d, now).1.Finished?
    ensures var c' := BeginStep(sha, config, c, d, now).0;
      c'.inFlightInvoices == c.inFlightInvoices && c'.inFlightNonces == c.inFlightNonces
  {
    var pair := EntryOf(sha, d.offer.invoice);
    if Admission(sha, config, d, now).None? && Reserve(c, pair.invoiceHash, pair.nonce, now).1.Ok? {
      ReserveRollback(c, pair.invoiceHash, pair.nonce, now);
    }
  }

  lemma BeginHolds(sha: R.HashFunction, config: Config, c: Cache, d: Demand, now: int)
    requires Holds(BeginStep(sha, config, c, d, now).1)
    ensures var pair := EntryOf(sha, d.offer.invoice);
      var (c', run) := BeginStep(sha, config, c, d, now);
      && (c', Ok(())) == Reserve(c, pair.invoiceHash, pair.nonce, now)
      && run == AwaitingPolicy(d.offer.invoice, IntentExpiry(d, now))
      && d.offer.invoice.issuedAt <= now < d.offer.invoice.expiresAt
  {}

  lemma BeginKeeps(sha: R.HashFunction, config: Config, s: Sys, id: nat, d: Demand, now: int)
    requires Inv(sha, s) && id !in s.runs
    ensures var (c', run) := BeginStep(sha, config, s.cache, d, now); Reserved(c', HeldBy(sha, s.runs[id := run]))
  {
    var held := HeldBy(sha, s.runs);
    var run := BeginStep(sha, config, s.cache, d, now).1;
    if Holds(run) {
      BeginHolds(sha, config, s.cache, d, now);
      ReserveKeeps(s.cache, held, id, EntryOf(sha, d.offer.invoice), now);
      HeldByHold(sha, s.runs, id, run);
    } else {
      BeginFailed(sha, config, s.cache, d, now);
      HeldByFinish(sha, s.runs, id, run.result);
      assert held - {id} == held;
    }
  }

  /** Every ending releases the pair of its run, however often it rolls back. */
  lemma FinishKeeps(sha: R.HashFunction, s: Sys, id: nat, c': Cache, result: Result)
    requires Inv(sha, s) && id in s.runs && Holds(s.runs[id])
    requires var pair := EntryOf(sha, s.runs[id].invoice);
      && c'.inFlightInvoices == s.cache.inFlightInvoices - {pair.invoiceHash}
      && c'.inFlightNonces == s.cache.inFlightNonces - {pair.nonce}
    ensures Reserved(c', HeldBy(sha, s.runs[id := Finished(result)]))
  {
    var held := HeldBy(sha, s.runs);
    assert held[id] == EntryOf(sha, s.runs[id].invoice);
    ReleaseKeeps(s.cache, held, id);
    HeldByFinish(sha, s.runs, id, result);
    ReservedSets(Rollback(s.cache, held[id].invoiceHash, held[id].nonce), c', held - {id});
  }

  lemma HeldBySame(sha: R.HashFunction, runs: map<nat, Authorization>, id: nat, run: Authorization)
    requires id in runs && Holds(runs[id]) && Holds(run) && run.invoice == runs[id].invoice
    ensures HeldBy(sha, runs[id := run]) == HeldBy(sha, runs)
  {}

  lemma PolicyKeeps(sha: R.HashFunction, s: Sys, id: nat, answer: PolicyAnswer, now: int, requestAccepted: bool)
    requires Inv(sha, s) && id in s.runs && s.runs[id].AwaitingPolicy?
    ensures var (c', run) := PolicyStep(sha, s.cache, s.runs[id], answer, now, requestAccepted);
      Reserved(c', HeldBy(sha, s.runs[id := run]))
  {
    var (c', run) := PolicyStep(sha, s.cache, s.runs[id], answer, now, requestAccepted);
    if Holds(run) {
      HeldBySame(sha, s.runs, id, run);
    } else {
      FinishKeeps(sha, s, id, c', run.result);
    }
  }

  lemma WalletReleases(sha: R.HashFunction, c: Cache, run: Authorization, answer: WalletAnswer)
    requires run.AwaitingWallet?
    ensures var c' := WalletCache(sha, c, run, answer);
      var pair := EntryOf(sha, run.invoice);
      && c'.inFlightInvoices == c.inFlightInvoices - {pair.invoiceHash}
      && c'.inFlightNonces == c.inFlightNonces - {pair.nonce}
  {
    RollbackTwice(c, InvoiceHash(sha, run.invoice), run.invoice.nonce);
  }

  lemma StepKeeps(sha: R.HashFunction, config: Config, s: Sys, e: Event)
    requires Inv(sha, s)
    ensures Inv(sha, Step(sha, config, s, e))
  {
    match e
    case Begin(id, d, now) =>
      if id !in s.runs {
        BeginKeeps(sha, config, s, id, d, now);
      }
    case Policy(id, answer, now, requestAccepted) =>
      if id in s.runs && s.runs[id].AwaitingPolicy? {
        PolicyKeeps(sha, s, id, answer, now, requestAccepted);
      }
    case Wallet(id, reply) =>
      if id in s.runs && s.runs[id].AwaitingWallet? {
        WalletReleases(sha, s.cache, s.runs[id], reply);
        FinishKeeps(sha, s, id, WalletCache(sha, s.cache, s.runs[id], reply), WalletResult(s.runs[id], reply));
      }
  }

  lemma {:induction false} RunKeeps(sha: R.HashFunction, config: Config, s: Sys, events: seq<Event>)
    requires Inv(sha, s)
    ensures Inv(sha, Run(sha, config, s, events))
    decreases |events|
  {
    if events != [] {
      StepKeeps(sha, config, s, events[0]);
      RunKeeps(sha, config, Step(sha, config, s, events[0]), events[1..]);
    }
  }

  // ---------- Committed authorizations ----------

  function Grants(sha: R.HashFunction, approvals: seq<Approval>): (g: seq<Grant>)
    ensures |g| == |approvals|
    ensures forall i | 0 <= i < |g| :: g[i] == Grant(EntryOf(sha, approvals[i].invoice), approvals[i].forgotten)
  {
    seq(|approvals|, i requires 0 <= i < |approvals| =>
      Grant(EntryOf(sha, approvals[i].invoice), approvals[i].forgotten))
  }

  lemma GrantsAged(sha: R.HashFunction, approvals: seq<Approval>, now: int)
    ensures Grants(sha, Aged(approvals, now)) == Swept(Grants(sha, approvals), now)
  {}

  lemma GrantsAppend(sha: R.HashFunction, approvals: seq<Approval>, i: Invoice)
    ensures Grants(sha, approvals + [Approval(i, false)]) == Grants(sha, approvals) + [Grant(EntryOf(sha, i), false)]
  {}

  /** The cache that forgets nothing, as the run so far would have left it. */
  function PastOf(sha: R.HashFunction, s: Sys): Past {
    Past(Hashes(HeldBy(sha, s.runs)), Nonces(HeldBy(sha, s.runs)), Grants(sha, s.approvals))
  }

  /** The committed maps hold exactly the approvals that have not been forgotten. */
  ghost predicate Kept(sha: R.HashFunction, s: Sys) {
    Remembers(s.cache, Grants(sha, s.approvals)) && KeysApart(s.cache)
  }

  lemma SameMapsRemember(c: Cache, c': Cache, grants: seq<Grant>)
    requires Remembers(c, grants) && KeysApart(c)
    requires c'.committedInvoices == c.committedInvoices && c'.committedNonces == c.committedNonces
    requires c'.inFlightInvoices <= c.inFlightInvoices && c'.inFlightNonces <= c.inFlightNonces
    ensures Remembers(c', grants) && KeysApart(c')
  {}

  lemma BeginRemembers(sha: R.HashFunction, config: Config, c: Cache, d: Demand, now: int, grants: seq<Grant>)
    requires Remembers(c, grants) && KeysApart(c)
    ensures var c' := BeginStep(sha, config, c, d, now).0;
      KeysApart(c') && Remembers(c', if Admission(sha, config, d, now).None? then Swept(grants, now) else grants)
  {
    var e := EntryOf(sha, d.offer.invoice);
    BeginMaps(sha, config, c, d, now);
    if Admission(sha, config, d, now).None? {
      ReserveRemembers(c, grants, e, now);
      var r, c' := Reserve(c, e.invoiceHash, e.nonce, now).0, BeginStep(sha, config, c, d, now).0;
      SameMapsRemember(r, c', Swept(grants, now));
    }
  }

  lemma BeginMaps(sha: R.HashFunction, config: Config, c: Cache, d: Demand, now: int)
    ensures var c' := BeginStep(sha, config, c, d, now).0;
      var r := Reserve(c, InvoiceHash(sha, d.offer.invoice), d.offer.invoice.nonce, now).0;
      if Admission(sha, config, d, now).Some? then c' == c
      else
        && c'.committedInvoices == r.committedInvoices && c'.committedNonces == r.committedNonces
        && c'.inFlightInvoices <= r.inFlightInvoices && c'.inFlightNonces <= r.inFlightNonces
  {}

  lemma WalletMemory(sha: R.HashFunction, c: Cache, run: Authorization, reply: WalletAnswer, grants: seq<Grant>)
    requires run.AwaitingWallet? && Remembers(c, grants) && KeysApart(c)
    requires InvoiceHash(sha, run.invoice) in c.inFlightInvoices && run.invoice.nonce in c.inFlightNonces
    ensures var c' := WalletCache(sha, c, run, reply);
      && KeysApart(c')
      && Remembers(c', if WalletResult(run, reply).Approved?
                       then grants + [Grant(EntryOf(sha, run.invoice), false)] else grants)
  {
    if WalletResult(run, reply).Approved? {
      CommitRemembers(c, grants, EntryOf(sha, run.invoice));
    } else {
      SameMapsRemember(c, WalletCache(sha, c, run, reply), grants);
    }
  }

  lemma WalletRemembers(sha: R.HashFunction, config: Config, s: Sys, id: nat, reply: WalletAnswer)
    requires Inv(sha, s) && Kept(sha, s) && id in s.runs && s.runs[id].AwaitingWallet?
    ensures Kept(sha, Step(sha, config, s, Wallet(id, reply)))
  {
    HeldInFlight(sha, s, id);
    GrantsAppend(sha, s.approvals, s.runs[id].invoice);
    WalletMemory(sha, s.cache, s.runs[id], reply, Grants(sha, s.approvals));
  }

  lemma BeginStepRemembers(sha: R.HashFunction, config: Config, s: Sys, id: nat, d: Demand, now: int)
    requires Kept(sha, s)
    ensures Kept(sha, Step(sha, config, s, Begin(id, d, now)))
  {
    if id !in s.runs {
      BeginRemembers(sha, config, s.cache, d, now, Grants(sha, s.approvals));
      GrantsAged(sha, s.approvals, now);
    }
  }

  lemma PolicyRemembers(sha: R.HashFunction, c: Cache, run: Authorization, answer: PolicyAnswer, now: int,
      requestAccepted: bool, grants: seq<Grant>)
    requires run.AwaitingPolicy? && Remembers(c, grants) && KeysApart(c)
    ensures var c' := PolicyStep(sha, c, run, answer, now, requestAccepted).0; Remembers(c', grants) && KeysApart(c')
  {
    SameMapsRemember(c, PolicyStep(sha, c, run, answer, now, requestAccepted).0, grants);
  }

  lemma StepRemembers(sha: R.HashFunction, config: Config, s: Sys, e: Event)
    requires Inv(sha, s) && Kept(sha, s)
    ensures Kept(sha, Step(sha, config, s, e))
  {
    match e
    case Begin(id, d, now) => BeginStepRemembers(sha, config, s, id, d, now);
    case Policy(id, answer, now, requestAccepted) =>
      if id in s.runs && s.runs[id].AwaitingPolicy? {
        PolicyRemembers(sha, s.cache, s.runs[id], answer, now, requestAccepted, Grants(sha, s.approvals));
      }
    case Wallet(id, reply) =>
      if id in s.runs && s.runs[id].AwaitingWallet? {
        WalletRemembers(sha, config, s, id, reply);
      }
  }

  lemma {:induction false} RunRemembers(sha: R.HashFunction, config: Config, s: Sys, events: seq<Event>)
    requires Inv(sha, s) && Kept(sha, s)
    ensures Kept(sha, Run(sha, config, s, events))
    decreases |events|
  {
    if events != [] {
      StepKeeps(sha, config, s, events[0]);
      StepRemembers(sha, config, s, events[0]);
      RunRemembers(sha, config, Step(sha, config, s, events[0]), events[1..]);
    }
  }

  // ---------- Approved at most once ----------

  /** No reservation attempt of the run falls into a gap. */
  ghost predicate Safe(sha: R.HashFunction, config: Config, s: Sys, events: seq<Event>)
    decreases |events|
  {
    events == [] ||
    (Clear(sha, config, s, events[0]) && Safe(sha, config, Step(sha, config, s, events[0]), events[1..]))
  }

  ghost predicate Clear(sha: R.HashFunction, config: Config, s: Sys, e: Event) {
    e.Begin? && e.id !in s.runs && Admission(sha, config, e.demand, e.now).None? ==>
      NoGap(PastOf(sha, s), EntryOf(sha, e.demand.offer.invoice), e.now)
  }

  /** No grant was for this invoice. */
  ghost predicate New(grants: seq<Grant>, e: CacheEntry) {
    forall i | 0 <= i < |grants| :: grants[i].entry.invoiceHash != e.invoiceHash
  }

  ghost predicate AllNew(grants: seq<Grant>, held: map<nat, CacheEntry>) {
    forall id | id in held :: New(grants, held[id])
  }

  ghost predicate Once(grants: seq<Grant>) {
    forall i, j | 0 <= i < j < |grants| :: grants[i].entry.invoiceHash != grants[j].entry.invoiceHash
  }

  /** Nothing that was approved is approved again, or about to be. */
  ghost predicate Single(sha: R.HashFunction, s: Sys) {
    AllNew(Grants(sha, s.approvals), HeldBy(sha, s.runs)) && Once(Grants(sha, s.approvals))
  }

  lemma SweptNew(grants: seq<Grant>, held: map<nat, CacheEntry>, now: int)
    requires AllNew(grants, held) && Once(grants)
    ensures AllNew(Swept(grants, now), held) && Once(Swept(grants, now))
  {
    forall id | id in held ensures New(Swept(grants, now), held[id]) {
      assert New(grants, held[id]);
    }
  }

  lemma CommitNew(grants: seq<Grant>, held: map<nat, CacheEntry>, id: nat)
    requires AllNew(grants, held) && Distinct(held) && id in held && Once(grants)
    ensures AllNew(grants + [Grant(held[id], false)], held - {id}) && Once(grants + [Grant(held[id], false)])
  {
    forall j | j in held - {id} ensures New(grants + [Grant(held[id], false)], (held - {id})[j]) {
      assert New(grants, held[j]);
    }
    assert New(grants, held[id]);
  }

  lemma AllNewFewer(grants: seq<Grant>, held: map<nat, CacheEntry>, id: nat)
    requires AllNew(grants, held)
    ensures AllNew(grants, held - {id})
  {
    forall j | j in held - {id} ensures New(grants, (held - {id})[j]) {
      assert New(grants, held[j]);
    }
  }

  lemma AllNewMore(grants: seq<Grant>, held: map<nat, CacheEntry>, id: nat, e: CacheEntry)
    requires AllNew(grants, held) && New(grants, e)
    ensures AllNew(grants, held[id := e])
  {
    var held' := held[id := e];
    forall j | j in held' ensures New(grants, held'[j]) {
      assert j != id ==> New(grants, held[j]);
    }
  }

  /** The hash does not collide on these invoices. */
  ghost predicate Binds(sha: R.HashFunction, known: set<Invoice>) {
    forall i, j | i in known && j in known :: InvoiceHash(sha, i) == InvoiceHash(sha, j) ==> i == j
  }

  ghost predicate Within(known: set<Invoice>, approvals: seq<Approval>) {
    forall i | 0 <= i < |approvals| :: approvals[i].invoice in known
  }

  /** Without a gap only an invoice that was never approved gets a reservation. */
  lemma BeginNew(sha: R.HashFunction, config: Config, s: Sys, d: Demand, now: int, known: set<Invoice>)
    requires Inv(sha, s) && Kept(sha, s) && Holds(BeginStep(sha, config, s.cache, d, now).1)
    requires NoGap(PastOf(sha, s), EntryOf(sha, d.offer.invoice), now)
    requires Binds(sha, known) && Within(known, s.approvals) && d.offer.invoice in known
    ensures New(Grants(sha, s.approvals), EntryOf(sha, d.offer.invoice))
  {
    var grants, e := Grants(sha, s.approvals), EntryOf(sha, d.offer.invoice);
    BeginHolds(sha, config, s.cache, d, now);
    AnswerExact(s.cache, PastOf(sha, s), e, now);
    assert !LiveInvoice(grants, e.invoiceHash, now);
    forall i | 0 <= i < |grants| ensures grants[i].entry.invoiceHash != e.invoiceHash {
      SameHashLive(sha, s.approvals, d.offer.invoice, now, known, i);
    }
  }

  /** An approval with the hash of an unexpired invoice was for that invoice, so it is live. */
  lemma SameHashLive(sha: R.HashFunction, approvals: seq<Approval>, invoice: Invoice, now: int,
      known: set<Invoice>, i: nat)
    requires Binds(sha, known) && Within(known, approvals) && invoice in known
    requires i < |approvals| && now < invoice.expiresAt
    ensures Grants(sha, approvals)[i].entry.invoiceHash == InvoiceHash(sha, invoice) ==>
      LiveInvoice(Grants(sha, approvals), InvoiceHash(sha, invoice), now)
  {
    var grants := Grants(sha, approvals);
    if InvoiceHash(sha, approvals[i].invoice) == InvoiceHash(sha, invoice) {
      assert approvals[i].invoice == invoice;
      assert grants[i] in grants && grants[i].entry.expiresAt > now;
    }
  }

  lemma BeginSingle(sha: R.HashFunction, config: Config, s: Sys, id: nat, d: Demand, now: int, known: set<Invoice>)
    requires Inv(sha, s) && Kept(sha, s) && Single(sha, s) && id !in s.runs && Clear(sha, config, s, Begin(id, d, now))
    requires Binds(sha, known) && Within(known, s.approvals) && d.offer.invoice in known
    ensures Single(sha, Step(sha, config, s, Begin(id, d, now)))
  {
    var run := BeginStep(sha, config, s.cache, d, now).1;
    var held, grants := HeldBy(sha, s.runs), Grants(sha, s.approvals);
    GrantsAged(sha, s.approvals, now);
    if Holds(run) {
      BeginHolds(sha, config, s.cache, d, now);
      BeginNew(sha, config, s, d, now, known);
      HeldByHold(sha, s.runs, id, run);
      AllNewMore(grants, held, id, EntryOf(sha, d.offer.invoice));
      SweptNew(grants, held[id := EntryOf(sha, d.offer.invoice)], now);
    } else {
      HeldByFinish(sha, s.runs, id, run.result);
      AllNewFewer(grants, held, id);
      SweptNew(grants, held - {id}, now);
    }
  }

  lemma PolicySingle(sha: R.HashFunction, s: Sys, id: nat, answer: PolicyAnswer, now: int, requestAccepted: bool)
    requires Single(sha, s) && id in s.runs && s.runs[id].AwaitingPolicy?
    ensures var (c', run) := PolicyStep(sha, s.cache, s.runs[id], answer, now, requestAccepted);
      Single(sha, Sys(c', s.runs[id := run], s.approvals))
  {
    var (c', run) := PolicyStep(sha, s.cache, s.runs[id], answer, now, requestAccepted);
    if Holds(run) {
      HeldBySame(sha, s.runs, id, run);
    } else {
      HeldByFinish(sha, s.runs, id, run.result);
      AllNewFewer(Grants(sha, s.approvals), HeldBy(sha, s.runs), id);
    }
  }

  lemma WalletSingle(sha: R.HashFunction, s: Sys, id: nat, c': Cache, result: Result)
    requires Inv(sha, s) && Single(sha, s) && id in s.runs && s.runs[id].AwaitingWallet?
    ensures Single(sha, Sys(c', s.runs[id := Finished(result)],
      if result.Approved? then s.approvals + [Approval(s.runs[id].invoice, false)] else s.approvals))
  {
    var i, held := s.runs[id].invoice, HeldBy(sha, s.runs);
    assert held[id] == EntryOf(sha, i);
    HeldByFinish(sha, s.runs, id, result);
    if result.Approved? {
      GrantsAppend(sha, s.approvals, i);
      CommitNew(Grants(sha, s.approvals), held, id);
    } else {
      AllNewFewer(Grants(sha, s.approvals), held, id);
    }
  }

  lemma StepSingle(sha: R.HashFunction, config: Config, s: Sys, e: Event, known: set<Invoice>)
    requires Inv(sha, s) && Kept(sha, s) && Single(sha, s) && Clear(sha, config, s, e)
    requires Binds(sha, known) && Known(known, s) && (e.Begin? ==> e.demand.offer.invoice in known)
    ensures Single(sha, Step(sha, config, s, e))
  {
    match e
    case Begin(id, d, now) =>
      if id !in s.runs {
        BeginSingle(sha, config, s, id, d, now, known);
      }
    case Policy(id, answer, now, requestAccepted) =>
      if id in s.runs && s.runs[id].AwaitingPolicy? {
        PolicySingle(sha, s, id, answer, now, requestAccepted);
      }
    case Wallet(id, reply) =>
      if id in s.runs && s.runs[id].AwaitingWallet? {
        WalletSingle(sha, s, id, WalletCache(sha, s.cache, s.runs[id], reply), WalletResult(s.runs[id], reply));
      }
  }

  /** The invoices of the unfinished runs and of the approvals are among the known ones. */
  ghost predicate Known(known: set<Invoice>, s: Sys) {
    Within(known, s.approvals) && forall id | id in s.runs && Holds(s.runs[id]) :: s.runs[id].invoice in known
  }

  ghost predicate AllKnown(known: set<Invoice>, events: seq<Event>) {
    forall e | e in events && e.Begin? :: e.demand.offer.invoice in known
  }

  lemma StepKnown(sha: R.HashFunction, config: Config, s: Sys, e: Event, known: set<Invoice>)
    requires Known(known, s) && (e.Begin? ==> e.demand.offer.invoice in known)
    ensures Known(known, Step(sha, config, s, e))
  {}

  lemma {:induction false} RunSingle(sha: R.HashFunction, config: Config, s: Sys, events: seq<Event>,
      known: set<Invoice>)
    requires Inv(sha, s) && Kept(sha, s) && Single(sha, s) && Safe(sha, config, s, events)
    requires Binds(sha, known) && Known(known, s) && AllKnown(known, events)
    ensures Single(sha, Run(sha, config, s, events))
    decreases |events|
  {
    if events != [] {
      var e := events[0];
      StepKeeps(sha, config, s, e);
      StepRemembers(sha, config, s, e);
      StepKnown(sha, config, s, e, known);
      StepSingle(sha, config, s, e, known);
      assert forall f | f in events[1..] :: f in events;
      RunSingle(sha, config, Step(sha, config, s, e), events[1..], known);
    }
  }

  // ---------- A clock that never goes back leaves no gaps ----------

  function Now(clock: int, e: Event): int { if e.Begin? then e.now else clock }

  predicate Ordered(clock: int, events: seq<Event>)
    decreases |events|
  {
    events == [] || (clock <= Now(clock, events[0]) && Ordered(Now(clock, events[0]), events[1..]))
  }

  function Clock(clock: int, events: seq<Event>): int
    decreases |events|
  {
    if events == [] then clock else Clock(Now(clock, events[0]), events[1..])
  }

  /** What has been forgotten had expired by then. */
  predicate ExpiredBy(approvals: seq<Approval>, clock: int) {
    forall i | 0 <= i < |approvals| && approvals[i].forgotten :: approvals[i].invoice.expiresAt <= clock
  }

  lemma ExpiredNoGap(sha: R.HashFunction, s: Sys, e: CacheEntry, clock: int, now: int)
    requires ExpiredBy(s.approvals, clock) && clock <= now
    ensures NoGap(PastOf(sha, s), e, now)
  {
    var grants := Grants(sha, s.approvals);
    forall g | g in grants && g.entry.expiresAt > now ensures !g.forgotten {
      var i :| 0 <= i < |grants| && grants[i] == g;
      assert g.entry.expiresAt == s.approvals[i].invoice.expiresAt && g.forgotten == s.approvals[i].forgotten;
    }
  }

  lemma StepExpired(sha: R.HashFunction, config: Config, s: Sys, e: Event, clock: int)
    requires ExpiredBy(s.approvals, clock) && clock <= Now(clock, e)
    ensures ExpiredBy(Step(sha, config, s, e).approvals, Now(clock, e))
  {}

  lemma {:induction false} OrderedSafe(sha: R.HashFunction, config: Config, s: Sys, events: seq<Event>, clock: int)
    requires ExpiredBy(s.approvals, clock) && Ordered(clock, events)
    ensures Safe(sha, config, s, events) && ExpiredBy(Run(sha, config, s, events).approvals, Clock(clock, events))
    decreases |events|
  {
    if events != [] {
      var e := events[0];
      if e.Begin? {
        ExpiredNoGap(sha, s, EntryOf(sha, e.demand.offer.invoice), clock, e.now);
      }
      StepExpired(sha, config, s, e, clock);
      OrderedSafe(sha, config, Step(sha, config, s, e), events[1..], Now(clock, e));
    }
  }

  // ---------- What the runs guarantee ----------

  lemma StartInv(sha: R.HashFunction)
    ensures Inv(sha, START) && Kept(sha, START) && Single(sha, START)
  {}

  /** In every run, whatever the answers and the clock: a text is in flight exactly if an
      unfinished authorization holds it, and two of them never share an invoice or a nonce. When
      all have finished nothing is in flight. */
  lemma InFlightExact(sha: R.HashFunction, config: Config, events: seq<Event>, h: Text, n: Text)
    ensures var s := Run(sha, config, START, events);
      && (h in s.cache.inFlightInvoices <==>
            exists id | id in s.runs :: Holds(s.runs[id]) && InvoiceHash(sha, s.runs[id].invoice) == h)
      && (n in s.cache.inFlightNonces <==>
            exists id | id in s.runs :: Holds(s.runs[id]) && s.runs[id].invoice.nonce == n)
      && ((forall id | id in s.runs :: s.runs[id].Finished?) ==>
            s.cache.inFlightInvoices == {} && s.cache.inFlightNonces == {})
  {
    StartInv(sha);
    RunKeeps(sha, config, START, events);
    var s := Run(sha, config, START, events);
    HashesExact(sha, s.runs, h);
    NoncesExact(sha, s.runs, n);
    if forall id | id in s.runs :: s.runs[id].Finished? {
      assert HeldBy(sha, s.runs) == map[];
    }
  }

  lemma HashesExact(sha: R.HashFunction, runs: map<nat, Authorization>, h: Text)
    ensures h in Hashes(HeldBy(sha, runs)) <==>
      exists id | id in runs :: Holds(runs[id]) && InvoiceHash(sha, runs[id].invoice) == h
  {
    var held := HeldBy(sha, runs);
    if h in Hashes(held) {
      var id :| id in held && held[id].invoiceHash == h;
      assert Holds(runs[id]);
    }
    if id :| id in runs && Holds(runs[id]) && InvoiceHash(sha, runs[id].invoice) == h {
      assert held[id].invoiceHash == h;
    }
  }

  lemma NoncesExact(sha: R.HashFunction, runs: map<nat, Authorization>, n: Text)
    ensures n in Nonces(HeldBy(sha, runs)) <==> exists id | id in runs :: Holds(runs[id]) && runs[id].invoice.nonce == n
  {
    var held := HeldBy(sha, runs);
    if n in Nonces(held) {
      var id :| id in held && held[id].nonce == n;
      assert Holds(runs[id]);
    }
    if id :| id in runs && Holds(runs[id]) && runs[id].invoice.nonce == n {
      assert held[id].nonce == n;
    }
  }

  /** No step of one authorization, its failures and rollbacks included, frees what another
      unfinished one holds. */
  lemma OthersKeepTheirs(sha: R.HashFunction, config: Config, events: seq<Event>, e: Event, other: nat)
    requires var s := Run(sha, config, START, events); other in s.runs && Holds(s.runs[other]) && e.id != other
    ensures var s := Run(sha, config, START, events);
      var s' := Step(sha, config, s, e);
      && other in s'.runs && s'.runs[other] == s.runs[other]
      && InvoiceHash(sha, s.runs[other].invoice) in s'.cache.inFlightInvoices
      && s.runs[other].invoice.nonce in s'.cache.inFlightNonces
  {
    StartInv(sha);
    RunKeeps(sha, config, START, events);
    var s := Run(sha, config, START, events);
    StepKeeps(sha, config, s, e);
    StepOthers(sha, config, s, e, other);
    HeldInFlight(sha, Step(sha, config, s, e), other);
  }

  lemma StepOthers(sha: R.HashFunction, config: Config, s: Sys, e: Event, other: nat)
    requires other in s.runs && e.id != other
    ensures var s' := Step(sha, config, s, e); other in s'.runs && s'.runs[other] == s.runs[other]
  {}

  lemma HeldInFlight(sha: R.HashFunction, s: Sys, id: nat)
    requires Inv(sha, s) && id in s.runs && Holds(s.runs[id])
    ensures InvoiceHash(sha, s.runs[id].invoice) in s.cache.inFlightInvoices
    ensures s.runs[id].invoice.nonce in s.cache.inFlightNonces
  {
    var held := HeldBy(sha, s.runs);
    assert held[id] == EntryOf(sha, s.runs[id].invoice);
    assert held[id].invoiceHash in Hashes(held) && held[id].nonce in Nonces(held);
  }

  /** Whatever the clock: unless a reservation attempt fell into a gap, each invoice is approved
      at most once. */
  lemma ApprovedOnceSafely(sha: R.HashFunction, config: Config, events: seq<Event>, known: set<Invoice>, i: nat, j: nat)
    requires Safe(sha, config, START, events) && AllKnown(known, events) && Binds(sha, known)
    requires i < j < |Run(sha, config, START, events).approvals|
    ensures Run(sha, config, START, events).approvals[i].invoice != Run(sha, config, START, events).approvals[j].invoice
  {
    StartInv(sha);
    RunSingle(sha, config, START, events, known);
    var grants := Grants(sha, Run(sha, config, START, events).approvals);
    assert grants[i].entry.invoiceHash != grants[j].entry.invoiceHash;
  }

  /** With a clock that never goes back, each invoice is approved at most once. */
  lemma ApprovedOnce(sha: R.HashFunction, config: Config, events: seq<Event>, known: set<Invoice>, i: nat, j: nat)
    requires Ordered(0, events) && AllKnown(known, events) && Binds(sha, known)
    requires i < j < |Run(sha, config, START, events).approvals|
    ensures Run(sha, config, START, events).approvals[i].invoice != Run(sha, config, START, events).approvals[j].invoice
  {
    OrderedSafe(sha, config, START, events, 0);
    ApprovedOnceSafely(sha, config, events, known, i, j);
  }

  /** In every run, whatever the clock: a reservation is answered as by a cache that forgets
      nothing if and only if it does not fall into a gap. */
  lemma ReservationExact(sha: R.HashFunction, config: Config, events: seq<Event>, i: Invoice, now: int)
    ensures var s := Run(sha, config, START, events);
      Reserve(s.cache, InvoiceHash(sha, i), i.nonce, now).1 == HistoryAnswer(PastOf(sha, s), EntryOf(sha, i), now) <==>
        NoGap(PastOf(sha, s), EntryOf(sha, i), now)
  {
    StartInv(sha);
    RunKeeps(sha, config, START, events);
    RunRemembers(sha, config, START, events);
    var s := Run(sha, config, START, events);
    AnswerExact(s.cache, PastOf(sha, s), EntryOf(sha, i), now);
  }

  /** With a clock that never goes back every reservation is. */
  lemma ReservationOrdered(sha: R.HashFunction, config: Config, events: seq<Event>, i: Invoice, now: int)
    requires Ordered(0, events) && Clock(0, events) <= now
    ensures var s := Run(sha, config, START, events);
      Reserve(s.cache, InvoiceHash(sha, i), i.nonce, now).1 == HistoryAnswer(PastOf(sha, s), EntryOf(sha, i), now)
  {
    OrderedSafe(sha, config, START, events, 0);
    ExpiredNoGap(sha, Run(sha, config, START, events), EntryOf(sha, i), Clock(0, events), now);
    ReservationExact(sha, config, events, i, now);
  }

  // ---------- The procedure, run without interruption ----------

  /** The answers of policy, clock and wallet to one authorization. */
  datatype Replies = Replies(policy: PolicyAnswer, later: int, requestAccepted: bool, wallet: WalletAnswer)

  function Authorize(sha: R.HashFunction, config: Config, c: Cache, d: Demand, now: int, a: Replies): (Cache, Result) {
    var (c1, run1) := BeginStep(sha, config, c, d, now);
    if run1.Finished? then (c1, run1.result)
    else
      var (c2, run2) := PolicyStep(sha, c1, run1, a.policy, a.later, a.requestAccepted);
      if run2.Finished? then (c2, run2.result)
      else (WalletCache(sha, c2, run2, a.wallet), WalletResult(run2, a.wallet))
  }

  /** The decision of the policy leads to the wallet: it comes before the invoice, the intent and the
      decision itself expire. */
  predicate PolicyPasses(d: Demand, now: int, a: Replies) {
    && a.policy.Decision? && a.policy.sameIntent && a.policy.verdict.NeedsHumanApproval?
    && 0 <= a.later <= 9007199254740991 && a.later < d.offer.invoice.expiresAt && a.later < now + d.intentTtl
    && a.later < a.policy.expiresAt && a.requestAccepted
  }

  /** The human approval was recorded before the invoice, the intent and the decision expire. */
  predicate WalletPasses(d: Demand, now: int, a: Replies)
    requires a.policy.Decision?
  {
    && a.wallet.Human? && a.wallet.sameRequest && a.wallet.sameIntent && a.wallet.sameDecision
    && a.wallet.recordedAt < d.offer.invoice.expiresAt && a.wallet.recordedAt < now + d.intentTtl
    && a.wallet.recordedAt < a.policy.expiresAt
    && a.wallet.status.ApprovedByHuman? && a.wallet.hasApprover
  }

  /** The demand is admitted, within the limit, and its intent has time left. */
  predicate DemandPasses(sha: R.HashFunction, config: Config, d: Demand, now: int) {
    var i := d.offer.invoice;
    && 0 <= now <= 9007199254740991 && !config.killSwitch && config.dailyLimitSats > 0
    && DecimalValue(i.amountSats) <= config.dailyLimitSats
    && i.issuedAt <= now < i.expiresAt && d.intentTtl > 0 && d.intentAccepted
    && (d.offer.invoiceId.Some? ==> d.offer.invoiceId.value == InvoiceHash(sha, i))
    && R.ResourceHash(sha, d.offer.resource) == Some(i.resourceHash)
    && (d.expectedResource.Some? ==> R.ResourceHash(sha, d.expectedResource.value) == Some(i.resourceHash))
  }

  lemma DemandPassesExact(sha: R.HashFunction, config: Config, d: Demand, now: int)
    ensures DemandPasses(sha, config, d, now) <==>
      Admission(sha, config, d, now).None? && IntentCheck(config, d, now).None?
  {}

  /** Nothing unexpired stands in the way of a reservation. */
  predicate Reservable(c: Cache, i: Invoice, id: Text, now: int) {
    && id !in c.inFlightInvoices && i.nonce !in c.inFlightNonces
    && (id in c.committedInvoices ==> c.committedInvoices[id].expiresAt <= now)
    && (i.nonce in c.committedNonces ==> c.committedNonces[i.nonce].expiresAt <= now)
  }

  lemma ReservableExact(c: Cache, i: Invoice, id: Text, now: int)
    ensures Reserve(c, id, i.nonce, now).1.Ok? <==> Reservable(c, i, id, now)
  {}

  /** A payment is approved exactly if the demand passes, nothing stands in the way of its
      reservation, and policy and wallet both agree in time: the later clock and the recorded
      approval are each below the expiry of the invoice, of the intent and of the decision. */
  lemma ApprovalExact(sha: R.HashFunction, config: Config, c: Cache, d: Demand, now: int, a: Replies)
    ensures Authorize(sha, config, c, d, now, a).1.Approved? <==>
      && DemandPasses(sha, config, d, now)
      && Reservable(c, d.offer.invoice, InvoiceHash(sha, d.offer.invoice), now)
      && PolicyPasses(d, now, a) && WalletPasses(d, now, a)
  {
    DemandPassesExact(sha, config, d, now);
    ReservableExact(c, d.offer.invoice, InvoiceHash(sha, d.offer.invoice), now);
    var (c1, run) := BeginStep(sha, config, c, d, now);
    if run.AwaitingPolicy? {
      ApprovedAfterBegin(sha, c1, d, now, run, a);
    }
  }

  lemma ApprovedAfterBegin(sha: R.HashFunction, c: Cache, d: Demand, now: int, run: Authorization, a: Replies)
    requires run == AwaitingPolicy(d.offer.invoice, IntentExpiry(d, now))
    ensures var (c', run') := PolicyStep(sha, c, run, a.policy, a.later, a.requestAccepted);
      && (run'.Finished? ==> !run'.result.Approved?)
      && (!run'.Finished? <==> PolicyPasses(d, now, a))
      && (!run'.Finished? ==> (WalletResult(run', a.wallet).Approved? <==> WalletPasses(d, now, a)))
  {}

  /** Before the reservation: the first of these faults is reported. */
  ghost function AdmissionFault(sha: R.HashFunction, config: Config, d: Demand, now: int): Option<Code> {
    var i, id := d.offer.invoice, InvoiceHash(sha, d.offer.invoice);
    if now < 0 || now > 9007199254740991 then Some(InvalidClock)
    else if config.killSwitch then Some(KillSwitchActive)
    else if config.dailyLimitSats <= 0 then Some(InsufficientFundsLimit)
    else if now < i.issuedAt then Some(InvoiceNotYetValid)
    else if now >= i.expiresAt then Some(InvoiceExpired)
    else if d.offer.invoiceId.Some? && d.offer.invoiceId != Some(id) then Some(InvoiceHashMismatch)
    else if R.ResourceHash(sha, d.offer.resource).None? then Some(MalformedPaymentRequired)
    else if R.ResourceHash(sha, d.offer.resource) != Some(i.resourceHash) then Some(ResourceMismatch)
    else if d.expectedResource.Some? && R.ResourceHash(sha, d.expectedResource.value).None? then
      Some(MalformedPaymentRequired)
    else if d.expectedResource.Some? && R.ResourceHash(sha, d.expectedResource.value) != Some(i.resourceHash) then
      Some(ResourceMismatch)
    else None
  }

  /** Before the policy is asked. */
  ghost function DemandFault(sha: R.HashFunction, config: Config, c: Cache, d: Demand, now: int): Option<Code> {
    var i, id := d.offer.invoice, InvoiceHash(sha, d.offer.invoice);
    if AdmissionFault(sha, config, d, now).Some? then AdmissionFault(sha, config, d, now)
    else if id in c.inFlightInvoices || i.nonce in c.inFlightNonces then Some(Cached(ConcurrentConflict))
    else if id in c.committedInvoices && c.committedInvoices[id].expiresAt > now then Some(Cached(DuplicateInvoice))
    else if i.nonce in c.committedNonces && c.committedNonces[i.nonce].expiresAt > now then Some(Cached(NonceReuse))
    else if d.intentTtl <= 0 then Some(InvoiceExpired)
    else if !d.intentAccepted then Some(MalformedPaymentRequired)
    else if DecimalValue(i.amountSats) > config.dailyLimitSats then Some(InsufficientFundsLimit)
    else None
  }

  /** What the policy's answer leads to, if not to the wallet. */
  ghost function PolicyFault(d: Demand, now: int, a: Replies): Option<Result> {
    if !a.policy.Decision? || !a.policy.sameIntent then Some(Failed(PolicyDecisionInvalid))
    else if a.policy.verdict.RejectedByPolicy? then Some(Rejected)
    else if !a.policy.verdict.NeedsHumanApproval? then Some(Failed(PolicyDecisionInvalid))
    else if a.later < 0 || a.later > 9007199254740991 then Some(Failed(InvalidClock))
    else if a.later >= d.offer.invoice.expiresAt || a.later >= now + d.intentTtl || a.later >= a.policy.expiresAt then
      Some(Failed(InvoiceExpiredDuringAuthorization))
    else if !a.requestAccepted then Some(Failed(InvariantBindingMismatch))
    else None
  }

  ghost function WalletVerdict(d: Demand, now: int, a: Replies): Result
    requires a.policy.Decision?
  {
    if a.wallet.WalletThrew? then Failed(WalletTransportError)
    else if a.wallet.WalletMalformed? then Failed(MalformedHumanApproval)
    else if !a.wallet.sameRequest || !a.wallet.sameIntent || !a.wallet.sameDecision then
      Failed(InvariantBindingMismatch)
    else if a.wallet.recordedAt >= d.offer.invoice.expiresAt || a.wallet.recordedAt >= now + d.intentTtl
      || a.wallet.recordedAt >= a.policy.expiresAt || a.wallet.status.ExpiredAtHuman? then Failed(HumanApprovalExpired)
    else if a.wallet.status.RejectedByHuman? then Rejected
    else if a.wallet.hasApprover then Approved
    else Failed(MalformedHumanApproval)
  }

  lemma AdmissionFaultExact(sha: R.HashFunction, config: Config, d: Demand, now: int)
    ensures Admission(sha, config, d, now) == AdmissionFault(sha, config, d, now)
  {}

  lemma DemandFaultExact(sha: R.HashFunction, config: Config, c: Cache, d: Demand, now: int)
    ensures var (c', run) := BeginStep(sha, config, c, d, now);
      run == if DemandFault(sha, config, c, d, now).Some?
             then Finished(Failed(DemandFault(sha, config, c, d, now).value))
             else AwaitingPolicy(d.offer.invoice, IntentExpiry(d, now))
  {
    AdmissionFaultExact(sha, config, d, now);
    ReservableExact(c, d.offer.invoice, InvoiceHash(sha, d.offer.invoice), now);
  }

  lemma PolicyFaultExact(sha: R.HashFunction, c: Cache, d: Demand, now: int, a: Replies)
    ensures var run := AwaitingPolicy(d.offer.invoice, IntentExpiry(d, now));
      var fault := PolicyFault(d, now, a);
      var next := PolicyStep(sha, c, run, a.policy, a.later, a.requestAccepted).1;
      if fault.Some? then next == Finished(fault.value)
      else next.AwaitingWallet? && a.policy.Decision? && WalletResult(next, a.wallet) == WalletVerdict(d, now, a)
  {}

  /** Every result of an authorization, in the order of its checks. */
  lemma ResultExact(sha: R.HashFunction, config: Config, c: Cache, d: Demand, now: int, a: Replies)
    ensures var result := Authorize(sha, config, c, d, now, a).1;
      if DemandFault(sha, config, c, d, now).Some? then
        result == Failed(DemandFault(sha, config, c, d, now).value)
      else if PolicyFault(d, now, a).Some? then result == PolicyFault(d, now, a).value
      else a.policy.Decision? && result == WalletVerdict(d, now, a)
  {
    DemandFaultExact(sha, config, c, d, now);
    PolicyFaultExact(sha, BeginStep(sha, config, c, d, now).0, d, now, a);
  }

  /** An authorization that is not approved leaves no trace but the expired entries it pruned; an
      approved one leaves exactly its own entry. */
  lemma OnlyApprovalStays(sha: R.HashFunction, config: Config, c: Cache, d: Demand, now: int, a: Replies)
    ensures var (c', r) := Authorize(sha, config, c, d, now, a);
      var e := EntryOf(sha, d.offer.invoice);
      if r.Approved? then
        c' == Prune(c, now).(committedInvoices := Prune(c, now).committedInvoices[e.invoiceHash := e],
                             committedNonces := Prune(c, now).committedNonces[e.nonce := e])
      else c' == c || c' == Prune(c, now)
  {
    var e := EntryOf(sha, d.offer.invoice);
    if Reserve(c, e.invoiceHash, e.nonce, now).1.Ok? {
      ReserveRollback(c, e.invoiceHash, e.nonce, now);
      RollbackTwice(Reserve(c, e.invoiceHash, e.nonce, now).0, e.invoiceHash, e.nonce);
    }
  }

  /** The part inside `try`: it may roll back itself and still fail. */
  method AuthorizeReserved(sha: R.HashFunction, config: Config, cache: InMemoryAuthorizationReplayCache, d: Demand,
      now: int, a: Replies)
    returns (r: Result)
    modifies cache
    ensures var i := d.offer.invoice;
      var run := AwaitingPolicy(i, IntentExpiry(d, now));
      var wallet := AwaitingWallet(i, run.intentExpiresAt, if a.policy.Decision? then a.policy.expiresAt else 0);
      if IntentCheck(config, d, now).Some? then
        r == Failed(IntentCheck(config, d, now).value) && cache.State() == old(cache.State())
      else if PolicyResult(run, a.policy, a.later, a.requestAccepted).Some? then
        && r == PolicyResult(run, a.policy, a.later, a.requestAccepted).value && !r.Approved?
        && cache.State() == if r.Rejected? then RollbackFor(sha, old(cache.State()), i) else old(cache.State())
      else
        && r == WalletResult(wallet, a.wallet)
        && (if r.Failed? then RollbackFor(sha, cache.State(), i) else cache.State())
             == WalletCache(sha, old(cache.State()), wallet, a.wallet)
  {
    var i := d.offer.invoice;
    var intentExpiresAt := Min(i.expiresAt, now + d.intentTtl);
    if intentExpiresAt <= now {
      return Failed(InvoiceExpired);
    }
    if !d.intentAccepted {
      return Failed(MalformedPaymentRequired);
    }
    if DecimalValue(i.amountSats) > config.dailyLimitSats {
      return Failed(InsufficientFundsLimit);
    }
    if !a.policy.Decision? || !a.policy.sameIntent {
      return Failed(PolicyDecisionInvalid);
    }
    if a.policy.verdict.RejectedByPolicy? {
      cache.RollbackReservation(InvoiceHash(sha, i), i.nonce);
      return Rejected;
    }
    if !a.policy.verdict.NeedsHumanApproval? {
      return Failed(PolicyDecisionInvalid);
    }
    if !SafeTime(a.later) {
      return Failed(InvalidClock);
    }
    if a.later >= i.expiresAt || a.later >= intentExpiresAt || a.later >= a.policy.expiresAt {
      return Failed(InvoiceExpiredDuringAuthorization);
    }
    if !a.requestAccepted {
      return Failed(InvariantBindingMismatch);
    }
    if a.wallet.WalletThrew? {
      return Failed(WalletTransportError);
    }
    if a.wallet.WalletMalformed? {
      return Failed(MalformedHumanApproval);
    }
    if !a.wallet.sameRequest || !a.wallet.sameIntent || !a.wallet.sameDecision {
      return Failed(InvariantBindingMismatch);
    }
    if a.wallet.recordedAt >= intentExpiresAt || a.wallet.recordedAt >= a.policy.expiresAt {
      return Failed(HumanApprovalExpired);
    }
    match a.wallet.status
    case ApprovedByHuman =>
      if !a.wallet.hasApprover {
        return Failed(MalformedHumanApproval);
      }
      cache.CommitReservation(InvoiceHash(sha, i), i.nonce, i.expiresAt);
      return Approved;
    case RejectedByHuman =>
      cache.RollbackReservation(InvoiceHash(sha, i), i.nonce);
      return Rejected;
    case ExpiredAtHuman =>
      cache.RollbackReservation(InvoiceHash(sha, i), i.nonce);
      return Failed(HumanApprovalExpired);
  }

  method AuthorizePayment(sha: R.HashFunction, config: Config, cache: InMemoryAuthorizationReplayCache, d: Demand,
      now: int, a: Replies)
    returns (r: Result)
    modifies cache
    ensures (cache.State(), r) == Authorize(sha, config, old(cache.State()), d, now, a)
    ensures r.Approved? <==>
      && DemandPasses(sha, config, d, now)
      && Reservable(old(cache.State()), d.offer.invoice, InvoiceHash(sha, d.offer.invoice), now)
      && PolicyPasses(d, now, a) && WalletPasses(d, now, a)
  {
    ApprovalExact(sha, config, cache.State(), d, now, a);
    var refusal := Admission(sha, config, d, now);
    if refusal.Some? {
      return Failed(refusal.value);
    }
    var i := d.offer.invoice;
    var reserved := cache.TryReserve(InvoiceHash(sha, i), i.nonce, i.expiresAt, now);
    if reserved.Err? {
      return Failed(Cached(reserved.error));
    }
    r := AuthorizeReserved(sha, config, cache, d, now, a);
    if r.Failed? {
      cache.RollbackReservation(InvoiceHash(sha, i), i.nonce);
    }
  }

  /** The steps of one authorization, uninterrupted, are the procedure of the source. */
  lemma SerialIsRun(sha: R.HashFunction, config: Config, s: Sys, id: nat, d: Demand, now: int, a: Replies)
    requires id !in s.runs
    ensures var (c', result) := Authorize(sha, config, s.cache, d, now, a);
      var steps := [Begin(id, d, now), Policy(id, a.policy, a.later, a.requestAccepted), Wallet(id, a.wallet)];
      var s' := Run(sha, config, s, steps);
      s'.cache == c' && s'.runs == s.runs[id := Finished(result)]
  {
    var e1, e2, e3 := Begin(id, d, now), Policy(id, a.policy, a.later, a.requestAccepted), Wallet(id, a.wallet);
    RunThree(sha, config, s, e1, e2, e3);
    var s1 := Step(sha, config, s, e1);
    var s2 := Step(sha, config, s1, e2);
    var s3 := Step(sha, config, s2, e3);
    assert s1.runs == s.runs[id := s1.runs[id]];
    assert s2.runs == s.runs[id := s2.runs[id]];
    assert s3.runs == s.runs[id := s3.runs[id]];
  }

  lemma RunThree(sha: R.HashFunction, config: Config, s: Sys, a: Event, b: Event, c: Event)
    ensures Run(sha, config, s, [a, b, c]) == Step(sha, config, Step(sha, config, Step(sha, config, s, a), b), c)
  {
    assert [a, b, c][1..] == [b, c] && [b, c][1..] == [c] && [c][1..] == [];
    var s1 := Step(sha, config, s, a);
    var s2 := Step(sha, config, s1, b);
    calc {
      Run(sha, config, s, [a, b, c]);
      Run(sha, config, s1, [b, c]);
      Run(sha, config, s2, [c]);
      Run(sha, config, Step(sha, config, s2, c), []);
    }
  }
}
