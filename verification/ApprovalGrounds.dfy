/** What every approval of a run rests on: one demand, one decision and one human approval of the
    same authorization, in this order, each inside the time window of the invoice. */
module ApprovalGrounds {
  import opened Texts
  import opened Invoices
  import opened Bridge
  import R = Resource

  // ---------- Grounds ----------

  /** Event b began authorization id with a demand for the invoice that passes. */
  ghost predicate Begun(sha: R.HashFunction, config: Config, events: seq<Event>, id: nat, i: Invoice, b: nat) {
    && b < |events| && events[b].Begin? && events[b].id == id && events[b].demand.offer.invoice == i
    && DemandPasses(sha, config, events[b].demand, events[b].now)
  }

  function RepliesOf(policy: Event, reply: WalletAnswer): Replies
    requires policy.Policy?
  {
    Replies(policy.answer, policy.now, policy.requestAccepted, reply)
  }

  /** Event p then brought a decision that leads to the wallet. */
  ghost predicate Decided(events: seq<Event>, id: nat, b: nat, p: nat)
    requires b < |events| && events[b].Begin?
  {
    && b < p < |events| && events[p].Policy? && events[p].id == id
    && PolicyPasses(events[b].demand, events[b].now, RepliesOf(events[p], WalletThrew))
  }

  /** Event w then brought an approval by a human, recorded in time. */
  ghost predicate Granted(events: seq<Event>, id: nat, b: nat, p: nat, w: nat)
    requires b < |events| && events[b].Begin? && p < |events| && events[p].Policy?
  {
    && p < w < |events| && events[w].Wallet? && events[w].id == id
    && events[p].answer.Decision?
    && WalletPasses(events[b].demand, events[b].now, RepliesOf(events[p], events[w].reply))
  }

  ghost predicate Grounds(sha: R.HashFunction, config: Config, events: seq<Event>, i: Invoice, id: nat, b: nat, p: nat,
      w: nat) {
    Begun(sha, config, events, id, i, b) && Decided(events, id, b, p) && Granted(events, id, b, p, w)
  }

  ghost predicate Grounded(sha: R.HashFunction, config: Config, events: seq<Event>, i: Invoice) {
    exists id: nat, b: nat, p: nat, w: nat :: Grounds(sha, config, events, i, id, b, p, w)
  }

  // ---------- The invariant ----------

  ghost predicate PolicyGrounded(sha: R.HashFunction, config: Config, events: seq<Event>, id: nat, i: Invoice, x: int) {
    exists b: nat :: Begun(sha, config, events, id, i, b) && x == IntentExpiry(events[b].demand, events[b].now)
  }

  ghost predicate WalletGrounds(sha: R.HashFunction, config: Config, events: seq<Event>, id: nat, i: Invoice, x: int,
      y: int, b: nat, p: nat) {
    && Begun(sha, config, events, id, i, b) && Decided(events, id, b, p)
    && x == IntentExpiry(events[b].demand, events[b].now) && y == events[p].answer.expiresAt
  }

  ghost predicate WalletGrounded(sha: R.HashFunction, config: Config, events: seq<Event>, id: nat, i: Invoice, x: int,
      y: int) {
    exists b: nat, p: nat :: WalletGrounds(sha, config, events, id, i, x, y, b, p)
  }

  ghost predicate RunGrounded(sha: R.HashFunction, config: Config, events: seq<Event>, id: nat, run: Authorization) {
    match run
    case AwaitingPolicy(i, x) => PolicyGrounded(sha, config, events, id, i, x)
    case AwaitingWallet(i, x, y) => WalletGrounded(sha, config, events, id, i, x, y)
    case Finished(_) => true
  }

  ghost predicate AllGrounded(sha: R.HashFunction, config: Config, events: seq<Event>, s: Sys) {
    && (forall id | id in s.runs :: RunGrounded(sha, config, events, id, s.runs[id]))
    && (forall k | 0 <= k < |s.approvals| :: Grounded(sha, config, events, s.approvals[k].invoice))
  }

  /** Events that have happened stay. */
  lemma RunStillGrounded(sha: R.HashFunction, config: Config, events: seq<Event>, e: Event, id: nat, run: Authorization)
    requires RunGrounded(sha, config, events, id, run)
    ensures RunGrounded(sha, config, events + [e], id, run)
  {
    match run
    case AwaitingPolicy(i, x) =>
      var b: nat :| Begun(sha, config, events, id, i, b) && x == IntentExpiry(events[b].demand, events[b].now);
      assert Begun(sha, config, events + [e], id, i, b);
    case AwaitingWallet(i, x, y) =>
      var b: nat, p: nat :| WalletGrounds(sha, config, events, id, i, x, y, b, p);
      assert WalletGrounds(sha, config, events + [e], id, i, x, y, b, p);
    case Finished(_) =>
  }

  lemma StillGrounded(sha: R.HashFunction, config: Config, events: seq<Event>, e: Event, i: Invoice)
    requires Grounded(sha, config, events, i)
    ensures Grounded(sha, config, events + [e], i)
  {
    var id: nat, b: nat, p: nat, w: nat :| Grounds(sha, config, events, i, id, b, p, w);
    assert Grounds(sha, config, events + [e], i, id, b, p, w);
  }

  lemma BeginGrounded(sha: R.HashFunction, config: Config, events: seq<Event>, c: ReplayCache.Cache, id: nat, d: Demand,
      now: int)
    ensures RunGrounded(sha, config, events + [Begin(id, d, now)], id, BeginStep(sha, config, c, d, now).1)
  {
    var events' := events + [Begin(id, d, now)];
    if !BeginStep(sha, config, c, d, now).1.Finished? {
      DemandPassesExact(sha, config, d, now);
      assert Begun(sha, config, events', id, d.offer.invoice, |events|);
    }
  }

  lemma PolicyKeepsGrounds(sha: R.HashFunction, config: Config, events: seq<Event>, c: ReplayCache.Cache, id: nat,
      run: Authorization, answer: PolicyAnswer, now: int, accepted: bool)
    requires run.AwaitingPolicy? && RunGrounded(sha, config, events, id, run)
    ensures RunGrounded(sha, config, events + [Policy(id, answer, now, accepted)], id,
                        PolicyStep(sha, c, run, answer, now, accepted).1)
  {
    var events' := events + [Policy(id, answer, now, accepted)];
    var next := PolicyStep(sha, c, run, answer, now, accepted).1;
    if next.AwaitingWallet? {
      var b: nat :| Begun(sha, config, events, id, run.invoice, b)
        && run.intentExpiresAt == IntentExpiry(events[b].demand, events[b].now);
      ApprovedAfterBegin(sha, c, events[b].demand, events[b].now, run, Replies(answer, now, accepted, WalletThrew));
      assert Begun(sha, config, events', id, run.invoice, b) && Decided(events', id, b, |events|);
      assert WalletGrounds(sha, config, events', id, run.invoice, run.intentExpiresAt, answer.expiresAt, b, |events|);
    }
  }

  lemma WalletApproves(i: Invoice, d: Demand, now: int, a: Replies, run: Authorization)
    requires a.policy.Decision? && run == AwaitingWallet(i, IntentExpiry(d, now), a.policy.expiresAt)
    requires d.offer.invoice == i && WalletResult(run, a.wallet).Approved?
    ensures WalletPasses(d, now, a)
  {}

  lemma ApprovalGrounded(sha: R.HashFunction, config: Config, events: seq<Event>, id: nat, run: Authorization,
      reply: WalletAnswer)
    requires run.AwaitingWallet? && RunGrounded(sha, config, events, id, run) && WalletResult(run, reply).Approved?
    ensures Grounded(sha, config, events + [Wallet(id, reply)], run.invoice)
  {
    var events' := events + [Wallet(id, reply)];
    var b: nat, p: nat :|
      WalletGrounds(sha, config, events, id, run.invoice, run.intentExpiresAt, run.policyExpiresAt, b, p);
    assert events'[|events|] == Wallet(id, reply) && events'[b] == events[b] && events'[p] == events[p];
    WalletApproves(run.invoice, events[b].demand, events[b].now, RepliesOf(events[p], reply), run);
    assert Grounds(sha, config, events', run.invoice, id, b, p, |events|);
  }

  lemma OtherRunsGrounded(sha: R.HashFunction, config: Config, events: seq<Event>, s: Sys, e: Event)
    requires AllGrounded(sha, config, events, s)
    ensures forall id | id in s.runs :: RunGrounded(sha, config, events + [e], id, s.runs[id])
    ensures forall k | 0 <= k < |s.approvals| :: Grounded(sha, config, events + [e], s.approvals[k].invoice)
  {
    forall id | id in s.runs ensures RunGrounded(sha, config, events + [e], id, s.runs[id]) {
      RunStillGrounded(sha, config, events, e, id, s.runs[id]);
    }
    forall k | 0 <= k < |s.approvals| ensures Grounded(sha, config, events + [e], s.approvals[k].invoice) {
      StillGrounded(sha, config, events, e, s.approvals[k].invoice);
    }
  }

  ghost predicate ListGrounded(sha: R.HashFunction, config: Config, events: seq<Event>, approvals: seq<Approval>) {
    forall k | 0 <= k < |approvals| :: Grounded(sha, config, events, approvals[k].invoice)
  }

  lemma MoveGrounded(sha: R.HashFunction, config: Config, events: seq<Event>, s: Sys, id: nat, run: Authorization,
      s': Sys)
    requires forall j | j in s.runs :: RunGrounded(sha, config, events, j, s.runs[j])
    requires RunGrounded(sha, config, events, id, run) && s'.runs == s.runs[id := run]
    requires ListGrounded(sha, config, events, s'.approvals)
    ensures AllGrounded(sha, config, events, s')
  {}

  lemma AgedGrounded(sha: R.HashFunction, config: Config, events: seq<Event>, approvals: seq<Approval>, now: int)
    requires ListGrounded(sha, config, events, approvals)
    ensures ListGrounded(sha, config, events, Aged(approvals, now))
  {}

  lemma BeginEventGrounded(sha: R.HashFunction, config: Config, events: seq<Event>, s: Sys, id: nat, d: Demand,
      now: int)
    requires AllGrounded(sha, config, events, s) && id !in s.runs
    ensures AllGrounded(sha, config, events + [Begin(id, d, now)], Step(sha, config, s, Begin(id, d, now)))
  {
    var e := Begin(id, d, now);
    OtherRunsGrounded(sha, config, events, s, e);
    BeginGrounded(sha, config, events, s.cache, id, d, now);
    AgedGrounded(sha, config, events + [e], s.approvals, now);
    MoveGrounded(sha, config, events + [e], s, id, BeginStep(sha, config, s.cache, d, now).1, Step(sha, config, s, e));
  }

  lemma PolicyEventGrounded(sha: R.HashFunction, config: Config, events: seq<Event>, s: Sys, id: nat,
      answer: PolicyAnswer, now: int, accepted: bool)
    requires AllGrounded(sha, config, events, s) && id in s.runs && s.runs[id].AwaitingPolicy?
    ensures var e := Policy(id, answer, now, accepted); AllGrounded(sha, config, events + [e], Step(sha, config, s, e))
  {
    var e := Policy(id, answer, now, accepted);
    OtherRunsGrounded(sha, config, events, s, e);
    PolicyKeepsGrounds(sha, config, events, s.cache, id, s.runs[id], answer, now, accepted);
    MoveGrounded(sha, config, events + [e], s, id, PolicyStep(sha, s.cache, s.runs[id], answer, now, accepted).1,
                 Step(sha, config, s, e));
  }

  lemma ApprovalsGrounded(sha: R.HashFunction, config: Config, events: seq<Event>, approvals: seq<Approval>, i: Invoice)
    requires ListGrounded(sha, config, events, approvals) && Grounded(sha, config, events, i)
    ensures ListGrounded(sha, config, events, approvals + [Approval(i, false)])
  {}

  lemma WalletApprovals(sha: R.HashFunction, config: Config, events: seq<Event>, s: Sys, id: nat, reply: WalletAnswer)
    requires AllGrounded(sha, config, events, s) && id in s.runs && s.runs[id].AwaitingWallet?
    ensures ListGrounded(sha, config, events + [Wallet(id, reply)], s.approvals +
      if WalletResult(s.runs[id], reply).Approved? then [Approval(s.runs[id].invoice, false)] else [])
  {
    OtherRunsGrounded(sha, config, events, s, Wallet(id, reply));
    assert s.approvals + [] == s.approvals;
    if WalletResult(s.runs[id], reply).Approved? {
      ApprovalGrounded(sha, config, events, id, s.runs[id], reply);
      ApprovalsGrounded(sha, config, events + [Wallet(id, reply)], s.approvals, s.runs[id].invoice);
    }
  }

  lemma WalletEventGrounded(sha: R.HashFunction, config: Config, events: seq<Event>, s: Sys, id: nat,
      reply: WalletAnswer)
    requires AllGrounded(sha, config, events, s) && id in s.runs && s.runs[id].AwaitingWallet?
    ensures AllGrounded(sha, config, events + [Wallet(id, reply)], Step(sha, config, s, Wallet(id, reply)))
  {
    OtherRunsGrounded(sha, config, events, s, Wallet(id, reply));
    WalletApprovals(sha, config, events, s, id, reply);
    WalletMoves(sha, config, s, id, reply);
    MoveGrounded(sha, config, events + [Wallet(id, reply)], s, id, Finished(WalletResult(s.runs[id], reply)),
                 Step(sha, config, s, Wallet(id, reply)));
  }

  lemma WalletMoves(sha: R.HashFunction, config: Config, s: Sys, id: nat, reply: WalletAnswer)
    requires id in s.runs && s.runs[id].AwaitingWallet?
    ensures var s' := Step(sha, config, s, Wallet(id, reply));
      && s'.runs == s.runs[id := Finished(WalletResult(s.runs[id], reply))]
      && s'.approvals == s.approvals +
           if WalletResult(s.runs[id], reply).Approved? then [Approval(s.runs[id].invoice, false)] else []
  {}

  lemma StepGrounded(sha: R.HashFunction, config: Config, events: seq<Event>, s: Sys, e: Event)
    requires AllGrounded(sha, config, events, s)
    ensures AllGrounded(sha, config, events + [e], Step(sha, config, s, e))
  {
    if Step(sha, config, s, e) == s {
      OtherRunsGrounded(sha, config, events, s, e);
    } else {
      match e
      case Begin(id, d, now) => BeginEventGrounded(sha, config, events, s, id, d, now);
      case Policy(id, answer, now, accepted) => PolicyEventGrounded(sha, config, events, s, id, answer, now, accepted);
      case Wallet(id, reply) => WalletEventGrounded(sha, config, events, s, id, reply);
    }
  }

  lemma {:induction false} RunsGrounded(sha: R.HashFunction, config: Config, before: seq<Event>, s: Sys,
      events: seq<Event>)
    requires AllGrounded(sha, config, before, s)
    ensures AllGrounded(sha, config, before + events, Run(sha, config, s, events))
    decreases |events|
  {
    if events == [] {
      assert before + events == before;
    } else {
      StepGrounded(sha, config, before, s, events[0]);
      assert before + [events[0]] + events[1..] == before + events;
      RunsGrounded(sha, config, before + [events[0]], Step(sha, config, s, events[0]), events[1..]);
    }
  }

  /** In every run, however authorizations interleave: every approval rests on a demand, a decision
      and a human approval of one authorization, in this order, which meet every condition; the
      approval was recorded before the invoice expired, before the intent did, and before the
      decision did. */
  lemma EveryApprovalGrounded(sha: R.HashFunction, config: Config, events: seq<Event>, k: nat)
    requires k < |Run(sha, config, START, events).approvals|
    ensures var i := Run(sha, config, START, events).approvals[k].invoice;
      exists id: nat, b: nat, p: nat, w: nat ::
        && Grounds(sha, config, events, i, id, b, p, w)
        && events[w].reply.Human? && events[p].answer.Decision?
        && events[w].reply.recordedAt < i.expiresAt && events[w].reply.recordedAt < events[p].answer.expiresAt
        && events[w].reply.recordedAt < events[b].now + events[b].demand.intentTtl
  {
    assert AllGrounded(sha, config, [], START);
    RunsGrounded(sha, config, [], START, events);
    assert [] + events == events;
    var i := Run(sha, config, START, events).approvals[k].invoice;
    assert Grounded(sha, config, events, i);
    var id: nat, b: nat, p: nat, w: nat :| Grounds(sha, config, events, i, id, b, p, w);
    assert events[w].reply.recordedAt < i.expiresAt;
  }
}
