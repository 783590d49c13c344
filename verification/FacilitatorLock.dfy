/** Concurrent verifications behind the lock of the ledger are the sequential runs, in call
    order: what is proved of every run holds under every interleaving. */
module FacilitatorLock {
  import opened Texts
  import opened Utf8
  import opened Invoices
  import opened NonceStore
  import opened Ledgers
  import opened Locks
  import L = LedgerRuns
  import R = Resource

  /** Where the operation of a verification is suspended. */
  datatype Local = Starting | Signing(now: int) | Debiting

  /** A request that has passed the checks before `transact`, with its resource hash. */
  datatype Job = Job(input: Verify, hash: Text)

  predicate ValidJob(sha: R.HashFunction, j: Job) { R.ResourceHash(sha, j.input.resource) == Some(j.hash) }

  function Finish(l: Ledger, outcome: Outcome): Next<Ledger, Local, Outcome> {
    if outcome.Threw? then Throw(l) else Return(l, outcome)
  }

  /** One stretch between two awaits. */
  function VerifyNext(sha: R.HashFunction, j: Job, l: Ledger, local: Local, a: Answers): Next<Ledger, Local, Outcome> {
    match local
    case Starting =>
      (match Opening(sha, l, j.input, j.hash, a.now)
       case Some(outcome) => Finish(l, outcome)
       case None => More(l, Signing(a.now)))
    case Signing(now) =>
      (match AfterSignature(l, j.input, now, a.signature)
       case (l', Some(outcome)) => Finish(l', outcome)
       case (l', None) => More(l', Debiting))
    case Debiting =>
      var (l', outcome) := AfterFunding(sha, l, j.input, j.hash, a.funding);
      Finish(l', outcome)
  }

  function VerifyOperation(sha: R.HashFunction, j: Job): Operation<Ledger, Local, Outcome, Answers> {
    Operation(Starting, (l, local, a) => VerifyNext(sha, j, l, local, a))
  }

  function Rank(local: Local): nat {
    match local
    case Starting => 2
    case Signing(_) => 1
    case Debiting => 0
  }

  /** A verification ends after three answers at most, so every waiter gets its turn. */
  lemma VerifyTerminates(sha: R.HashFunction, j: Job)
    ensures Terminates(VerifyOperation(sha, j), Rank)
  {
    var op := VerifyOperation(sha, j);
    forall l, local, a | op.step(l, local, a).More? ensures Rank(op.step(l, local, a).local) < Rank(local) {
      assert op.step(l, local, a) == VerifyNext(sha, j, l, local, a);
    }
  }

  /** The answers that were used: the clock at the first await, then signature, then funding. */
  function Used(inputs: seq<Answers>): Answers
    requires inputs != []
  {
    Answers(inputs[0].now, (if |inputs| > 1 then inputs[1] else inputs[0]).signature,
            (if |inputs| > 2 then inputs[2] else inputs[0]).funding)
  }

  function Ended(outcome: Outcome): Phase<Local, Outcome> {
    Left(if outcome.Threw? then Thrown else Returned(outcome))
  }

  /** The operation after n of its answers, told by the sequential procedure. */
  function Partial(sha: R.HashFunction, l: Ledger, j: Job, a: Answers, n: nat): (Ledger, Phase<Local, Outcome>) {
    if n == 0 then (l, Inside(Starting))
    else match Opening(sha, l, j.input, j.hash, a.now)
      case Some(outcome) => (l, Ended(outcome))
      case None =>
        if n == 1 then (l, Inside(Signing(a.now)))
        else match AfterSignature(l, j.input, a.now, a.signature)
          case (l', Some(outcome)) => (l', Ended(outcome))
          case (l', None) =>
            if n == 2 then (l', Inside(Debiting))
            else
              var (l'', outcome) := AfterFunding(sha, l', j.input, j.hash, a.funding);
              (l'', Ended(outcome))
  }

  lemma {:induction false} ReplayPartial(sha: R.HashFunction, l: Ledger, j: Job, inputs: seq<Answers>)
    requires inputs != []
    ensures Replay(l, VerifyOperation(sha, j), inputs) == Partial(sha, l, j, Used(inputs), |inputs|)
    decreases |inputs|
  {
    var op := VerifyOperation(sha, j);
    var init := inputs[..|inputs| - 1];
    var n := |init|;
    assert inputs == init + [inputs[n]];
    ReplaySnoc(l, op, init, inputs[n]);
    if n == 0 {
      assert Replay(l, op, init) == (l, Inside(Starting)) == Partial(sha, l, j, Used(inputs), 0);
    } else {
      ReplayPartial(sha, l, j, init);
      PartialUses(sha, l, j, Used(init), Used(inputs), n);
    }
    PartialNext(sha, l, j, Used(inputs), n, inputs[n]);
  }

  /** The first n stretches read the first n answers only. */
  lemma PartialUses(sha: R.HashFunction, l: Ledger, j: Job, a: Answers, b: Answers, n: nat)
    requires a.now == b.now && (n > 1 ==> a.signature == b.signature) && (n > 2 ==> a.funding == b.funding)
    ensures Partial(sha, l, j, a, n) == Partial(sha, l, j, b, n)
  {}

  lemma PartialNext(sha: R.HashFunction, l: Ledger, j: Job, a: Answers, n: nat, input: Answers)
    requires n == 0 ==> input.now == a.now
    requires n == 1 ==> input.signature == a.signature
    requires n == 2 ==> input.funding == a.funding
    ensures var (l', phase) := Partial(sha, l, j, a, n);
      Apply(l', VerifyOperation(sha, j), phase, input) == Partial(sha, l, j, a, n + 1)
  {}

  /** A verification that has left did what the sequential procedure does with its answers. */
  lemma LeftIsVerify(sha: R.HashFunction, l: Ledger, j: Job, inputs: seq<Answers>)
    requires ValidJob(sha, j) && Replay(l, VerifyOperation(sha, j), inputs).1.Left?
    ensures inputs != []
    ensures var (l', outcome) := VerifyPayment(sha, l, j.input, Used(inputs));
      Replay(l, VerifyOperation(sha, j), inputs) == (l', Ended(outcome))
  {
    if inputs != [] {
      ReplayPartial(sha, l, j, inputs);
    }
  }

  /** m is l, or what is left of it after a prune at now. */
  predicate PrunedAt(l: Ledger, m: Ledger, now: int) { m == l || m == L.Swept(l, now) }

  /** One that is still inside has at most pruned nonces, at its own clock reading. */
  lemma InsideOnlyPrunes(sha: R.HashFunction, l: Ledger, j: Job, inputs: seq<Answers>)
    requires Replay(l, VerifyOperation(sha, j), inputs).1.Inside?
    ensures var m := Replay(l, VerifyOperation(sha, j), inputs).0;
      if inputs == [] then m == l else PrunedAt(l, m, inputs[0].now)
  {
    if inputs != [] {
      ReplayPartial(sha, l, j, inputs);
      PartialOnlyPrunes(sha, l, j, Used(inputs), |inputs|);
    }
  }

  lemma PartialOnlyPrunes(sha: R.HashFunction, l: Ledger, j: Job, a: Answers, n: nat)
    ensures Partial(sha, l, j, a, n).1.Inside? ==> PrunedAt(l, Partial(sha, l, j, a, n).0, a.now)
  {
    if n >= 3 {
      PartialEnds(sha, l, j, a, n);
    } else {
      PartialStarts(sha, l, j, a, n);
      SignaturePrunes(l, j, a);
    }
  }

  lemma PartialStarts(sha: R.HashFunction, l: Ledger, j: Job, a: Answers, n: nat)
    requires n < 3
    ensures var m := Partial(sha, l, j, a, n).0; m == l || m == AfterSignature(l, j.input, a.now, a.signature).0
  {}

  lemma SignaturePrunes(l: Ledger, j: Job, a: Answers)
    ensures PrunedAt(l, AfterSignature(l, j.input, a.now, a.signature).0, a.now)
  {}

  lemma PartialEnds(sha: R.HashFunction, l: Ledger, j: Job, a: Answers, n: nat)
    requires n >= 3
    ensures Partial(sha, l, j, a, n).1.Left?
  {}

  predicate SameBooks(l: Ledger, m: Ledger) {
    l.accounts == m.accounts && l.entries == m.entries && l.idempotency == m.idempotency
  }

  type Calls = seq<Caller<Ledger, Local, Outcome, Answers>>

  /** Every caller is a verification of the job with its number. */
  ghost predicate AllVerify(sha: R.HashFunction, callers: Calls, jobs: seq<Job>) {
    && |callers| == |jobs|
    && forall k | 0 <= k < |jobs| :: ValidJob(sha, jobs[k]) && callers[k].operation == VerifyOperation(sha, jobs[k])
  }

  /** The sequential run that the first n callers amount to. */
  function CallsOf(callers: Calls, jobs: seq<Job>, n: nat): seq<L.Call>
    requires n <= |jobs| == |callers| && forall k | 0 <= k < n :: callers[k].inputs != []
  {
    seq(n, k requires 0 <= k < n => L.Call(jobs[k].input, Used(callers[k].inputs)))
  }

  lemma {:induction false} RunAppend(sha: R.HashFunction, s: L.State, calls: seq<L.Call>, c: L.Call)
    ensures L.Run(sha, s, calls + [c]) == L.Step(sha, L.Run(sha, s, calls), c)
    decreases |calls|
  {
    var all := calls + [c];
    if calls == [] {
      assert all[0] == c && all[1..] == [];
      RunFirst(sha, s, all, L.Step(sha, s, c));
    } else {
      var next := L.Step(sha, s, calls[0]);
      RunAppend(sha, next, calls[1..], c);
      assert all[0] == calls[0] && all[1..] == calls[1..] + [c];
      RunFirst(sha, s, all, next);
    }
  }

  lemma RunFirst(sha: R.HashFunction, s: L.State, calls: seq<L.Call>, next: L.State)
    requires calls != [] && next == L.Step(sha, s, calls[0])
    ensures L.Run(sha, s, calls) == L.Run(sha, next, calls[1..])
  {}

  lemma SerialStep(l: Ledger, callers: Calls, m: nat)
    requires m < |callers|
    ensures Serial(l, callers[..m + 1]) == Replay(Serial(l, callers[..m]), callers[m].operation, callers[m].inputs).0
  {
    assert callers[..m + 1][..m] == callers[..m];
  }

  /** What caller m, once it has left, did to the ledger that the callers before it left. */
  lemma CallerLeft(sha: R.HashFunction, lock: Lock<Ledger, Local, Outcome, Answers>, jobs: seq<Job>, m: nat, l: Ledger)
    requires Inv(EMPTY, lock) && AllVerify(sha, lock.callers, jobs)
    requires m < |jobs| && lock.callers[m].phase.Left? && l == Serial(EMPTY, lock.callers[..m])
    ensures lock.callers[m].inputs != []
    ensures var (l', outcome) := VerifyPayment(sha, l, jobs[m].input, Used(lock.callers[m].inputs));
      lock.callers[m].phase == Ended(outcome) && Serial(EMPTY, lock.callers[..m + 1]) == l'
  {
    SerialStep(EMPTY, lock.callers, m);
    assert AsSerial(EMPTY, lock.callers, m);
    LeftIsVerify(sha, l, jobs[m], lock.callers[m].inputs);
  }

  lemma CallersLeft(sha: R.HashFunction, lock: Lock<Ledger, Local, Outcome, Answers>, jobs: seq<Job>, n: nat)
    requires Inv(EMPTY, lock) && AllVerify(sha, lock.callers, jobs)
    requires n <= |jobs| && forall k | 0 <= k < n :: lock.callers[k].phase.Left?
    ensures forall k | 0 <= k < n :: lock.callers[k].inputs != []
  {
    forall k | 0 <= k < n ensures lock.callers[k].inputs != [] {
      CallerLeft(sha, lock, jobs, k, Serial(EMPTY, lock.callers[..k]));
    }
  }

  /** Caller k takes the serial ledger as one verification does. */
  ghost predicate Verifies(sha: R.HashFunction, callers: Calls, jobs: seq<Job>, k: nat)
    requires k < |callers| == |jobs| && callers[k].inputs != []
  {
    var s := L.State(Serial(EMPTY, callers[..k]), [], 0);
    Serial(EMPTY, callers[..k + 1]) == L.Step(sha, s, L.Call(jobs[k].input, Used(callers[k].inputs))).ledger
  }

  lemma StepLedger(sha: R.HashFunction, s: L.State, t: L.State, c: L.Call)
    requires s.ledger == t.ledger
    ensures L.Step(sha, s, c).ledger == L.Step(sha, t, c).ledger
  {}

  lemma VerifiesStep(sha: R.HashFunction, callers: Calls, jobs: seq<Job>, k: nat, s: L.State)
    requires k < |callers| == |jobs| && callers[k].inputs != [] && Verifies(sha, callers, jobs, k)
    requires s.ledger == Serial(EMPTY, callers[..k])
    ensures Serial(EMPTY, callers[..k + 1]) == L.Step(sha, s, L.Call(jobs[k].input, Used(callers[k].inputs))).ledger
  {
    StepLedger(sha, s, L.State(Serial(EMPTY, callers[..k]), [], 0), L.Call(jobs[k].input, Used(callers[k].inputs)));
  }

  lemma CallsAppend(callers: Calls, jobs: seq<Job>, m: nat)
    requires m < |jobs| == |callers| && forall k | 0 <= k <= m :: callers[k].inputs != []
    ensures CallsOf(callers, jobs, m + 1) ==
      CallsOf(callers, jobs, m) + [L.Call(jobs[m].input, Used(callers[m].inputs))]
  {}

  lemma {:induction false} VerifiesRun(sha: R.HashFunction, callers: Calls, jobs: seq<Job>, n: nat)
    requires n <= |callers| == |jobs|
    requires forall k | 0 <= k < n :: callers[k].inputs != [] && Verifies(sha, callers, jobs, k)
    ensures Serial(EMPTY, callers[..n]) == L.Run(sha, L.START, CallsOf(callers, jobs, n)).ledger
    decreases n
  {
    if n > 0 {
      var m := n - 1;
      VerifiesRun(sha, callers, jobs, m);
      CallsAppend(callers, jobs, m);
      var calls := CallsOf(callers, jobs, m);
      VerifiesStep(sha, callers, jobs, m, L.Run(sha, L.START, calls));
      RunAppend(sha, L.START, calls, L.Call(jobs[m].input, Used(callers[m].inputs)));
    }
  }

  lemma SerialIsRun(sha: R.HashFunction, lock: Lock<Ledger, Local, Outcome, Answers>, jobs: seq<Job>, n: nat)
    requires Inv(EMPTY, lock) && AllVerify(sha, lock.callers, jobs)
    requires n <= |jobs| && forall k | 0 <= k < n :: lock.callers[k].phase.Left?
    requires forall k | 0 <= k < n :: lock.callers[k].inputs != []
    ensures Serial(EMPTY, lock.callers[..n]) == L.Run(sha, L.START, CallsOf(lock.callers, jobs, n)).ledger
  {
    forall k | 0 <= k < n ensures Verifies(sha, lock.callers, jobs, k) {
      CallerLeft(sha, lock, jobs, k, Serial(EMPTY, lock.callers[..k]));
    }
    VerifiesRun(sha, lock.callers, jobs, n);
  }

  lemma EarlierLeft(lock: Lock<Ledger, Local, Outcome, Answers>, k: nat)
    requires Inv(EMPTY, lock) && k < |lock.callers| && lock.callers[k].phase.Left?
    ensures forall i | 0 <= i <= k :: lock.callers[i].phase.Left?
  {}

  /** Under every interleaving: caller k, once it has left, got the answer that the sequential
      run of the calls before it gives it. */
  lemma AnswersAreSequential(sha: R.HashFunction, lock: Lock<Ledger, Local, Outcome, Answers>, jobs: seq<Job>, k: nat)
    requires Inv(EMPTY, lock) && AllVerify(sha, lock.callers, jobs)
    requires k < |jobs| && lock.callers[k].phase.Left?
    ensures forall i | 0 <= i <= k :: lock.callers[i].phase.Left? && lock.callers[i].inputs != []
    ensures var l := L.Run(sha, L.START, CallsOf(lock.callers, jobs, k)).ledger;
      lock.callers[k].phase == Ended(VerifyPayment(sha, l, jobs[k].input, Used(lock.callers[k].inputs)).1)
  {
    EarlierLeft(lock, k);
    CallersLeft(sha, lock, jobs, k + 1);
    SerialIsRun(sha, lock, jobs, k);
    CallerLeft(sha, lock, jobs, k, L.Run(sha, L.START, CallsOf(lock.callers, jobs, k)).ledger);
  }

  /** Under every interleaving, at every moment: the ledger is that of the sequential run of the
      callers that have left, up to the prune of the one that is inside. */
  lemma LedgerIsSequential(sha: R.HashFunction, lock: Lock<Ledger, Local, Outcome, Answers>, jobs: seq<Job>)
    requires Inv(EMPTY, lock) && AllVerify(sha, lock.callers, jobs)
    ensures var n := Turn(lock.callers);
      forall k | 0 <= k < n :: lock.callers[k].inputs != []
    ensures var n := Turn(lock.callers);
      var l := L.Run(sha, L.START, CallsOf(lock.callers, jobs, n)).ledger;
      if n == |lock.callers| || lock.callers[n].phase.Waiting? || lock.callers[n].inputs == [] then lock.state == l
      else PrunedAt(l, lock.state, lock.callers[n].inputs[0].now)
  {
    var n := Turn(lock.callers);
    CallersLeft(sha, lock, jobs, n);
    SerialIsRun(sha, lock, jobs, n);
    AtTurn(sha, lock, jobs, n);
  }

  /** The state against that of the callers that have left: the one whose turn it is has at most
      pruned nonces, those after it have done nothing. */
  lemma AtTurn(sha: R.HashFunction, lock: Lock<Ledger, Local, Outcome, Answers>, jobs: seq<Job>, n: nat)
    requires Inv(EMPTY, lock) && AllVerify(sha, lock.callers, jobs) && n == Turn(lock.callers)
    ensures var s := Serial(EMPTY, lock.callers[..n]);
      if n == |lock.callers| || lock.callers[n].phase.Waiting? || lock.callers[n].inputs == [] then lock.state == s
      else PrunedAt(s, lock.state, lock.callers[n].inputs[0].now)
  {
    if n == |lock.callers| {
      assert lock.callers[..n] == lock.callers;
    } else {
      TurnState(EMPTY, lock, n);
      if lock.callers[n].phase.Inside? {
        InsideOnlyPrunes(sha, Serial(EMPTY, lock.callers[..n]), jobs[n], lock.callers[n].inputs);
      }
    }
  }

  /** In every reachable state of the lock: the ledger is the sequential one, and a caller that
      has left has the sequential answer. */
  lemma EveryInterleaving(sha: R.HashFunction, events: seq<Event<Ledger, Local, Outcome, Answers>>,
      jobs: seq<Job>, k: nat)
    requires var lock := Run(Fresh(EMPTY), events);
      AllVerify(sha, lock.callers, jobs) && k < |jobs| && lock.callers[k].phase.Left?
    ensures var lock := Run(Fresh(EMPTY), events);
      && (forall i | 0 <= i < |jobs| && (i <= k || i < Turn(lock.callers)) :: lock.callers[i].inputs != [])
      && SameBooks(lock.state, L.Run(sha, L.START, CallsOf(lock.callers, jobs, Turn(lock.callers))).ledger)
      && var l := L.Run(sha, L.START, CallsOf(lock.callers, jobs, k)).ledger;
         lock.callers[k].phase == Ended(VerifyPayment(sha, l, jobs[k].input, Used(lock.callers[k].inputs)).1)
  {
    Locks.RunKeeps(EMPTY, Fresh(EMPTY), events);
    var lock := Run(Fresh(EMPTY), events);
    LedgerIsSequential(sha, lock, jobs);
    AnswersAreSequential(sha, lock, jobs, k);
  }

  // ---------- A clock that never goes back, behind the lock ----------

  function Now(clock: int, e: Event<Ledger, Local, Outcome, Answers>): int {
    if e.Advance? then e.input.now else clock
  }

  /** The clock readings along the events of the lock never go back. */
  predicate ClockOrdered(clock: int, events: seq<Event<Ledger, Local, Outcome, Answers>>)
    decreases |events|
  {
    events == [] || (clock <= Now(clock, events[0]) && ClockOrdered(Now(clock, events[0]), events[1..]))
  }

  function Clock(clock: int, events: seq<Event<Ledger, Local, Outcome, Answers>>): int
    decreases |events|
  {
    if events == [] then clock else Clock(Now(clock, events[0]), events[1..])
  }

  /** The callers read the clock, each at its first await, in call order. */
  ghost predicate ReadInOrder(callers: Calls, start: int, clock: int) {
    && start <= clock
    && (forall k | 0 <= k < |callers| && callers[k].inputs != [] :: start <= callers[k].inputs[0].now <= clock)
    && (forall j, k | 0 <= j < k < |callers| && callers[j].inputs != [] && callers[k].inputs != [] ::
          callers[j].inputs[0].now <= callers[k].inputs[0].now)
  }

  lemma ReadLater(callers: Calls, start: int, clock: int, now: int)
    requires ReadInOrder(callers, start, clock) && clock <= now
    ensures ReadInOrder(callers, start, now)
  {}

  /** The one that advances is the last that has read anything. */
  lemma AdvanceReads(lock: Lock<Ledger, Local, Outcome, Answers>, k: nat, input: Answers, start: int, clock: int)
    requires Inv(EMPTY, lock) && Enabled(lock, Advance(k, input))
    requires ReadInOrder(lock.callers, start, clock) && clock <= input.now
    ensures ReadInOrder(Step(lock, Advance(k, input)).callers, start, input.now)
  {
    OthersWait(EMPTY, lock, k);
    var callers' := Step(lock, Advance(k, input)).callers;
    forall i | 0 <= i < |callers'| && i != k ensures callers'[i] == lock.callers[i] {}
    assert callers'[k].inputs[0] == if lock.callers[k].inputs == [] then input else lock.callers[k].inputs[0];
  }

  lemma StepReads(lock: Lock<Ledger, Local, Outcome, Answers>, e: Event<Ledger, Local, Outcome, Answers>,
      start: int, clock: int)
    requires Inv(EMPTY, lock) && ReadInOrder(lock.callers, start, clock) && clock <= Now(clock, e)
    ensures ReadInOrder(Step(lock, e).callers, start, Now(clock, e))
  {
    if !Enabled(lock, e) {
      ReadLater(lock.callers, start, clock, Now(clock, e));
    } else if e.Advance? {
      AdvanceReads(lock, e.k, e.input, start, clock);
    }
  }

  lemma {:induction false} RunReads(lock: Lock<Ledger, Local, Outcome, Answers>,
      events: seq<Event<Ledger, Local, Outcome, Answers>>, start: int, clock: int)
    requires Inv(EMPTY, lock) && ReadInOrder(lock.callers, start, clock) && ClockOrdered(clock, events)
    ensures ReadInOrder(Run(lock, events).callers, start, Clock(clock, events))
    decreases |events|
  {
    if events != [] {
      StepReads(lock, events[0], start, clock);
      Locks.RunKeeps(EMPTY, lock, [events[0]]);
      RunOne(lock, events[0]);
      RunReads(Step(lock, events[0]), events[1..], start, Now(clock, events[0]));
    }
  }

  lemma RunOne(lock: Lock<Ledger, Local, Outcome, Answers>, e: Event<Ledger, Local, Outcome, Answers>)
    ensures Run(lock, [e]) == Step(lock, e)
  {
    assert [e][1..] == [] && Run(lock, [e]) == Run(Step(lock, e), []);
  }

  /** Calls whose clock readings are pairwise in order are an ordered run. */
  lemma {:induction false} PairwiseOrdered(clock: int, calls: seq<L.Call>)
    requires forall i | 0 <= i < |calls| :: clock <= calls[i].answers.now
    requires forall i, j | 0 <= i < j < |calls| :: calls[i].answers.now <= calls[j].answers.now
    ensures L.Ordered(clock, calls)
    decreases |calls|
  {
    if calls != [] {
      PairwiseOrdered(calls[0].answers.now, calls[1..]);
    }
  }

  lemma CallsOrdered(callers: Calls, jobs: seq<Job>, n: nat, start: int, clock: int)
    requires n <= |jobs| == |callers| && forall k | 0 <= k < n :: callers[k].inputs != []
    requires ReadInOrder(callers, start, clock)
    ensures L.Ordered(start, CallsOf(callers, jobs, n))
  {
    PairwiseOrdered(start, CallsOf(callers, jobs, n));
  }

  /** The last clock reading of the sequential run. */
  lemma ClockOfCalls(sha: R.HashFunction, lock: Lock<Ledger, Local, Outcome, Answers>, jobs: seq<Job>, n: nat,
      clock: int)
    requires n <= |jobs| == |lock.callers| && forall k | 0 <= k < n :: lock.callers[k].inputs != []
    requires ReadInOrder(lock.callers, 0, clock)
    ensures L.Run(sha, L.START, CallsOf(lock.callers, jobs, n)).clock <= clock
  {
    if n > 0 {
      var calls := CallsOf(lock.callers, jobs, n);
      assert calls == calls[..n - 1] + [calls[n - 1]];
      RunAppend(sha, L.START, calls[..n - 1], calls[n - 1]);
    }
  }

  /** What the theorems on ordered sequential runs need, in every reachable state of the lock. */
  lemma SequentialOrdered(sha: R.HashFunction, events: seq<Event<Ledger, Local, Outcome, Answers>>, jobs: seq<Job>)
    requires AllVerify(sha, Run(Fresh(EMPTY), events).callers, jobs) && ClockOrdered(0, events)
    ensures var lock := Run(Fresh(EMPTY), events);
      var n := Turn(lock.callers);
      && Inv(EMPTY, lock) && ReadInOrder(lock.callers, 0, Clock(0, events))
      && (forall k | 0 <= k < n :: lock.callers[k].inputs != [])
      && L.Ordered(0, CallsOf(lock.callers, jobs, n))
  {
    var fresh': Lock<Ledger, Local, Outcome, Answers> := Fresh(EMPTY);
    Locks.RunKeeps(EMPTY, fresh', events);
    RunReads(fresh', events, 0, 0);
    var lock := Run(fresh', events);
    CallersLeft(sha, lock, jobs, Turn(lock.callers));
    CallsOrdered(lock.callers, jobs, Turn(lock.callers), 0, Clock(0, events));
  }

  /** The invoices that the callers which have left were debited for, in order. */
  function DebitsBehind(sha: R.HashFunction, callers: Calls, jobs: seq<Job>): seq<Invoice>
    requires |callers| == |jobs| && forall k | 0 <= k < Turn(callers) :: callers[k].inputs != []
  {
    L.Run(sha, L.START, CallsOf(callers, jobs, Turn(callers))).debits
  }

  /** Under every interleaving of concurrent callers, with a clock that never goes back, no
      invoice is debited twice: two entries of the ledger with one invoice id would be a hash
      collision. */
  lemma OneDebitConcurrently(sha: R.HashFunction, events: seq<Event<Ledger, Local, Outcome, Answers>>, jobs: seq<Job>,
      i: nat, j: nat)
    requires AllVerify(sha, Run(Fresh(EMPTY), events).callers, jobs) && ClockOrdered(0, events)
    requires i < j < |Run(Fresh(EMPTY), events).state.entries|
    ensures var lock := Run(Fresh(EMPTY), events);
      && (forall k | 0 <= k < Turn(lock.callers) :: lock.callers[k].inputs != [])
      && var debits, es := DebitsBehind(sha, lock.callers, jobs), lock.state.entries;
         && |debits| == |es| && L.EntryOf(sha, es[i], debits[i]) && L.EntryOf(sha, es[j], debits[j])
         && debits[i] != debits[j]
         && (R.NoCollision(sha, CanonicalBytes(InvoiceJson(debits[i])), CanonicalBytes(InvoiceJson(debits[j]))) ==>
               es[i].invoiceId != es[j].invoiceId)
  {
    SequentialOrdered(sha, events, jobs);
    var lock := Run(Fresh(EMPTY), events);
    LedgerIsSequential(sha, lock, jobs);
    L.OneDebitPerInvoice(sha, CallsOf(lock.callers, jobs, Turn(lock.callers)), i, j);
  }

  lemma PruneAgain(m: map<Text, int>, before: int, now: int)
    requires before <= now
    ensures Pruned(Pruned(m, before), now) == Pruned(m, now)
  {}

  /** Under every interleaving, at every moment, whoever may have pruned on the way: the nonce
      passes exactly when no debit so far has used it with an expiry after now. */
  lemma NonceCheckConcurrently(sha: R.HashFunction, events: seq<Event<Ledger, Local, Outcome, Answers>>, jobs: seq<Job>,
      nonce: Text, now: int)
    requires AllVerify(sha, Run(Fresh(EMPTY), events).callers, jobs) && ClockOrdered(0, events)
    requires Clock(0, events) <= now
    ensures var lock := Run(Fresh(EMPTY), events);
      && (forall k | 0 <= k < Turn(lock.callers) :: lock.callers[k].inputs != [])
      && var debits := DebitsBehind(sha, lock.callers, jobs);
         && |debits| == |lock.state.entries|
         && (nonce !in Pruned(lock.state.nonces, now) <==>
               !exists i | 0 <= i < |debits| :: debits[i].nonce == nonce && debits[i].expiresAt > now)
  {
    SequentialOrdered(sha, events, jobs);
    var lock := Run(Fresh(EMPTY), events);
    var n := Turn(lock.callers);
    LedgerIsSequential(sha, lock, jobs);
    var calls := CallsOf(lock.callers, jobs, n);
    var s := L.Run(sha, L.START, calls);
    ClockOfCalls(sha, lock, jobs, n, Clock(0, events));
    L.NonceCheckExact(sha, calls, nonce, now);
    L.RunKeeps(sha, L.START, calls);
    if lock.state != s.ledger {
      PruneAgain(s.ledger.nonces, lock.callers[n].inputs[0].now, now);
    }
  }
}
