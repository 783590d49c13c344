/** The promise-chain lock that serialises asynchronous operations: every call waits for the
    promise of the call before it and resolves its own when the operation returns or throws. */
module Locks {
  /** What an operation does between two awaits: go on, return, or throw. */
  datatype Next<S, L, R> = More(state: S, local: L) | Return(state: S, value: R) | Throw(state: S)

  datatype Completion<R> = Returned(value: R) | Thrown

  /** An operation on the shared state S: its first local state, and one step for the value I
      that the await it is suspended at resolves to. */
  datatype Operation<!S, !L, R, !I> = Operation(start: L, step: (S, L, I) -> Next<S, L, R>)

  datatype Phase<L, R> = Waiting | Inside(local: L) | Left(completion: Completion<R>)

  /** A call: the promise it awaits, the promise it resolves, where it is. `inputs` is history. */
  datatype Caller<!S, !L, R, !I> = Caller(
    operation: Operation<S, L, R, I>, previous: nat, own: nat, phase: Phase<L, R>, inputs: seq<I>)

  /** `promises[i]` tells whether promise i is resolved; `tail` is the last one handed out. */
  datatype Lock<!S, !L, R, !I> = Lock(state: S, promises: seq<bool>, tail: nat, callers: seq<Caller<S, L, R, I>>)

  datatype Event<!S, !L, R, !I> =
    | Call(operation: Operation<S, L, R, I>)
    | Enter(k: nat)
    | Advance(k: nat, input: I)

  function Fresh<S, L, R, I>(s: S): Lock<S, L, R, I> { Lock(s, [true], 0, []) }

  predicate Enabled<S, L, R, I>(lock: Lock<S, L, R, I>, e: Event<S, L, R, I>) {
    match e
    case Call(_) => true
    case Enter(k) =>
      k < |lock.callers| && lock.callers[k].phase.Waiting?
      && lock.callers[k].previous < |lock.promises| && lock.promises[lock.callers[k].previous]
    case Advance(k, _) => k < |lock.callers| && lock.callers[k].phase.Inside?
  }

  function Resolve(promises: seq<bool>, i: nat): seq<bool> {
    if i < |promises| then promises[i := true] else promises
  }

  function Apply<S, L, R, I>(s: S, op: Operation<S, L, R, I>, phase: Phase<L, R>, input: I): (S, Phase<L, R>) {
    if !phase.Inside? then (s, phase)
    else match op.step(s, phase.local, input)
      case More(s', l) => (s', Inside(l))
      case Return(s', value) => (s', Left(Returned(value)))
      case Throw(s') => (s', Left(Thrown))
  }

  function AdvanceCaller<S, L, R, I>(lock: Lock<S, L, R, I>, k: nat, input: I): Lock<S, L, R, I>
    requires k < |lock.callers|
  {
    var c := lock.callers[k];
    var (s', phase) := Apply(lock.state, c.operation, c.phase, input);
    Lock(s', if phase.Left? then Resolve(lock.promises, c.own) else lock.promises, lock.tail,
         lock.callers[k := c.(phase := phase, inputs := c.inputs + [input])])
  }

  function Step<S, L, R, I>(lock: Lock<S, L, R, I>, e: Event<S, L, R, I>): Lock<S, L, R, I> {
    if !Enabled(lock, e) then lock
    else match e
      case Call(op) =>
        var own := |lock.promises|;
        Lock(lock.state, lock.promises + [false], own, lock.callers + [Caller(op, lock.tail, own, Waiting, [])])
      case Enter(k) =>
        lock.(callers := lock.callers[k := lock.callers[k].(phase := Inside(lock.callers[k].operation.start))])
      case Advance(k, input) => AdvanceCaller(lock, k, input)
  }

  function Run<S, L, R, I>(lock: Lock<S, L, R, I>, events: seq<Event<S, L, R, I>>): Lock<S, L, R, I>
    decreases |events|
  {
    if events == [] then lock else Run(Step(lock, events[0]), events[1..])
  }

  // ---------- The serial run ----------

  /** One operation alone, fed the values its awaits resolved to. */
  function Replay<S, L, R, I>(s: S, op: Operation<S, L, R, I>, inputs: seq<I>): (S, Phase<L, R>)
    decreases |inputs|
  {
    if inputs == [] then (s, Inside(op.start))
    else
      var (s', phase) := Replay(s, op, inputs[..|inputs| - 1]);
      Apply(s', op, phase, inputs[|inputs| - 1])
  }

  /** The operations one after the other, in call order. */
  function Serial<S, L, R, I>(s: S, callers: seq<Caller<S, L, R, I>>): S
    decreases |callers|
  {
    if callers == [] then s
    else
      var last := callers[|callers| - 1];
      Replay(Serial(s, callers[..|callers| - 1]), last.operation, last.inputs).0
  }

  /** What an operation does by itself, from its first await on: each value is handed to its next
      step; a return or a throw ends it and keeps the state it left. */
  function Alone<S, L, R, I>(s: S, op: Operation<S, L, R, I>, local: L, inputs: seq<I>): (S, Phase<L, R>)
    decreases |inputs|
  {
    if inputs == [] then (s, Inside(local))
    else match op.step(s, local, inputs[0])
      case More(s', l) => Alone(s', op, l, inputs[1..])
      case Return(s', value) => (s', Left(Returned(value)))
      case Throw(s') => (s', Left(Thrown))
  }

  /** The operations by themselves, each on the state that the one before it left. */
  function OneByOne<S, L, R, I>(s: S, callers: seq<Caller<S, L, R, I>>): S
    decreases |callers|
  {
    if callers == [] then s
    else
      var last := callers[|callers| - 1];
      Alone(OneByOne(s, callers[..|callers| - 1]), last.operation, last.operation.start, last.inputs).0
  }

  lemma {:induction false} AloneSnoc<S, L, R, I>(s: S, op: Operation<S, L, R, I>, local: L, inputs: seq<I>, input: I)
    ensures var (s', phase) := Alone(s, op, local, inputs);
      Alone(s, op, local, inputs + [input]) == Apply(s', op, phase, input)
    decreases |inputs|
  {
    var all := inputs + [input];
    if inputs == [] {
      assert all[0] == input && all[1..] == [];
      match op.step(s, local, input)
      case More(s', l) => assert Alone(s', op, l, all[1..]) == (s', Inside(l));
      case _ =>
    } else {
      assert all[0] == inputs[0] && all[1..] == inputs[1..] + [input];
      match op.step(s, local, inputs[0])
      case More(s', l) => AloneSnoc(s', op, l, inputs[1..], input);
      case _ =>
    }
  }

  lemma {:induction false} ReplayAlone<S, L, R, I>(s: S, op: Operation<S, L, R, I>, inputs: seq<I>)
    ensures Replay(s, op, inputs) == Alone(s, op, op.start, inputs)
    decreases |inputs|
  {
    if inputs != [] {
      var init, last := inputs[..|inputs| - 1], inputs[|inputs| - 1];
      ReplayAlone(s, op, init);
      AloneSnoc(s, op, op.start, init, last);
      assert inputs == init + [last];
    }
  }

  lemma {:induction false} SerialOneByOne<S, L, R, I>(s: S, callers: seq<Caller<S, L, R, I>>)
    ensures Serial(s, callers) == OneByOne(s, callers)
    decreases |callers|
  {
    if callers != [] {
      var init, last := callers[..|callers| - 1], callers[|callers| - 1];
      SerialOneByOne(s, init);
      ReplayAlone(Serial(s, init), last.operation, last.inputs);
    }
  }

  // ---------- The invariant ----------

  ghost predicate Chained<S(!new), L(!new), R(!new), I(!new)>(lock: Lock<S, L, R, I>) {
    && |lock.promises| == |lock.callers| + 1 && lock.tail == |lock.callers| && lock.promises[0]
    && forall k | 0 <= k < |lock.callers| ::
         && lock.callers[k].previous == k && lock.callers[k].own == k + 1
         && (lock.promises[k + 1] <==> lock.callers[k].phase.Left?)
  }

  /** Nobody has entered before everybody that called earlier has left. */
  ghost predicate InOrder<S(!new), L(!new), R(!new), I(!new)>(lock: Lock<S, L, R, I>) {
    forall j, k | 0 <= j < k < |lock.callers| :: !lock.callers[k].phase.Waiting? ==> lock.callers[j].phase.Left?
  }

  /** Caller k is where the serial run would have brought it. */
  ghost predicate AsSerial<S(!new), L(!new), R(!new), I(!new)>(s0: S, callers: seq<Caller<S, L, R, I>>, k: nat)
    requires k < |callers|
  {
    var c := callers[k];
    if c.phase.Waiting? then c.inputs == []
    else Replay(Serial(s0, callers[..k]), c.operation, c.inputs).1 == c.phase
  }

  ghost predicate Inv<S(!new), L(!new), R(!new), I(!new)>(s0: S, lock: Lock<S, L, R, I>) {
    && Chained(lock) && InOrder(lock)
    && lock.state == Serial(s0, lock.callers)
    && forall k | 0 <= k < |lock.callers| :: AsSerial(s0, lock.callers, k)
  }

  /** Waiting callers at the end have not touched the state. */
  lemma {:induction false} SerialWaiting<S(!new), L(!new), R(!new), I(!new)>(s0: S, callers: seq<Caller<S, L,
      R, I>>, k: nat)
    requires k <= |callers| && forall j | k <= j < |callers| :: callers[j].inputs == []
    ensures Serial(s0, callers) == Serial(s0, callers[..k])
    decreases |callers|
  {
    if k == |callers| {
      assert callers[..k] == callers;
    } else {
      var init := callers[..|callers| - 1];
      SerialWaiting(s0, init, k);
      assert init[..k] == callers[..k];
    }
  }

  lemma CallStep<S(!new), L(!new), R(!new), I(!new)>(s0: S, lock: Lock<S, L, R, I>, op: Operation<S, L, R, I>)
    requires Inv(s0, lock)
    ensures Inv(s0, Step(lock, Call(op)))
  {
    var lock' := Step(lock, Call(op));
    var n := |lock.callers|;
    assert lock'.callers[..n] == lock.callers;
    forall k | 0 <= k < |lock'.callers| ensures AsSerial(s0, lock'.callers, k) {
      if k < n {
        assert AsSerial(s0, lock.callers, k);
        assert lock'.callers[..k] == lock.callers[..k];
      }
    }
  }

  /** Callers after the one that may enter or is inside are still waiting. */
  lemma OthersWait<S(!new), L(!new), R(!new), I(!new)>(s0: S, lock: Lock<S, L, R, I>, k: nat)
    requires Inv(s0, lock) && k < |lock.callers| && !lock.callers[k].phase.Left?
    ensures forall j | k < j < |lock.callers| :: lock.callers[j].phase.Waiting? && lock.callers[j].inputs == []
  {
    forall j | k < j < |lock.callers| ensures lock.callers[j].phase.Waiting? && lock.callers[j].inputs == [] {
      assert AsSerial(s0, lock.callers, j);
    }
  }

  /** Changing caller k, with nobody active after it, changes nothing for the callers before. */
  lemma UpdateSerial<S(!new), L(!new), R(!new), I(!new)>(
      s0: S, callers: seq<Caller<S, L, R, I>>, k: nat, c: Caller<S, L, R, I>, callers': seq<Caller<S, L, R, I>>)
    requires k < |callers| && forall j | k < j < |callers| :: callers[j].phase.Waiting? && callers[j].inputs == []
    requires forall j | 0 <= j < |callers| && j != k :: AsSerial(s0, callers, j)
    requires !c.phase.Waiting? && c.phase == Replay(Serial(s0, callers[..k]), c.operation, c.inputs).1
    requires callers' == callers[k := c]
    ensures forall j | 0 <= j < |callers| :: AsSerial(s0, callers', j)
    ensures Serial(s0, callers') == Replay(Serial(s0, callers[..k]), c.operation, c.inputs).0
  {
    assert callers'[..k] == callers[..k];
    forall j | 0 <= j < |callers| ensures AsSerial(s0, callers', j) {
      if j < k {
        assert callers'[..j] == callers[..j];
        assert AsSerial(s0, callers, j);
      }
    }
    SerialWaiting(s0, callers', k + 1);
    assert callers'[..k + 1][..k] == callers[..k] && callers'[..k + 1][k] == c;
  }

  lemma EnterStep<S(!new), L(!new), R(!new), I(!new)>(s0: S, lock: Lock<S, L, R, I>, k: nat)
    requires Inv(s0, lock) && Enabled(lock, Enter(k))
    ensures Inv(s0, Step(lock, Enter(k)))
  {
    EnterSerial(s0, lock, k);
    EnterOrder(s0, lock, k);
  }

  lemma EnterSerial<S(!new), L(!new), R(!new), I(!new)>(s0: S, lock: Lock<S, L, R, I>, k: nat)
    requires Inv(s0, lock) && Enabled(lock, Enter(k))
    ensures var lock' := Step(lock, Enter(k));
      lock'.state == Serial(s0, lock'.callers) && forall j | 0 <= j < |lock'.callers| :: AsSerial(s0, lock'.callers, j)
  {
    var c := lock.callers[k];
    assert AsSerial(s0, lock.callers, k);
    OthersWait(s0, lock, k);
    UpdateSerial(s0, lock.callers, k, c.(phase := Inside(c.operation.start)), Step(lock, Enter(k)).callers);
    SerialWaiting(s0, lock.callers, k);
  }

  /** The promise that k awaited is that of the caller before it, so everybody before has left. */
  lemma EnterOrder<S(!new), L(!new), R(!new), I(!new)>(s0: S, lock: Lock<S, L, R, I>, k: nat)
    requires Inv(s0, lock) && Enabled(lock, Enter(k))
    ensures Chained(Step(lock, Enter(k))) && InOrder(Step(lock, Enter(k)))
  {
    OthersWait(s0, lock, k);
    if k > 0 {
      assert lock.promises[(k - 1) + 1];
      assert lock.callers[k - 1].phase.Left?;
    }
  }

  /** What the caller whose turn it is sees: the serial state, and its own steps so far. */
  lemma TurnState<S(!new), L(!new), R(!new), I(!new)>(s0: S, lock: Lock<S, L, R, I>, k: nat)
    requires Inv(s0, lock) && k < |lock.callers| && !lock.callers[k].phase.Left?
    ensures var c := lock.callers[k];
      var s := Serial(s0, lock.callers[..k]);
      && lock.state == Replay(s, c.operation, c.inputs).0
      && (c.phase.Waiting? ==> lock.state == s)
      && (c.phase.Inside? ==> Replay(s, c.operation, c.inputs).1 == c.phase)
  {
    assert AsSerial(s0, lock.callers, k);
    OthersWait(s0, lock, k);
    SerialWaiting(s0, lock.callers, k + 1);
    assert lock.callers[..k + 1][..k] == lock.callers[..k];
  }

  lemma ReplaySnoc<S, L, R, I>(s: S, op: Operation<S, L, R, I>, inputs: seq<I>, input: I)
    ensures var (s', phase) := Replay(s, op, inputs);
      Replay(s, op, inputs + [input]) == Apply(s', op, phase, input)
  {
    assert (inputs + [input])[..|inputs|] == inputs;
  }

  lemma AdvanceChained<S(!new), L(!new), R(!new), I(!new)>(s0: S, lock: Lock<S, L, R, I>, k: nat, input: I)
    requires Inv(s0, lock) && Enabled(lock, Advance(k, input))
    ensures Chained(AdvanceCaller(lock, k, input)) && InOrder(AdvanceCaller(lock, k, input))
  {}

  lemma AdvanceSerial<S(!new), L(!new), R(!new), I(!new)>(s0: S, lock: Lock<S, L, R, I>, k: nat, input: I)
    requires Inv(s0, lock) && Enabled(lock, Advance(k, input))
    ensures var lock' := AdvanceCaller(lock, k, input);
      lock'.state == Serial(s0, lock'.callers) && forall j | 0 <= j < |lock'.callers| :: AsSerial(s0, lock'.callers, j)
  {
    var c := lock.callers[k];
    OthersWait(s0, lock, k);
    TurnState(s0, lock, k);
    ReplaySnoc(Serial(s0, lock.callers[..k]), c.operation, c.inputs, input);
    var callers' := AdvanceCaller(lock, k, input).callers;
    UpdateSerial(s0, lock.callers, k, callers'[k], callers');
  }

  lemma AdvanceStep<S(!new), L(!new), R(!new), I(!new)>(s0: S, lock: Lock<S, L, R, I>, k: nat, input: I)
    requires Inv(s0, lock) && Enabled(lock, Advance(k, input))
    ensures Inv(s0, Step(lock, Advance(k, input)))
  {
    AdvanceChained(s0, lock, k, input);
    AdvanceSerial(s0, lock, k, input);
  }

  /** The invariant holds in every run: any interleaving, any number of callers, any throws. */
  lemma {:induction false} RunKeeps<S(!new), L(!new), R(!new), I(!new)>(s0: S, lock: Lock<S, L, R, I>,
      events: seq<Event<S, L, R, I>>)
    requires Inv(s0, lock)
    ensures Inv(s0, Run(lock, events))
    decreases |events|
  {
    if events != [] {
      var e := events[0];
      if Enabled(lock, e) {
        match e
        case Call(op) => CallStep(s0, lock, op);
        case Enter(k) => EnterStep(s0, lock, k);
        case Advance(k, input) => AdvanceStep(s0, lock, k, input);
      }
      RunKeeps(s0, Step(lock, e), events[1..]);
    }
  }

  /** Serialisability: the state is that of the operations run one after the other in call
      order, everybody that has left did so with the result of that serial run, nobody entered
      before all earlier callers had left, and at most one operation is inside. */
  lemma Serialisable<S(!new), L(!new), R(!new), I(!new)>(s0: S, events: seq<Event<S, L, R, I>>, k: nat)
    requires var lock := Run(Fresh(s0), events); k < |lock.callers|
    ensures var lock := Run(Fresh(s0), events);
      var c := lock.callers[k];
      && lock.state == OneByOne(s0, lock.callers)
      && (!c.phase.Waiting? ==>
            Alone(OneByOne(s0, lock.callers[..k]), c.operation, c.operation.start, c.inputs).1 == c.phase)
      && (!c.phase.Waiting? ==> forall j | 0 <= j < k :: lock.callers[j].phase.Left?)
      && (c.phase.Inside? ==> forall j | k < j < |lock.callers| :: lock.callers[j].phase.Waiting?)
  {
    var start: Lock<S, L, R, I> := Fresh(s0);
    RunKeeps(s0, start, events);
    var callers := Run(start, events).callers;
    assert AsSerial(s0, callers, k);
    SerialOneByOne(s0, callers);
    SerialOneByOne(s0, callers[..k]);
    ReplayAlone(Serial(s0, callers[..k]), callers[k].operation, callers[k].inputs);
  }

  // ---------- Progress ----------

  /** An operation that cannot go on for ever. */
  ghost predicate Terminates<S(!new), L(!new), R(!new), I(!new)>(op: Operation<S, L, R, I>, rank: L -> nat) {
    forall s, l, i :: op.step(s, l, i).More? ==> rank(op.step(s, l, i).local) < rank(l)
  }

  function Remaining<S, L, R, I>(callers: seq<Caller<S, L, R, I>>, rank: L -> nat): nat {
    if callers == [] then 0
    else
      var c := callers[0];
      Remaining(callers[1..], rank) +
      match c.phase
      case Waiting => rank(c.operation.start) + 2
      case Inside(l) => rank(l) + 1
      case Left(_) => 0
  }

  lemma {:induction false} RemainingUpdate<S(!new), L(!new), R(!new), I(!new)>(callers: seq<Caller<S, L, R,
      I>>, rank: L -> nat, k: nat, c: Caller<S, L, R, I>)
    requires k < |callers|
    requires Remaining([c], rank) < Remaining([callers[k]], rank)
    ensures Remaining(callers[k := c], rank) < Remaining(callers, rank)
  {
    assert [c][1..] == [] && [callers[k]][1..] == [];
    if k == 0 {
      assert callers[k := c][1..] == callers[1..];
    } else {
      assert callers[k := c][1..] == callers[1..][k - 1 := c];
      RemainingUpdate(callers[1..], rank, k - 1, c);
    }
  }

  /** The caller whose turn it is: everybody before it has left. */
  function Turn<S, L, R, I>(callers: seq<Caller<S, L, R, I>>): (k: nat)
    ensures k <= |callers|
    ensures forall j | 0 <= j < k :: callers[j].phase.Left?
    ensures k < |callers| ==> !callers[k].phase.Left?
  {
    if callers == [] || !callers[0].phase.Left? then 0
    else
      var k := 1 + Turn(callers[1..]);
      assert forall j | 0 < j < k :: callers[j] == callers[1..][j - 1];
      k
  }

  /** No deadlock: while somebody has not left, the caller whose turn it is can move, whatever
      its await resolves to. */
  lemma Progress<S(!new), L(!new), R(!new), I(!new)>(s0: S, lock: Lock<S, L, R, I>, input: I)
    requires Inv(s0, lock)
    requires exists k | 0 <= k < |lock.callers| :: !lock.callers[k].phase.Left?
    ensures var k := Turn(lock.callers);
      k < |lock.callers| && (Enabled(lock, Enter(k)) || Enabled(lock, Advance(k, input)))
  {
    var k := Turn(lock.callers);
    if k > 0 {
      assert lock.callers[k - 1].phase.Left?;
      assert lock.promises[(k - 1) + 1];
    }
  }

  lemma WorkDecreases<S(!new), L(!new), R(!new), I(!new)>(lock: Lock<S, L, R, I>, rank: L -> nat, e: Event<S, L, R, I>)
    requires forall k | 0 <= k < |lock.callers| :: Terminates(lock.callers[k].operation, rank)
    requires Enabled(lock, e) && !e.Call?
    ensures Remaining(Step(lock, e).callers, rank) < Remaining(lock.callers, rank)
  {
    var k := e.k;
    var c := lock.callers[k];
    var c' := Step(lock, e).callers[k];
    assert [c][1..] == [] && [c'][1..] == [];
    assert Terminates(c.operation, rank);
    RemainingUpdate(lock.callers, rank, k, c');
  }

  /** Every event is one that could happen, and none is a new call. */
  predicate Schedule<S, L, R, I>(lock: Lock<S, L, R, I>, events: seq<Event<S, L, R, I>>)
    decreases |events|
  {
    events == [] || (!events[0].Call? && Enabled(lock, events[0]) && Schedule(Step(lock, events[0]), events[1..]))
  }

  /** Nobody can enter, and nobody inside can go on even when its await resolves. */
  predicate Stuck<S, L, R, I>(lock: Lock<S, L, R, I>, input: I) {
    forall k | 0 <= k < |lock.callers| :: !Enabled(lock, Enter(k)) && !Enabled(lock, Advance(k, input))
  }

  ghost predicate AllTerminate<S(!new), L(!new), R(!new), I(!new)>(lock: Lock<S, L, R, I>, rank: L -> nat) {
    forall k | 0 <= k < |lock.callers| :: Terminates(lock.callers[k].operation, rank)
  }

  /** No schedule is longer than the work that remained; with `Progress`, once new calls cease
      every schedule that goes as far as it can ends with all callers gone. */
  lemma {:induction false} EveryoneLeaves<S(!new), L(!new), R(!new), I(!new)>(
      s0: S, lock: Lock<S, L, R, I>, rank: L -> nat, events: seq<Event<S, L, R, I>>, input: I)
    requires Inv(s0, lock) && AllTerminate(lock, rank) && Schedule(lock, events)
    ensures |events| <= Remaining(lock.callers, rank)
    ensures var end := Run(lock, events);
      Stuck(end, input) ==> forall k | 0 <= k < |end.callers| :: end.callers[k].phase.Left?
    decreases |events|
  {
    if events == [] {
      if exists k | 0 <= k < |lock.callers| :: !lock.callers[k].phase.Left? {
        Progress(s0, lock, input);
      }
    } else {
      var e := events[0];
      var next := Step(lock, e);
      WorkDecreases(lock, rank, e);
      RunKeeps(s0, lock, [e]);
      assert [e][1..] == [] && Run(lock, [e]) == Run(next, []) == next;
      forall k | 0 <= k < |next.callers| ensures Terminates(next.callers[k].operation, rank) {
        assert next.callers[k].operation == lock.callers[k].operation;
      }
      EveryoneLeaves(s0, next, rank, events[1..], input);
    }
  }
}
