/**
  The reference counters of refcount_c11.c and refcount_lock.c, as steps of concurrent
  calls: the first interleaves loads and weak compare-and-swaps, which may fail for no
  reason, the second takes a lock. Both refine one atomic saturating counter.
 */
module RefCount {
  import opened Options

  const MAX := 0xFFFF_FFFF   // CRYPTO_REFCOUNT_MAX

  datatype Op = Inc | Dec

  /** How a call ends. An increment returns nothing, which is taken as zero. */
  datatype Outcome = Done(result: nat) | Abort

  // ------------------------------------------------------------------ the atomic counter

  /** The counter after an operation, as crypto/internal.h describes it. */
  function Next(op: Op, count: nat): nat {
    if count == MAX then MAX
    else if op.Inc? then count + 1
    else if count == 0 then 0 else count - 1
  }

  function Result(op: Op, count: nat): Outcome {
    if op.Inc? then Done(0)
    else if count == 0 then Abort
    else Done(if count == 1 then 1 else 0)
  }

  /** An operation that took effect: whose call it was and how it ended. */
  datatype Event = Event(id: nat, op: Op, outcome: Outcome)

  /** The atomic counter after these operations, if that is how they would end. */
  function Replay(events: seq<Event>, count: nat): Option<nat> {
    if events == [] then Some(count)
    else
      var before := Replay(events[..|events| - 1], count);
      var last := events[|events| - 1];
      if before.None? || last.outcome != Result(last.op, before.value) then None
      else Some(Next(last.op, before.value))
  }

  lemma ReplayAppend(events: seq<Event>, count: nat, e: Event)
    ensures Replay(events + [e], count) ==
      var before := Replay(events, count);
      if before.None? || e.outcome != Result(e.op, before.value) then None else Some(Next(e.op, before.value))
  {
    assert (events + [e])[..|events|] == events;
  }

  // ------------------------------------------------------------------ concurrent calls

  /** Where a call is: before its first step, about to compare and swap, inside the lock before
      and after reading the counter, about to unlock, or back in its caller. */
  datatype Phase = Called | Trying(expected: nat) | Holding | Loaded(value: nat) | Leaving(outcome: Outcome) | Finished(outcome: Outcome)

  /** A call, with the history of it: the events before it began, its own event, and the events
      before it ended. */
  datatype Call = Call(op: Op, phase: Phase, from: nat, at: Option<nat>, until: nat)

  datatype State = State(count: nat, calls: seq<Call>, events: seq<Event>, holder: Option<nat>, crashed: bool)

  /** The next thing to happen: a thread calls, or a call takes a step. */
  datatype Action = Invoke(op: Op) | Act(id: nat, spurious: bool)

  datatype Machine = C11 | Lock

  function Initial(count: nat): State {
    State(count, [], [], None, false)
  }

  function Begin(s: State, op: Op): State {
    s.(calls := s.calls + [Call(op, Called, |s.events|, None, 0)])
  }

  function MoveTo(s: State, id: nat, phase: Phase): State
    requires id < |s.calls|
  {
    s.(calls := s.calls[id := s.calls[id].(phase := phase)])
  }

  /** The call takes effect: it stores the counter and its outcome is settled. */
  function TakeEffect(s: State, id: nat, phase: Phase, count: nat, outcome: Outcome): State
    requires id < |s.calls|
  {
    var call := s.calls[id];
    s.(count := count, calls := s.calls[id := call.(phase := phase, at := Some(|s.events|))],
       events := s.events + [Event(id, call.op, outcome)])
  }

  function Finish(s: State, id: nat, outcome: Outcome): State
    requires id < |s.calls|
  {
    s.(calls := s.calls[id := s.calls[id].(phase := Finished(outcome), until := |s.events|)], crashed := s.crashed || outcome.Abort?)
  }

  /** The value read settles the call: there will be no compare-and-swap. */
  predicate Settles(op: Op, value: nat) {
    value == MAX || (op.Dec? && value == 0)
  }

  /** An atomic read, by the load or by a compare-and-swap that failed. */
  function Observe(s: State, id: nat): State
    requires id < |s.calls|
  {
    var op := s.calls[id].op;
    if Settles(op, s.count)
    then TakeEffect(s, id, Trying(s.count), s.count, if s.count == MAX then Done(0) else Abort)
    else MoveTo(s, id, Trying(s.count))
  }

  /** One step of CRYPTO_refcount_inc or CRYPTO_refcount_dec_and_test_zero in refcount_c11.c. */
  function C11Step(s: State, id: nat, spurious: bool): State
    requires id < |s.calls|
  {
    var call := s.calls[id];
    match call.phase
    case Called => Observe(s, id)
    case Trying(expected) =>
      if call.op.Dec? && expected == 0 then Finish(s, id, Abort)
      else if expected == MAX then Finish(s, id, Done(0))
      else if s.count == expected && !spurious then
        if call.op.Inc?
        then Finish(TakeEffect(s, id, call.phase, expected + 1, Done(0)), id, Done(0))
        else
          var done := Done(if expected - 1 == 0 then 1 else 0);
          Finish(TakeEffect(s, id, call.phase, expected - 1, done), id, done)
      else Observe(s, id)
    case _ => s
  }

  /** One step of the same functions in refcount_lock.c. */
  function LockStep(s: State, id: nat): State
    requires id < |s.calls|
  {
    var call := s.calls[id];
    match call.phase
    case Called => if s.holder.None? then MoveTo(s, id, Holding).(holder := Some(id)) else s
    case Holding => MoveTo(s, id, Loaded(s.count))
    case Loaded(value) =>
      if call.op.Inc? then
        var count := if value < MAX then value + 1 else value;
        TakeEffect(s, id, Leaving(Done(0)), count, Done(0))
      else if value == 0 then Finish(TakeEffect(s, id, call.phase, s.count, Abort), id, Abort)
      else
        var count := if value < MAX then value - 1 else value;
        var done := Done(if count == 0 then 1 else 0);
        TakeEffect(s, id, Leaving(done), count, done)
    case Leaving(outcome) => Finish(s, id, outcome).(holder := None)
    case _ => s
  }

  function Step(m: Machine, s: State, a: Action): State {
    if s.crashed then s
    else
      match a
      case Invoke(op) => Begin(s, op)
      case Act(id, spurious) =>
        if id >= |s.calls| then s
        else match m
          case C11 => C11Step(s, id, spurious)
          case Lock => LockStep(s, id)
  }

  function Run(m: Machine, actions: seq<Action>, count: nat): State {
    if actions == [] then Initial(count)
    else Step(m, Run(m, actions[..|actions| - 1], count), actions[|actions| - 1])
  }

  // ------------------------------------------------------------------ both refine the atomic counter

  /** The history of a call agrees with the events. */
  predicate CallAgrees(s: State, id: nat)
    requires id < |s.calls|
  {
    var call := s.calls[id];
    call.from <= |s.events| &&
    (call.at.Some? ==> call.from <= call.at.value < |s.events|) &&
    (call.at.Some? ==> s.events[call.at.value].id == id && s.events[call.at.value].op == call.op) &&
    (call.phase.Finished? ==> call.at.Some? && call.at.value < call.until <= |s.events|) &&
    (call.phase.Finished? ==> s.events[call.at.value].outcome == call.phase.outcome)
  }

  predicate EventAgrees(s: State, k: nat)
    requires k < |s.events|
  {
    s.events[k].id < |s.calls| && s.calls[s.events[k].id].at == Some(k)
  }

  /** The events are those of an atomic counter, one for each call that took effect. */
  predicate Linear(s: State, count: nat) {
    s.count <= MAX && Replay(s.events, count) == Some(s.count) &&
    (forall id :: 0 <= id < |s.calls| ==> CallAgrees(s, id)) &&
    (forall k :: 0 <= k < |s.events| ==> EventAgrees(s, k))
  }

  /** What a call has read agrees with what it did. */
  predicate C11Call(s: State, id: nat)
    requires id < |s.calls|
  {
    var call := s.calls[id];
    match call.phase
    case Called => call.at.None?
    case Trying(expected) => expected <= MAX &&
      if Settles(call.op, expected)
      then call.at.Some? && call.at.value < |s.events| &&
           s.events[call.at.value].outcome == if expected == MAX then Done(0) else Abort
      else call.at.None?
    case Finished(_) => true
    case _ => false
  }

  /** A call is in its critical section exactly while it holds the lock. */
  predicate LockCall(s: State, id: nat)
    requires id < |s.calls|
  {
    var call := s.calls[id];
    match call.phase
    case Called => call.at.None? && s.holder != Some(id)
    case Holding => call.at.None? && s.holder == Some(id)
    case Loaded(value) => call.at.None? && s.holder == Some(id) && value == s.count
    case Leaving(outcome) => s.holder == Some(id) && call.at.Some? && call.at.value < |s.events| && s.events[call.at.value].outcome == outcome
    case Finished(_) => s.holder != Some(id)
    case _ => false
  }

  predicate MachineInv(m: Machine, s: State) {
    match m
    case C11 => forall id :: 0 <= id < |s.calls| ==> C11Call(s, id)
    case Lock => s.crashed || ((s.holder.Some? ==> s.holder.value < |s.calls|) && forall id :: 0 <= id < |s.calls| ==> LockCall(s, id))
  }

  lemma BeginLinear(s: State, count: nat, op: Op)
    requires Linear(s, count)
    ensures Linear(Begin(s, op), count)
  {
    var t := Begin(s, op);
    forall id | 0 <= id < |t.calls| ensures CallAgrees(t, id) { if id < |s.calls| { assert CallAgrees(s, id); } }
    forall k | 0 <= k < |t.events| ensures EventAgrees(t, k) { assert EventAgrees(s, k); }
  }

  lemma MoveLinear(s: State, count: nat, id: nat, phase: Phase)
    requires Linear(s, count) && id < |s.calls| && !phase.Finished?
    ensures Linear(MoveTo(s, id, phase), count)
  {
    var t := MoveTo(s, id, phase);
    forall i | 0 <= i < |t.calls| ensures CallAgrees(t, i) { assert CallAgrees(s, i); }
    forall k | 0 <= k < |t.events| ensures EventAgrees(t, k) { assert EventAgrees(s, k); }
  }

  lemma FinishLinear(s: State, count: nat, id: nat, outcome: Outcome)
    requires Linear(s, count) && id < |s.calls|
    requires s.calls[id].at.Some? && s.calls[id].at.value < |s.events| && s.events[s.calls[id].at.value].outcome == outcome
    ensures Linear(Finish(s, id, outcome), count)
  {
    var t := Finish(s, id, outcome);
    forall i | 0 <= i < |t.calls| ensures CallAgrees(t, i) { assert CallAgrees(s, i); }
    forall k | 0 <= k < |t.events| ensures EventAgrees(t, k) { assert EventAgrees(s, k); }
  }

  /** A call that takes effect does what the atomic counter would. */
  lemma EffectLinear(s: State, count: nat, id: nat, phase: Phase, c: nat, outcome: Outcome)
    requires Linear(s, count) && id < |s.calls| && s.calls[id].at.None? && !phase.Finished?
    requires c == Next(s.calls[id].op, s.count) && outcome == Result(s.calls[id].op, s.count)
    ensures Linear(TakeEffect(s, id, phase, c, outcome), count)
  {
    var t := TakeEffect(s, id, phase, c, outcome);
    ReplayAppend(s.events, count, Event(id, s.calls[id].op, outcome));
    forall i | 0 <= i < |t.calls| ensures CallAgrees(t, i) { assert CallAgrees(s, i); }
    forall k | 0 <= k < |t.events| ensures EventAgrees(t, k) { if k < |s.events| { assert EventAgrees(s, k); } }
  }

  lemma ObserveInv(s: State, count: nat, id: nat)
    requires Linear(s, count) && MachineInv(C11, s) && id < |s.calls| && s.calls[id].at.None?
    ensures Linear(Observe(s, id), count) && MachineInv(C11, Observe(s, id))
  {
    hide Replay, Linear;
    var op := s.calls[id].op;
    assert s.count <= MAX by { CountFits(s, count); }
    if Settles(op, s.count) {
      EffectLinear(s, count, id, Trying(s.count), s.count, if s.count == MAX then Done(0) else Abort);
    } else {
      MoveLinear(s, count, id, Trying(s.count));
    }
    var t := Observe(s, id);
    forall i | 0 <= i < |t.calls| ensures C11Call(t, i) { assert C11Call(s, i); }
  }

  lemma CountFits(s: State, count: nat)
    requires Linear(s, count)
    ensures s.count <= MAX
  {
  }

  lemma C11StepInv(s: State, count: nat, id: nat, spurious: bool)
    requires Linear(s, count) && MachineInv(C11, s) && id < |s.calls|
    ensures Linear(C11Step(s, id, spurious), count) && MachineInv(C11, C11Step(s, id, spurious))
  {
    hide Replay, Linear, Observe, CallAgrees;
    var call := s.calls[id];
    var t := C11Step(s, id, spurious);
    CountFits(s, count);
    assert C11Call(s, id);
    match call.phase
    case Called => ObserveInv(s, count, id);
    case Trying(expected) =>
      if Settles(call.op, expected) {
        FinishLinear(s, count, id, if expected == MAX then Done(0) else Abort);
        forall i | 0 <= i < |t.calls| ensures C11Call(t, i) { assert C11Call(s, i); }
      } else if s.count == expected && !spurious {
        var outcome := Result(call.op, expected);
        var u := TakeEffect(s, id, call.phase, Next(call.op, expected), outcome);
        EffectLinear(s, count, id, call.phase, Next(call.op, expected), outcome);
        FinishLinear(u, count, id, outcome);
        assert t == Finish(u, id, outcome);
        forall i | 0 <= i < |t.calls| ensures C11Call(t, i) { assert C11Call(s, i); }
      } else {
        ObserveInv(s, count, id);
      }
    case _ =>
  }

  lemma LockStepInv(s: State, count: nat, id: nat)
    requires Linear(s, count) && MachineInv(Lock, s) && id < |s.calls| && !s.crashed
    ensures Linear(LockStep(s, id), count) && MachineInv(Lock, LockStep(s, id))
  {
    hide Replay, Linear, CallAgrees;
    var call := s.calls[id];
    var t := LockStep(s, id);
    CountFits(s, count);
    assert LockCall(s, id);
    match call.phase {
      case Called => MoveLinear(s, count, id, Holding); HolderIrrelevant(MoveTo(s, id, Holding), count, Some(id));
      case Holding => MoveLinear(s, count, id, Loaded(s.count));
      case Loaded(value) =>
        var outcome := Result(call.op, value);
        if outcome.Abort? {
          EffectLinear(s, count, id, call.phase, value, Abort);
          FinishLinear(TakeEffect(s, id, call.phase, value, Abort), count, id, Abort);
        } else {
          EffectLinear(s, count, id, Leaving(outcome), Next(call.op, value), outcome);
        }
      case Leaving(outcome) => FinishLinear(s, count, id, outcome); HolderIrrelevant(Finish(s, id, outcome), count, None);
      case _ =>
    }
    if !t.crashed {
      forall i | 0 <= i < |t.calls| ensures LockCall(t, i) { assert LockCall(s, i); }
    }
  }

  lemma HolderIrrelevant(s: State, count: nat, holder: Option<nat>)
    requires Linear(s, count)
    ensures Linear(s.(holder := holder), count)
  {
    var t := s.(holder := holder);
    forall i | 0 <= i < |t.calls| ensures CallAgrees(t, i) { assert CallAgrees(s, i); }
    forall k | 0 <= k < |t.events| ensures EventAgrees(t, k) { assert EventAgrees(s, k); }
  }

  lemma StepInv(m: Machine, s: State, count: nat, a: Action)
    requires Linear(s, count) && MachineInv(m, s)
    ensures Linear(Step(m, s, a), count) && MachineInv(m, Step(m, s, a))
  {
    hide Linear, C11Step, LockStep;
    if !s.crashed {
      match a
      case Invoke(op) =>
        BeginLinear(s, count, op);
        var t := Begin(s, op);
        if m.C11? {
          forall id | 0 <= id < |t.calls| ensures C11Call(t, id) { if id < |s.calls| { assert C11Call(s, id); } }
        } else {
          forall id | 0 <= id < |t.calls| ensures LockCall(t, id) { if id < |s.calls| { assert LockCall(s, id); } }
        }
      case Act(id, spurious) =>
        if id < |s.calls| {
          if m.C11? { C11StepInv(s, count, id, spurious); } else { LockStepInv(s, count, id); }
        }
    }
  }

  /** Over every run, spurious failures included, the counter is that of the atomic counter, and
      every call that returned took effect once, as the atomic operation would, between its
      beginning and its end. */
  lemma {:induction false} RunIsLinearizable(m: Machine, actions: seq<Action>, count: nat)
    requires count <= MAX
    ensures Linear(Run(m, actions, count), count) && MachineInv(m, Run(m, actions, count))
  {
    hide Step;
    if actions != [] {
      RunIsLinearizable(m, actions[..|actions| - 1], count);
      hide Linear, MachineInv;
      StepInv(m, Run(m, actions[..|actions| - 1], count), count, actions[|actions| - 1]);
    }
  }

  /** Calls take effect in real-time order: one that ended before another began comes first. */
  lemma RealTimeOrder(m: Machine, actions: seq<Action>, count: nat, i: nat, j: nat)
    requires count <= MAX && i < |Run(m, actions, count).calls| && j < |Run(m, actions, count).calls|
    requires var s := Run(m, actions, count);
      s.calls[i].phase.Finished? && s.calls[j].at.Some? && s.calls[i].until <= s.calls[j].from
    ensures var s := Run(m, actions, count);
      s.calls[i].at.Some? && s.calls[i].at.value < s.calls[j].at.value
  {
    hide Run, Step, Replay;
    RunIsLinearizable(m, actions, count);
    assert CallAgrees(Run(m, actions, count), i) && CallAgrees(Run(m, actions, count), j);
  }

  /** A saturated counter stays saturated and no decrement of it reports zero. */
  lemma {:induction false} SaturationIsForever(events: seq<Event>, k: nat, count: nat)
    requires Replay(events, count).Some? && k <= |events| && Replay(events[..k], count) == Some(MAX)
    ensures Replay(events, count) == Some(MAX)
    ensures forall j :: k <= j < |events| ==> events[j].outcome == Done(0)
    decreases |events|
  {
    if k < |events| {
      assert events[..|events| - 1][..k] == events[..k];
      SaturationIsForever(events[..|events| - 1], k, count);
    } else {
      assert events[..k] == events;
    }
  }

  // ------------------------------------------------------------------ references

  /** The references a call gives back to its caller less those it was given: any call is made on
      one reference, which a decrement gives up and an increment turns into two. */
  function GivenBack(call: Call): int {
    if call.phase.Finished? && call.op.Inc? then 1 else -1
  }

  /** The references in the hands of a call. */
  function InHand(call: Call): nat {
    if call.phase.Finished? then 0
    else if call.at.None? then 1
    else if call.op.Inc? then 2 else 0
  }

  function GivenBackBy(calls: seq<Call>): int {
    if calls == [] then 0 else GivenBackBy(calls[..|calls| - 1]) + GivenBack(calls[|calls| - 1])
  }

  function InHands(calls: seq<Call>): nat {
    if calls == [] then 0 else InHands(calls[..|calls| - 1]) + InHand(calls[|calls| - 1])
  }

  /** The references that no call has, out of count at the start. */
  function Held(s: State, count: nat): int {
    count + GivenBackBy(s.calls)
  }

  /** The threads keep count: a call is made only on a reference that is held. */
  predicate Disciplined(m: Machine, actions: seq<Action>, count: nat) {
    actions == [] ||
    (Disciplined(m, actions[..|actions| - 1], count) &&
     (actions[|actions| - 1].Invoke? ==> Held(Run(m, actions[..|actions| - 1], count), count) >= 1))
  }

  lemma {:induction false} SumsUpdate(calls: seq<Call>, id: nat, call: Call)
    requires id < |calls|
    ensures GivenBackBy(calls[id := call]) == GivenBackBy(calls) - GivenBack(calls[id]) + GivenBack(call)
    ensures InHands(calls[id := call]) == InHands(calls) - InHand(calls[id]) + InHand(call)
    ensures InHands(calls) >= InHand(calls[id])
    decreases |calls|
  {
    hide GivenBack, InHand;
    var n := |calls| - 1;
    if id < n {
      assert calls[id := call][..n] == calls[..n][id := call];
      SumsUpdate(calls[..n], id, call);
    } else {
      assert calls[id := call][..n] == calls[..n];
    }
  }

  lemma SumsAppend(calls: seq<Call>, call: Call)
    ensures GivenBackBy(calls + [call]) == GivenBackBy(calls) + GivenBack(call)
    ensures InHands(calls + [call]) == InHands(calls) + InHand(call)
  {
    assert (calls + [call])[..|calls|] == calls;
  }

  /** The counter is the number of references, unless it saturated; it reached zero if and only if
      the last event was the decrement that said so. */
  predicate Accounted(s: State, count: nat) {
    !s.crashed && Held(s, count) >= 0 &&
    (s.count == MAX || s.count == Held(s, count) + InHands(s.calls)) &&
    (s.count == 0 <==> s.events != [] && ReportsZero(s.events[|s.events| - 1])) &&
    (forall k :: 0 <= k < |s.events| - 1 ==> !ReportsZero(s.events[k])) &&
    (forall k :: 0 <= k < |s.events| ==> !s.events[k].outcome.Abort?)
  }

  predicate ReportsZero(e: Event) {
    e.op.Dec? && e.outcome == Done(1)
  }

  lemma BeginAccounted(s: State, count: nat, op: Op)
    requires Accounted(s, count) && Held(s, count) >= 1
    ensures Accounted(Begin(s, op), count)
  {
    SumsAppend(s.calls, Call(op, Called, |s.events|, None, 0));
  }

  lemma MoveAccounted(s: State, count: nat, id: nat, phase: Phase)
    requires Accounted(s, count) && id < |s.calls| && !phase.Finished? && !s.calls[id].phase.Finished?
    ensures Accounted(MoveTo(s, id, phase), count)
  {
    SumsUpdate(s.calls, id, s.calls[id].(phase := phase));
  }

  lemma FinishAccounted(s: State, count: nat, id: nat, outcome: Outcome)
    requires Accounted(s, count) && id < |s.calls| && s.calls[id].at.Some? && !s.calls[id].phase.Finished? && !outcome.Abort?
    ensures Accounted(Finish(s, id, outcome), count)
  {
    SumsUpdate(s.calls, id, s.calls[id].(phase := Finished(outcome), until := |s.events|));
  }

  lemma EffectAccounted(s: State, count: nat, id: nat, phase: Phase, c: nat, outcome: Outcome)
    requires Accounted(s, count) && id < |s.calls| && s.calls[id].at.None? && !s.calls[id].phase.Finished? && !phase.Finished?
    requires c == Next(s.calls[id].op, s.count) && outcome == Result(s.calls[id].op, s.count)
    ensures Accounted(TakeEffect(s, id, phase, c, outcome), count) && s.count != 0
  {
    var call := s.calls[id];
    SumsUpdate(s.calls, id, call.(phase := phase, at := Some(|s.events|)));
    var t := TakeEffect(s, id, phase, c, outcome);
    forall k | 0 <= k < |t.events| - 1 ensures !ReportsZero(t.events[k]) { assert t.events[k] == s.events[k]; }
  }

  /** Whose references are counted finds no counter at zero. */
  lemma NeverZero(s: State, count: nat, id: nat)
    requires Accounted(s, count) && id < |s.calls| && s.calls[id].at.None? && !s.calls[id].phase.Finished?
    ensures s.count != 0
  {
    SumsUpdate(s.calls, id, s.calls[id]);
  }

  /** A call about to give up saw a zero; that never happens. */
  predicate NoneSawZero(s: State) {
    forall id :: 0 <= id < |s.calls| ==> !SawZero(s.calls[id])
  }

  predicate SawZero(call: Call) {
    call.phase == Trying(0) && call.op.Dec?
  }

  lemma ObserveAccounted(s: State, count: nat, id: nat)
    requires Accounted(s, count) && NoneSawZero(s) && id < |s.calls| && s.calls[id].at.None? && !s.calls[id].phase.Finished?
    ensures Accounted(Observe(s, id), count) && NoneSawZero(Observe(s, id))
  {
    hide Accounted;
    NeverZero(s, count, id);
    if Settles(s.calls[id].op, s.count) {
      EffectAccounted(s, count, id, Trying(s.count), s.count, Done(0));
    } else {
      MoveAccounted(s, count, id, Trying(s.count));
    }
  }

  lemma C11Accounted(s: State, count: nat, id: nat, spurious: bool)
    requires Linear(s, count) && MachineInv(C11, s) && Accounted(s, count) && NoneSawZero(s) && id < |s.calls|
    ensures Accounted(C11Step(s, id, spurious), count) && NoneSawZero(C11Step(s, id, spurious))
  {
    hide Replay, Linear, Observe, Accounted;
    var call := s.calls[id];
    CountFits(s, count);
    assert C11Call(s, id) && !SawZero(call);
    match call.phase
    case Called => ObserveAccounted(s, count, id);
    case Trying(expected) =>
      if expected == MAX {
        FinishAccounted(s, count, id, Done(0));
      } else if s.count == expected && !spurious {
        var outcome := Result(call.op, expected);
        var u := TakeEffect(s, id, call.phase, Next(call.op, expected), outcome);
        EffectAccounted(s, count, id, call.phase, Next(call.op, expected), outcome);
        FinishAccounted(u, count, id, outcome);
        assert C11Step(s, id, spurious) == Finish(u, id, outcome);
      } else {
        ObserveAccounted(s, count, id);
      }
    case _ =>
  }

  lemma LockAccounted(s: State, count: nat, id: nat)
    requires Linear(s, count) && MachineInv(Lock, s) && Accounted(s, count) && id < |s.calls|
    ensures Accounted(LockStep(s, id), count)
  {
    hide Replay, Linear, GivenBackBy, InHands;
    var call := s.calls[id];
    CountFits(s, count);
    assert !s.crashed && LockCall(s, id);
    match call.phase
    case Called => MoveAccounted(s, count, id, Holding);
    case Holding => MoveAccounted(s, count, id, Loaded(s.count));
    case Loaded(value) =>
      NeverZero(s, count, id);
      var outcome := Result(call.op, value);
      EffectAccounted(s, count, id, Leaving(outcome), Next(call.op, value), outcome);
    case Leaving(outcome) =>
      assert !s.events[call.at.value].outcome.Abort?;
      FinishAccounted(s, count, id, outcome);
    case _ =>
  }

  lemma {:induction false} RunIsAccounted(m: Machine, actions: seq<Action>, count: nat)
    requires 1 <= count <= MAX && Disciplined(m, actions, count)
    ensures Accounted(Run(m, actions, count), count) && (m.C11? ==> NoneSawZero(Run(m, actions, count)))
  {
    if actions != [] {
      var before := actions[..|actions| - 1];
      var a := actions[|actions| - 1];
      var s := Run(m, before, count);
      RunIsAccounted(m, before, count);
      RunIsLinearizable(m, before, count);
      hide Linear, MachineInv, Disciplined, Held, C11Step, LockStep, GivenBackBy, InHands;
      assert a.Invoke? ==> Held(s, count) >= 1;
      assert !s.crashed;
      hide Accounted;
      match a {
        case Invoke(op) => BeginAccounted(s, count, op);
        case Act(id, spurious) =>
          if id < |s.calls| {
            if m.C11? { C11Accounted(s, count, id, spurious); } else { LockAccounted(s, count, id); }
          }
      }
    }
  }

  /** Where threads use no reference they do not hold, no run aborts; at most one decrement
      reports zero, it is the last thing that happens to the counter, and from then on no
      reference is held and every call has taken effect, so there will be no other. */
  lemma ZeroIsReportedLast(m: Machine, actions: seq<Action>, count: nat, k: nat)
    requires 1 <= count <= MAX && Disciplined(m, actions, count)
    ensures var s := Run(m, actions, count);
      !s.crashed && (k < |s.events| && ReportsZero(s.events[k]) ==>
        k == |s.events| - 1 && s.count == 0 && Held(s, count) == 0 &&
        forall id :: 0 <= id < |s.calls| ==> s.calls[id].at.Some?)
  {
    var s := Run(m, actions, count);
    RunIsAccounted(m, actions, count);
    RunIsLinearizable(m, actions, count);
    hide Run, Disciplined, GivenBackBy, InHands, MachineInv, Replay;
    if k < |s.events| && ReportsZero(s.events[k]) {
      forall id | 0 <= id < |s.calls| ensures s.calls[id].at.Some? {
        assert CallAgrees(s, id);
        SumsUpdate(s.calls, id, s.calls[id]);
      }
    }
  }

  lemma {:induction false} NoneInHand(calls: seq<Call>)
    requires forall c :: c in calls ==> c.phase.Finished?
    ensures InHands(calls) == 0
  {
    if calls != [] { NoneInHand(calls[..|calls| - 1]); }
  }

  /** In a balanced run, where every call returned and no reference is left, the last decrement
      reports zero unless the counter saturated on the way. */
  lemma BalancedRunReportsZero(m: Machine, actions: seq<Action>, count: nat)
    requires 1 <= count <= MAX && Disciplined(m, actions, count)
    requires var s := Run(m, actions, count);
      Held(s, count) == 0 && (forall c :: c in s.calls ==> c.phase.Finished?)
    ensures var s := Run(m, actions, count);
      s.count == MAX || (s.events != [] && ReportsZero(s.events[|s.events| - 1]))
  {
    var s := Run(m, actions, count);
    RunIsAccounted(m, actions, count);
    NoneInHand(s.calls);
  }

  function CountOf(events: seq<Event>, op: Op): nat {
    if events == [] then 0 else CountOf(events[..|events| - 1], op) + if events[|events| - 1].op == op then 1 else 0
  }

  /** No operation aborts and the counter does not saturate. */
  predicate Plain(events: seq<Event>, count: nat) {
    Replay(events, count).Some? &&
    (forall k :: 0 <= k < |events| ==> !events[k].outcome.Abort?) &&
    (forall k :: 0 <= k <= |events| ==> Replay(events[..k], count) != Some(MAX))
  }

  /** Some increment finds the counter at zero. */
  predicate Revived(events: seq<Event>, count: nat) {
    exists k :: 0 <= k < |events| && events[k].op.Inc? && Replay(events[..k], count) == Some(0)
  }

  predicate ReportedOnceAndLast(events: seq<Event>) {
    events != [] && ReportsZero(events[|events| - 1]) && forall k :: 0 <= k < |events| - 1 ==> !ReportsZero(events[k])
  }

  lemma {:induction false} PlainValue(events: seq<Event>, count: nat)
    requires Plain(events, count)
    ensures Replay(events, count) == Some(count + CountOf(events, Inc) - CountOf(events, Dec))
  {
    if events != [] {
      PlainPrefix(events, count, |events| - 1);
      PlainValue(events[..|events| - 1], count);
      assert events[..|events|] == events;
    }
  }

  lemma {:induction false} PlainPrefix(events: seq<Event>, count: nat, n: nat)
    requires Plain(events, count) && n <= |events|
    ensures Plain(events[..n], count)
    decreases |events|
  {
    if n < |events| {
      var front := events[..|events| - 1];
      forall k | 0 <= k <= |front| ensures Replay(front[..k], count) != Some(MAX) { assert front[..k] == events[..k]; }
      PlainPrefix(front, count, n);
      assert front[..n] == events[..n];
    } else {
      assert events[..n] == events;
    }
  }

  /** One event of a plain run: how it changes the counter. */
  lemma PlainStep(events: seq<Event>, count: nat, k: nat)
    requires Plain(events, count) && k < |events|
    ensures Replay(events[..k], count).Some? && Replay(events[..k + 1], count).Some?
    ensures var before := Replay(events[..k], count).value;
      Replay(events[..k + 1], count).value == (if events[k].op.Inc? then before + 1 else before - 1) &&
      (ReportsZero(events[k]) <==> events[k].op.Dec? && before == 1)
  {
    PlainPrefix(events, count, k + 1);
    assert events[..k + 1][..k] == events[..k];
  }

  /** A balanced run, aborts and saturation aside, reports zero exactly once and last if and only
      if no increment finds the counter at zero. */
  lemma ReportedOnceIff(events: seq<Event>, count: nat)
    requires count >= 1 && Plain(events, count) && count + CountOf(events, Inc) == CountOf(events, Dec)
    ensures ReportedOnceAndLast(events) <==> !Revived(events, count)
  {
    hide Plain, Replay, CountOf;
    PlainValue(events, count);
    var n := |events|;
    assert events[..n] == events;
    assert n > 0 by { EmptyReplay(count); }
    PlainStep(events, count, n - 1);
    assert ReportsZero(events[n - 1]);
    if k :| 0 <= k < n && events[k].op.Inc? && Replay(events[..k], count) == Some(0) {
      assert k > 0 by { EmptyReplay(count); assert events[..0] == []; }
      PlainStep(events, count, k - 1);
      assert ReportsZero(events[k - 1]);
    }
    if k :| 0 <= k < n - 1 && ReportsZero(events[k]) {
      PlainStep(events, count, k);
      PlainStep(events, count, k + 1);
      assert events[k + 1].op.Inc?;
    }
  }

  lemma EmptyReplay(count: nat)
    ensures Replay([], count) == Some(count) && CountOf([], Inc) == CountOf([], Dec) == 0
  {
  }

  /** The same of every run of either machine that leaves the counter at zero. */
  lemma RunReportsOnceIff(m: Machine, actions: seq<Action>, count: nat)
    requires 1 <= count <= MAX && Plain(Run(m, actions, count).events, count) && Run(m, actions, count).count == 0
    ensures var events := Run(m, actions, count).events; ReportedOnceAndLast(events) <==> !Revived(events, count)
  {
    hide Run, Plain, ReportedOnceAndLast, Revived;
    var s := Run(m, actions, count);
    RunIsLinearizable(m, actions, count);
    PlainValue(s.events, count);
    ReportedOnceIff(s.events, count);
  }

  lemma RunNext(m: Machine, actions: seq<Action>, count: nat, a: Action)
    ensures Run(m, actions + [a], count) == Step(m, Run(m, actions, count), a)
  {
    assert (actions + [a])[..|actions|] == actions;
  }

  lemma RunOfNone(m: Machine, count: nat)
    ensures Run(m, [], count) == Initial(count)
  {
  }

  /** A call that nobody disturbs. */
  function Alone(m: Machine, op: Op, id: nat): seq<Action> {
    var a := Act(id, false);
    [Invoke(op), a, a] + if m.C11? then [] else [a, a]
  }

  lemma AloneRuns(m: Machine, actions: seq<Action>, count: nat, op: Op)
    requires var s := Run(m, actions, count); !s.crashed && s.holder.None? && s.count < MAX && (op.Dec? ==> s.count > 0)
    ensures var s := Run(m, actions, count);
      var t := Run(m, actions + Alone(m, op, |s.calls|), count);
      !t.crashed && t.holder.None? && t.count == Next(op, s.count) && |t.calls| == |s.calls| + 1 &&
      t.events == s.events + [Event(|s.calls|, op, Result(op, s.count))]
  {
    hide Run;
    var a := Act(|Run(m, actions, count).calls|, false);
    var two := actions + [Invoke(op)] + [a];
    var three := two + [a];
    RunNext(m, actions, count, Invoke(op));
    RunNext(m, actions + [Invoke(op)], count, a);
    RunNext(m, two, count, a);
    if m.C11? {
      assert three == actions + Alone(m, op, a.id);
    } else {
      RunNext(m, three, count, a);
      RunNext(m, three + [a], count, a);
      assert three + [a] + [a] == actions + Alone(m, op, a.id);
    }
  }

  /** Without that discipline a run can report zero twice: a reference is taken anew after the
      counter reached zero. */
  lemma RevivedCounter(m: Machine)
    ensures var s := Run(m, Alone(m, Dec, 0) + Alone(m, Inc, 1) + Alone(m, Dec, 2), 1);
      s.events == [Event(0, Dec, Done(1)), Event(1, Inc, Done(0)), Event(2, Dec, Done(1))] && s.count == 0
  {
    hide Alone, Run;
    var first := Alone(m, Dec, 0);
    RunOfNone(m, 1);
    AloneRuns(m, [], 1, Dec);
    assert [] + first == first;
    AloneRuns(m, first, 1, Inc);
    AloneRuns(m, first + Alone(m, Inc, 1), 1, Dec);
  }

  // ------------------------------------------------------------------ the loops

  /** What befalls one atomic access: operations of other threads just before it, and, for a weak
      compare-and-swap, whether it fails for no reason. */
  datatype Round = Round(others: seq<Op>, spurious: bool)

  function AfterOthers(others: seq<Op>, count: nat): nat {
    if others == [] then count else Next(others[|others| - 1], AfterOthers(others[..|others| - 1], count))
  }

  function AfterRounds(rounds: seq<Round>, count: nat): nat {
    if rounds == [] then count
    else AfterOthers(rounds[|rounds| - 1].others, AfterRounds(rounds[..|rounds| - 1], count))
  }

  lemma {:induction false} OthersFit(others: seq<Op>, count: nat)
    requires count <= MAX
    ensures AfterOthers(others, count) <= MAX
  {
    if others != [] { OthersFit(others[..|others| - 1], count); }
  }

  /** A counter that other threads use too. The rounds are what they do meanwhile; when there
      are no more, they leave it alone. */
  class Counter {
    var count: nat

    constructor (n: nat)
      requires n <= MAX
      ensures count == n
    {
      count := n;
    }

    /** What other threads do before the next atomic access. */
    method Others(rounds: seq<Round>, done: nat) returns (now: nat, spurious: bool)
      requires count <= MAX && done <= |rounds|
      modifies this
      ensures now == (if done < |rounds| then done + 1 else done) && spurious == (done < |rounds| && rounds[done].spurious)
      ensures count == (if done < |rounds| then AfterOthers(rounds[done].others, old(count)) else old(count)) && count <= MAX
    {
      if done < |rounds| {
        OthersFit(rounds[done].others, count);
        count := AfterOthers(rounds[done].others, count);
        return done + 1, rounds[done].spurious;
      }
      return done, false;
    }

    /** atomic_load. */
    method Load(rounds: seq<Round>, done: nat) returns (now: nat, value: nat)
      requires count <= MAX && done <= |rounds|
      modifies this
      ensures now == (if done < |rounds| then done + 1 else done) && value == count
      ensures count == (if done < |rounds| then AfterOthers(rounds[done].others, old(count)) else old(count)) && count <= MAX
    {
      var spurious;
      now, spurious := Others(rounds, done);
      value := count;
    }

    /** atomic_compare_exchange_weak. */
    method CompareExchangeWeak(expected: nat, desired: nat, rounds: seq<Round>, done: nat) returns (now: nat, swapped: bool, value: nat)
      requires count <= MAX && desired <= MAX && done <= |rounds|
      modifies this
      ensures now == (if done < |rounds| then done + 1 else done)
      ensures var before := if done < |rounds| then AfterOthers(rounds[done].others, old(count)) else old(count);
        swapped == (before == expected && !(done < |rounds| && rounds[done].spurious)) &&
        count == (if swapped then desired else before) && value == before && count <= MAX
    {
      var spurious;
      now, spurious := Others(rounds, done);
      value := count;
      swapped := count == expected && !spurious;
      if swapped { count := desired; }
    }

    /** CRYPTO_refcount_inc of refcount_c11.c: however the others interfere, one increment of the
        atomic counter, at some moment between two of their operations. */
    method Increment(rounds: seq<Round>) returns (used: nat)
      requires count <= MAX
      modifies this
      ensures used <= |rounds| && count == Next(Inc, AfterRounds(rounds[..used], old(count))) && count <= MAX
    {
      hide AfterOthers;
      ghost var start := count;
      var expected;
      RoundsStep(rounds, 0, start);
      used, expected := Load(rounds, 0);
      while expected != MAX
        invariant used <= |rounds| && expected <= MAX && count == expected == AfterRounds(rounds[..used], start)
        decreases |rounds| - used, if used == |rounds| then 0 else 1
      {
        RoundsStep(rounds, used, start);
        var swapped;
        used, swapped, expected := CompareExchangeWeak(expected, expected + 1, rounds, used);
        if swapped { return; }
      }
    }

    /** CRYPTO_refcount_dec_and_test_zero of refcount_c11.c. */
    method DecrementAndTestZero(rounds: seq<Round>) returns (used: nat, outcome: Outcome)
      requires count <= MAX
      modifies this
      ensures used <= |rounds| && count == Next(Dec, AfterRounds(rounds[..used], old(count))) && count <= MAX
      ensures outcome == Result(Dec, AfterRounds(rounds[..used], old(count)))
    {
      hide AfterOthers;
      ghost var start := count;
      var expected;
      RoundsStep(rounds, 0, start);
      used, expected := Load(rounds, 0);
      while true
        invariant used <= |rounds| && expected <= MAX && count == expected == AfterRounds(rounds[..used], start)
        decreases |rounds| - used
      {
        if expected == 0 {
          return used, Abort;
        } else if expected == MAX {
          return used, Done(0);
        } else {
          var newValue := expected - 1;
          var swapped;
          RoundsStep(rounds, used, start);
          used, swapped, expected := CompareExchangeWeak(expected, newValue, rounds, used);
          if swapped { return used, Done(if newValue == 0 then 1 else 0); }
        }
      }
    }

    /** CRYPTO_refcount_inc of refcount_lock.c, inside its lock. */
    method IncrementLocked()
      requires count <= MAX
      modifies this
      ensures count == Next(Inc, old(count)) && count <= MAX
    {
      if count < MAX { count := count + 1; }
    }

    /** CRYPTO_refcount_dec_and_test_zero of refcount_lock.c, inside its lock. */
    method DecrementAndTestZeroLocked() returns (outcome: Outcome)
      requires count <= MAX
      modifies this
      ensures count == Next(Dec, old(count)) && outcome == Result(Dec, old(count))
    {
      if count == 0 { return Abort; }
      if count < MAX { count := count - 1; }
      outcome := Done(if count == 0 then 1 else 0);
    }
  }

  lemma RoundsStep(rounds: seq<Round>, done: nat, start: nat)
    requires done <= |rounds|
    ensures done == 0 ==> AfterRounds(rounds[..done], start) == start
    ensures done < |rounds| ==> AfterRounds(rounds[..done + 1], start) == AfterOthers(rounds[done].others, AfterRounds(rounds[..done], start))
  {
    if done < |rounds| { assert rounds[..done + 1][..done] == rounds[..done]; }
  }
}
