/** llm/client.py, the process-wide admission semaphore: sized once when the operator enables it, held across
    one wire call, and never a reason for a call not to be made. */
module Admission {
  type Thread = nat

  /** The module global: not yet resolved, resolved to disabled, or a bounded semaphore. */
  datatype Sem = Unresolved | Disabled | Sized(n: nat, free: nat)

  /** Threads waiting for a slot, sending under a slot, and sending without one. */
  datatype State = State(sem: Sem, waiting: set<Thread>, holding: set<Thread>, unslotted: set<Thread>)

  datatype Step =
    | Arrive(t: Thread, knob: int)   // resolve the semaphore; the knob is re-read until it is sized
    | Acquire(t: Thread)
    | TimeOut(t: Thread)             // no slot came free in time: send anyway
    | Finish(t: Thread)              // the wire call is over, whatever its outcome

  predicate Idle(s: State, t: Thread) { t !in s.waiting && t !in s.holding && t !in s.unslotted }

  predicate Enabled(s: State, step: Step) {
    match step
    case Arrive(t, _) => Idle(s, t)
    case Acquire(t) => t in s.waiting && s.sem.Sized? && s.sem.free > 0
    case TimeOut(t) => t in s.waiting
    case Finish(t) => t in s.holding || t in s.unslotted
  }

  function Resolve(sem: Sem, knob: int): Sem {
    if sem.Sized? then sem else if knob > 0 then Sized(knob, knob) else Disabled
  }

  function Apply(s: State, step: Step): State
    requires Enabled(s, step)
  {
    match step
    case Arrive(t, knob) =>
      var sem := Resolve(s.sem, knob);
      if sem.Sized? then s.(sem := sem, waiting := s.waiting + {t}) else s.(sem := sem, unslotted := s.unslotted + {t})
    case Acquire(t) =>
      s.(sem := s.sem.(free := s.sem.free - 1), waiting := s.waiting - {t}, holding := s.holding + {t})
    case TimeOut(t) => s.(waiting := s.waiting - {t}, unslotted := s.unslotted + {t})
    case Finish(t) =>
      if t in s.holding && s.sem.Sized? then s.(sem := s.sem.(free := s.sem.free + 1), holding := s.holding - {t})
      else s.(unslotted := s.unslotted - {t})
  }

  /** Slots are conserved: every slot is free or held by exactly one thread. */
  predicate Safe(s: State) {
    && s.waiting !! s.holding && s.waiting !! s.unslotted && s.holding !! s.unslotted
    && match s.sem
       case Sized(n, free) => 0 < n && free + |s.holding| == n
       case _ => s.holding == {} && s.waiting == {}
  }

  predicate Init(s: State) { s == State(Unresolved, {}, {}, {}) }

  lemma StepSafe(s: State, step: Step)
    requires Safe(s) && Enabled(s, step)
    ensures Safe(Apply(s, step))
  {
    match step
    case Finish(t) =>
      if t in s.holding { assert |s.holding - {t}| == |s.holding| - 1; }
    case Acquire(t) => assert |s.holding + {t}| == |s.holding| + 1;
    case _ =>
  }

  predicate Run(states: seq<State>, steps: seq<Step>) {
    && |states| == |steps| + 1
    && forall i | 0 <= i < |steps| :: Enabled(states[i], steps[i]) && states[i + 1] == Apply(states[i], steps[i])
  }

  lemma {:induction false} EveryRunSafe(states: seq<State>, steps: seq<Step>, k: nat)
    requires Run(states, steps) && Init(states[0]) && k < |states|
    ensures Safe(states[k])
  {
    if k > 0 {
      EveryRunSafe(states, steps, k - 1);
      StepSafe(states[k - 1], steps[k - 1]);
    }
  }

  /** Slot holders never exceed the size, a release never overflows the bounded semaphore, and a thread waits
      only for a sized one. */
  lemma HoldersWithinSize(states: seq<State>, steps: seq<Step>, k: nat)
    requires Run(states, steps) && Init(states[0]) && k < |states|
    ensures states[k].sem.Sized? ==> |states[k].holding| <= states[k].sem.n
    ensures k < |steps| && steps[k].Finish? && steps[k].t in states[k].holding ==>
              states[k].sem.Sized? && states[k].sem.free < states[k].sem.n && states[k + 1].sem.free == states[k].sem.free + 1
    ensures states[k].waiting != {} || states[k].holding != {} ==> states[k].sem.Sized?
  {
    EveryRunSafe(states, steps, k);
  }

  /** Once sized, the semaphore keeps its size for the life of the process, whatever the knob reads. */
  lemma {:induction false} SizedForever(states: seq<State>, steps: seq<Step>, i: nat, j: nat)
    requires Run(states, steps) && i <= j < |states| && states[i].sem.Sized?
    ensures states[j].sem.Sized? && states[j].sem.n == states[i].sem.n
    decreases j
  {
    if i < j { SizedForever(states, steps, i, j - 1); }
  }

  /** Back-pressure never blocks a call for good: in every state a waiting thread can give up and send. */
  lemma WaitingCanAlwaysSend(s: State, t: Thread)
    requires Safe(s) && t in s.waiting
    ensures Enabled(s, TimeOut(t)) && t in Apply(s, TimeOut(t)).unslotted
    ensures |Apply(s, TimeOut(t)).holding| == |s.holding| && Apply(s, TimeOut(t)).sem == s.sem
  {}

  /** What arriving decides. A call waits for a slot when the semaphore is sized or the knob now reads a positive
      number, and otherwise sends at once. The semaphore is made by the first such read, with that many slots, all
      free; a knob read as zero or less never unmakes it and never pins it off. */
  lemma ArriveExactly(s: State, t: Thread, knob: int)
    requires t !in s.waiting + s.holding + s.unslotted
    ensures var next := Apply(s, Arrive(t, knob));
            && next.holding == s.holding
            && (if s.sem.Sized? || 0 < knob then next.waiting == s.waiting + {t} && next.unslotted == s.unslotted
                else next.waiting == s.waiting && next.unslotted == s.unslotted + {t})
            && (if s.sem.Sized? then next.sem == s.sem
                else if 0 < knob then next.sem == Sized(knob, knob) else next.sem == Disabled)
  {}

  /** What a slot changes hands for. A waiter gets one exactly while one is free and it is then taken; giving up
      takes none; the end of the wire call gives back the slot it was sent under, and none otherwise. */
  lemma SlotExactly(s: State, t: Thread)
    requires Safe(s)
    ensures Enabled(s, Acquire(t)) <==> t in s.waiting && |s.holding| < s.sem.n
    ensures Enabled(s, Acquire(t)) ==>
      Apply(s, Acquire(t)) == State(Sized(s.sem.n, s.sem.free - 1), s.waiting - {t}, s.holding + {t}, s.unslotted)
    ensures Enabled(s, TimeOut(t)) <==> t in s.waiting
    ensures t in s.waiting ==>
      Apply(s, TimeOut(t)) == State(s.sem, s.waiting - {t}, s.holding, s.unslotted + {t})
    ensures Enabled(s, Finish(t)) <==> t in s.holding + s.unslotted
    ensures t in s.holding ==>
      Apply(s, Finish(t)) == State(Sized(s.sem.n, s.sem.free + 1), s.waiting, s.holding - {t}, s.unslotted)
    ensures t in s.unslotted ==>
      Apply(s, Finish(t)) == State(s.sem, s.waiting, s.holding, s.unslotted - {t})
  {}

  function Below(k: nat): (r: set<Thread>)
    ensures forall t: Thread :: t in r <==> t < k
  {
    if k == 0 then {} else Below(k - 1) + {k - 1}
  }

  /** The cap is reached: for every size some run from the start ends with that many calls sending under slots,
      none free, and every further call waiting until one of them ends or it gives up. */
  lemma {:induction false} CapIsReached(n: nat, k: nat) returns (states: seq<State>, steps: seq<Step>)
    requires 0 < k <= n
    ensures Run(states, steps) && Init(states[0]) && states[0] == State(Unresolved, {}, {}, {})
    ensures states[|steps|] == State(Sized(n, n - k), {}, Below(k), {})
  {
    if k == 1 {
      states, steps := [State(Unresolved, {}, {}, {})], [];
    } else {
      states, steps := CapIsReached(n, k - 1);
    }
    var arrive := Arrive(k - 1, n);
    var waits := State(Sized(n, n - k + 1), {k - 1}, Below(k - 1), {});
    assert Apply(states[|steps|], arrive) == waits;
    states := states + [waits, State(Sized(n, n - k), {}, Below(k), {})];
    steps := steps + [arrive, Acquire(k - 1)];
  }

  /** How many of the first `n` steps take a slot. */
  function Acquired(steps: seq<Step>, n: nat): nat
    requires n <= |steps|
  {
    if n == 0 then 0 else Acquired(steps, n - 1) + if steps[n - 1].Acquire? then 1 else 0
  }

  /** How many of the first `n` steps finish a slot holder's call, which releases once. */
  function Released(states: seq<State>, steps: seq<Step>, n: nat): nat
    requires n <= |steps| <= |states|
  {
    if n == 0 then 0
    else Released(states, steps, n - 1) + if steps[n - 1].Finish? && steps[n - 1].t in states[n - 1].holding then 1 else 0
  }

  lemma HoldingStep(s: State, step: Step)
    requires Safe(s) && Enabled(s, step)
    ensures |Apply(s, step).holding| ==
      if step.Acquire? then |s.holding| + 1 else if step.Finish? && step.t in s.holding then |s.holding| - 1 else |s.holding|
  {}

  /** Along every run the slots out are exactly the slots acquired and not yet released; once nobody holds one,
      acquisitions and releases are equal in number. */
  lemma {:induction false} AcquiredMinusReleased(states: seq<State>, steps: seq<Step>, n: nat)
    requires Run(states, steps) && Init(states[0]) && n <= |steps|
    ensures Acquired(steps, n) == Released(states, steps, n) + |states[n].holding|
  {
    if n > 0 {
      AcquiredMinusReleased(states, steps, n - 1);
      EveryRunSafe(states, steps, n - 1);
      HoldingStep(states[n - 1], steps[n - 1]);
    }
  }
}
