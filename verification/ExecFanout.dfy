/** host/exec_cards.py: the per-card executor fan-out under one wall-clock budget.  Workers run on their own;
    the main thread collects what completes, and when the budget is spent sweeps the rest. */
module ExecFanout {
  type Card = nat
  type Payload = string

  datatype Future = Pending | Running | Done(value: Payload) | Failed(error: string) | Cancelled

  datatype Status = Ok | NotOk(why: Why)

  datatype Why = Raised(error: string) | BudgetExceeded

  /** Collecting yields of `as_completed`; sweeping the i-th task, before its check or between its check and
      the cancel; finished. */
  datatype Phase = Collecting | Check(i: nat) | Cancel(i: nat) | Finished

  /** `tasks` in submission order; `seen` is the ghost record of each future at its sweep check. */
  datatype State = State(tasks: seq<Card>, futures: map<Card, Future>, phase: Phase,
                            completed: map<Card, Payload>, status: map<Card, Status>, seen: map<Card, Future>)

  datatype Step =
    | Start(c: Card)
    | Complete(c: Card, value: Payload)
    | Fail(c: Card, error: string)
    | Yield(c: Card)
    | AllYielded
    | BudgetSpent
    | SweepCheck
    | SweepCancel

  predicate Settled(f: Future) { f.Done? || f.Failed? }

  predicate Enabled(s: State, step: Step) {
    match step
    case Start(c) => c in s.futures && s.futures[c].Pending?
    case Complete(c, _) => c in s.futures && s.futures[c].Running?
    case Fail(c, _) => c in s.futures && s.futures[c].Running?
    case Yield(c) => s.phase.Collecting? && c in s.futures && Settled(s.futures[c]) && c !in s.status
    case AllYielded => s.phase.Collecting? && forall c | c in s.tasks :: c in s.status
    case BudgetSpent => s.phase.Collecting?
    case SweepCheck => s.phase.Check?
    case SweepCancel => s.phase.Cancel?
  }

  /** The result of a settled future is recorded: a payload and ok, or the error. */
  function Record(s: State, c: Card, f: Future): State {
    match f
    case Done(v) => s.(completed := s.completed[c := v], status := s.status[c := Ok])
    case Failed(e) => s.(status := s.status[c := NotOk(Raised(e))])
    case _ => s
  }

  /** One future per task. */
  ghost predicate Submitted(s: State) { forall c :: c in s.futures <==> c in s.tasks }

  function Apply(s: State, step: Step): State
    requires Enabled(s, step) && Submitted(s)
  {
    match step
    case Start(c) => s.(futures := s.futures[c := Running])
    case Complete(c, v) => s.(futures := s.futures[c := Done(v)])
    case Fail(c, e) => s.(futures := s.futures[c := Failed(e)])
    case Yield(c) => Record(s, c, s.futures[c])
    case AllYielded => s.(phase := Check(0))
    case BudgetSpent => s.(phase := Check(0))
    case SweepCheck =>
      var i := s.phase.i;
      if i >= |s.tasks| then s.(phase := Finished)
      else
        var c := s.tasks[i];
        if c in s.status then s.(phase := Check(i + 1))
        else
          var looked := s.(seen := s.seen[c := s.futures[c]]);
          if Settled(s.futures[c]) then Record(looked, c, s.futures[c]).(phase := Check(i + 1))
          else looked.(phase := Cancel(i))
    case SweepCancel =>
      var i := s.phase.i;
      if i >= |s.tasks| then s.(phase := Finished)
      else
        var c := s.tasks[i];
        s.(futures := if s.futures[c].Pending? then s.futures[c := Cancelled] else s.futures,
           status := s.status[c := NotOk(BudgetExceeded)], phase := Check(i + 1))
  }

  ghost predicate Init(s: State) {
    && Submitted(s) && (forall c | c in s.futures :: s.futures[c].Pending?)
    && s.phase == Collecting && s.completed == map[] && s.status == map[] && s.seen == map[]
  }

  /** The task the sweep has reached: every one before it has its status. */
  function Swept(p: Phase): nat {
    match p case Collecting => 0 case Check(i) => i case Cancel(i) => i case Finished => 0
  }

  /** The verdict on one card agrees with its future. */
  predicate Verdict(s: State, c: Card) {
    c in s.status && c in s.futures && match s.status[c]
      case Ok => c in s.completed && s.futures[c] == Done(s.completed[c])
      case NotOk(Raised(e)) => s.futures[c] == Failed(e) && c !in s.completed
      case NotOk(BudgetExceeded) => c in s.seen && !Settled(s.seen[c]) && c !in s.completed
  }

  predicate Unjudged(s: State, c: Card) { c !in s.status && c !in s.completed }

  /** Where the sweep stands. */
  predicate SweepAt(s: State) {
    && Swept(s.phase) <= |s.tasks|
    && (forall i | 0 <= i < Swept(s.phase) :: s.tasks[i] in s.status)
    && (s.phase.Cancel? ==> s.phase.i < |s.tasks| && s.tasks[s.phase.i] !in s.status
                            && s.tasks[s.phase.i] in s.seen && !Settled(s.seen[s.tasks[s.phase.i]]))
    && (s.phase.Finished? ==> forall c | c in s.tasks :: c in s.status)
  }

  ghost predicate Safe(s: State) {
    Submitted(s) && SweepAt(s) && forall c: Card :: Verdict(s, c) || Unjudged(s, c)
  }

  lemma RecordJudges(s: State, d: Card, f: Future, c: Card)
    requires (Verdict(s, c) || Unjudged(s, c)) && d in s.futures && f == s.futures[d] && Settled(f) && d !in s.status
    ensures Verdict(Record(s, d, f), c) || Unjudged(Record(s, d, f), c)
    ensures c in s.status ==> c in Record(s, d, f).status && Record(s, d, f).status[c] == s.status[c]
  {}

  lemma WorkerJudges(s: State, d: Card, f: Future, c: Card)
    requires (Verdict(s, c) || Unjudged(s, c)) && d in s.futures && !Settled(s.futures[d])
    ensures var s' := s.(futures := s.futures[d := f]); Verdict(s', c) || Unjudged(s', c)
  {}

  lemma LookJudges(s: State, d: Card, c: Card)
    requires (Verdict(s, c) || Unjudged(s, c)) && d in s.futures && d !in s.status
    ensures var s' := s.(seen := s.seen[d := s.futures[d]]); Verdict(s', c) || Unjudged(s', c)
  {}

  lemma StepJudges(s: State, step: Step, c: Card)
    requires Safe(s) && Enabled(s, step)
    ensures Verdict(Apply(s, step), c) || Unjudged(Apply(s, step), c)
    ensures c in s.status ==> c in Apply(s, step).status && Apply(s, step).status[c] == s.status[c]
  {
    assert Verdict(s, c) || Unjudged(s, c);
    match step
    case Start(d) => WorkerJudges(s, d, Running, c);
    case Complete(d, v) => WorkerJudges(s, d, Done(v), c);
    case Fail(d, e) => WorkerJudges(s, d, Failed(e), c);
    case Yield(d) => RecordJudges(s, d, s.futures[d], c);
    case SweepCheck => SweepCheckJudges(s, c);
    case SweepCancel => SweepCancelJudges(s, c);
    case _ =>
  }

  lemma SweepCheckJudges(s: State, c: Card)
    requires Safe(s) && s.phase.Check?
    ensures Verdict(Apply(s, SweepCheck), c) || Unjudged(Apply(s, SweepCheck), c)
    ensures c in s.status ==> c in Apply(s, SweepCheck).status && Apply(s, SweepCheck).status[c] == s.status[c]
  {
    assert Verdict(s, c) || Unjudged(s, c);
    if s.phase.i < |s.tasks| && s.tasks[s.phase.i] !in s.status {
      var d := s.tasks[s.phase.i];
      LookJudges(s, d, c);
      if Settled(s.futures[d]) { RecordJudges(s.(seen := s.seen[d := s.futures[d]]), d, s.futures[d], c); }
    }
  }

  lemma SweepCancelJudges(s: State, c: Card)
    requires Safe(s) && s.phase.Cancel?
    ensures Verdict(Apply(s, SweepCancel), c) || Unjudged(Apply(s, SweepCancel), c)
    ensures c in s.status ==> c in Apply(s, SweepCancel).status && Apply(s, SweepCancel).status[c] == s.status[c]
  {
    assert Verdict(s, c) || Unjudged(s, c);
    var d := s.tasks[s.phase.i];
    assert Verdict(s, d) || Unjudged(s, d);
  }

  lemma CheckSweeps(s: State)
    requires Safe(s) && s.phase.Check?
    ensures SweepAt(Apply(s, SweepCheck))
  {
    var s' := Apply(s, SweepCheck);
    if s.phase.i >= |s.tasks| {
      forall c | c in s.tasks ensures c in s.status {
        var i :| 0 <= i < |s.tasks| && s.tasks[i] == c;
      }
    } else {
      forall i | 0 <= i < Swept(s'.phase) ensures s.tasks[i] in s'.status {
        assert i < s.phase.i ==> s.tasks[i] in s.status;
      }
    }
  }

  lemma CancelSweeps(s: State)
    requires Safe(s) && s.phase.Cancel?
    ensures SweepAt(Apply(s, SweepCancel))
  {
    forall i | 0 <= i < s.phase.i + 1 ensures s.tasks[i] in Apply(s, SweepCancel).status {
      assert i < s.phase.i ==> s.tasks[i] in s.status;
    }
  }

  lemma StepSweeps(s: State, step: Step)
    requires Safe(s) && Enabled(s, step)
    ensures SweepAt(Apply(s, step))
  {
    match step
    case SweepCheck => CheckSweeps(s);
    case SweepCancel => CancelSweeps(s);
    case _ =>
  }

  lemma StepSafe(s: State, step: Step)
    requires Safe(s) && Enabled(s, step)
    ensures Safe(Apply(s, step))
  {
    StepSweeps(s, step);
    forall c: Card ensures Verdict(Apply(s, step), c) || Unjudged(Apply(s, step), c) { StepJudges(s, step, c); }
    StepSubmitted(s, step);
  }

  lemma StepSubmitted(s: State, step: Step)
    requires Safe(s) && Enabled(s, step)
    ensures Submitted(Apply(s, step)) && Apply(s, step).tasks == s.tasks
  {}

  /** Workers run on their own: whatever the main thread does, a pending future can start and a running one can end with
      any value or error, and only that future changes. */
  lemma WorkersRunFree(s: State, c: Card, v: Payload, e: string)
    requires Submitted(s) && c in s.tasks
    ensures Enabled(s, Start(c)) <==> s.futures[c] == Pending
    ensures Enabled(s, Complete(c, v)) <==> s.futures[c] == Running
    ensures Enabled(s, Fail(c, e)) <==> s.futures[c] == Running
    ensures s.futures[c] == Pending ==> Apply(s, Start(c)) == s.(futures := s.futures[c := Running])
    ensures s.futures[c] == Running ==>
      Apply(s, Complete(c, v)).futures[c] == Done(v) && Apply(s, Fail(c, e)).futures[c] == Failed(e)
    ensures forall d, step | d in s.futures && d != c && step in {Start(c), Complete(c, v), Fail(c, e)} && Enabled(s, step) ::
      d in Apply(s, step).futures && Apply(s, step).futures[d] == s.futures[d]
  {}

  /** The sweep's cancel takes effect exactly on a card no worker has begun; its verdict stands either way. */
  lemma CancelExactly(s: State)
    requires Submitted(s) && s.phase.Cancel? && s.phase.i < |s.tasks|
    ensures var c, s' := s.tasks[s.phase.i], Apply(s, SweepCancel);
      && c in s'.status && s'.status[c] == NotOk(BudgetExceeded)
      && c in s'.futures && s'.futures[c] == (if s.futures[c] == Pending then Cancelled else s.futures[c])
      && forall d | d in s.futures && d != c :: d in s'.futures && s'.futures[d] == s.futures[d]
  {}

  ghost predicate Run(states: seq<State>, steps: seq<Step>) {
    && |states| == |steps| + 1
    && forall i | 0 <= i < |steps| ::
         Enabled(states[i], steps[i]) && Submitted(states[i])
         && states[i + 1] == Apply(states[i], steps[i])
  }

  lemma {:induction false} EveryRunSafe(states: seq<State>, steps: seq<Step>, k: nat)
    requires Run(states, steps) && Init(states[0]) && k < |states|
    ensures Safe(states[k]) && states[k].tasks == states[0].tasks
  {
    if k > 0 {
      EveryRunSafe(states, steps, k - 1);
      StepSafe(states[k - 1], steps[k - 1]);
      StepSubmitted(states[k - 1], steps[k - 1]);
    }
  }

  /** For every completion order and every moment the budget runs out: at the end each task has one status, a
      payload is there exactly for the ok cards and is that card's own result, and an error is that card's own. */
  lemma OneStatusPerTask(states: seq<State>, steps: seq<Step>, k: nat)
    requires Run(states, steps) && Init(states[0]) && k < |states| && states[k].phase.Finished?
    ensures var s := states[k];
      && (forall c :: c in s.status <==> c in s.tasks)
      && (forall c | c in s.tasks :: c in s.completed <==> s.status[c] == Ok)
      && (forall c | c in s.completed :: c in s.futures && s.futures[c] == Done(s.completed[c]))
      && (forall c | c in s.status && s.status[c].NotOk? && s.status[c].why.Raised? ::
            c in s.futures && s.futures[c] == Failed(s.status[c].why.error))
  {
    EveryRunSafe(states, steps, k);
    var s := states[k];
    forall c ensures c in s.status <==> c in s.tasks { assert Verdict(s, c) || Unjudged(s, c); }
    forall c | c in s.completed ensures Verdict(s, c) { assert Verdict(s, c) || Unjudged(s, c); }
    forall c | c in s.status ensures Verdict(s, c) { assert Verdict(s, c) || Unjudged(s, c); }
  }

  lemma StatusKept(s: State, step: Step, c: Card)
    requires Safe(s) && Enabled(s, step) && c in s.status
    ensures c in Apply(s, step).status && Apply(s, step).status[c] == s.status[c]
  {
    StepJudges(s, step, c);
  }

  /** A verdict is final. */
  lemma {:induction false} StatusFinal(states: seq<State>, steps: seq<Step>, i: nat, j: nat, c: Card)
    requires Run(states, steps) && Init(states[0]) && i <= j < |states| && c in states[i].status
    ensures c in states[j].status && states[j].status[c] == states[i].status[c]
    decreases j
  {
    if i < j {
      StatusFinal(states, steps, i, j - 1, c);
      EveryRunSafe(states, steps, j - 1);
      StatusKept(states[j - 1], steps[j - 1], c);
    }
  }

  /** A future the main thread sees settled, in a yield or at its sweep check, is never reported as budget
      exceeded: its own result or error is. */
  lemma SeenSettledNeverDiscarded(states: seq<State>, steps: seq<Step>, i: nat, k: nat, c: Card)
    requires Run(states, steps) && Init(states[0]) && i < k < |states| && states[k].phase.Finished?
    requires c in states[i].tasks && c in states[i].futures && Settled(states[i].futures[c])
    requires (steps[i].Yield? && steps[i].c == c)
             || (steps[i].SweepCheck? && states[i].phase.i < |states[i].tasks| && states[i].tasks[states[i].phase.i] == c && c !in states[i].status)
    ensures c in states[k].status && states[k].status[c] ==
      match states[i].futures[c] case Done(_) => Ok case Failed(e) => NotOk(Raised(e)) case _ => NotOk(BudgetExceeded)
  {
    EveryRunSafe(states, steps, i);
    EveryRunSafe(states, steps, i + 1);
    StatusFinal(states, steps, i + 1, k, c);
  }

  /** Budget exceeded is said only of a card that was not settled when the sweep looked. */
  lemma BudgetExceededMeansUnsettled(states: seq<State>, steps: seq<Step>, k: nat, c: Card)
    requires Run(states, steps) && Init(states[0]) && k < |states| && c in states[k].status
    requires states[k].status[c] == NotOk(BudgetExceeded)
    ensures c in states[k].seen && !Settled(states[k].seen[c])
  {
    EveryRunSafe(states, steps, k);
    assert Verdict(states[k], c) || Unjudged(states[k], c);
  }

  /** A value that arrives between the sweep's check and its cancel is still discarded, in every run: the
      guarantee is about what the sweep saw. */
  lemma CompletionAfterTheCheckIsLost(states: seq<State>, steps: seq<Step>, v: Payload)
    requires Run(states, steps) && Init(states[0])
    requires var s := states[|steps|]; s.phase.Cancel? && s.phase.i < |s.tasks|
    requires var s := states[|steps|]; s.tasks[s.phase.i] in s.futures && s.futures[s.tasks[s.phase.i]].Running?
    ensures var s := states[|steps|];
      var c := s.tasks[s.phase.i];
      && Enabled(s, Complete(c, v)) && Submitted(s)
      && var s1 := Apply(s, Complete(c, v));
      && Enabled(s1, SweepCancel) && Submitted(s1)
      && var s2 := Apply(s1, SweepCancel);
      && Run(states + [s1, s2], steps + [Complete(c, v), SweepCancel])
      && s2.futures[c] == Done(v) && s2.status[c] == NotOk(BudgetExceeded) && c !in s2.completed
  {
    EveryRunSafe(states, steps, |steps|);
    var s := states[|steps|];
    var c := s.tasks[s.phase.i];
    assert Verdict(s, c) || Unjudged(s, c);
    var s1 := Apply(s, Complete(c, v));
    var all, done := states + [s1, Apply(s1, SweepCancel)], steps + [Complete(c, v), SweepCancel];
    forall i | 0 <= i < |done| ensures Submitted(all[i]) && Enabled(all[i], done[i]) && all[i + 1] == Apply(all[i], done[i]) {
      if i < |steps| { assert all[i] == states[i] && all[i + 1] == states[i + 1]; }
    }
  }

  /** How many steps of its own the main thread still needs once the budget is spent. */
  function Left(s: State): nat {
    match s.phase
    case Collecting => 2 * |s.tasks| + 2
    case Check(i) => if i <= |s.tasks| then 2 * (|s.tasks| - i) + 1 else 1
    case Cancel(i) => if i < |s.tasks| then 2 * (|s.tasks| - i) else 1
    case Finished => 0
  }

  /** The sweep never waits for a worker: from every state short of the end the main thread has a step of its
      own, each such step brings the end nearer, and no worker step pushes it away. */
  lemma SweepNeverWaits(s: State, step: Step)
    requires Safe(s)
    ensures !s.phase.Finished? ==> Enabled(s, BudgetSpent) || Enabled(s, SweepCheck) || Enabled(s, SweepCancel)
    ensures Enabled(s, step) && (step.BudgetSpent? || step.AllYielded? || step.SweepCheck? || step.SweepCancel?) ==>
              Left(Apply(s, step)) < Left(s)
    ensures Enabled(s, step) ==> Left(Apply(s, step)) <= Left(s)
  {}

  // ---------------------------------------------------------------- the two loops

  /** The verdict a future deserves. */
  predicate Agrees(c: Card, f: Future, completed: map<Card, Payload>, status: map<Card, Status>) {
    c in status && match f
      case Done(v) => status[c] == Ok && c in completed && completed[c] == v
      case Failed(e) => status[c] == NotOk(Raised(e)) && c !in completed
      case _ => status[c] == NotOk(BudgetExceeded) && c !in completed
  }

  /** What the collecting and the sweeping loop both do with one card. */
  function Judge(c: Card, f: Future, completed: map<Card, Payload>, status: map<Card, Status>): (map<Card, Payload>, map<Card, Status>) {
    match f
    case Done(v) => (completed[c := v], status[c := Ok])
    case Failed(e) => (completed, status[c := NotOk(Raised(e))])
    case _ => (completed, status[c := NotOk(BudgetExceeded)])
  }

  /** Cards already judged keep their verdict. */
  ghost predicate Grows(completed: map<Card, Payload>, status: map<Card, Status>, completed': map<Card, Payload>, status': map<Card, Status>) {
    && (forall c | c in status :: c in status' && status'[c] == status[c])
    && (forall c | c in status :: (c in completed <==> c in completed') && (c in completed ==> completed'[c] == completed[c]))
  }

  lemma JudgeGrows(c: Card, f: Future, completed: map<Card, Payload>, status: map<Card, Status>)
    requires c !in status && c !in completed
    ensures var (completed', status') := Judge(c, f, completed, status);
      Grows(completed, status, completed', status') && Agrees(c, f, completed', status')
      && status'.Keys == status.Keys + {c} && completed'.Keys <= completed.Keys + {c}
  {}

  /** Collects what `as_completed` yields before it ends or the budget runs out. */
  method CollectYields(given: seq<(Card, Future)>) returns (completed: map<Card, Payload>, status: map<Card, Status>)
    requires forall i | 0 <= i < |given| :: Settled(given[i].1)
    requires forall i, j | 0 <= i < j < |given| :: given[i].0 != given[j].0
    ensures forall i | 0 <= i < |given| :: Agrees(given[i].0, given[i].1, completed, status)
    ensures forall c | c in status :: exists i | 0 <= i < |given| :: given[i].0 == c
    ensures completed.Keys <= status.Keys
  {
    completed, status := map[], map[];
    for n := 0 to |given|
      invariant forall i | 0 <= i < n :: Agrees(given[i].0, given[i].1, completed, status)
      invariant forall c | c in status :: exists i | 0 <= i < n :: given[i].0 == c
      invariant completed.Keys <= status.Keys
    {
      var (c, f) := given[n];
      JudgeGrows(c, f, completed, status);
      if f.Done? {
        completed, status := completed[c := f.value], status[c := Ok];
      } else {
        status := status[c := NotOk(Raised(f.error))];
      }
    }
  }

  /** Sweeps every task without a status; `sight` is each one's future at its check. */
  method Sweep(tasks: seq<Card>, sight: map<Card, Future>, completed0: map<Card, Payload>, status0: map<Card, Status>)
      returns (completed: map<Card, Payload>, status: map<Card, Status>)
    requires completed0.Keys <= status0.Keys && forall c | c in tasks :: c in sight
    ensures Grows(completed0, status0, completed, status) && completed.Keys <= status.Keys
    ensures forall c | c in tasks && c !in status0 :: Agrees(c, sight[c], completed, status)
    ensures forall c :: c in status <==> c in status0 || c in tasks
  {
    completed, status := completed0, status0;
    for n := 0 to |tasks|
      invariant Grows(completed0, status0, completed, status) && completed.Keys <= status.Keys
      invariant forall i | 0 <= i < n && tasks[i] !in status0 :: Agrees(tasks[i], sight[tasks[i]], completed, status)
      invariant forall c :: c in status <==> c in status0 || c in tasks[..n]
    {
      var c := tasks[n];
      if c !in status {
        var f := sight[c];
        JudgeGrows(c, f, completed, status);
        if f.Done? {
          completed, status := completed[c := f.value], status[c := Ok];
        } else if f.Failed? {
          status := status[c := NotOk(Raised(f.error))];
        } else {
          status := status[c := NotOk(BudgetExceeded)];
        }
      }
    }
  }

  /** Both loops: one status per task, what was yielded is judged by its future, the rest by what the sweep saw. */
  method RunCards(tasks: seq<Card>, given: seq<(Card, Future)>, sight: map<Card, Future>)
      returns (completed: map<Card, Payload>, status: map<Card, Status>)
    requires forall i | 0 <= i < |given| :: given[i].0 in tasks && Settled(given[i].1)
    requires forall i, j | 0 <= i < j < |given| :: given[i].0 != given[j].0
    requires forall c | c in tasks :: c in sight
    ensures forall c :: c in status <==> c in tasks
    ensures forall i | 0 <= i < |given| :: Agrees(given[i].0, given[i].1, completed, status)
    ensures forall c | c in tasks && (forall i | 0 <= i < |given| :: given[i].0 != c) :: Agrees(c, sight[c], completed, status)
  {
    var completed0, status0 := CollectYields(given);
    completed, status := Sweep(tasks, sight, completed0, status0);
  }
}
