/** data/neuract_pool.py and data/db_client.py: the two connection pools as one state machine over arbitrary
    interleavings of their threads' steps.  A step is what happens under one hold of the pool lock, or one
    effect outside it. */
module PoolProtocol {
  type Conn = nat
  type Key = string
  type Thread = nat

  /** What a thread is doing, with the connections in its hands. */
  datatype Activity =
    | Resting
    | Connecting(key: Key)
    | Reading(key: Key, c: Conn)
    | Returning(key: Key, c: Conn)
    | Filing(key: Key, c: Conn)
    | Closing(conns: seq<Conn>)

  /** `shut` holds the connections whose `closed` attribute is set, `gone` those the pool has let go of,
      `abandoned` those that were opened but whose session preparation raised, `failed` those a read failed on. */
  datatype State = State(cap: nat, idle: map<Key, seq<Conn>>, threads: map<Thread, Activity>, made: nat,
                         shut: set<Conn>, gone: set<Conn>, abandoned: set<Conn>, failed: set<Conn>)

  datatype Step =
    | Checkout(t: Thread, key: Key, checked: bool)   // neuract drops dead idle connections, the catalog door does not look
    | Connected(t: Thread)
    | ConnectFailed(t: Thread)
    | ConnectAbandoned(t: Thread)                    // connected, but preparing the session raised
    | ReadOk(t: Thread)
    | ReadFailed(t: Thread)
    | ReadFailedRetry(t: Thread)                     // the catalog door closes a failed pooled connection and retries
    | LookShut(t: Thread)                            // checkin reads the `closed` attribute before taking the lock
    | File(t: Thread)
    | CloseOne(t: Thread)
    | Drop(t: Thread, key: Key)
    | Die(c: Conn)                                   // the attribute of any connection may become set at any moment

  function Act(s: State, t: Thread): Activity {
    if t in s.threads then s.threads[t] else Resting
  }

  function IdleList(s: State, key: Key): seq<Conn> {
    if key in s.idle then s.idle[key] else []
  }

  /** The idle list, popped from its end: how many stay when the last live connection is taken. */
  function Kept(list: seq<Conn>, shut: set<Conn>): (n: nat)
    ensures n <= |list|
    ensures n < |list| ==> list[n] !in shut && forall i | n < i < |list| :: list[i] in shut
    ensures n == |list| ==> forall i | 0 <= i < |list| :: list[i] in shut
  {
    KeptFrom(list, shut, |list|)
  }

  function KeptFrom(list: seq<Conn>, shut: set<Conn>, upto: nat): (n: nat)
    requires upto <= |list| && forall i | upto <= i < |list| :: list[i] in shut
    ensures n <= |list|
    ensures n < |list| ==> list[n] !in shut && forall i | n < i < |list| :: list[i] in shut
    ensures n == |list| ==> forall i | 0 <= i < |list| :: list[i] in shut
  {
    if upto == 0 then |list|
    else if list[upto - 1] !in shut then upto - 1
    else KeptFrom(list, shut, upto - 1)
  }

  /** The slot a checkout takes: the last live one, or the last one for the door that does not look; the
      length of the list when there is none. */
  function Taken(list: seq<Conn>, shut: set<Conn>, checked: bool): (n: nat)
    ensures n <= |list|
  {
    if checked then Kept(list, shut) else if list == [] then 0 else |list| - 1
  }

  function Range(list: seq<Conn>, from: nat): set<Conn> {
    set i | from <= i < |list| :: list[i]
  }

  function Hand(a: Activity): seq<Conn> {
    match a
    case Reading(_, c) => [c]
    case Returning(_, c) => [c]
    case Filing(_, c) => [c]
    case Closing(conns) => conns
    case _ => []
  }

  predicate Enabled(s: State, step: Step) {
    match step
    case Checkout(t, _, _) => Act(s, t).Resting?
    case Connected(t) => Act(s, t).Connecting?
    case ConnectFailed(t) => Act(s, t).Connecting?
    case ConnectAbandoned(t) => Act(s, t).Connecting?
    case ReadOk(t) => Act(s, t).Reading?
    case ReadFailed(t) => Act(s, t).Reading?
    case ReadFailedRetry(t) => Act(s, t).Reading?
    case LookShut(t) => Act(s, t).Returning?
    case File(t) => Act(s, t).Filing?
    case CloseOne(t) => Act(s, t).Closing?
    case Drop(t, _) => Act(s, t).Resting?
    case Die(c) => c < s.made
  }

  function Now(s: State, t: Thread, a: Activity): State { s.(threads := s.threads[t := a]) }

  function Apply(s: State, step: Step): State
    requires Enabled(s, step)
  {
    match step
    case Checkout(t, key, checked) =>
      var list := IdleList(s, key);
      var n := Taken(list, s.shut, checked);
      if n < |list| then
        s.(idle := s.idle[key := list[..n]], gone := s.gone + Range(list, n + 1), threads := s.threads[t := Reading(key, list[n])])
      else
        s.(idle := s.idle[key := []], gone := s.gone + Range(list, 0), threads := s.threads[t := Connecting(key)])
    case Connected(t) => Now(s, t, Reading(Act(s, t).key, s.made)).(made := s.made + 1)
    case ConnectFailed(t) => Now(s, t, Resting)
    case ConnectAbandoned(t) => Now(s, t, Resting).(made := s.made + 1, abandoned := s.abandoned + {s.made})
    case ReadOk(t) => Now(s, t, Returning(Act(s, t).key, Act(s, t).c))
    case ReadFailed(t) => Now(s, t, Closing([Act(s, t).c])).(failed := s.failed + {Act(s, t).c})
    case ReadFailedRetry(t) =>
      var c := Act(s, t).c;
      Now(s, t, Connecting(Act(s, t).key)).(failed := s.failed + {c}, gone := s.gone + {c}, shut := s.shut + {c})
    case LookShut(t) =>
      var c := Act(s, t).c;
      if c in s.shut then Now(s, t, Resting).(gone := s.gone + {c}) else Now(s, t, Filing(Act(s, t).key, c))
    case File(t) =>
      var key, c := Act(s, t).key, Act(s, t).c;
      if |IdleList(s, key)| < s.cap then Now(s, t, Resting).(idle := s.idle[key := IdleList(s, key) + [c]])
      else Now(s, t, Closing([c]))
    case CloseOne(t) =>
      var conns := Act(s, t).conns;
      if conns == [] then Now(s, t, Resting)
      else Now(s, t, Closing(conns[1..])).(gone := s.gone + {conns[0]}, shut := s.shut + {conns[0]})
    case Drop(t, key) => Now(s, t, Closing(IdleList(s, key))).(idle := s.idle[key := []])
    case Die(c) => s.(shut := s.shut + {c})
  }

  /** What a checkout takes: the neuract door the last idle connection whose attribute is not set, dropping the ones
      behind it; the catalog door the last one, without looking; either connects when that leaves none. */
  lemma CheckoutTakes(s: State, t: Thread, key: Key, checked: bool)
    requires Act(s, t).Resting?
    ensures var list, s' := IdleList(s, key), Apply(s, Checkout(t, key, checked));
      match Act(s', t)
      case Reading(k, c) =>
        k == key && exists i | 0 <= i < |list| ::
          && list[i] == c && IdleList(s', key) == list[..i]
          && (if checked then c !in s.shut && forall j | i < j < |list| :: list[j] in s.shut else i == |list| - 1)
      case Connecting(k) => k == key && IdleList(s', key) == [] && (forall c | c in list :: checked && c in s.shut)
      case _ => false
  {
    var list := IdleList(s, key);
    var n := Taken(list, s.shut, checked);
    if n < |list| { assert list[n] == Act(Apply(s, Checkout(t, key, checked)), t).c; }
  }

  // ---------------------------------------------------------------- one place per connection

  datatype Place = Slot(key: Key, i: nat) | InHand(t: Thread, i: nat) | Closed | Abandoned

  predicate At(s: State, c: Conn, p: Place) {
    match p
    case Slot(key, i) => i < |IdleList(s, key)| && IdleList(s, key)[i] == c
    case InHand(t, i) => i < |Hand(Act(s, t))| && Hand(Act(s, t))[i] == c
    case Closed => c in s.gone && c in s.shut
    case Abandoned => c in s.abandoned
  }

  ghost predicate Placed(s: State, c: Conn) { exists p :: At(s, c, p) }

  ghost predicate BeingClosed(s: State, c: Conn) { exists t: Thread :: Act(s, t).Closing? && c in Act(s, t).conns }

  /** Every opened connection is in one slot of one idle list, in one thread's hands, closed, or abandoned, and in
      one such place only; the pool lets go of a connection only once it is closed. */
  ghost predicate Conserved(s: State) {
    && (forall c: Conn, p | At(s, c, p) :: c < s.made)
    && (forall c: Conn | c < s.made :: Placed(s, c))
    && (forall c: Conn, p, q | At(s, c, p) && At(s, c, q) :: p == q)
    && s.gone <= s.shut
  }

  /** Conserved, no idle list above the cap, and a connection whose read failed is closed or being closed. */
  ghost predicate Safe(s: State) {
    && Conserved(s)
    && (forall key :: |IdleList(s, key)| <= s.cap)
    && (forall c: Conn | c in s.failed :: c in s.gone || BeingClosed(s, c))
  }

  predicate Init(s: State) {
    1 <= s.cap && s.idle == map[] && s.threads == map[] && s.made == 0 && s.shut == {} && s.gone == {}
    && s.abandoned == {} && s.failed == {}
  }

  lemma InitSafe(s: State)
    requires Init(s)
    ensures Safe(s)
  {}

  /** A step that only moves connections: `back` says where each came from. */
  lemma Moved(s: State, s': State, back: (Conn, Place) -> Place)
    requires Conserved(s) && s'.made == s.made && s'.gone <= s'.shut
    requires forall c: Conn, q | At(s', c, q) :: At(s, c, back(c, q))
    requires forall c: Conn, q1, q2 | At(s', c, q1) && At(s', c, q2) && back(c, q1) == back(c, q2) :: q1 == q2
    requires forall c: Conn, p | At(s, c, p) :: Placed(s', c)
    ensures Conserved(s')
  {
    forall c: Conn | c < s'.made ensures Placed(s', c) {
      assert Placed(s, c);
      var p :| At(s, c, p);
    }
  }

  function IndexFrom(list: seq<Conn>, c: Conn, from: nat): (i: nat)
    ensures c in Range(list, from) ==> from <= i < |list| && list[i] == c
    decreases |list| - from
  {
    if from >= |list| then 0 else if list[from] == c then from else
      assert Range(list, from) == {list[from]} + Range(list, from + 1);
      IndexFrom(list, c, from + 1)
  }

  /** Only thread `t` does something else. */
  ghost predicate OthersKeep(s: State, s': State, t: Thread) {
    forall u: Thread | u != t :: Act(s', u) == Act(s, u)
  }

  /** Nothing is abandoned, and what the pool lets go of is closed. */
  ghost predicate LetsGoClosed(s: State, s': State) {
    s'.abandoned == s.abandoned && s.gone <= s'.gone <= s'.shut
  }

  ghost predicate OtherKeysKeep(s: State, s': State, key: Key) {
    forall k | k != key :: IdleList(s', k) == IdleList(s, k)
  }

  /** One idle list keeps its first `n`, its n-th goes to the thread's hand, the rest is let go. */
  lemma TakeConserves(s: State, s': State, t: Thread, key: Key, n: nat)
    requires Conserved(s) && s'.made == s.made && LetsGoClosed(s, s') && Hand(Act(s, t)) == [] && OthersKeep(s, s', t) && OtherKeysKeep(s, s', key)
    requires n < |IdleList(s, key)| && IdleList(s', key) == IdleList(s, key)[..n]
    requires Hand(Act(s', t)) == [IdleList(s, key)[n]] && s'.gone == s.gone + Range(IdleList(s, key), n + 1)
    ensures Conserved(s')
  {
    var list := IdleList(s, key);
    var back := (c: Conn, q: Place) =>
      if q == InHand(t, 0) then Slot(key, n) else if q == Closed && c !in s.gone then Slot(key, IndexFrom(list, c, n + 1)) else q;
    forall c: Conn, p | At(s, c, p) ensures Placed(s', c) {
      if p == Slot(key, n) { assert At(s', c, InHand(t, 0)); }
      else if p.Slot? && p.key == key && p.i > n { assert At(s', c, Closed); }
      else { assert At(s', c, p); }
    }
    forall c: Conn, q | At(s', c, q) ensures At(s, c, back(c, q)) {
      if q == Closed && c !in s.gone { assert c in Range(list, n + 1); }
    }
    Moved(s, s', back);
  }

  /** One idle list is emptied and let go. */
  lemma EmptyConserves(s: State, s': State, t: Thread, key: Key)
    requires Conserved(s) && s'.made == s.made && LetsGoClosed(s, s') && OthersKeep(s, s', t) && OtherKeysKeep(s, s', key)
    requires Hand(Act(s, t)) == [] && Hand(Act(s', t)) == []
    requires IdleList(s', key) == [] && s'.gone == s.gone + Range(IdleList(s, key), 0)
    ensures Conserved(s')
  {
    var list := IdleList(s, key);
    var back := (c: Conn, q: Place) => if q == Closed && c !in s.gone then Slot(key, IndexFrom(list, c, 0)) else q;
    forall c: Conn, p | At(s, c, p) ensures Placed(s', c) {
      if p.Slot? && p.key == key { assert At(s', c, Closed); } else { assert At(s', c, p); }
    }
    forall c: Conn, q | At(s', c, q) ensures At(s, c, back(c, q)) {
      if q == Closed && c !in s.gone { assert c in Range(list, 0); }
    }
    Moved(s, s', back);
  }

  /** Nothing moves. */
  lemma SameConserves(s: State, s': State, t: Thread)
    requires Conserved(s) && s'.made == s.made && LetsGoClosed(s, s') && OthersKeep(s, s', t) && s'.gone == s.gone
    requires Hand(Act(s', t)) == Hand(Act(s, t)) && forall k :: IdleList(s', k) == IdleList(s, k)
    ensures Conserved(s')
  {
    forall c: Conn, p ensures At(s', c, p) <==> At(s, c, p) {}
    forall c: Conn | c < s'.made ensures Placed(s', c) {
      assert Placed(s, c);
      var p :| At(s, c, p);
      assert At(s', c, p);
    }
  }

  /** A thread lets go of the first connection in its hand. */
  lemma LetGoConserves(s: State, s': State, t: Thread)
    requires Conserved(s) && s'.made == s.made && LetsGoClosed(s, s') && OthersKeep(s, s', t) && forall k :: IdleList(s', k) == IdleList(s, k)
    requires Hand(Act(s, t)) != [] && Hand(Act(s', t)) == Hand(Act(s, t))[1..] && s'.gone == s.gone + {Hand(Act(s, t))[0]}
    ensures Conserved(s')
  {
    var back := (c: Conn, q: Place) =>
      if q.InHand? && q.t == t then InHand(t, q.i + 1) else if q == Closed && c !in s.gone then InHand(t, 0) else q;
    forall c: Conn, p | At(s, c, p) ensures Placed(s', c) {
      if p == InHand(t, 0) { assert At(s', c, Closed); }
      else if p.InHand? && p.t == t { assert At(s', c, InHand(t, p.i - 1)); }
      else { assert At(s', c, p); }
    }
    forall c: Conn, q | At(s', c, q) ensures At(s, c, back(c, q)) {}
    Moved(s, s', back);
  }

  lemma FileConserves(s: State, s': State, t: Thread, key: Key, c: Conn)
    requires Conserved(s) && s'.made == s.made && LetsGoClosed(s, s') && OthersKeep(s, s', t) && OtherKeysKeep(s, s', key)
    requires Hand(Act(s, t)) == [c] && Hand(Act(s', t)) == [] && IdleList(s', key) == IdleList(s, key) + [c] && s'.gone == s.gone
    ensures Conserved(s')
  {
    var end := Slot(key, |IdleList(s, key)|);
    var back := (d: Conn, q: Place) => if q == end then InHand(t, 0) else q;
    forall d: Conn, p | At(s, d, p) ensures Placed(s', d) {
      if p == InHand(t, 0) { assert At(s', d, end); } else { assert At(s', d, p); }
    }
    forall d: Conn, q | At(s', d, q) ensures At(s, d, back(d, q)) {}
    Moved(s, s', back);
  }

  lemma DropConserves(s: State, s': State, t: Thread, key: Key)
    requires Conserved(s) && s'.made == s.made && LetsGoClosed(s, s') && OthersKeep(s, s', t) && OtherKeysKeep(s, s', key)
    requires Hand(Act(s, t)) == [] && Hand(Act(s', t)) == IdleList(s, key) && IdleList(s', key) == [] && s'.gone == s.gone
    ensures Conserved(s')
  {
    var back := (c: Conn, q: Place) => if q.InHand? && q.t == t then Slot(key, q.i) else q;
    forall c: Conn, p | At(s, c, p) ensures Placed(s', c) {
      if p.Slot? && p.key == key { assert At(s', c, InHand(t, p.i)); } else { assert At(s', c, p); }
    }
    forall c: Conn, q | At(s', c, q) ensures At(s, c, back(c, q)) {}
    Moved(s, s', back);
  }

  /** A new connection appears in one place: the thread's hand, or abandoned when preparing it raised. */
  lemma NewConserves(s: State, s': State, t: Thread)
    requires Conserved(s) && s'.made == s.made + 1 && OthersKeep(s, s', t) && Hand(Act(s, t)) == []
    requires s'.gone == s.gone && s'.shut == s.shut && forall k :: IdleList(s', k) == IdleList(s, k)
    requires if Hand(Act(s', t)) == [] then s'.abandoned == s.abandoned + {s.made}
             else Hand(Act(s', t)) == [s.made] && s'.abandoned == s.abandoned
    ensures Conserved(s')
    ensures At(s', s.made, if Hand(Act(s', t)) == [] then Abandoned else InHand(t, 0))
  {
    var place := if Hand(Act(s', t)) == [] then Abandoned else InHand(t, 0);
    assert !At(s, s.made, Abandoned) && !At(s, s.made, Closed);
    assert At(s', s.made, place);
    forall c: Conn, q | At(s', c, q) ensures if c == s.made then q == place else At(s, c, q) {
      assert c == s.made ==> !At(s, c, q);
    }
    forall c: Conn | c < s.made ensures Placed(s', c) {
      assert Placed(s, c);
      var p :| At(s, c, p);
      assert At(s', c, p);
    }
  }

  lemma StepConserves(s: State, step: Step)
    requires Safe(s) && Enabled(s, step)
    ensures Conserved(Apply(s, step))
  {
    var s' := Apply(s, step);
    match step
    case Checkout(t, key, checked) =>
      var list := IdleList(s, key);
      var n := Taken(list, s.shut, checked);
      if n < |list| { TakeConserves(s, s', t, key, n); } else { EmptyConserves(s, s', t, key); }
    case Connected(t) => NewConserves(s, s', t);
    case ConnectAbandoned(t) => NewConserves(s, s', t);
    case Drop(t, key) => DropConserves(s, s', t, key);
    case _ => if LetsGo(step) { LettingGoConserves(s, step); } else { UseConserves(s, step); }
  }

  predicate LetsGo(step: Step) { step.ReadFailedRetry? || step.LookShut? || step.CloseOne? }

  lemma LettingGoConserves(s: State, step: Step)
    requires Safe(s) && Enabled(s, step) && LetsGo(step)
    ensures Conserved(Apply(s, step))
  {
    var s' := Apply(s, step);
    match step
    case ReadFailedRetry(t) => LetGoConserves(s, s', t);
    case LookShut(t) => if Act(s, t).c in s.shut { LetGoConserves(s, s', t); } else { SameConserves(s, s', t); }
    case CloseOne(t) => if Act(s, t).conns == [] { SameConserves(s, s', t); } else { LetGoConserves(s, s', t); }
    case _ =>
  }

  lemma UseConserves(s: State, step: Step)
    requires Safe(s) && Enabled(s, step)
    requires !step.Checkout? && !step.Connected? && !step.ConnectAbandoned? && !step.Drop? && !LetsGo(step)
    ensures Conserved(Apply(s, step))
  {
    var s' := Apply(s, step);
    match step
    case File(t) =>
      if |IdleList(s, Act(s, t).key)| < s.cap { FileConserves(s, s', t, Act(s, t).key, Act(s, t).c); }
      else { SameConserves(s, s', t); }
    case Die(_) => SameConserves(s, s', 0);
    case ConnectFailed(t) => SameConserves(s, s', t);
    case ReadOk(t) => SameConserves(s, s', t);
    case ReadFailed(t) => SameConserves(s, s', t);
    case _ =>
  }

  lemma StepWithinCap(s: State, step: Step, key: Key)
    requires Safe(s) && Enabled(s, step)
    ensures |IdleList(Apply(s, step), key)| <= Apply(s, step).cap
  {
    assert |IdleList(s, key)| <= s.cap;
  }

  /** A connection whose read failed stays on its way out. */
  lemma StepFailedOut(s: State, step: Step, c: Conn)
    requires Safe(s) && Enabled(s, step) && c in Apply(s, step).failed
    ensures c in Apply(s, step).gone || BeingClosed(Apply(s, step), c)
  {
    var s' := Apply(s, step);
    if c !in s'.gone {
      if c in s.failed {
        assert BeingClosed(s, c);
        var t: Thread :| Act(s, t).Closing? && c in Act(s, t).conns;
        assert Act(s', t).Closing? && c in Act(s', t).conns;
      } else {
        assert Act(s', step.t).Closing? && c in Act(s', step.t).conns;
      }
    }
  }

  lemma StepSafe(s: State, step: Step)
    requires Safe(s) && Enabled(s, step)
    ensures Safe(Apply(s, step))
  {
    StepConserves(s, step);
    forall key ensures |IdleList(Apply(s, step), key)| <= Apply(s, step).cap { StepWithinCap(s, step, key); }
    forall c: Conn | c in Apply(s, step).failed ensures c in Apply(s, step).gone || BeingClosed(Apply(s, step), c) {
      StepFailedOut(s, step, c);
    }
  }

  // ---------------------------------------------------------------- whole runs

  predicate Run(states: seq<State>, steps: seq<Step>) {
    && |states| == |steps| + 1
    && forall i | 0 <= i < |steps| :: Enabled(states[i], steps[i]) && states[i + 1] == Apply(states[i], steps[i])
  }

  /** Under every interleaving of every number of threads, every state is safe. */
  lemma {:induction false} EveryRunSafe(states: seq<State>, steps: seq<Step>, n: nat)
    requires Run(states, steps) && Init(states[0]) && n < |states|
    ensures Safe(states[n])
  {
    if n == 0 {
      InitSafe(states[0]);
    } else {
      EveryRunSafe(states, steps, n - 1);
      StepSafe(states[n - 1], steps[n - 1]);
    }
  }

  lemma StepGrows(s: State, step: Step)
    requires Enabled(s, step)
    ensures s.failed <= Apply(s, step).failed && s.gone <= Apply(s, step).gone
  {}

  lemma {:induction false} FailedForever(states: seq<State>, steps: seq<Step>, i: nat, j: nat)
    requires Run(states, steps) && i <= j < |states|
    ensures states[i].failed <= states[j].failed && states[i].gone <= states[j].gone
    decreases j
  {
    if i < j {
      FailedForever(states, steps, i, j - 1);
      StepGrows(states[j - 1], steps[j - 1]);
    }
  }

  /** Once a read failed on a connection, no thread reads on it and no idle list offers it, ever again. */
  lemma FailedNeverHandedOut(states: seq<State>, steps: seq<Step>, i: nat, j: nat, t: Thread)
    requires Run(states, steps) && Init(states[0]) && i < j < |states|
    requires steps[i].ReadFailed? || steps[i].ReadFailedRetry?
    ensures var c := Act(states[i], steps[i].t).c;
      && (Act(states[j], t).Reading? ==> Act(states[j], t).c != c)
      && forall key :: c !in IdleList(states[j], key)
  {
    var c, s := Act(states[i], steps[i].t).c, states[j];
    EveryRunSafe(states, steps, j);
    FailedForever(states, steps, i + 1, j);
    assert c in s.failed;
    FailedElsewhere(s, c);
  }

  /** A failed connection of a safe state is in no slot and in no reader's hand. */
  lemma FailedElsewhere(s: State, c: Conn)
    requires Safe(s) && c in s.failed
    ensures forall key :: c !in IdleList(s, key)
    ensures forall t: Thread | Act(s, t).Reading? :: Act(s, t).c != c
  {
    var where :| At(s, c, where) && (where.Closed? || (where.InHand? && Act(s, where.t).Closing?)) by {
      if c in s.gone {
        assert At(s, c, Closed);
      } else {
        var t: Thread :| Act(s, t).Closing? && c in Act(s, t).conns;
        var i :| 0 <= i < |Act(s, t).conns| && Act(s, t).conns[i] == c;
        assert At(s, c, InHand(t, i));
      }
    }
    forall key ensures c !in IdleList(s, key) {
      assert forall i: nat | i < |IdleList(s, key)| && IdleList(s, key)[i] == c :: At(s, c, Slot(key, i));
    }
    forall t: Thread | Act(s, t).Reading? ensures Act(s, t).c != c {
      assert Act(s, t).c == c ==> At(s, c, InHand(t, 0));
    }
  }

  /** A connection that was let go is never in use again, and a connection in use is held by one thread. */
  lemma OneReaderPerConnection(states: seq<State>, steps: seq<Step>, n: nat, t: Thread, u: Thread)
    requires Run(states, steps) && Init(states[0]) && n < |states|
    requires Act(states[n], t).Reading? && Act(states[n], u).Reading? && Act(states[n], t).c == Act(states[n], u).c
    ensures t == u && Act(states[n], t).c !in states[n].gone
  {
    EveryRunSafe(states, steps, n);
    var c := Act(states[n], t).c;
    assert At(states[n], c, InHand(t, 0)) && At(states[n], c, InHand(u, 0));
    assert c in states[n].gone ==> At(states[n], c, Closed);
  }

  // ---------------------------------------------------------------- the third place is closed, exactly

  /** The `i`-th step opened `c` and then raised while preparing its session. */
  predicate Spoilt(states: seq<State>, steps: seq<Step>, i: nat, c: Conn)
    requires Run(states, steps)
  {
    i < |steps| && steps[i].ConnectAbandoned? && states[i].made == c
  }

  /** Abandoned are exactly the connections whose session preparation raised. */
  lemma {:induction false} AbandonedExactly(states: seq<State>, steps: seq<Step>, n: nat, c: Conn)
    requires Run(states, steps) && Init(states[0]) && n < |states|
    ensures c in states[n].abandoned <==> exists i: nat | i < n :: Spoilt(states, steps, i, c)
  {
    if n > 0 {
      AbandonedExactly(states, steps, n - 1, c);
      var k: nat := n - 1;
      assert states[n] == Apply(states[k], steps[k]);
      assert c in states[n].abandoned <==> c in states[k].abandoned || Spoilt(states, steps, k, c);
    }
  }

  /** Each connection ever opened is in one idle slot, in one hand, or closed by the pool, exactly when preparing its
      session did not raise; when it did, it is in none of these, in every later state. */
  lemma PlacedExactly(states: seq<State>, steps: seq<Step>, n: nat, c: Conn)
    requires Run(states, steps) && Init(states[0]) && n < |states| && c < states[n].made
    ensures (exists p :: At(states[n], c, p) && !p.Abandoned?) <==> !exists i: nat | i < n :: Spoilt(states, steps, i, c)
    ensures forall p, q | At(states[n], c, p) && At(states[n], c, q) :: p == q
  {
    EveryRunSafe(states, steps, n);
    AbandonedExactly(states, steps, n, c);
    assert c in states[n].abandoned <==> At(states[n], c, Abandoned);
    assert Placed(states[n], c);
    var p :| At(states[n], c, p);
  }

  /** Not closed if abandoned, nor before it is opened. */
  predicate Unclosed(s: State, c: Conn) {
    c in s.abandoned || c >= s.made ==> c !in s.shut
  }

  /** A step closes only a connection in a hand, unless the attribute turns up set by itself. */
  lemma StepClosesHeld(s: State, step: Step, c: Conn)
    requires Safe(s) && Enabled(s, step) && step != Die(c) && Unclosed(s, c)
    ensures Unclosed(Apply(s, step), c)
  {
    if c in Apply(s, step).shut && c !in s.shut {
      assert At(s, c, InHand(step.t, 0));
      assert c in s.abandoned ==> At(s, c, Abandoned);
    }
  }

  /** Neither pool ever closes an abandoned connection: as long as its `closed` attribute does not turn up set by
      itself it stays open, outside the pool. */
  lemma {:induction false} AbandonedStaysOpen(states: seq<State>, steps: seq<Step>, n: nat, c: Conn)
    requires Run(states, steps) && Init(states[0]) && n < |states|
    requires forall i | 0 <= i < n :: steps[i] != Die(c)
    ensures c in states[n].abandoned ==> c !in states[n].shut
    ensures Unclosed(states[n], c)
  {
    if n > 0 {
      AbandonedStaysOpen(states, steps, n - 1, c);
      EveryRunSafe(states, steps, n - 1);
      StepClosesHeld(states[n - 1], steps[n - 1], c);
    }
  }

  /** Outside slots and hands, a connection is closed exactly when preparing its session did not raise. */
  lemma ClosedExactly(states: seq<State>, steps: seq<Step>, n: nat, c: Conn)
    requires Run(states, steps) && Init(states[0]) && n < |states| && c < states[n].made
    requires forall i | 0 <= i < n :: steps[i] != Die(c)
    requires forall p | At(states[n], c, p) :: p.Closed? || p.Abandoned?
    ensures c in states[n].shut <==> !exists i: nat | i < n :: Spoilt(states, steps, i, c)
  {
    PlacedExactly(states, steps, n, c);
    AbandonedExactly(states, steps, n, c);
    AbandonedStaysOpen(states, steps, n, c);
  }

  /** The leak, from an empty pool in two steps: a checkout finds nothing idle, the connect succeeds and preparing
      the session raises.  The connection is open, in no slot and in no hand. */
  lemma PreparationLeaks(s: State, t: Thread, key: Key)
    requires Init(s)
    ensures Enabled(s, Checkout(t, key, true)) && Enabled(Apply(s, Checkout(t, key, true)), ConnectAbandoned(t))
    ensures var s2 := Apply(Apply(s, Checkout(t, key, true)), ConnectAbandoned(t));
      s2.made == 1 && 0 !in s2.shut && forall p | At(s2, 0, p) :: p.Abandoned?
  {}
}
