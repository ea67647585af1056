/** layer2/build.py and layer2/emit_failed.py: one card's run against adversarial emits, gates and finalizers,
    any of which may raise. */
module CardRun {
  datatype Outcome<T> = Value(v: T) | Raised

  /** A resolved swap decision; target 0 stands for no target. */
  datatype Swap = Swap(swapped: bool, target: nat, forcedDataless: bool, reject: bool)

  const KEEP := Swap(false, 0, false, false)

  /** What an emission says that the run looks at: its answerability is one of the dataless ones, or not. */
  datatype Raw = Raw(dataless: bool)

  datatype Stage = Llm | EmitStage

  datatype Failure = Failure(stage: Stage, detail: string)

  /** The finalizer's verdict: a failure is present exactly when the card does not conform. */
  datatype Verdict = Conforming | Failing(failure: Failure)

  datatype Retry = NotRetried | Fixed | NotFixed

  datatype Output = Output(card: nat, swap: Swap, verdict: Verdict, retry: Retry, emitFailed: bool)

  datatype Emit = Emit(card: nat, feedback: bool)

  /** The knobs of one run. */
  datatype Config = Config(gateRetry: int, skeleton: bool)

  /** The oracles, each indexed by how often it was asked before. */
  datatype World = World(
    input: nat -> Outcome<bool>, unrenderable: bool, pool: bool, force: Outcome<Swap>,
    emit: nat -> Outcome<Raw>, gate: nat -> Outcome<Swap>, finalize: nat -> Outcome<Verdict>,
    skeleton: Outcome<Verdict>)

  datatype Run = Run(result: Outcome<Output>, emits: seq<Emit>)

  /** The decision moves the slot to another card. */
  predicate MovesFrom(swap: Swap, card: nat) { swap.swapped && swap.target != 0 && swap.target != card }

  /** An infrastructure failure becomes a conforming skeleton; everything else passes through. */
  function Degraded(c: Config, out: Output): Output {
    if c.skeleton && out.verdict.Failing? && out.verdict.failure.stage == Llm then out.(verdict := Conforming, emitFailed := true)
    else out
  }

  function Finalize(w: World, c: Config, card: nat, swap: Swap, emits: seq<Emit>, finals: nat): Run {
    match w.finalize(finals)
    case Raised => Run(Raised, emits)
    case Value(v) =>
      var out := Output(card, swap, v, NotRetried, false);
      if v.Conforming? || c.gateRetry <= 0 || v.failure.stage != EmitStage || v.failure.detail == "" then
        Run(Value(Degraded(c, out)), emits)
      else
        var emits' := emits + [Emit(card, true)];
        if w.emit(|emits|).Raised? then Run(Raised, emits')
        else
          match w.finalize(finals + 1)
          case Raised => Run(Raised, emits')
          case Value(v2) =>
            if v2.Conforming? then Run(Value(Output(card, swap, v2, Fixed, false)), emits')
            else Run(Value(Degraded(c, out.(retry := NotFixed))), emits')
  }

  /** From the settled decision on: the target's own emit, or the kept card's. */
  function Settle(w: World, c: Config, card: nat, swap: Swap, emits: seq<Emit>, inputs: nat): Run {
    if !MovesFrom(swap, card) then Finalize(w, c, card, swap, emits, 0)
    else if w.input(inputs).Raised? then Run(Raised, emits)
    else
      var emits' := emits + [Emit(swap.target, false)];
      match w.emit(|emits|)
      case Raised => Run(Raised, emits')
      case Value(raw) =>
        if swap.forcedDataless && raw.dataless then Finalize(w, c, card, swap.(swapped := false, target := 0), emits', 0)
        else Finalize(w, c, swap.target, swap, emits', 0)
  }

  /** The ordinary path: the card's own emit, the swap gate, one corrective re-emit if the gate left a reason. */
  function Author(w: World, c: Config, card: nat): Run {
    var emits := [Emit(card, false)];
    if w.emit(0).Raised? then Run(Raised, emits)
    else
      match w.gate(0)
      case Raised => Run(Raised, emits)
      case Value(swap) =>
        if !swap.reject || c.gateRetry <= 0 then Settle(w, c, card, swap, emits, 1)
        else
          var emits' := emits + [Emit(card, true)];
          if w.emit(1).Raised? then Run(Raised, emits')
          else
            match w.gate(1)
            case Raised => Run(Raised, emits')
            case Value(again) => Settle(w, c, card, again.(reject := false), emits', 1)
  }

  /** A card known to be unrenderable is decided before any emit. */
  function Inner(w: World, c: Config, card: nat): Run {
    if w.input(0).Raised? then Run(Raised, [])
    else if w.unrenderable && w.pool then
      match w.force
      case Raised => Run(Raised, [])
      case Value(forced) =>
        if !MovesFrom(forced, card) then Author(w, c, card)
        else if w.input(1).Raised? then Run(Raised, [])
        else if w.emit(0).Raised? then Run(Raised, [Emit(forced.target, false)])
        else Finalize(w, c, forced.target, forced, [Emit(forced.target, false)], 0)
    else Author(w, c, card)
  }

  /** With the knob on an exception becomes the kept card's skeleton, unless that cannot be built either. */
  function Whole(w: World, c: Config, card: nat): Run {
    var run := Inner(w, c, card);
    if run.result.Value? || !c.skeleton then run
    else
      match w.skeleton
      case Raised => run
      case Value(v) =>
        var out := Degraded(c, Output(card, KEEP, v, NotRetried, false));
        if out.verdict.Conforming? then Run(Value(out), run.emits) else run
  }

  // ---------------------------------------------------------------- what every run keeps

  /** The emitted card matches the final decision: the target when it moves the slot, else the original; and a
      failure that survives the knob is one of the emit stage. */
  predicate Coherent(c: Config, card: nat, r: Outcome<Output>) {
    r.Value? ==>
      && r.v.card == (if MovesFrom(r.v.swap, card) then r.v.swap.target else card)
      && (c.skeleton && r.v.verdict.Failing? ==> r.v.verdict.failure.stage == EmitStage)
      && (r.v.emitFailed ==> c.skeleton && r.v.verdict.Conforming?)
      && (r.v.retry == Fixed ==> r.v.verdict.Conforming? && !r.v.emitFailed)
      && (r.v.retry != NotRetried ==> c.gateRetry > 0)
  }

  /** Emits for the slot's card and for one target only, the target emitted plainly before any correction; a
      corrective emit needs the knob. */
  predicate EmitsFor(c: Config, card: nat, target: nat, emits: seq<Emit>) {
    && (forall i | 0 <= i < |emits| :: emits[i].card == card || emits[i].card == target)
    && (forall i | 0 <= i < |emits| && emits[i].feedback :: c.gateRetry > 0)
    && (forall i | 0 <= i < |emits| && emits[i] == Emit(target, true) && target != card :: exists j | 0 <= j < i :: emits[j] == Emit(target, false))
  }

  /** What is known of a run's output and emits. */
  ghost predicate Sound(c: Config, card: nat, run: Run) {
    && Coherent(c, card, run.result)
    && exists target :: EmitsFor(c, card, target, run.emits) && (run.result.Value? ==> run.result.v.card == card || run.result.v.card == target)
  }

  lemma FinalizeFacts(w: World, c: Config, home: nat, target: nat, card: nat, swap: Swap, emits: seq<Emit>, finals: nat)
    requires card == if MovesFrom(swap, home) then swap.target else home
    requires EmitsFor(c, home, target, emits) && (card == home || (card == target && Emit(target, false) in emits))
    ensures var run := Finalize(w, c, card, swap, emits, finals);
      Sound(c, home, run) && |run.emits| <= |emits| + (if c.gateRetry > 0 then 1 else 0)
  {
    var run := Finalize(w, c, card, swap, emits, finals);
    assert run.emits == emits || (c.gateRetry > 0 && run.emits == emits + [Emit(card, true)]);
    forall i | 0 <= i < |run.emits| && run.emits[i] == Emit(target, true) && target != home
      ensures exists j | 0 <= j < i :: run.emits[j] == Emit(target, false)
    {
      if i < |emits| { assert emits[i] == Emit(target, true); }
      var j :| 0 <= j < i && j < |emits| && emits[j] == Emit(target, false);
      assert run.emits[j] == emits[j];
    }
    assert EmitsFor(c, home, target, run.emits);
    assert run.result.Value? ==> run.result.v.card == card;
  }

  lemma SettleFacts(w: World, c: Config, card: nat, swap: Swap, emits: seq<Emit>, inputs: nat)
    requires forall i | 0 <= i < |emits| :: emits[i].card == card && (emits[i].feedback ==> c.gateRetry > 0)
    ensures var run := Settle(w, c, card, swap, emits, inputs);
      Sound(c, card, run) && |run.emits| <= |emits| + 1 + (if c.gateRetry > 0 then 1 else 0)
  {
    assert EmitsFor(c, card, card, emits);
    if !MovesFrom(swap, card) {
      FinalizeFacts(w, c, card, card, card, swap, emits, 0);
    } else {
      var emits' := emits + [Emit(swap.target, false)];
      assert EmitsFor(c, card, swap.target, emits');
      assert emits'[|emits|] == Emit(swap.target, false);
      FinalizeFacts(w, c, card, swap.target, card, swap.(swapped := false, target := 0), emits', 0);
      FinalizeFacts(w, c, card, swap.target, swap.target, swap, emits', 0);
    }
  }

  lemma AuthorFacts(w: World, c: Config, card: nat)
    ensures var run := Author(w, c, card);
      Sound(c, card, run) && |run.emits| <= (if c.gateRetry > 0 then 4 else 2)
  {
    var first, second := [Emit(card, false)], [Emit(card, false)] + [Emit(card, true)];
    assert EmitsFor(c, card, card, first) && (c.gateRetry > 0 ==> EmitsFor(c, card, card, second));
    if w.emit(0).Value? && w.gate(0).Value? {
      var swap := w.gate(0).v;
      SettleFacts(w, c, card, swap, first, 1);
      if swap.reject && c.gateRetry > 0 && w.emit(1).Value? && w.gate(1).Value? {
        SettleFacts(w, c, card, w.gate(1).v.(reject := false), second, 1);
      }
    }
  }

  lemma InnerFacts(w: World, c: Config, card: nat)
    ensures Sound(c, card, Inner(w, c, card)) && |Inner(w, c, card).emits| <= (if c.gateRetry > 0 then 4 else 2)
  {
    AuthorFacts(w, c, card);
    assert EmitsFor(c, card, card, []);
    if w.force.Value? && MovesFrom(w.force.v, card) {
      var target, emits := w.force.v.target, [Emit(w.force.v.target, false)];
      assert EmitsFor(c, card, target, emits) && emits[0] == Emit(target, false);
      FinalizeFacts(w, c, card, target, target, w.force.v, emits, 0);
    }
  }

  /** For arbitrary outcomes of every oracle: at most four emits, two without the retry knob, for the slot's
      card or one target; the output's card is the swap target exactly when the final decision moves the slot;
      with the degrade knob on, a non-conforming output has an emit-stage failure. */
  lemma CardRunSound(w: World, c: Config, card: nat)
    ensures Sound(c, card, Whole(w, c, card)) && |Whole(w, c, card).emits| <= (if c.gateRetry > 0 then 4 else 2)
  {
    InnerFacts(w, c, card);
    var run := Inner(w, c, card);
    var target :| EmitsFor(c, card, target, run.emits);
    assert Whole(w, c, card).emits == run.emits;
  }

  /** The finalizer keeps whichever result conforms: the first, else the corrected one where a correction is due,
      else the skeleton of an llm-stage failure; the telemetry says which. */
  lemma KeepsWhicheverConforms(w: World, c: Config, card: nat, swap: Swap, emits: seq<Emit>, finals: nat)
    ensures var run, first := Finalize(w, c, card, swap, emits, finals), w.finalize(finals);
      run.result.Value? ==>
        && first.Value?
        && var due := first.v.Failing? && c.gateRetry > 0 && first.v.failure.stage == EmitStage && first.v.failure.detail != "";
        && var skeleton := c.skeleton && first.v.Failing? && first.v.failure.stage == Llm;
        && run.emits == (if due then emits + [Emit(card, true)] else emits)
        && (due ==> w.finalize(finals + 1).Value?)
        && (run.result.v.verdict.Conforming? <==> first.v.Conforming? || (due && w.finalize(finals + 1).v.Conforming?) || skeleton)
        && (run.result.v.emitFailed <==> skeleton)
        && run.result.v.retry == (if !due then NotRetried else if w.finalize(finals + 1).v.Conforming? then Fixed else NotFixed)
  {}

  /** A corrective re-emit is due on the finalizer's verdict: an emit-stage failure with something to say, and the knob. */
  predicate Due(w: World, c: Config, finals: nat) {
    var first := w.finalize(finals);
    first.Value? && first.v.Failing? && c.gateRetry > 0 && first.v.failure.stage == EmitStage && first.v.failure.detail != ""
  }

  /** The finalizer raises exactly when an oracle it needs does; otherwise it keeps card and decision, and the verdict
      is the corrected one if that conforms, else the first one, made conforming if it is an llm-stage failure and the
      knob is on. */
  lemma FinalizeExactly(w: World, c: Config, card: nat, swap: Swap, emits: seq<Emit>, finals: nat)
    ensures var run, first, second := Finalize(w, c, card, swap, emits, finals), w.finalize(finals), w.finalize(finals + 1);
      && (run.result.Raised? <==> first.Raised? || (Due(w, c, finals) && (w.emit(|emits|).Raised? || second.Raised?)))
      && run.emits == (if Due(w, c, finals) then emits + [Emit(card, true)] else emits)
      && (run.result.Value? ==>
            && run.result.v.card == card && run.result.v.swap == swap
            && run.result.v.verdict ==
                 if Due(w, c, finals) && second.v.Conforming? then Conforming
                 else if c.skeleton && first.v.Failing? && first.v.failure.stage == Llm then Conforming
                 else first.v)
  {}

  /** The card whose emission ships, and the decision that ships with it: an unforced move stands whatever its target
      emits; a forced dataless one stands exactly when its target's emission has data. */
  predicate Reverts(w: World, card: nat, swap: Swap, sent: nat) {
    swap.swapped && swap.target > 0 && swap.target != card && swap.forcedDataless && w.emit(sent).Value? && w.emit(sent).v.dataless
  }

  lemma SettleExactly(w: World, c: Config, card: nat, swap: Swap, emits: seq<Emit>, inputs: nat)
    ensures var run, moves, n := Settle(w, c, card, swap, emits, inputs), swap.swapped && swap.target > 0 && swap.target != card, |emits|;
      var sent := if moves && w.input(inputs).Value? then emits + [Emit(swap.target, false)] else emits;
      var final := if Reverts(w, card, swap, n) then Swap(false, 0, true, swap.reject) else swap;
      var shipped := if moves && !Reverts(w, card, swap, n) then swap.target else card;
      && (moves && (w.input(inputs).Raised? || w.emit(n).Raised?) ==> run == Run(Raised, sent))
      && (!(moves && (w.input(inputs).Raised? || w.emit(n).Raised?)) ==>
            && (run.result.Raised? <==> w.finalize(0).Raised? || (Due(w, c, 0) && (w.emit(|sent|).Raised? || w.finalize(1).Raised?)))
            && run.emits == (if Due(w, c, 0) then sent + [Emit(shipped, true)] else sent)
            && (run.result.Value? ==> run.result.v.swap == final && run.result.v.card == shipped))
  {
    FinalizeExactly(w, c, card, swap, emits, 0);
    if MovesFrom(swap, card) {
      var sent := emits + [Emit(swap.target, false)];
      FinalizeExactly(w, c, card, swap.(swapped := false, target := 0), sent, 0);
      FinalizeExactly(w, c, swap.target, swap, sent, 0);
    }
  }

  /** The criterion gate left a reason and the knob allows one re-emit with it. */
  predicate Regated(w: World, c: Config) {
    w.gate(0).Value? && w.gate(0).v.reject && c.gateRetry > 0
  }

  /** The decision of the ordinary path: the gate's, and after a corrective re-emit the second gate's, whose own reason
      is dropped. */
  lemma AuthorExactly(w: World, c: Config, card: nat)
    ensures var run, again := Author(w, c, card), Regated(w, c);
      && (w.emit(0).Raised? || w.gate(0).Raised? ==> run == Run(Raised, [Emit(card, false)]))
      && (w.emit(0).Value? && again && (w.emit(1).Raised? || w.gate(1).Raised?) ==> run == Run(Raised, [Emit(card, false), Emit(card, true)]))
      && (w.emit(0).Value? && w.gate(0).Value? && !again ==> run == Settle(w, c, card, w.gate(0).v, [Emit(card, false)], 1))
      && (w.emit(0).Value? && again && w.emit(1).Value? && w.gate(1).Value? ==>
            var g := w.gate(1).v;
            run == Settle(w, c, card, Swap(g.swapped, g.target, g.forcedDataless, false), [Emit(card, false), Emit(card, true)], 1))
  {
    assert [Emit(card, false)] + [Emit(card, true)] == [Emit(card, false), Emit(card, true)];
  }

  /** A known-unrenderable card with a replacement is decided by the forced swap alone; every other card is authored. */
  lemma InnerExactly(w: World, c: Config, card: nat)
    ensures var run, forced := Inner(w, c, card), w.unrenderable && w.pool;
      && (w.input(0).Raised? || (forced && w.force.Raised?) ==> run == Run(Raised, []))
      && (w.input(0).Value? && (forced ==> w.force.Value? && !MovesFrom(w.force.v, card)) ==> run == Author(w, c, card))
      && (w.input(0).Value? && forced && w.force.Value? && MovesFrom(w.force.v, card) ==>
            if w.input(1).Raised? then run == Run(Raised, [])
            else
              var target := w.force.v.target;
              && (w.emit(0).Raised? ==> run == Run(Raised, [Emit(target, false)]))
              && (w.emit(0).Value? ==>
                    (run.result.Raised? <==> w.finalize(0).Raised? || (Due(w, c, 0) && (w.emit(1).Raised? || w.finalize(1).Raised?)))
                    && (run.result.Value? ==> run.result.v.card == target && run.result.v.swap == w.force.v)))
  {
    if w.force.Value? { FinalizeExactly(w, c, w.force.v.target, w.force.v, [Emit(w.force.v.target, false)], 0); }
  }

  /** The skeleton step, exactly.  It touches only a run that raised, and only with the knob on; then the exception
      escapes if and only if the skeleton cannot be built or fails outside the llm stage, and otherwise the original
      card ships, kept and conforming, marked as an emit failure exactly when its verdict was an llm-stage failure. */
  lemma SkeletonExactly(w: World, c: Config, card: nat)
    ensures var inner, run := Inner(w, c, card), Whole(w, c, card);
      && run.emits == inner.emits
      && (inner.result.Value? || !c.skeleton ==> run == inner)
      && (inner.result.Raised? && c.skeleton ==>
            && (run.result.Raised? <==> w.skeleton.Raised? || (w.skeleton.v.Failing? && w.skeleton.v.failure.stage != Llm))
            && (run.result.Value? ==>
                  run.result.v == Output(card, Swap(false, 0, false, false), Conforming, NotRetried, w.skeleton.v.Failing?)))
  {}

  /** A swap forced because the card has no data lands on its target exactly when the target's own emission has
      some; otherwise the original card is kept. */
  lemma DatalessSwapReverts(w: World, c: Config, card: nat, swap: Swap, emits: seq<Emit>, inputs: nat)
    requires MovesFrom(swap, card) && swap.forcedDataless
    ensures var run := Settle(w, c, card, swap, emits, inputs);
      run.result.Value? ==>
        w.emit(|emits|).Value? && run.result.v.card == (if w.emit(|emits|).v.dataless then card else swap.target)
  {}

  /** A card known to be unrenderable, with a replacement to move to, is never emitted for. */
  lemma UnrenderableNeverEmitted(w: World, c: Config, card: nat)
    requires w.unrenderable && w.pool && w.force.Value? && MovesFrom(w.force.v, card)
    ensures forall e | e in Inner(w, c, card).emits :: e.card == w.force.v.target
  {
    var emits := [Emit(w.force.v.target, false)];
    KeepsWhicheverConforms(w, c, w.force.v.target, w.force.v, emits, 0);
    assert forall e | e in Finalize(w, c, w.force.v.target, w.force.v, emits, 0).emits :: e in emits || e == Emit(w.force.v.target, true);
  }

  /** The bound is met: a rejected swap, a corrected one to card 9, and a target whose first emission fails its
      gates, cost four emits. */
  lemma FourEmitsHappen()
    ensures exists w: World, c: Config :: |Whole(w, c, 5).emits| == 4 && Whole(w, c, 5).result.Value?
  {
    var w := World((i: nat) => Value(true), false, false, Raised,
      (i: nat) => Value(Raw(false)),
      (i: nat) => Value(if i == 0 then Swap(false, 0, false, true) else Swap(true, 9, false, false)),
      (i: nat) => Value(if i == 0 then Failing(Failure(EmitStage, "issue")) else Conforming),
      Raised);
    var c := Config(1, true);
    assert MovesFrom(w.gate(1).v.(reject := false), 5);
    assert |Settle(w, c, 5, w.gate(1).v.(reject := false), [Emit(5, false), Emit(5, true)], 1).emits| == 4;
    assert |Whole(w, c, 5).emits| == 4;
  }

  // ---------------------------------------------------------------- the run, stepwise

  /** The finished card, whose fields the degrade rewrites in place. */
  class CardOutput {
    var card: nat
    var swap: Swap
    var verdict: Verdict
    var retry: Retry
    var emitFailed: bool
    var answerability: string
    var gap: bool
    var gapCauses: seq<string>

    constructor (card: nat, swap: Swap, verdict: Verdict, answerability: string, gap: bool, gapCauses: seq<string>)
      ensures View() == Output(card, swap, verdict, NotRetried, false)
      ensures this.answerability == answerability && this.gap == gap && this.gapCauses == gapCauses
    {
      this.card, this.swap, this.verdict, this.retry, this.emitFailed := card, swap, verdict, NotRetried, false;
      this.answerability, this.gap, this.gapCauses := answerability, gap, gapCauses;
    }

    ghost function View(): Output
      reads this
    {
      Output(card, swap, verdict, retry, emitFailed)
    }

    /** Rewrites an llm-stage failure into the conforming skeleton: every gap's cause, the verdict, at least
        partial answerability, and no data gap; any other output is untouched. */
    method Degrade(c: Config)
      modifies this
      ensures View() == Degraded(c, old(View()))
      ensures if c.skeleton && old(verdict).Failing? && old(verdict).failure.stage == Llm then
                && answerability == "partial" && !gap
                && gapCauses == seq(|old(gapCauses)|, _ => "emit_failed")
              else unchanged(this)
    {
      if !c.skeleton || verdict.Conforming? || verdict.failure.stage != Llm { return; }
      for i := 0 to |gapCauses|
        invariant |gapCauses| == |old(gapCauses)| && forall j | 0 <= j < i :: gapCauses[j] == "emit_failed"
        invariant View() == old(View())
      {
        gapCauses := gapCauses[i := "emit_failed"];
      }
      verdict, emitFailed := Conforming, true;
      answerability, gap := "partial", false;
    }
  }

  /** The tail of the run: the target's input and emit, the dataless revert, the finalizer. */
  method SettleCard(w: World, c: Config, card: nat, decided: Swap, sent: seq<Emit>, inputs: nat) returns (run: Run)
    ensures run == Settle(w, c, card, decided, sent, inputs)
  {
    var swap, emits := decided, sent;
    if MovesFrom(swap, card) {
      if w.input(inputs).Raised? { return Run(Raised, emits); }
      emits := emits + [Emit(swap.target, false)];
      var reply := w.emit(|sent|);
      if reply.Raised? { return Run(Raised, emits); }
      if !(swap.forcedDataless && reply.v.dataless) {
        return Finalize(w, c, swap.target, swap, emits, 0);
      }
      swap := swap.(swapped := false, target := 0);
    }
    run := Finalize(w, c, card, swap, emits, 0);
  }

  /** The ordinary path, each emission and decision rebinding the last. */
  method AuthorCard(w: World, c: Config, card: nat) returns (run: Run)
    ensures run == Author(w, c, card)
  {
    var emits := [Emit(card, false)];
    if w.emit(0).Raised? || w.gate(0).Raised? { return Run(Raised, emits); }
    var swap := w.gate(0).v;
    if swap.reject && c.gateRetry > 0 {
      emits := emits + [Emit(card, true)];
      if w.emit(1).Raised? || w.gate(1).Raised? { return Run(Raised, emits); }
      swap := w.gate(1).v.(reject := false);
    }
    run := SettleCard(w, c, card, swap, emits, 1);
  }

  method RunCardInner(w: World, c: Config, card: nat) returns (run: Run)
    ensures run == Inner(w, c, card)
  {
    if w.input(0).Raised? { return Run(Raised, []); }
    if w.unrenderable && w.pool {
      if w.force.Raised? { return Run(Raised, []); }
      var forced := w.force.v;
      if MovesFrom(forced, card) {
        if w.input(1).Raised? { return Run(Raised, []); }
        var emits := [Emit(forced.target, false)];
        if w.emit(0).Raised? { return Run(Raised, emits); }
        return Finalize(w, c, forced.target, forced, emits, 0);
      }
    }
    run := AuthorCard(w, c, card);
  }

  /** The wrapper around the run: an exception becomes the kept card's skeleton, or is raised again. */
  method RunCard(w: World, c: Config, card: nat) returns (run: Run)
    ensures run == Whole(w, c, card)
  {
    run := RunCardInner(w, c, card);
    if run.result.Raised? && c.skeleton {
      var built := w.skeleton;
      if built.Raised? { return run; }
      var out := new CardOutput(card, KEEP, built.v, "partial", false, []);
      out.Degrade(c);
      if out.verdict.Conforming? {
        run := Run(Value(Output(out.card, out.swap, out.verdict, out.retry, out.emitFailed)), run.emits);
      }
    }
  }
}
