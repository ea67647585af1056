/** host/multi_asset.py and lib/parallel.py: the per-asset fills may run in threads, in any order, and the
    response must be the one the sequential loop gives. */
module ParallelFill {
  datatype Outcome<T> = Value(v: T) | Raised(e: string)

  // ---------------------------------------------------------------- worker names

  function Digit(d: nat): char
    requires d < 10
  {
    "0123456789"[d]
  }

  /** The decimal writing of a number. */
  function Decimal(n: nat): (s: string)
    ensures s != [] && forall i | 0 <= i < |s| :: s[i] != 'a'
  {
    if n < 10 then [Digit(n)] else Decimal(n / 10) + [Digit(n % 10)]
  }

  function WorkerName(gi: nat, ai: nat): string {
    "g" + Decimal(gi) + "a" + Decimal(ai)
  }

  lemma DigitInjective(d: nat, e: nat)
    requires d < 10 && e < 10 && Digit(d) == Digit(e)
    ensures d == e
  {}

  lemma {:induction false} DecimalInjective(m: nat, n: nat)
    requires Decimal(m) == Decimal(n)
    ensures m == n
    decreases m
  {
    var s, t := Decimal(m), Decimal(n);
    if m >= 10 && n >= 10 {
      assert s[..|s| - 1] == Decimal(m / 10) && t[..|t| - 1] == Decimal(n / 10);
      assert s[|s| - 1] == Digit(m % 10) && t[|t| - 1] == Digit(n % 10);
      DecimalInjective(m / 10, n / 10);
      DigitInjective(m % 10, n % 10);
    } else if m < 10 && n < 10 {
      assert s[0] == Digit(m) && t[0] == Digit(n);
      DigitInjective(m, n);
    }
  }

  function UpToA(s: string): nat {
    if s == [] || s[0] == 'a' then 0 else 1 + UpToA(s[1..])
  }

  lemma {:induction false} UpToSeparator(d: string, rest: string)
    requires forall i | 0 <= i < |d| :: d[i] != 'a'
    ensures UpToA(d + "a" + rest) == |d|
  {
    var s := d + "a" + rest;
    if d != [] {
      UpToSeparator(d[1..], rest);
      assert s[1..] == d[1..] + "a" + rest;
    }
  }

  lemma PartsOf(d1: string, e1: string, d2: string, e2: string)
    requires forall i | 0 <= i < |d1| :: d1[i] != 'a'
    requires forall i | 0 <= i < |d2| :: d2[i] != 'a'
    requires d1 + "a" + e1 == d2 + "a" + e2
    ensures d1 == d2 && e1 == e2
  {
    UpToSeparator(d1, e1);
    UpToSeparator(d2, e2);
    var n := d1 + "a" + e1;
    assert n[..|d1|] == d1 && n[|d1| + 1..] == e1;
    assert (d2 + "a" + e2)[..|d2|] == d2 && (d2 + "a" + e2)[|d2| + 1..] == e2;
  }

  lemma NameAfterG(gi: nat, ai: nat)
    ensures |WorkerName(gi, ai)| > 0 && WorkerName(gi, ai)[0] == 'g'
    ensures WorkerName(gi, ai)[1..] == Decimal(gi) + "a" + Decimal(ai)
  {
    assert WorkerName(gi, ai) == "g" + (Decimal(gi) + "a" + Decimal(ai));
  }

  /** Two fills never share a worker name, and none is called __mode__. */
  lemma WorkerNamesInjective(g1: nat, a1: nat, g2: nat, a2: nat)
    ensures WorkerName(g1, a1) == WorkerName(g2, a2) ==> g1 == g2 && a1 == a2
    ensures WorkerName(g1, a1) != "__mode__"
  {
    NameAfterG(g1, a1);
    NameAfterG(g2, a2);
    if WorkerName(g1, a1) == WorkerName(g2, a2) {
      PartsOf(Decimal(g1), Decimal(a1), Decimal(g2), Decimal(a2));
      DecimalInjective(g1, g2);
      DecimalInjective(a1, a2);
    }
  }

  // ---------------------------------------------------------------- run_parallel

  /** The pool: thunks `started`, `done` with their outcome, and how many of them, in submission order, the
      caller has collected into `out`. */
  datatype Pool<T> = Pool(names: seq<string>, workers: nat, started: set<string>, done: map<string, Outcome<T>>,
                          collected: nat, out: map<string, Outcome<T>>)

  datatype Step = Start(name: string) | Finish(name: string) | Collect

  predicate Enabled<T>(p: Pool<T>, step: Step) {
    match step
    case Start(name) => name in p.names && name !in p.started && |p.started - p.done.Keys| < p.workers
    case Finish(name) => name in p.started && name !in p.done
    case Collect => p.collected < |p.names| && p.names[p.collected] in p.done
  }

  function Apply<T>(p: Pool<T>, step: Step, thunk: string -> Outcome<T>): Pool<T>
    requires Enabled(p, step)
  {
    match step
    case Start(name) => p.(started := p.started + {name})
    case Finish(name) => p.(done := p.done[name := thunk(name)])
    case Collect =>
      var name := p.names[p.collected];
      p.(collected := p.collected + 1, out := p.out[name := p.done[name]])
  }

  ghost predicate PoolSafe<T>(p: Pool<T>, thunk: string -> Outcome<T>) {
    && p.collected <= |p.names| && 1 <= p.workers
    && p.done.Keys <= p.started && (forall name | name in p.started :: name in p.names)
    && |p.started - p.done.Keys| <= p.workers
    && (forall name | name in p.done :: p.done[name] == thunk(name))
    && p.out == map name | name in p.names[..p.collected] :: thunk(name)
  }

  ghost predicate PoolRun<T>(pools: seq<Pool<T>>, steps: seq<Step>, thunk: string -> Outcome<T>) {
    && |pools| == |steps| + 1
    && pools[0] == Pool(pools[0].names, pools[0].workers, {}, map[], 0, map[]) && 1 <= pools[0].workers
    && forall i | 0 <= i < |steps| :: Enabled(pools[i], steps[i]) && pools[i + 1] == Apply(pools[i], steps[i], thunk)
  }

  lemma StartSafe<T>(p: Pool<T>, name: string, thunk: string -> Outcome<T>)
    requires PoolSafe(p, thunk) && Enabled(p, Start(name))
    ensures PoolSafe(Apply(p, Start(name), thunk), thunk)
  {}

  lemma FinishSafe<T>(p: Pool<T>, name: string, thunk: string -> Outcome<T>)
    requires PoolSafe(p, thunk) && Enabled(p, Finish(name))
    ensures PoolSafe(Apply(p, Finish(name), thunk), thunk)
  {}

  lemma CollectSafe<T>(p: Pool<T>, thunk: string -> Outcome<T>)
    requires PoolSafe(p, thunk) && Enabled(p, Collect)
    ensures PoolSafe(Apply(p, Collect, thunk), thunk)
  {}

  lemma PoolStepSafe<T>(p: Pool<T>, step: Step, thunk: string -> Outcome<T>)
    requires PoolSafe(p, thunk) && Enabled(p, step)
    ensures PoolSafe(Apply(p, step, thunk), thunk)
  {
    match step
    case Start(name) => StartSafe(p, name, thunk);
    case Finish(name) => FinishSafe(p, name, thunk);
    case Collect => CollectSafe(p, thunk);
  }

  lemma {:induction false} EveryPoolRunSafe<T>(pools: seq<Pool<T>>, steps: seq<Step>, thunk: string -> Outcome<T>, k: nat)
    requires PoolRun(pools, steps, thunk) && k < |pools|
    ensures PoolSafe(pools[k], thunk) && pools[k].names == pools[0].names && pools[k].workers == pools[0].workers
  {
    if k > 0 {
      EveryPoolRunSafe(pools, steps, thunk, k - 1);
      PoolStepSafe(pools[k - 1], steps[k - 1], thunk);
    }
  }

  /** Every schedule gives the same dictionary: each name's own result or exception. */
  lemma ScheduleIrrelevant<T>(pools: seq<Pool<T>>, steps: seq<Step>, thunk: string -> Outcome<T>, k: nat)
    requires PoolRun(pools, steps, thunk) && k < |pools| && pools[k].collected == |pools[k].names|
    ensures pools[k].out == map name | name in pools[0].names :: thunk(name)
    ensures |pools[k].started - pools[k].done.Keys| <= pools[0].workers
  {
    EveryPoolRunSafe(pools, steps, thunk, k);
    assert pools[k].names[..pools[k].collected] == pools[k].names;
  }

  /** The pool never gets stuck before everything is collected. */
  lemma PoolNeverStuck<T>(p: Pool<T>, thunk: string -> Outcome<T>)
    requires PoolSafe(p, thunk) && p.collected < |p.names|
    ensures exists step :: Enabled(p, step)
  {
    var name := p.names[p.collected];
    var running := p.started - p.done.Keys;
    if name in p.done {
      assert Enabled(p, Collect);
    } else if running != {} {
      var other :| other in running;
      assert Enabled(p, Finish(other));
    } else {
      assert |running| == 0;
      assert Enabled(p, Start(name));
    }
  }

  // ---------------------------------------------------------------- the multi-asset response

  datatype Asset = Asset(id: string, section: string, name: string, kind: string)

  datatype Tag = Tag(id: string, name: string, kind: string)

  datatype Card = Card(payload: string, tag: Tag)

  datatype Pair = Pair(gi: nat, ai: nat, asset: Asset)

  function TagId(a: Asset): string { if a.section != "" then a.id + a.section else a.id }

  function LaneName(a: Asset): string { if a.section != "" then a.name + " " + a.section else a.name }

  function Stamp(cards: seq<Card>, a: Asset): seq<Card> {
    seq(|cards|, i requires 0 <= i < |cards| => cards[i].(tag := Tag(TagId(a), a.name, a.kind)))
  }

  datatype Lanes = Lanes(cards: seq<Card>, named: seq<(string, string)>)

  /** The loop over the pairs in group and asset order: the first exception, or all cards and names so far. */
  function Assemble(pairs: seq<Pair>, fill: Pair -> Outcome<seq<Card>>): Outcome<Lanes> {
    if pairs == [] then Value(Lanes([], []))
    else
      var front, last := Assemble(pairs[..|pairs| - 1], fill), pairs[|pairs| - 1];
      match front
      case Raised(e) => Raised(e)
      case Value(lanes) =>
        match fill(last)
        case Raised(e) => Raised(e)
        case Value(cards) =>
          Value(Lanes(lanes.cards + Stamp(cards, last.asset), lanes.named + [(TagId(last.asset), LaneName(last.asset))]))
  }

  /** What the response is made from: the tagged cards, the names the tokens come from, the compare mode. */
  datatype Response = Response(lanes: Lanes, mode: string)

  /** The sequential loop, then, for at least two assets, the compare mode. */
  function Sequential(pairs: seq<Pair>, fill: Pair -> Outcome<seq<Card>>, mode: Outcome<string>, several: bool): Outcome<Response> {
    match Assemble(pairs, fill)
    case Raised(e) => Raised(e)
    case Value(lanes) =>
      if !several then Value(Response(lanes, "groups"))
      else match mode case Raised(e) => Raised(e) case Value(m) => Value(Response(lanes, m))
  }

  /** A worker's result: cards, or the mode of the one extra thunk. */
  datatype Work = Cards(cards: seq<Card>) | Mode(mode: string)

  /** (group, position) identifies a pair. */
  predicate DistinctPairs(pairs: seq<Pair>) {
    forall i, j | 0 <= i < j < |pairs| :: pairs[i].gi != pairs[j].gi || pairs[i].ai != pairs[j].ai
  }

  function GroupPairs(gi: nat, assets: seq<Asset>): seq<Pair> {
    seq(|assets|, ai requires 0 <= ai < |assets| => Pair(gi, ai, assets[ai]))
  }

  /** Group by group, asset by asset. */
  function PairsOf(groups: seq<seq<Asset>>): seq<Pair> {
    if groups == [] then []
    else PairsOf(groups[..|groups| - 1]) + GroupPairs(|groups| - 1, groups[|groups| - 1])
  }

  /** The enumeration never repeats a pair, so every fill has its own worker name. */
  lemma {:induction false} PairsOfDistinct(groups: seq<seq<Asset>>)
    ensures DistinctPairs(PairsOf(groups)) && forall p | p in PairsOf(groups) :: p.gi < |groups|
    decreases |groups|
  {
    if groups != [] {
      var front := PairsOf(groups[..|groups| - 1]);
      PairsOfDistinct(groups[..|groups| - 1]);
      forall i, j | 0 <= i < j < |PairsOf(groups)|
        ensures PairsOf(groups)[i].gi != PairsOf(groups)[j].gi || PairsOf(groups)[i].ai != PairsOf(groups)[j].ai
      {
        if i < |front| { assert front[i] in front; }
      }
    }
  }

  /** Where the pairs of group `gi` start. */
  function GroupStart(groups: seq<seq<Asset>>, gi: nat): nat
    requires gi <= |groups|
  {
    if gi == 0 then 0 else GroupStart(groups, gi - 1) + |groups[gi - 1]|
  }

  lemma {:induction false} StartOfPrefix(groups: seq<seq<Asset>>, gi: nat)
    requires gi < |groups|
    ensures GroupStart(groups[..|groups| - 1], gi) == GroupStart(groups, gi)
  {
    if gi > 0 { StartOfPrefix(groups, gi - 1); }
  }

  lemma {:induction false} PairsCount(groups: seq<seq<Asset>>)
    ensures |PairsOf(groups)| == GroupStart(groups, |groups|)
    decreases |groups|
  {
    if groups != [] {
      PairsCount(groups[..|groups| - 1]);
      StartOfPrefix(groups, |groups| - 1);
    }
  }

  /** The enumeration exactly: group after group, within a group asset after asset, each pair with its own asset. */
  lemma {:induction false} PairsInOrder(groups: seq<seq<Asset>>, gi: nat, ai: nat)
    requires gi < |groups| && ai < |groups[gi]|
    ensures GroupStart(groups, gi) + ai < |PairsOf(groups)| == GroupStart(groups, |groups|)
    ensures PairsOf(groups)[GroupStart(groups, gi) + ai] == Pair(gi, ai, groups[gi][ai])
    decreases |groups|
  {
    var n := |groups| - 1;
    PairsCount(groups);
    PairsCount(groups[..n]);
    StartOfPrefix(groups, n);
    StartOfPrefix(groups, gi);
    if gi < n { PairsInOrder(groups[..n], gi, ai); }
  }

  /** Two lanes of one asset have different tag ids, and different names, exactly when their sections differ; a lane
      without a section is tagged with its asset's own id and name. */
  lemma LanesApart(a: Asset, b: Asset)
    ensures a.id == b.id ==> (TagId(a) == TagId(b) <==> a.section == b.section)
    ensures a.name == b.name ==> (LaneName(a) == LaneName(b) <==> a.section == b.section)
    ensures a.section == "" ==> TagId(a) == a.id && LaneName(a) == a.name
    ensures TagId(a)[..|a.id|] == a.id && LaneName(a)[..|a.name|] == a.name
  {
    if a.id == b.id && a.section != "" && b.section != "" {
      assert TagId(a)[|a.id|..] == a.section && TagId(b)[|b.id|..] == b.section;
    }
    if a.name == b.name && a.section != "" && b.section != "" {
      assert LaneName(a)[|a.name| + 1..] == a.section && LaneName(b)[|b.name| + 1..] == b.section;
    }
  }

  /** What each thunk computes, by worker name. */
  function Thunks(pairs: seq<Pair>, fill: Pair -> Outcome<seq<Card>>, mode: Outcome<string>, several: bool): map<string, Outcome<Work>> {
    if pairs == [] then
      if several then map["__mode__" := match mode case Value(m) => Value(Mode(m)) case Raised(e) => Raised(e)] else map[]
    else
      var p := pairs[|pairs| - 1];
      Thunks(pairs[..|pairs| - 1], fill, mode, several)[
        WorkerName(p.gi, p.ai) := match fill(p) case Value(cards) => Value(Cards(cards)) case Raised(e) => Raised(e)]
  }

  lemma {:induction false} ThunkOfPair(pairs: seq<Pair>, fill: Pair -> Outcome<seq<Card>>, mode: Outcome<string>, several: bool, i: nat)
    requires DistinctPairs(pairs) && i < |pairs|
    ensures var name := WorkerName(pairs[i].gi, pairs[i].ai); var thunks := Thunks(pairs, fill, mode, several);
      name in thunks && thunks[name] == match fill(pairs[i]) case Value(cards) => Value(Cards(cards)) case Raised(e) => Raised(e)
    decreases |pairs|
  {
    var last := pairs[|pairs| - 1];
    if i < |pairs| - 1 {
      ThunkOfPair(pairs[..|pairs| - 1], fill, mode, several, i);
      WorkerNamesInjective(pairs[i].gi, pairs[i].ai, last.gi, last.ai);
    }
  }

  lemma {:induction false} ModeThunk(pairs: seq<Pair>, fill: Pair -> Outcome<seq<Card>>, mode: Outcome<string>, several: bool)
    ensures "__mode__" in Thunks(pairs, fill, mode, several) <==> several
    ensures several ==> Thunks(pairs, fill, mode, several)["__mode__"] == match mode case Value(m) => Value(Mode(m)) case Raised(e) => Raised(e)
    decreases |pairs|
  {
    if pairs != [] {
      ModeThunk(pairs[..|pairs| - 1], fill, mode, several);
      WorkerNamesInjective(pairs[|pairs| - 1].gi, pairs[|pairs| - 1].ai, 0, 0);
    }
  }

  /** How far a pool is from having collected everything. */
  function Remaining<T>(p: Pool<T>): int {
    3 * |p.names| - |p.started| - |p.done| - p.collected
  }

  lemma SubsetSize<T>(a: set<T>, b: set<T>)
    requires a <= b
    ensures |a| <= |b|
  {
    assert b == a + (b - a) && |b| == |a| + |b - a|;
  }

  lemma {:induction false} NamesBound(names: seq<string>)
    ensures |set name | name in names| <= |names|
  {
    if names != [] {
      var n := |names| - 1;
      NamesBound(names[..n]);
      assert names == names[..n] + [names[n]];
      assert (set name | name in names) == (set name | name in names[..n]) + {names[n]};
    }
  }

  lemma RemainingBounded<T>(p: Pool<T>, thunk: string -> Outcome<T>)
    requires PoolSafe(p, thunk)
    ensures Remaining(p) >= 0
  {
    NamesBound(p.names);
    SubsetSize(p.started, set name | name in p.names);
    SubsetSize(p.done.Keys, p.started);
    assert |p.done| == |p.done.Keys|;
  }

  lemma StepRemains<T>(p: Pool<T>, step: Step, thunk: string -> Outcome<T>)
    requires Enabled(p, step)
    ensures Remaining(Apply(p, step, thunk)) < Remaining(p)
  {
    if step.Finish? {
      var done := Apply(p, step, thunk).done;
      assert done.Keys == p.done.Keys + {step.name} && |done| == |done.Keys| && |p.done| == |p.done.Keys|;
    }
  }

  lemma TurnSafe<T>(p: Pool<T>, step: Step, thunk: string -> Outcome<T>)
    requires PoolSafe(p, thunk) && Enabled(p, step)
    ensures PoolSafe(Apply(p, step, thunk), thunk) && 0 <= Remaining(Apply(p, step, thunk)) < Remaining(p)
    ensures Apply(p, step, thunk).names == p.names
  {
    PoolStepSafe(p, step, thunk);
    StepRemains(p, step, thunk);
    RemainingBounded(Apply(p, step, thunk), thunk);
  }

  /** The step the scheduler asks for when the pool can take it, else some step it can take. */
  method ChooseStep<T>(p: Pool<T>, wanted: Step, ghost thunk: string -> Outcome<T>) returns (step: Step)
    requires PoolSafe(p, thunk) && p.collected < |p.names|
    ensures Enabled(p, step) && (Enabled(p, wanted) ==> step == wanted)
  {
    var name, running := p.names[p.collected], p.started - p.done.Keys;
    if Enabled(p, wanted) {
      step := wanted;
    } else if name in p.done {
      step := Collect;
    } else if running != {} {
      var other :| other in running;
      step := Finish(other);
    } else {
      assert |running| == 0;
      step := Start(name);
    }
  }

  /** The primitive, its pool driven by any scheduler: each thunk's own result or exception, by name. */
  method RunParallel<T>(names: seq<string>, maxWorkers: int, thunk: string -> Outcome<T>, wanted: nat -> Step)
      returns (out: map<string, Outcome<T>>)
    ensures out == map name | name in names :: thunk(name)
  {
    var n: int := |names|;
    var p := Pool(names, if maxWorkers < 1 || n < 1 then 1 else if n < maxWorkers then n else maxWorkers, {}, map[], 0, map[]);
    var turn := 0;
    assert p.out == map name | name in names[..0] :: thunk(name);
    while p.collected < |names|
      invariant PoolSafe(p, thunk) && p.names == names
      decreases Remaining(p)
    {
      var step := ChooseStep(p, wanted(turn), thunk);
      TurnSafe(p, step, thunk);
      p, turn := Apply(p, step, thunk), turn + 1;
    }
    assert names[..p.collected] == names;
    out := p.out;
  }

  /** The thunks by name, in the order they are submitted. */
  function ThunkNames(pairs: seq<Pair>, several: bool): seq<string> {
    if pairs == [] then if several then ["__mode__"] else []
    else ThunkNames(pairs[..|pairs| - 1], several) + [WorkerName(pairs[|pairs| - 1].gi, pairs[|pairs| - 1].ai)]
  }

  lemma {:induction false} ThunksNamed(pairs: seq<Pair>, fill: Pair -> Outcome<seq<Card>>, mode: Outcome<string>, several: bool)
    ensures Thunks(pairs, fill, mode, several).Keys == set name | name in ThunkNames(pairs, several)
    decreases |pairs|
  {
    if pairs != [] { ThunksNamed(pairs[..|pairs| - 1], fill, mode, several); }
  }

  /** All fills, and the mode beside them, in threads: every schedule gives what the thunks compute. */
  method FillParallel(pairs: seq<Pair>, fill: Pair -> Outcome<seq<Card>>, mode: Outcome<string>, several: bool,
                      fillConcurrency: int, wanted: nat -> Step)
      returns (results: map<string, Outcome<Work>>)
    ensures results == Thunks(pairs, fill, mode, several)
  {
    var thunks := Thunks(pairs, fill, mode, several);
    ThunksNamed(pairs, fill, mode, several);
    var run := (name: string) => if name in thunks then thunks[name] else Raised("");
    results := RunParallel(ThunkNames(pairs, several), fillConcurrency + (if several then 1 else 0), run, wanted);
    assert results.Keys == thunks.Keys;
  }

  /** The response builder: threads when the knob asks for them and there is more than one fill, else the loop;
      under every schedule the outcome is the sequential one, cards, names, mode and exception alike. */
  method BuildMulti(pairs: seq<Pair>, fill: Pair -> Outcome<seq<Card>>, mode: Outcome<string>, several: bool,
                    fillConcurrency: int, wanted: nat -> Step)
      returns (r: Outcome<Response>)
    requires DistinctPairs(pairs)
    ensures r == Sequential(pairs, fill, mode, several)
  {
    var results: map<string, Outcome<Work>> := map[];
    var parallel := fillConcurrency > 1 && |pairs| > 1;
    if parallel { results := FillParallel(pairs, fill, mode, several, fillConcurrency, wanted); }
    var lanes := Lanes([], []);
    for i := 0 to |pairs|
      invariant Assemble(pairs[..i], fill) == Value(lanes)
    {
      assert pairs[..i + 1][..i] == pairs[..i];
      ThunkOfPair(pairs, fill, mode, several, i);
      var p := pairs[i];
      var filled := fill(p);
      if parallel {
        var work := results[WorkerName(p.gi, p.ai)];
        filled := match work case Raised(e) => Raised(e) case Value(w) => if w.Cards? then Value(w.cards) else Raised("");
      }
      if filled.Raised? {
        FirstRaise(pairs, fill, i);
        return Raised(filled.e);
      }
      lanes := Lanes(lanes.cards + Stamp(filled.v, p.asset), lanes.named + [(TagId(p.asset), LaneName(p.asset))]);
    }
    assert pairs[..|pairs|] == pairs;
    ModeThunk(pairs, fill, mode, several);
    if !several { return Value(Response(lanes, "groups")); }
    var m := mode;
    if parallel && "__mode__" in results {
      var work := results["__mode__"];
      m := match work case Raised(e) => Raised(e) case Value(w) => if w.Mode? then Value(w.mode) else Raised("");
    }
    match m
    case Raised(e) => r := Raised(e);
    case Value(v) => r := Value(Response(lanes, v));
  }

  lemma {:induction false} FirstRaise(pairs: seq<Pair>, fill: Pair -> Outcome<seq<Card>>, i: nat)
    requires i < |pairs| && Assemble(pairs[..i], fill).Value? && fill(pairs[i]).Raised?
    ensures Assemble(pairs, fill) == Raised(fill(pairs[i]).e)
    decreases |pairs|
  {
    var front := pairs[..|pairs| - 1];
    if i < |pairs| - 1 {
      assert front[..i] == pairs[..i];
      FirstRaise(front, fill, i);
    } else {
      assert front == pairs[..i];
    }
  }

  /** The exception raised is the first in group and asset order; with none, every fill succeeded. */
  lemma {:induction false} FirstInOrder(pairs: seq<Pair>, fill: Pair -> Outcome<seq<Card>>)
    ensures match Assemble(pairs, fill)
      case Raised(e) => exists i | 0 <= i < |pairs| :: fill(pairs[i]) == Raised(e) && forall j | 0 <= j < i :: fill(pairs[j]).Value?
      case Value(_) => forall i | 0 <= i < |pairs| :: fill(pairs[i]).Value?
    decreases |pairs|
  {
    if pairs != [] {
      var front := pairs[..|pairs| - 1];
      FirstInOrder(front, fill);
      if Assemble(front, fill).Raised? {
        var e := Assemble(front, fill).e;
        var i :| 0 <= i < |front| && fill(front[i]) == Raised(e) && forall j | 0 <= j < i :: fill(front[j]).Value?;
        assert fill(pairs[i]) == Raised(e) && forall j | 0 <= j < i :: pairs[j] == front[j];
      }
    }
  }

  /** The sequential outcome: the exception of the first fill that raises; with none, the mode's own where there are
      several assets and it raises; else all lanes, with the chosen mode for several assets and groups otherwise. */
  lemma SequentialExactly(pairs: seq<Pair>, fill: Pair -> Outcome<seq<Card>>, mode: Outcome<string>, several: bool)
    ensures var r := Sequential(pairs, fill, mode, several);
      && (forall i: nat | FirstRaises(pairs, fill, i) :: r == Raised(fill(pairs[i]).e))
      && ((forall i | 0 <= i < |pairs| :: fill(pairs[i]).Value?) ==>
            if several && mode.Raised? then r == Raised(mode.e)
            else r.Value? && r.v.mode == (if several then mode.v else "groups") && Assemble(pairs, fill) == Value(r.v.lanes))
  {
    forall i: nat | FirstRaises(pairs, fill, i) ensures Assemble(pairs, fill) == Raised(fill(pairs[i]).e) {
      FirstInOrder(pairs[..i], fill);
      FirstRaise(pairs, fill, i);
    }
    FirstInOrder(pairs, fill);
  }

  predicate FirstRaises(pairs: seq<Pair>, fill: Pair -> Outcome<seq<Card>>, i: nat) {
    i < |pairs| && fill(pairs[i]).Raised? && forall j | 0 <= j < i :: fill(pairs[j]).Value?
  }

  /** Where the i-th fill's cards start. */
  function Offset(pairs: seq<Pair>, fill: Pair -> Outcome<seq<Card>>, i: nat): nat
    requires i <= |pairs| && forall j | 0 <= j < |pairs| :: fill(pairs[j]).Value?
  {
    if i == 0 then 0 else Offset(pairs, fill, i - 1) + |fill(pairs[i - 1]).v|
  }

  lemma {:induction false} OffsetOfPrefix(pairs: seq<Pair>, fill: Pair -> Outcome<seq<Card>>, i: nat)
    requires i < |pairs| && forall j | 0 <= j < |pairs| :: fill(pairs[j]).Value?
    ensures Offset(pairs[..|pairs| - 1], fill, i) == Offset(pairs, fill, i)
  {
    if i > 0 { OffsetOfPrefix(pairs, fill, i - 1); }
  }

  /** No card is lost, repeated or moved: the k-th card of the i-th fill stands at its place, with its payload
      and its own asset's tag, and the i-th name is the i-th asset's. */
  lemma {:induction false} CardsInOrder(pairs: seq<Pair>, fill: Pair -> Outcome<seq<Card>>, i: nat, k: nat)
    requires forall j | 0 <= j < |pairs| :: fill(pairs[j]).Value?
    requires i < |pairs| && k < |fill(pairs[i]).v|
    ensures Assemble(pairs, fill).Value?
    ensures var lanes, at, a := Assemble(pairs, fill).v, Offset(pairs, fill, i) + k, pairs[i].asset;
      && |lanes.cards| == Offset(pairs, fill, |pairs|) && at < |lanes.cards|
      && lanes.cards[at] == Card(fill(pairs[i]).v[k].payload, Tag(TagId(a), a.name, a.kind))
      && |lanes.named| == |pairs| && lanes.named[i] == (TagId(a), LaneName(a))
    decreases |pairs|
  {
    var front := pairs[..|pairs| - 1];
    AssembleLength(front, fill);
    OffsetOfPrefix(pairs, fill, |pairs| - 1);
    if i < |pairs| - 1 {
      CardsInOrder(front, fill, i, k);
      OffsetOfPrefix(pairs, fill, i);
    }
  }

  lemma {:induction false} AssembleLength(pairs: seq<Pair>, fill: Pair -> Outcome<seq<Card>>)
    requires forall j | 0 <= j < |pairs| :: fill(pairs[j]).Value?
    ensures Assemble(pairs, fill).Value? && |Assemble(pairs, fill).v.cards| == Offset(pairs, fill, |pairs|)
    ensures |Assemble(pairs, fill).v.named| == |pairs|
    decreases |pairs|
  {
    if pairs != [] {
      AssembleLength(pairs[..|pairs| - 1], fill);
      OffsetOfPrefix(pairs, fill, |pairs| - 1);
    }
  }
}
