/** host/display_dash.py: the honest-dash policy rewrites a completed card payload against the card's
    harvested default, the only evidence of what type a null stands for. */
module DisplayDash {
  import opened Json
  import opened JsonPaths

  type Tree = Json<string>
  type Obj = map<string, Tree>

  const DASH: Tree := Str("—")

  /** The key vocabularies, the fallback replacements, and the order in which a dictionary lists its keys. */
  datatype Policy = Policy(unitLike: string -> bool, valueLike: string -> bool, digitLike: string -> bool,
                           noAssert: map<string, string>, order: Obj -> seq<string>)

  predicate Scalar(t: Tree) { t.Num? || t.Str? }

  predicate Blankish(t: Tree) { t.Null? || t == DASH }

  // ---------------------------------------------------------------- the four rewrites of one dictionary

  function RestoreDigits(v: Obj, dch: Tree): Obj {
    map j | j in v :: if Blankish(v[j]) && Child(dch, j).Num? then Child(dch, j) else v[j]
  }

  function ChromeAt(p: Policy, k: string, v: Tree, dch: Tree): Tree {
    if !p.digitLike(k) then v
    else if Blankish(v) && dch.Num? then dch
    else if v.Dict? then Dict(RestoreDigits(v.m, dch))
    else v
  }

  function Chrome(p: Policy, m: Obj, d: Tree): Obj {
    map k | k in m :: ChromeAt(p, k, m[k], Child(d, k))
  }

  /** The default's structure with every scalar nulled and every list emptied. */
  function BlankShape(t: Tree): Tree {
    match t
    case Dict(m) => Dict(map k | k in m :: BlankShape(m[k]))
    case List(_) => List([])
    case _ => Null
  }

  function PrefixLen(a: string, b: string): nat {
    if a == [] || b == [] || a[0] != b[0] then 0 else 1 + PrefixLen(a[1..], b[1..])
  }

  function Max(a: int, b: int): int { if a >= b then a else b }

  /** A dictionary sibling of the same key length and a common prefix of at least four that shares all but at
      most two of the default's keys. */
  predicate Sibling(m: Obj, k: string, k2: string, shape: Obj) {
    && k2 in m && k2 != k && m[k2].Dict? && |k2| == |k| && PrefixLen(k, k2) >= 4
    && shape != map[] && |shape.Keys * m[k2].m.Keys| >= Max(1, |shape.Keys| - 2)
  }

  predicate Fires(m: Obj, d: Tree, k: string) {
    k in m && m[k].Null? && Child(d, k).Dict? && exists k2 | k2 in m :: Sibling(m, k, k2, Child(d, k).m)
  }

  /** Key by key in dictionary order; a rebuilt sibling counts for the keys after it. */
  function Rehydrate(m: Obj, d: Tree, keys: seq<string>): Obj {
    if keys == [] then m
    else
      var m' := Rehydrate(m, d, keys[..|keys| - 1]);
      var k := keys[|keys| - 1];
      if Fires(m', d, k) then m'[k := BlankShape(Child(d, k))] else m'
  }

  function NoAssert(p: Policy, m: Obj): Obj {
    map k | k in m :: if k in p.noAssert && m[k].Str? then Str(p.noAssert[k]) else m[k]
  }

  /** The dictionary with its containers emptied: its keys' order is a fact of this level only. */
  function Outline(m: Obj): Obj {
    map k | k in m :: if m[k].Dict? then Dict(map[]) else if m[k].List? then List([]) else m[k]
  }

  function Prepare(p: Policy, m: Obj, d: Tree): Obj {
    var c := Chrome(p, m, d);
    NoAssert(p, Rehydrate(c, d, p.order(Outline(c))))
  }

  // ---------------------------------------------------------------- the walk

  /** A unit label is a unit-like key that the value or the default proves to be text, or nothing disproves. */
  predicate IsUnitLabel(p: Policy, k: string, v: Tree, dch: Tree) {
    p.unitLike(k) && (v.Str? || (v.Null? && (dch.Str? || dch.Null?)))
  }

  predicate HasUnit(p: Policy, m: Obj, d: Tree) {
    exists k | k in m :: IsUnitLabel(p, k, m[k], Child(d, k))
  }

  predicate Dashes(p: Policy, k: string, dch: Tree, hasUnit: bool) {
    (hasUnit && !IsUnitLabel(p, k, Null, dch) && Scalar(dch)) || (p.valueLike(k) && dch.Num?)
  }

  /** The default a list element is read against: its own, else the first. */
  function Aligned(d: Tree, i: nat): Tree {
    if !d.List? || d.xs == [] then Null
    else if i < |d.xs| then d.xs[i]
    else d.xs[0]
  }

  lemma {:induction false} RehydrateAt(m: Obj, d: Tree, keys: seq<string>, k: string)
    ensures k in Rehydrate(m, d, keys) <==> k in m
    ensures k in m ==> (Rehydrate(m, d, keys)[k] == m[k]
                        || (m[k].Null? && Child(d, k).Dict? && Rehydrate(m, d, keys)[k] == BlankShape(Child(d, k))))
  {
    if keys != [] { RehydrateAt(m, d, keys[..|keys| - 1], k); }
  }

  /** What the three preparatory rewrites can do to one entry. */
  lemma PrepareAt(p: Policy, m: Obj, d: Tree, k: string)
    ensures k in Prepare(p, m, d) <==> k in m
    ensures k in m ==>
      var v, n := ChromeAt(p, k, m[k], Child(d, k)), Prepare(p, m, d)[k];
      n == v || (v.Null? && Child(d, k).Dict? && n == BlankShape(Child(d, k)))
      || (v.Str? && k in p.noAssert && n == Str(p.noAssert[k]))
  {
    var c := Chrome(p, m, d);
    RehydrateAt(c, d, p.order(Outline(c)), k);
  }

  function Walk(p: Policy, node: Tree, d: Tree): Tree
    decreases !d.Null?, d, node
  {
    match node
    case Dict(m) =>
      var n := Prepare(p, m, d);
      var hasUnit := HasUnit(p, n, d);
      Dict(map k | k in n ::
        PrepareAt(p, m, d, k);
        var dch := Child(d, k);
        if p.digitLike(k) then n[k]
        else if n[k].Null? then (if Dashes(p, k, dch, hasUnit) then DASH else n[k])
        else if Container(n[k]) then Walk(p, n[k], dch)
        else n[k])
    case List(xs) =>
      List(seq(|xs|, i requires 0 <= i < |xs| => if Container(xs[i]) then Walk(p, xs[i], Aligned(d, i)) else xs[i]))
    case _ => node
  }

  function Apply(p: Policy, enabled: bool, payload: Tree, default: Tree): Tree {
    if enabled && payload.Dict? then Walk(p, payload, if default.Dict? then default else Null) else payload
  }

  // ---------------------------------------------------------------- nothing is invented, nothing measured is lost

  /** The default a path's value is read against: key by key, and in a list the element of the same position, the
      first one where the default has fewer, none where it has none. */
  function DefaultAt(d: Tree, path: seq<Step>): Tree
    decreases |path|
  {
    if path == [] then d
    else
      match path[0]
      case Name(k) => DefaultAt(Child(d, k), path[1..])
      case Index(i) =>
        DefaultAt(if d.List? && i < |d.xs| then d.xs[i] else if d.List? && 0 < |d.xs| then d.xs[0] else Null, path[1..])
  }

  predicate DigitStep(p: Policy, s: Step) { s.Name? && p.digitLike(s.k) }

  /** The path ends at a digit key, or one key below it (the dictionary form). */
  predicate DigitPath(p: Policy, path: seq<Step>) {
    (|path| >= 1 && DigitStep(p, path[|path| - 1])) || (|path| >= 2 && DigitStep(p, path[|path| - 2]) && path[|path| - 1].Name?)
  }

  predicate FallbackPath(p: Policy, path: seq<Step>) {
    path != [] && path[|path| - 1].Name? && path[|path| - 1].k in p.noAssert
  }

  /** Where a value of the finished payload comes from: the value that was there, the honest dash over a null
      whose default is a scalar, the default's own number at a blank digit slot, or the configured fallback
      over a text. */
  predicate Traced(p: Policy, was: Tree, default: Tree, path: seq<Step>, x: Tree) {
    || x == was
    || (x == DASH && was.Null? && Scalar(default))
    || (x.Num? && x == default && Blankish(was) && DigitPath(p, path))
    || (was.Str? && FallbackPath(p, path) && x == Str(p.noAssert[path[|path| - 1].k]))
  }

  lemma {:induction false} BlankReadsBlank(t: Tree, path: seq<Step>)
    ensures Read(BlankShape(t), path).Null? || Container(Read(BlankShape(t), path))
    decreases |path|
  {
    NullReadsNull(if path == [] then path else path[1..]);
    if path != [] && path[0].Name? { BlankReadsBlank(Child(t, path[0].k), path[1..]); }
  }

  lemma WalkEntry(p: Policy, m: Obj, d: Tree, k: string)
    requires k in m
    ensures var n, dch := Prepare(p, m, d), Child(d, k);
      && k in n && Walk(p, Dict(m), d).Dict? && k in Walk(p, Dict(m), d).m
      && Walk(p, Dict(m), d).m[k] ==
        if !p.digitLike(k) && n[k].Null? && Dashes(p, k, dch, HasUnit(p, n, d)) then DASH
        else if !p.digitLike(k) && Container(n[k]) then Walk(p, n[k], dch)
        else n[k]
  {
    PrepareAt(p, m, d, k);
  }

  lemma TracedBelow(p: Policy, was: Tree, default: Tree, s: Step, rest: seq<Step>, x: Tree)
    requires rest != [] && Traced(p, was, default, rest, x)
    ensures Traced(p, was, default, [s] + rest, x)
  {}

  predicate Leafy(t: Tree) { Scalar(t) || t.Bool? }

  lemma NumberReads(t: Tree, path: seq<Step>)
    requires !Container(t)
    ensures Read(t, path) == if path == [] then t else Null
  {
    if path != [] { NullReadsNull(path[1..]); }
  }

  lemma StepDown(t: Tree, path: seq<Step>)
    requires path != [] && path[0].Name?
    ensures Read(t, path) == Read(Child(t, path[0].k), path[1..])
    ensures DefaultAt(t, path) == DefaultAt(Child(t, path[0].k), path[1..])
  {}

  /** One key below a digit key: a blank slot takes the default's own number, any other value is read as before. */
  lemma DigitEntryTraced(p: Policy, k: string, v: Obj, dch: Tree, rest: seq<Step>)
    requires p.digitLike(k) && rest != [] && rest[0].Name? && Leafy(Read(Dict(RestoreDigits(v, dch)), rest))
    ensures Traced(p, Read(Dict(v), rest), DefaultAt(dch, rest), [Name(k)] + rest, Read(Dict(RestoreDigits(v, dch)), rest))
  {
    var j, now := rest[0].k, Dict(RestoreDigits(v, dch));
    StepDown(Dict(v), rest);
    StepDown(now, rest);
    StepDown(dch, rest);
    if j in v && Blankish(v[j]) && Child(dch, j).Num? {
      assert Child(now, j) == Child(dch, j);
      NumberReads(Child(dch, j), rest[1..]);
      assert rest[1..] == [];
      assert ([Name(k)] + rest)[0] == Name(k) && |[Name(k)] + rest| == 2;
    } else {
      assert Child(now, j) == Child(Dict(v), j);
    }
  }

  /** Below a digit key only blank slots one step down change, to the default's own number. */
  lemma DigitTraced(p: Policy, k: string, v: Tree, dch: Tree, rest: seq<Step>)
    requires p.digitLike(k) && Leafy(Read(ChromeAt(p, k, v, dch), rest))
    ensures Traced(p, Read(v, rest), DefaultAt(dch, rest), [Name(k)] + rest, Read(ChromeAt(p, k, v, dch), rest))
  {
    var now := ChromeAt(p, k, v, dch);
    if now == v || rest == [] {
    } else if Blankish(v) {
      NumberReads(now, rest);
    } else if rest[0].Name? {
      DigitEntryTraced(p, k, v.m, dch, rest);
    } else {
      NullReadsNull(rest[1..]);
    }
  }

  /** Every number, text and boolean of the finished payload is traced to the payload, the default or the
      policy. */
  lemma {:induction false} Provenance(p: Policy, a: Tree, d: Tree, path: seq<Step>)
    requires Leafy(Read(Walk(p, a, d), path))
    ensures Traced(p, Read(a, path), DefaultAt(d, path), path, Read(Walk(p, a, d), path))
    decreases |path|, 0
  {
    if path != [] {
      var rest := path[1..];
      assert path == [path[0]] + rest;
      NullReadsNull(rest);
      if path[0].Name? && a.Dict? && path[0].k in a.m {
        WalkEntry(p, a.m, d, path[0].k);
        ProvenanceKey(p, a.m, d, path[0].k, rest);
      } else if path[0].Index? && a.List? && path[0].i < |a.xs| {
        var el, dref := a.xs[path[0].i], Aligned(d, path[0].i);
        if Container(el) {
          ContainerStays(p, el, dref);
          Provenance(p, el, dref, rest);
          TracedBelow(p, Read(el, rest), DefaultAt(dref, rest), path[0], rest, Read(Walk(p, a, d), path));
        }
      } else {
        if Container(a) { ContainerStays(p, a, d); }
      }
    }
  }

  lemma ContainerStays(p: Policy, t: Tree, d: Tree)
    requires Container(t)
    ensures t.Dict? ==> Walk(p, t, d).Dict? && Walk(p, t, d).m.Keys == t.m.Keys
    ensures t.List? ==> Walk(p, t, d).List? && |Walk(p, t, d).xs| == |t.xs|
  {
    if t.Dict? {
      forall k ensures k in Prepare(p, t.m, d) <==> k in t.m { PrepareAt(p, t.m, d, k); }
    }
  }

  /** What the preparatory rewrites made of a value. */
  predicate Prepared(p: Policy, k: string, was: Tree, dch: Tree, n: Tree) {
    var v := ChromeAt(p, k, was, dch);
    n == v || (v.Null? && dch.Dict? && n == BlankShape(dch)) || (v.Str? && k in p.noAssert && n == Str(p.noAssert[k]))
  }

  /** An entry the walk does not enter. */
  lemma EntryTraced(p: Policy, k: string, was: Tree, dch: Tree, n: Tree, e: Tree, rest: seq<Step>)
    requires Prepared(p, k, was, dch, n) && (p.digitLike(k) || !Container(n)) && Leafy(Read(e, rest))
    requires e == n || (!p.digitLike(k) && n.Null? && e == DASH && Scalar(dch))
    ensures Traced(p, Read(was, rest), DefaultAt(dch, rest), [Name(k)] + rest, Read(e, rest))
  {
    if e == ChromeAt(p, k, was, dch) && p.digitLike(k) {
      DigitTraced(p, k, was, dch, rest);
    } else if Container(e) {
      BlankReadsBlank(dch, rest);
    } else {
      NumberReads(e, rest);
    }
  }

  /** An entry the walk enters: traced below, where a rebuilt shape has nothing to give. */
  lemma BelowTraced(p: Policy, k: string, was: Tree, dch: Tree, n: Tree, rest: seq<Step>, x: Tree)
    requires Prepared(p, k, was, dch, n) && !p.digitLike(k) && Container(n) && rest != [] && Leafy(x)
    requires Traced(p, Read(n, rest), DefaultAt(dch, rest), rest, x)
    ensures Traced(p, Read(was, rest), DefaultAt(dch, rest), [Name(k)] + rest, x)
  {
    if n != was {
      BlankReadsBlank(dch, rest);
      NullReadsNull(rest);
    }
    TracedBelow(p, Read(was, rest), DefaultAt(dch, rest), Name(k), rest, x);
  }

  lemma {:induction false} ProvenanceKey(p: Policy, m: Obj, d: Tree, k: string, rest: seq<Step>)
    requires k in m && Walk(p, Dict(m), d).Dict? && k in Walk(p, Dict(m), d).m && Leafy(Read(Walk(p, Dict(m), d).m[k], rest))
    ensures Traced(p, Read(m[k], rest), DefaultAt(Child(d, k), rest), [Name(k)] + rest, Read(Walk(p, Dict(m), d).m[k], rest))
    decreases |rest|, 1
  {
    WalkEntry(p, m, d, k);
    PrepareAt(p, m, d, k);
    var n, dch, e := Prepare(p, m, d)[k], Child(d, k), Walk(p, Dict(m), d).m[k];
    if !p.digitLike(k) && Container(n) {
      ContainerStays(p, n, dch);
      Provenance(p, n, dch, rest);
      BelowTraced(p, k, m[k], dch, n, rest, Read(e, rest));
    } else {
      EntryTraced(p, k, m[k], dch, n, e, rest);
    }
  }

  predicate Measured(t: Tree) { t.Num? || t.Bool? }

  /** Every number and boolean of the payload is still there afterwards. */
  lemma {:induction false} MeasurementsKept(p: Policy, a: Tree, d: Tree, path: seq<Step>)
    requires Measured(Read(a, path))
    ensures Read(Walk(p, a, d), path) == Read(a, path)
    decreases |path|
  {
    if path != [] {
      var rest := path[1..];
      NullReadsNull(rest);
      if path[0].Name? {
        var k, dch := path[0].k, Child(d, path[0].k);
        var v := a.m[k];
        WalkEntry(p, a.m, d, k);
        PrepareAt(p, a.m, d, k);
        if !Container(v) { NumberReads(v, rest); }
        else if p.digitLike(k) { DigitKept(p, k, v, dch, rest); }
        else { MeasurementsKept(p, v, dch, rest); }
      } else {
        var el := a.xs[path[0].i];
        if Container(el) { MeasurementsKept(p, el, Aligned(d, path[0].i), rest); }
      }
    }
  }

  lemma DigitKept(p: Policy, k: string, v: Tree, dch: Tree, rest: seq<Step>)
    requires p.digitLike(k) && Container(v) && Measured(Read(v, rest))
    ensures Read(ChromeAt(p, k, v, dch), rest) == Read(v, rest)
  {}

  /** The served payload: every number and boolean of the completed payload is kept, a null becomes text only
      as the dash over a scalar default or a number only as the default's own digit count, and a payload that
      is not a dictionary, or a disabled policy, changes nothing. */
  lemma ApplyIsConservative(p: Policy, enabled: bool, payload: Tree, default: Tree, path: seq<Step>)
    ensures var was, now := Read(payload, path), Read(Apply(p, enabled, payload, default), path);
      && (Measured(was) ==> now == was)
      && (was.Null? && Scalar(now) ==>
            default.Dict? && ((now == DASH && Scalar(DefaultAt(default, path)))
                              || (now.Num? && now == DefaultAt(default, path) && DigitPath(p, path))))
      && (!enabled || !payload.Dict? ==> now == was)
  {
    if enabled && payload.Dict? {
      var d := if default.Dict? then default else Null;
      if Measured(Read(payload, path)) { MeasurementsKept(p, payload, d, path); }
      if Leafy(Read(Walk(p, payload, d), path)) { Provenance(p, payload, d, path); }
      NoDefaultBelowNull(path);
    }
  }

  lemma {:induction false} NoDefaultBelowNull(path: seq<Step>)
    ensures DefaultAt(Null, path) == Null
  {
    if path != [] { NoDefaultBelowNull(path[1..]); }
  }

  /** A null entry whose default is a scalar survives the preparatory rewrites as null. */
  lemma NullPrepared(p: Policy, m: Obj, d: Tree, k: string)
    requires k in m && m[k].Null? && !p.digitLike(k) && Scalar(Child(d, k))
    ensures k in Prepare(p, m, d) && Prepare(p, m, d)[k].Null?
  {
    PrepareAt(p, m, d, k);
  }

  /** A text stays text through them, outside the digit keys. */
  lemma TextPrepared(p: Policy, m: Obj, d: Tree, k: string)
    requires k in m && m[k].Str? && !p.digitLike(k)
    ensures k in Prepare(p, m, d) && Prepare(p, m, d)[k].Str?
  {
    PrepareAt(p, m, d, k);
  }

  /** `u` is a unit label by its own text. */
  predicate TextUnit(p: Policy, m: Obj, u: string) {
    u in m && p.unitLike(u) && m[u].Str? && !p.digitLike(u)
  }

  /** No display slot is served as null: a unit-suffixed key with a numeric default, and any other key with a
      scalar default beside a text unit label, is dashed; a blank digit key has the default's number again. */
  lemma DisplaySlotsFilled(p: Policy, m: Obj, d: Tree, k: string, u: string)
    requires k in m && k !in p.noAssert
    ensures var dch := Child(d, k);
      var w := Walk(p, Dict(m), d);
      && w.Dict? && k in w.m
      && (m[k].Null? && !p.digitLike(k) && p.valueLike(k) && dch.Num? ==> w.m[k] == DASH)
      && (m[k].Null? && !p.digitLike(k) && Scalar(dch) && !p.unitLike(k) && TextUnit(p, m, u) ==> w.m[k] == DASH)
      && (Blankish(m[k]) && p.digitLike(k) && dch.Num? ==> w.m[k] == dch)
  {
    WalkEntry(p, m, d, k);
    PrepareAt(p, m, d, k);
    if m[k].Null? && !p.digitLike(k) && Scalar(Child(d, k)) { NullPrepared(p, m, d, k); }
    if u in m && m[u].Str? && !p.digitLike(u) { TextPrepared(p, m, d, u); }
  }

  // ---------------------------------------------------------------- applying the policy twice

  /** No null object slot of the payload has a sibling it would be rebuilt from. */
  predicate Quiet(p: Policy, a: Tree, d: Tree)
    decreases a
  {
    match a
    case Dict(m) =>
      && (forall k | k in m :: !Fires(Chrome(p, m, d), d, k))
      && (forall k | k in m && !p.digitLike(k) && Container(m[k]) :: Quiet(p, m[k], Child(d, k)))
    case List(xs) => forall i | 0 <= i < |xs| && Container(xs[i]) :: Quiet(p, xs[i], Aligned(d, i))
    case _ => true
  }

  lemma {:induction false} QuietRehydrate(m: Obj, d: Tree, keys: seq<string>)
    requires forall k | k in m :: !Fires(m, d, k)
    ensures Rehydrate(m, d, keys) == m
  {
    if keys != [] { QuietRehydrate(m, d, keys[..|keys| - 1]); }
  }

  /** No unit-like key is also a unit-suffixed value key, and a fallback is the dash itself, unless its key is
      a digit key (then it must not be the dash) or can never be dashed. */
  ghost predicate Tame(p: Policy) {
    && (forall k :: p.unitLike(k) && p.valueLike(k) ==> p.digitLike(k))
    && (forall k | k in p.noAssert :: TameFallback(p, k))
  }

  ghost predicate TameFallback(p: Policy, k: string)
    requires k in p.noAssert
  {
    if p.digitLike(k) then Str(p.noAssert[k]) != DASH
    else Str(p.noAssert[k]) == DASH || (!p.valueLike(k) && forall u :: p.unitLike(u) ==> u == k)
  }

  /** What a quiet dictionary looks like before the walk reaches its children. */
  lemma QuietPrepare(p: Policy, m: Obj, d: Tree)
    requires forall k | k in m :: !Fires(Chrome(p, m, d), d, k)
    ensures Prepare(p, m, d) == Ready(p, m, d)
  {
    var c := Chrome(p, m, d);
    forall k | k in c ensures !Fires(c, d, k) {}
    QuietRehydrate(c, d, p.order(Outline(c)));
  }

  /** One entry of the finished dictionary, when no sibling was rebuilt. */
  function Finished(p: Policy, k: string, v: Tree, d: Tree, hasUnit: bool): Tree {
    var n := Fallback(p, k, ChromeAt(p, k, v, Child(d, k)));
    if !p.digitLike(k) && n.Null? && Dashes(p, k, Child(d, k), hasUnit) then DASH
    else if !p.digitLike(k) && Container(n) then Walk(p, n, Child(d, k))
    else n
  }

  function Fallback(p: Policy, k: string, v: Tree): Tree {
    if k in p.noAssert && v.Str? then Str(p.noAssert[k]) else v
  }

  function Ready(p: Policy, m: Obj, d: Tree): Obj { NoAssert(p, Chrome(p, m, d)) }

  function FinishedDict(p: Policy, m: Obj, d: Tree): Obj {
    var hasUnit := HasUnit(p, Ready(p, m, d), d);
    map k | k in m :: Finished(p, k, m[k], d, hasUnit)
  }

  lemma SameMap(a: Obj, b: Obj)
    requires a.Keys == b.Keys && forall k | k in a :: a[k] == b[k]
    ensures a == b
  {}

  lemma WalkQuietEntry(p: Policy, m: Obj, d: Tree, k: string)
    requires k in m && forall k | k in m :: !Fires(Chrome(p, m, d), d, k)
    ensures var w := Walk(p, Dict(m), d); w.Dict? && k in w.m && w.m[k] == FinishedDict(p, m, d)[k]
  {
    QuietPrepare(p, m, d);
    WalkEntry(p, m, d, k);
  }

  lemma WalkQuietEntries(p: Policy, m: Obj, d: Tree)
    requires forall k | k in m :: !Fires(Chrome(p, m, d), d, k)
    ensures var w := Walk(p, Dict(m), d);
      w.Dict? && w.m.Keys == m.Keys && forall k | k in m :: w.m[k] == FinishedDict(p, m, d)[k]
  {
    ContainerStays(p, Dict(m), d);
    forall k | k in m ensures Walk(p, Dict(m), d).m[k] == FinishedDict(p, m, d)[k] { WalkQuietEntry(p, m, d, k); }
  }

  lemma WalkQuietDict(p: Policy, m: Obj, d: Tree)
    requires forall k | k in m :: !Fires(Chrome(p, m, d), d, k)
    ensures Walk(p, Dict(m), d) == Dict(FinishedDict(p, m, d))
  {
    WalkQuietEntries(p, m, d);
    SameMap(Walk(p, Dict(m), d).m, FinishedDict(p, m, d));
  }

  predicate DashedByFallback(p: Policy, k: string, dch: Tree, hasUnit: bool) {
    k in p.noAssert && Str(p.noAssert[k]) != DASH && Dashes(p, k, dch, hasUnit)
  }

  /** A finished entry is a fixed point of the preparatory rewrites, keeps its kind and keys, and is a unit
      label exactly when it was one, unless some other key already was. */
  lemma FinishedEntry(p: Policy, k: string, v: Tree, d: Tree, hasUnit: bool)
    requires Tame(p)
    requires !p.digitLike(k) && Fallback(p, k, ChromeAt(p, k, v, Child(d, k))).Null? ==> !DashedByFallback(p, k, Child(d, k), hasUnit)
    ensures var n, r := Fallback(p, k, ChromeAt(p, k, v, Child(d, k))), Finished(p, k, v, d, hasUnit);
      && Fallback(p, k, ChromeAt(p, k, r, Child(d, k))) == r
      && (r.Null? ==> n.Null?) && (r.Dict? ==> n.Dict? && r.m.Keys == n.m.Keys)
      && (IsUnitLabel(p, k, n, Child(d, k)) ==> r == n)
      && (IsUnitLabel(p, k, r, Child(d, k)) ==> IsUnitLabel(p, k, n, Child(d, k)) || hasUnit)
  {
    var dch := Child(d, k);
    var n, r := Fallback(p, k, ChromeAt(p, k, v, dch)), Finished(p, k, v, d, hasUnit);
    if Container(n) && !p.digitLike(k) { ContainerStays(p, n, dch); }
    if p.digitLike(k) { DigitTwice(p, k, v, dch); }
  }

  lemma DigitTwice(p: Policy, k: string, v: Tree, dch: Tree)
    requires p.digitLike(k) && (k in p.noAssert ==> Str(p.noAssert[k]) != DASH)
    ensures var n := Fallback(p, k, ChromeAt(p, k, v, dch)); Fallback(p, k, ChromeAt(p, k, n, dch)) == n
  {}

  /** A key with a non-dash fallback is never dashed where a dictionary's own keys are the unit evidence. */
  lemma NoFallbackDashed(p: Policy, m: Obj, d: Tree, k: string)
    requires Tame(p) && k in m && m[k].Null? && !p.digitLike(k)
    ensures !DashedByFallback(p, k, Child(d, k), HasUnit(p, m, d))
  {}

  lemma {:induction false} WalkTwice(p: Policy, a: Tree, d: Tree)
    requires Tame(p) && Quiet(p, a, d)
    ensures Walk(p, Walk(p, a, d), d) == Walk(p, a, d)
    decreases a
  {
    match a
    case Dict(m) => {
      forall k | k in m && !p.digitLike(k) && Container(m[k])
        ensures Walk(p, Walk(p, m[k], Child(d, k)), Child(d, k)) == Walk(p, m[k], Child(d, k))
      {
        WalkTwice(p, m[k], Child(d, k));
      }
      DictTwice(p, m, d);
    }
    case List(xs) => {
      ContainerStays(p, a, d);
      forall i | 0 <= i < |xs| ensures Walk(p, Walk(p, a, d), d).xs[i] == Walk(p, a, d).xs[i] {
        if Container(xs[i]) {
          WalkTwice(p, xs[i], Aligned(d, i));
          ContainerStays(p, xs[i], Aligned(d, i));
        }
      }
    }
    case _ =>
  }

  lemma EntryStable(p: Policy, m: Obj, d: Tree, k: string)
    requires Tame(p) && k in m
    ensures var n, r := Ready(p, m, d)[k], FinishedDict(p, m, d)[k];
      && Fallback(p, k, ChromeAt(p, k, r, Child(d, k))) == r
      && (r.Null? ==> n.Null?) && (r.Dict? ==> n.Dict? && r.m.Keys == n.m.Keys)
      && (IsUnitLabel(p, k, n, Child(d, k)) ==> r == n)
      && (IsUnitLabel(p, k, r, Child(d, k)) ==> IsUnitLabel(p, k, n, Child(d, k)) || HasUnit(p, Ready(p, m, d), d))
  {
    var n := Ready(p, m, d);
    if !p.digitLike(k) && n[k].Null? { NoFallbackDashed(p, n, d, k); }
    FinishedEntry(p, k, m[k], d, HasUnit(p, n, d));
  }

  lemma ReadyStable(p: Policy, m: Obj, d: Tree)
    requires Tame(p)
    ensures Ready(p, FinishedDict(p, m, d), d) == FinishedDict(p, m, d)
  {
    var r := FinishedDict(p, m, d);
    var again := Ready(p, r, d);
    forall k | k in m ensures again[k] == r[k] { EntryStable(p, m, d, k); }
    SameMap(again, r);
  }

  lemma UnitEvidenceStable(p: Policy, m: Obj, d: Tree)
    requires Tame(p)
    ensures HasUnit(p, FinishedDict(p, m, d), d) == HasUnit(p, Ready(p, m, d), d)
  {
    var n, r := Ready(p, m, d), FinishedDict(p, m, d);
    forall k | k in m
      ensures IsUnitLabel(p, k, n[k], Child(d, k)) ==> r[k] == n[k]
      ensures IsUnitLabel(p, k, r[k], Child(d, k)) ==> IsUnitLabel(p, k, n[k], Child(d, k)) || HasUnit(p, n, d)
    {
      EntryStable(p, m, d, k);
    }
  }

  lemma QuietAgain(p: Policy, m: Obj, d: Tree)
    requires Tame(p) && forall k | k in m :: !Fires(Chrome(p, m, d), d, k)
    ensures forall k | k in m :: !Fires(Chrome(p, FinishedDict(p, m, d), d), d, k)
  {
    var c, r := Chrome(p, m, d), FinishedDict(p, m, d);
    var c2 := Chrome(p, r, d);
    forall j | j in c2 ensures (c2[j].Null? ==> c[j].Null?) && (c2[j].Dict? ==> c[j].Dict? && c2[j].m.Keys == c[j].m.Keys) {
      EntryStable(p, m, d, j);
    }
    forall k | k in m ensures !Fires(c2, d, k) { StillQuiet(p, c, c2, d, k); }
  }

  lemma FinishedDictTwice(p: Policy, m: Obj, d: Tree)
    requires Tame(p)
    requires forall k | k in m && !p.digitLike(k) && Container(m[k]) ::
               Walk(p, Walk(p, m[k], Child(d, k)), Child(d, k)) == Walk(p, m[k], Child(d, k))
    ensures FinishedDict(p, FinishedDict(p, m, d), d) == FinishedDict(p, m, d)
  {
    var r, hasUnit := FinishedDict(p, m, d), HasUnit(p, Ready(p, m, d), d);
    ReadyStable(p, m, d);
    UnitEvidenceStable(p, m, d);
    var r2 := FinishedDict(p, r, d);
    forall k | k in m ensures r2[k] == r[k] {
      EntryStable(p, m, d, k);
      FinishedTwice(p, k, m[k], d, hasUnit);
    }
    SameMap(r2, r);
  }

  lemma DictTwice(p: Policy, m: Obj, d: Tree)
    requires Tame(p) && forall k | k in m :: !Fires(Chrome(p, m, d), d, k)
    requires forall k | k in m && !p.digitLike(k) && Container(m[k]) ::
               Walk(p, Walk(p, m[k], Child(d, k)), Child(d, k)) == Walk(p, m[k], Child(d, k))
    ensures Walk(p, Walk(p, Dict(m), d), d) == Walk(p, Dict(m), d)
  {
    WalkQuietDict(p, m, d);
    QuietAgain(p, m, d);
    WalkQuietDict(p, FinishedDict(p, m, d), d);
    FinishedDictTwice(p, m, d);
  }

  lemma FinishedTwice(p: Policy, k: string, v: Tree, d: Tree, hasUnit: bool)
    requires var r := Finished(p, k, v, d, hasUnit); Fallback(p, k, ChromeAt(p, k, r, Child(d, k))) == r
    requires !p.digitLike(k) && Container(v) ==> Walk(p, Walk(p, v, Child(d, k)), Child(d, k)) == Walk(p, v, Child(d, k))
    ensures Finished(p, k, Finished(p, k, v, d, hasUnit), d, hasUnit) == Finished(p, k, v, d, hasUnit)
  {}

  /** Rewriting entries without making new nulls or dictionaries gives no slot a new sibling. */
  lemma StillQuiet(p: Policy, c: Obj, c2: Obj, d: Tree, k: string)
    requires k in c && !Fires(c, d, k) && c2.Keys == c.Keys
    requires forall j | j in c2 :: (c2[j].Null? ==> c[j].Null?) && (c2[j].Dict? ==> c[j].Dict? && c2[j].m.Keys == c[j].m.Keys)
    ensures !Fires(c2, d, k)
  {}

  /** A key in no vocabulary. */
  predicate Plain(p: Policy, k: string) {
    !p.unitLike(k) && !p.valueLike(k) && !p.digitLike(k) && k !in p.noAssert
  }

  ghost predicate Idempotent(p: Policy) {
    forall a, d | Quiet(p, a, d) :: Walk(p, Walk(p, a, d), d) == Walk(p, a, d)
  }

  predicate Flat(m: Obj) { forall k | k in m :: !Container(m[k]) }

  lemma FlatFinished(p: Policy, m: Obj, d: Tree)
    requires Flat(m)
    ensures Flat(FinishedDict(p, m, d))
  {}

  lemma FlatWalk(p: Policy, m: Obj, d: Tree)
    requires Flat(m)
    ensures Quiet(p, Dict(m), d) && Walk(p, Dict(m), d) == Dict(FinishedDict(p, m, d))
  {
    forall k | k in m ensures !Fires(Chrome(p, m, d), d, k) { FlatQuiet(p, m, d, k); }
    WalkQuietDict(p, m, d);
  }

  /** Two passes over a dictionary of scalars. */
  lemma FlatTwice(p: Policy, m: Obj, d: Tree)
    requires Flat(m) && Idempotent(p)
    ensures FinishedDict(p, FinishedDict(p, m, d), d) == FinishedDict(p, m, d)
  {
    FlatWalk(p, m, d);
    assert Walk(p, Walk(p, Dict(m), d), d) == Walk(p, Dict(m), d);
    FlatFinished(p, m, d);
    FlatWalk(p, FinishedDict(p, m, d), d);
  }

  lemma FlatQuiet(p: Policy, m: Obj, d: Tree, k: string)
    requires Flat(m)
    ensures !Fires(Chrome(p, m, d), d, k)
  {}

  /** A key that is both unit-like and a value key: the first pass dashes it, which makes it unit evidence, so
      the second pass dashes its siblings. */
  lemma SharedSuffixBreaks(p: Policy, k: string, j: string)
    requires p.unitLike(k) && p.valueLike(k) && !p.digitLike(k) && Plain(p, j)
    ensures !Idempotent(p)
  {
    var m: Obj := map[k := Null, j := Null];
    var d: Tree := Dict(map[k := Num(1.0), j := Num(1.0)]);
    assert Ready(p, m, d) == m;
    assert !HasUnit(p, m, d);
    var r := FinishedDict(p, m, d);
    assert r[j] == Null && r[k] == DASH;
    assert IsUnitLabel(p, k, Ready(p, r, d)[k], Child(d, k));
    if Idempotent(p) { FlatTwice(p, m, d); }
  }

  /** A text fallback that is the dash at a digit key: the second pass restores the default number over it. */
  lemma DigitFallbackBreaks(p: Policy, k: string)
    requires k in p.noAssert && p.digitLike(k) && Str(p.noAssert[k]) == DASH
    ensures !Idempotent(p)
  {
    var m: Obj := map[k := Str("x")];
    var d: Tree := Dict(map[k := Num(1.0)]);
    assert "x"[0] != "—"[0];
    var r := FinishedDict(p, m, d);
    assert r[k] == DASH;
    assert FinishedDict(p, r, d)[k] == Num(1.0);
    if Idempotent(p) { FlatTwice(p, m, d); }
  }

  /** A fallback other than the dash at a key that is dashed: the second pass replaces the dash by it. */
  lemma DashedFallbackBreaks(p: Policy, k: string, m: Obj, d: Tree)
    requires k in p.noAssert && !p.digitLike(k) && Str(p.noAssert[k]) != DASH
    requires Flat(m) && k in m && m[k] == Null && Dashes(p, k, Child(d, k), HasUnit(p, Ready(p, m, d), d))
    ensures !Idempotent(p)
  {
    var r := FinishedDict(p, m, d);
    assert r[k] == DASH;
    assert FinishedDict(p, r, d)[k] == Str(p.noAssert[k]);
    if Idempotent(p) { FlatTwice(p, m, d); }
  }

  lemma FallbackBreaks(p: Policy, k: string, u: string)
    requires k in p.noAssert && !p.digitLike(k) && Str(p.noAssert[k]) != DASH
    requires p.valueLike(k) || (u != k && p.unitLike(u))
    ensures !Idempotent(p)
  {
    var d: Tree := Dict(map[k := Num(1.0)]);
    if p.valueLike(k) {
      DashedFallbackBreaks(p, k, map[k := Null], d);
    } else {
      var m: Obj := map[k := Null, u := Str("x")];
      assert Ready(p, m, d)[u].Str?;
      assert IsUnitLabel(p, u, Ready(p, m, d)[u], Child(d, u));
      DashedFallbackBreaks(p, k, m, d);
    }
  }

  /** On payloads where no sibling is rebuilt, applying the policy twice is applying it once exactly when the
      vocabularies are tame (some key lies in none of them). */
  lemma IdempotentExactly(p: Policy, j: string)
    requires Plain(p, j)
    ensures Idempotent(p) <==> Tame(p)
  {
    if Tame(p) {
      forall a, d | Quiet(p, a, d) ensures Walk(p, Walk(p, a, d), d) == Walk(p, a, d) { WalkTwice(p, a, d); }
    } else if k :| p.unitLike(k) && p.valueLike(k) && !p.digitLike(k) {
      SharedSuffixBreaks(p, k, j);
    } else {
      var k :| k in p.noAssert && !TameFallback(p, k);
      if p.digitLike(k) {
        DigitFallbackBreaks(p, k);
      } else if p.valueLike(k) {
        FallbackBreaks(p, k, k);
      } else {
        var u :| p.unitLike(u) && u != k;
        FallbackBreaks(p, k, u);
      }
    }
  }
}
