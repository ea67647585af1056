/** host/display_dash.py at every place of a payload: which nulls are served as the dash, which digit counts are
    restored, and which objects are rebuilt. */
module DisplaySlots {
  import opened Json
  import opened JsonPaths
  import opened DisplayDash

  /** The digit keys end the walk: nothing below one is dashed or rebuilt. */
  predicate NoDigit(p: Policy, path: seq<Step>) {
    forall i | 0 <= i < |path| :: !(path[i].Name? && p.digitLike(path[i].k))
  }

  /** A container of the payload is walked against the default at its path, list positions included. */
  lemma {:induction false} WalkedAt(p: Policy, a: Tree, d: Tree, path: seq<Step>)
    requires NoDigit(p, path) && Container(Read(a, path))
    ensures Read(Walk(p, a, d), path) == Walk(p, Read(a, path), DefaultAt(d, path))
    decreases |path|
  {
    if path != [] {
      var rest := path[1..];
      NullReadsNull(rest);
      assert NoDigit(p, rest) by { assert forall i | 0 <= i < |rest| :: rest[i] == path[i + 1]; }
      match path[0]
      case Name(k) =>
        var v := a.m[k];
        if !Container(v) { NumberReads(v, rest); }
        WalkEntry(p, a.m, d, k);
        PrepareAt(p, a.m, d, k);
        WalkedAt(p, v, Child(d, k), rest);
      case Index(i) =>
        var v := a.xs[i];
        if !Container(v) { NumberReads(v, rest); }
        WalkedAt(p, v, Aligned(d, i), rest);
    }
  }

  /** The default the policy reads a payload against. */
  function Evidence(default: Tree): Tree {
    if default.Dict? then default else Null
  }

  /** The served value at key `k` of the dictionary at `path` is the walked dictionary's. */
  lemma ServedAt(p: Policy, payload: Tree, default: Tree, path: seq<Step>, k: string)
    requires payload.Dict? && NoDigit(p, path) && Read(payload, path).Dict?
    ensures Read(Apply(p, true, payload, default), path + [Name(k)]) == Child(Walk(p, Read(payload, path), DefaultAt(Evidence(default), path)), k)
    ensures DefaultAt(Evidence(default), path + [Name(k)]) == Child(DefaultAt(Evidence(default), path), k)
  {
    WalkedAt(p, payload, Evidence(default), path);
    ReadOn(Apply(p, true, payload, default), path, Name(k));
    DefaultOn(Evidence(default), path, k);
  }

  lemma {:induction false} DefaultOn(d: Tree, path: seq<Step>, k: string)
    ensures DefaultAt(d, path + [Name(k)]) == Child(DefaultAt(d, path), k)
    decreases |path|
  {
    if path == [] {
      assert path + [Name(k)] == [Name(k)];
    } else {
      assert (path + [Name(k)])[1..] == path[1..] + [Name(k)] && (path + [Name(k)])[0] == path[0];
      match path[0]
      case Name(j) => DefaultOn(Child(d, j), path[1..], k);
      case Index(i) =>
        DefaultOn(if d.List? && i < |d.xs| then d.xs[i] else if d.List? && 0 < |d.xs| then d.xs[0] else Null, path[1..], k);
    }
  }

  // ---------------------------------------------------------------- the dash and the digits

  /** Some key of the dictionary is a unit label: by a text of its own, unless that is a dash about to become a digit
      count, or by a null that the default proves to be text or says nothing of. */
  predicate UnitBeside(p: Policy, m: Obj, d: Tree) {
    exists u | u in m :: p.unitLike(u) && UnitShown(p, u, m[u], Child(d, u))
  }

  predicate UnitShown(p: Policy, u: string, v: Tree, dch: Tree) {
    (v.Str? && !(p.digitLike(u) && v == DASH && dch.Num?)) || (v.Null? && (dch.Str? || dch.Null?))
  }

  lemma UnitStays(p: Policy, m: Obj, d: Tree, u: string)
    requires u in m
    ensures u in Prepare(p, m, d) && (IsUnitLabel(p, u, Prepare(p, m, d)[u], Child(d, u)) <==> p.unitLike(u) && UnitShown(p, u, m[u], Child(d, u)))
  {
    PrepareAt(p, m, d, u);
  }

  lemma UnitsStay(p: Policy, m: Obj, d: Tree)
    ensures HasUnit(p, Prepare(p, m, d), d) <==> UnitBeside(p, m, d)
  {
    var n := Prepare(p, m, d);
    forall u ensures u in n <==> u in m { PrepareAt(p, m, d, u); }
    forall u | u in m ensures IsUnitLabel(p, u, n[u], Child(d, u)) <==> p.unitLike(u) && UnitShown(p, u, m[u], Child(d, u)) {
      UnitStays(p, m, d, u);
    }
    if u :| u in m && p.unitLike(u) && UnitShown(p, u, m[u], Child(d, u)) { assert u in n && IsUnitLabel(p, u, n[u], Child(d, u)); }
  }

  /** A null at a key that is no digit key is dashed exactly here: a unit-suffixed value key with a numeric default, or,
      beside a unit label, any slot with a scalar default that is not itself a unit label. */
  predicate DashDue(p: Policy, m: Obj, d: Tree, k: string) {
    var dch := Child(d, k);
    (p.valueLike(k) && dch.Num?) || (UnitBeside(p, m, d) && (dch.Num? || dch.Str?) && !(p.unitLike(k) && dch.Str?))
  }

  lemma DashedInDict(p: Policy, m: Obj, d: Tree, k: string)
    requires k in m && m[k].Null? && !p.digitLike(k) && !Child(d, k).Dict?
    ensures Child(Walk(p, Dict(m), d), k) == if DashDue(p, m, d, k) then Str("—") else Null
  {
    WalkEntry(p, m, d, k);
    PrepareAt(p, m, d, k);
    UnitsStay(p, m, d);
  }

  /** Wherever a dictionary of the payload stands, in lists too, below no digit key: a null of it whose default is no
      object is served as the dash if and only if one is due, and otherwise as null. */
  lemma DashedExactly(p: Policy, payload: Tree, default: Tree, path: seq<Step>, k: string)
    requires payload.Dict? && NoDigit(p, path) && Read(payload, path).Dict?
    requires k in Read(payload, path).m && Read(payload, path).m[k].Null? && !p.digitLike(k)
    requires !DefaultAt(Evidence(default), path + [Name(k)]).Dict?
    ensures Read(Apply(p, true, payload, default), path + [Name(k)]) ==
      if DashDue(p, Read(payload, path).m, DefaultAt(Evidence(default), path), k) then Str("—") else Null
  {
    ServedAt(p, payload, default, path, k);
    DashedInDict(p, Read(payload, path).m, DefaultAt(Evidence(default), path), k);
  }

  /** A digit slot, where no fallback is configured for its key: a null or dash is served as the default's number where
      there is one, in the dictionary form entry by entry, and anything else as it is. */
  predicate DigitsServed(was: Tree, dch: Tree, now: Tree) {
    if (was.Null? || was == Str("—")) && dch.Num? then now == dch
    else if was.Dict? then
      now.Dict? && now.m.Keys == was.m.Keys
      && forall j | j in was.m ::
           now.m[j] == if (was.m[j].Null? || was.m[j] == Str("—")) && Child(dch, j).Num? then Child(dch, j) else was.m[j]
    else was.Null? || now == was
  }

  lemma DigitsInDict(p: Policy, m: Obj, d: Tree, k: string)
    requires k in m && p.digitLike(k) && k !in p.noAssert
    ensures DigitsServed(m[k], Child(d, k), Child(Walk(p, Dict(m), d), k))
  {
    WalkEntry(p, m, d, k);
    PrepareAt(p, m, d, k);
  }

  lemma DigitsExactly(p: Policy, payload: Tree, default: Tree, path: seq<Step>, k: string)
    requires payload.Dict? && NoDigit(p, path) && Read(payload, path).Dict?
    requires k in Read(payload, path).m && p.digitLike(k) && k !in p.noAssert
    ensures DigitsServed(Read(payload, path).m[k], DefaultAt(Evidence(default), path + [Name(k)]),
                         Read(Apply(p, true, payload, default), path + [Name(k)]))
  {
    ServedAt(p, payload, default, path, k);
    DigitsInDict(p, Read(payload, path).m, DefaultAt(Evidence(default), path), k);
  }

  /** A configured fallback replaces the text of its key, wherever that stands; other texts stay. */
  lemma TextsExactly(p: Policy, payload: Tree, default: Tree, path: seq<Step>, k: string)
    requires payload.Dict? && NoDigit(p, path) && Read(payload, path).Dict?
    requires k in Read(payload, path).m && Read(payload, path).m[k].Str? && !p.digitLike(k)
    ensures Read(Apply(p, true, payload, default), path + [Name(k)]) ==
      if k in p.noAssert then Str(p.noAssert[k]) else Read(payload, path).m[k]
  {
    ServedAt(p, payload, default, path, k);
    TextInDict(p, Read(payload, path).m, DefaultAt(Evidence(default), path), k);
  }

  lemma TextInDict(p: Policy, m: Obj, d: Tree, k: string)
    requires k in m && m[k].Str? && !p.digitLike(k)
    ensures Child(Walk(p, Dict(m), d), k) == if k in p.noAssert then Str(p.noAssert[k]) else m[k]
  {
    WalkEntry(p, m, d, k);
    RehydratedText(Chrome(p, m, d), d, p.order(Outline(Chrome(p, m, d))), k);
  }

  lemma {:induction false} RehydratedText(m: Obj, d: Tree, keys: seq<string>, k: string)
    requires k in m && !m[k].Null?
    ensures k in Rehydrate(m, d, keys) && Rehydrate(m, d, keys)[k] == m[k]
  {
    RehydrateAt(m, d, keys, k);
  }

  // ---------------------------------------------------------------- rebuilt siblings

  /** Another key of the same length and the same first four characters holds a dictionary that has all but at most two
      of the default's keys, one at least. */
  predicate Twin(m: Obj, k: string, k2: string, shape: Obj) {
    && k2 in m && k2 != k && m[k2].Dict? && |k2| == |k| && 4 <= |k| && k2[..4] == k[..4]
    && 1 <= |shape.Keys * m[k2].m.Keys| && |shape.Keys| - 2 <= |shape.Keys * m[k2].m.Keys|
  }

  lemma {:induction false} PrefixIs(a: string, b: string, n: nat)
    requires |a| == |b|
    ensures PrefixLen(a, b) >= n <==> n <= |a| && a[..n] == b[..n]
    decreases n
  {
    if n > 0 && a != [] {
      PrefixIs(a[1..], b[1..], n - 1);
      if n <= |a| {
        assert a[..n] == [a[0]] + a[1..][..n - 1] && b[..n] == [b[0]] + b[1..][..n - 1];
        if a[..n] == b[..n] {
          assert a[..n][0] == b[..n][0];
          assert a[1..][..n - 1] == a[..n][1..] && b[1..][..n - 1] == b[..n][1..];
        }
      }
    }
  }

  lemma TwinIs(m: Obj, k: string, k2: string, shape: Obj)
    ensures Sibling(m, k, k2, shape) <==> Twin(m, k, k2, shape)
  {
    if |k| == |k2| { PrefixIs(k, k2, 4); }
    if k2 in m && m[k2].Dict? && shape == map[] { assert shape.Keys * m[k2].m.Keys == {}; }
  }

  /** Dictionaries of the same keys stay under the same keys. */
  predicate DictsKept(m: Obj, after: Obj) {
    forall k | k in m && m[k].Dict? :: k in after && after[k].Dict? && after[k].m.Keys == m[k].m.Keys
  }

  lemma TwinKept(m: Obj, after: Obj, k: string, k2: string, shape: Obj)
    requires Twin(m, k, k2, shape) && DictsKept(m, after)
    ensures Twin(after, k, k2, shape)
  {}

  lemma {:induction false} RehydrateKeepsDicts(m: Obj, d: Tree, keys: seq<string>)
    ensures DictsKept(m, Rehydrate(m, d, keys))
  {
    forall k | k in m && m[k].Dict? { RehydrateAt(m, d, keys, k); }
  }

  /** A null with a twin is rebuilt when its turn comes. */
  lemma {:induction false} RebuiltInTurn(m: Obj, d: Tree, keys: seq<string>, k: string, k2: string)
    requires k in m && m[k].Null? && Child(d, k).Dict? && Twin(m, k, k2, Child(d, k).m) && k in keys
    ensures k in Rehydrate(m, d, keys) && Rehydrate(m, d, keys)[k] == BlankShape(Child(d, k))
    decreases |keys|
  {
    var n := |keys| - 1;
    var m' := Rehydrate(m, d, keys[..n]);
    RehydrateAt(m, d, keys[..n], k);
    RehydrateKeepsDicts(m, d, keys[..n]);
    TwinKept(m, m', k, k2, Child(d, k).m);
    TwinIs(m', k, k2, Child(d, k).m);
    if k in keys[..n] { RebuiltInTurn(m, d, keys[..n], k, k2); }
    assert keys == keys[..n] + [keys[n]];
  }

  /** A null that was rebuilt has a twin in the end, itself possibly rebuilt. */
  lemma {:induction false} RebuiltHasTwin(m: Obj, d: Tree, keys: seq<string>, k: string) returns (k2: string)
    requires k in m && m[k].Null? && k in Rehydrate(m, d, keys) && !Rehydrate(m, d, keys)[k].Null?
    ensures Child(d, k).Dict? && Twin(Rehydrate(m, d, keys), k, k2, Child(d, k).m)
    decreases |keys|
  {
    var n := |keys| - 1;
    var m' := Rehydrate(m, d, keys[..n]);
    RehydrateAt(m, d, keys[..n], k);
    if m'[k].Null? {
      k2 :| k2 in m' && Sibling(m', k, k2, Child(d, k).m);
      TwinIs(m', k, k2, Child(d, k).m);
    } else {
      k2 := RebuiltHasTwin(m, d, keys[..n], k);
    }
    LastStepKeepsDicts(m', d, keys[n]);
    TwinKept(m', Rehydrate(m, d, keys), k, k2, Child(d, k).m);
  }

  lemma LastStepKeepsDicts(m: Obj, d: Tree, k: string)
    ensures DictsKept(m, if Fires(m, d, k) then m[k := BlankShape(Child(d, k))] else m)
  {}

  /** The dictionary order of the source lists every key. */
  ghost predicate ListsAllKeys(p: Policy) {
    forall o: Obj, k | k in o :: k in p.order(o)
  }

  lemma ChromeKeepsDicts(p: Policy, m: Obj, d: Tree)
    ensures DictsKept(m, Chrome(p, m, d)) && Chrome(p, m, d).Keys == m.Keys
  {}

  lemma RebuiltInDict(p: Policy, m: Obj, d: Tree, k: string, k2: string)
    requires ListsAllKeys(p) && k in m && m[k].Null? && !p.digitLike(k)
    requires Child(d, k).Dict? && Twin(m, k, k2, Child(d, k).m)
    ensures Child(Walk(p, Dict(m), d), k) == Walk(p, BlankShape(Child(d, k)), Child(d, k))
  {
    var c := Chrome(p, m, d);
    ChromeKeepsDicts(p, m, d);
    TwinKept(m, c, k, k2, Child(d, k).m);
    assert k in Outline(c);
    RebuiltInTurn(c, d, p.order(Outline(c)), k, k2);
    WalkEntry(p, m, d, k);
  }

  /** Wherever a null object slot has a twin, it is served rebuilt: a dictionary with exactly the default's keys, its
      own slots filled in turn. */
  lemma RebuildHappens(p: Policy, payload: Tree, default: Tree, path: seq<Step>, k: string, k2: string)
    requires ListsAllKeys(p) && payload.Dict? && NoDigit(p, path) && Read(payload, path).Dict?
    requires k in Read(payload, path).m && Read(payload, path).m[k].Null? && !p.digitLike(k)
    requires var dch := DefaultAt(Evidence(default), path + [Name(k)]); dch.Dict? && Twin(Read(payload, path).m, k, k2, dch.m)
    ensures var dch, now := DefaultAt(Evidence(default), path + [Name(k)]), Read(Apply(p, true, payload, default), path + [Name(k)]);
      now == Walk(p, BlankShape(dch), dch) && now.Dict? && now.m.Keys == dch.m.Keys
  {
    ServedAt(p, payload, default, path, k);
    RebuiltInDict(p, Read(payload, path).m, DefaultAt(Evidence(default), path), k, k2);
    var dch := DefaultAt(Evidence(default), path + [Name(k)]);
    ContainerStays(p, BlankShape(dch), dch);
  }

  /** Nothing else is rebuilt: a null whose default is an object is served as null unless the prepared dictionary holds
      a twin of it. */
  lemma RebuiltOnlyBesideTwin(p: Policy, m: Obj, d: Tree, k: string) returns (k2: string)
    requires k in m && m[k].Null? && !p.digitLike(k) && Child(d, k).Dict? && !Child(Walk(p, Dict(m), d), k).Null?
    ensures Twin(Rehydrate(Chrome(p, m, d), d, p.order(Outline(Chrome(p, m, d)))), k, k2, Child(d, k).m)
  {
    var c := Chrome(p, m, d);
    WalkEntry(p, m, d, k);
    RehydrateAt(c, d, p.order(Outline(c)), k);
    k2 := RebuiltHasTwin(c, d, p.order(Outline(c)), k);
  }

  /** The rebuilt shape: the default's dictionaries with their keys, its lists emptied, every scalar null. */
  lemma {:induction false} BlankShapeExactly(t: Tree, path: seq<Step>)
    requires forall i | 0 <= i < |path| :: path[i].Name?
    ensures match Read(t, path)
      case Dict(m) => Read(BlankShape(t), path).Dict? && Read(BlankShape(t), path).m.Keys == m.Keys
      case List(_) => Read(BlankShape(t), path) == List([])
      case _ => Read(BlankShape(t), path) == Null
    decreases |path|
  {
    if path != [] {
      NullReadsNull(path[1..]);
      BlankShapeExactly(Child(t, path[0].k), path[1..]);
    }
  }
}
