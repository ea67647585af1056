/** host/display_dash.py as it runs: the policy rewrites the completed payload in place, over containers that are
    objects, and is proved to leave exactly the tree `DisplayDash.Walk` computes.  The default stays a value: it
    is only read. */
module DashInPlace {
  import opened Json
  import opened JsonHeap
  import opened DisplayDash

  type Box = Node<string>

  type Slot = Value<string>

  lemma EntryShows(n: Box, k: string)
    requires n.Valid() && n.isDict && k in n.entries
    ensures n.Abs().m[k] == n.entries[k].Abs() && n.entries[k].Valid()
  {}

  // ---------------------------------------------------------------- digit chrome

  function InnerLeaf(dch: Tree): (string, Tree) -> Tree {
    (j: string, v: Tree) => if Blankish(v) && Child(dch, j).Num? then Child(dch, j) else v
  }

  lemma InnerIsRestore(v: Obj, dch: Tree)
    ensures LeavesRewritten(InnerLeaf(dch), v) == RestoreDigits(v, dch) && LeafToLeaf(InnerLeaf(dch), v)
  {}

  /** The loop of the digit chrome: leaves are restored, digit dictionaries restored one level down. */
  method FixDigitChrome(p: Policy, n: Box, d: Tree)
    requires n.Valid() && n.isDict
    modifies n.repr
    ensures n.Valid() && n.repr == old(n.repr) && n.Abs() == Dict(Chrome(p, old(n.Abs()).m, d))
  {
    ghost var before, goal := n.Abs().m, Chrome(p, n.Abs().m, d);
    var todo := n.entries.Keys;
    MixEnds(before, goal);
    while todo != {}
      invariant Partway(n, todo, before, goal) && n.repr == old(n.repr)
      decreases todo
    {
      var k :| k in todo;
      MixStep(todo, before, goal, k);
      ChromeEntry(p, n, d, k);
      todo := todo - {k};
    }
  }

  /** The dictionary form of a digit slot: each of its blank leaves. */
  method ChromeDict(p: Policy, n: Box, dch: Tree, k: string)
    requires n.Valid() && n.isDict && k in n.entries && n.entries[k].VNode? && n.entries[k].node.isDict && p.digitLike(k)
    modifies n.repr
    ensures n.Valid() && n.repr == old(n.repr)
    ensures n.Abs() == Dict(old(n.Abs()).m[k := ChromeAt(p, k, old(n.Abs()).m[k], dch)])
  {
    var child := n.entries[k].node;
    EntryShows(n, k);
    ghost var t := child.Abs();
    InnerIsRestore(t.m, dch);
    RewriteLeaves(child, InnerLeaf(dch));
    assert child.Abs() == ChromeAt(p, k, t, dch);
    forall o | o in old(n.repr) && o != n && o !in old(child.repr) ensures Same(o) {}
    EntryRewalked(n, k, {});
  }

  method ChromeEntry(p: Policy, n: Box, d: Tree, k: string)
    requires n.Valid() && n.isDict && k in n.entries
    modifies n.repr
    ensures n.Valid() && n.repr == old(n.repr)
    ensures n.Abs() == Dict(old(n.Abs()).m[k := ChromeAt(p, k, old(n.Abs()).m[k], Child(d, k))])
  {
    EntryShows(n, k);
    ShallowShows(n.entries[k]);
    ghost var t := n.Abs().m[k];
    var v, dch := n.entries[k], Child(d, k);
    if p.digitLike(k) && v.VNode? && v.node.isDict {
      ChromeDict(p, n, dch, k);
    } else if v.VLeaf? {
      SetEntry(n, k, VLeaf(ChromeAt(p, k, v.leaf, dch)));
    } else {
      assert n.Abs().m[k := t] == n.Abs().m;
    }
  }

  // ---------------------------------------------------------------- sibling rehydrate

  /** The blank shape of the keys already done. */
  ghost function BlankDone(m: Obj, todo: set<string>): Obj {
    map k | k in m && k !in todo :: BlankShape(m[k])
  }

  lemma BlankStep(m: Obj, todo: set<string>, k: string)
    requires k in todo && k in m
    ensures BlankDone(m, todo)[k := BlankShape(m[k])] == BlankDone(m, todo - {k})
  {}

  lemma BlankEnds(m: Obj)
    ensures BlankDone(m, m.Keys) == map[] && Dict(BlankDone(m, {})) == BlankShape(Dict(m))
  {}

  /** A fresh container tree in the shape of the default, every scalar null, every list empty. */
  method NewBlank(t: Tree) returns (v: Slot)
    ensures v.Valid() && v.Abs() == BlankShape(t)
    ensures v.VNode? ==> fresh(v.node.repr)
    decreases t, 1
  {
    if t.Dict? {
      var n := NewBlankDict(t.m);
      v := VNode(n);
    } else if t.List? {
      var n := new Node<string>(false);
      v := VNode(n);
    } else {
      v := VLeaf(Null);
    }
  }

  method NewBlankDict(m: Obj) returns (n: Box)
    ensures n.Valid() && fresh(n.repr) && n.Abs() == BlankShape(Dict(m))
    decreases Dict(m), 0
  {
    n := new Node<string>(true);
    var todo := m.Keys;
    BlankEnds(m);
    while todo != {}
      invariant todo <= m.Keys && n.Valid() && n.isDict && fresh(n.repr) && n.Abs() == Dict(BlankDone(m, todo))
      decreases todo
    {
      var k :| k in todo;
      BlankStep(m, todo, k);
      SetBlank(n, k, m[k]);
      todo := todo - {k};
    }
  }

  /** `node[k] = _blank_shape(...)`. */
  method SetBlank(n: Box, k: string, t: Tree)
    requires n.Valid() && n.isDict
    modifies n
    ensures n.Valid() && Grew(n) && n.Abs() == Dict(old(n.Abs()).m[k := BlankShape(t)])
    decreases t, 2
  {
    var blank := NewBlank(t);
    SetEntry(n, k, blank);
  }

  /** The sibling test, on what the slots show. */
  predicate SiblingSlot(n: Box, k: string, k2: string, shape: Obj)
    reads n, set j | j in n.entries && n.entries[j].VNode? :: n.entries[j].node
  {
    && k2 in n.entries && k2 != k && n.entries[k2].VNode? && n.entries[k2].node.isDict && |k2| == |k| && PrefixLen(k, k2) >= 4
    && shape != map[] && |shape.Keys * n.entries[k2].node.entries.Keys| >= DisplayDash.Max(1, |shape.Keys| - 2)
  }

  lemma SiblingShows(n: Box, k: string, k2: string, shape: Obj)
    requires n.Valid() && n.isDict
    ensures SiblingSlot(n, k, k2, shape) == Sibling(n.Abs().m, k, k2, shape)
  {
    if k2 in n.entries {
      EntryShows(n, k2);
      ShallowShows(n.entries[k2]);
      if n.entries[k2].VNode? && n.entries[k2].node.isDict {
        assert n.entries[k2].node.Abs().m.Keys == n.entries[k2].node.entries.Keys;
      }
    }
  }

  /** The inner loop: some sibling matches. */
  method FindSiblingSlot(n: Box, k: string, shape: Obj) returns (found: bool)
    requires n.Valid() && n.isDict
    ensures found <==> exists k2 | k2 in n.Abs().m :: Sibling(n.Abs().m, k, k2, shape)
  {
    found := false;
    var todo := n.entries.Keys;
    while todo != {} && !found
      invariant todo <= n.entries.Keys
      invariant found ==> exists k2 | k2 in n.Abs().m :: Sibling(n.Abs().m, k, k2, shape)
      invariant !found ==> forall k2 | k2 in n.Abs().m && k2 !in todo :: !Sibling(n.Abs().m, k, k2, shape)
      decreases todo
    {
      var k2 :| k2 in todo;
      todo := todo - {k2};
      SiblingShows(n, k, k2, shape);
      if SiblingSlot(n, k, k2, shape) { found := true; }
    }
  }

  /** The rehydrate loop: keys in dictionary order; a rebuilt slot is a new dictionary. */
  method RehydrateSiblings(n: Box, d: Tree, keys: seq<string>)
    requires n.Valid() && n.isDict
    modifies n
    ensures n.Valid() && Grew(n) && n.Abs() == Dict(Rehydrate(old(n.Abs()).m, d, keys))
    ensures d.Null? ==> n.repr == old(n.repr)
  {
    for i := 0 to |keys|
      invariant n.Valid() && Grew(n) && (d.Null? ==> n.repr == old(n.repr))
      invariant n.Abs() == Dict(Rehydrate(old(n.Abs()).m, d, keys[..i]))
    {
      assert keys[..i + 1][..i] == keys[..i];
      RehydrateSlot(n, d, keys[i]);
    }
    assert keys[..|keys|] == keys;
  }

  /** Whether the slot is to be rebuilt. */
  method FiresSlot(n: Box, d: Tree, k: string) returns (fires: bool)
    requires n.Valid() && n.isDict
    ensures fires <==> Fires(n.Abs().m, d, k)
  {
    fires := false;
    if k in n.entries {
      EntryShows(n, k);
      ShallowShows(n.entries[k]);
      if n.entries[k] == VLeaf(Null) && Child(d, k).Dict? {
        fires := FindSiblingSlot(n, k, Child(d, k).m);
      }
    }
  }

  method RehydrateSlot(n: Box, d: Tree, k: string)
    requires n.Valid() && n.isDict
    modifies n
    ensures n.Valid() && Grew(n) && (d.Null? ==> n.repr == old(n.repr))
    ensures n.Abs() == Dict(if Fires(old(n.Abs()).m, d, k) then old(n.Abs()).m[k := BlankShape(Child(d, k))] else old(n.Abs()).m)
  {
    var fires := FiresSlot(n, d, k);
    if fires { SetBlank(n, k, Child(d, k)); }
  }

  // ---------------------------------------------------------------- the walk

  function OutlineOf(n: Box): Obj
    reads n
  {
    map k | k in n.entries :: Shallow(n.entries[k])
  }

  lemma OutlineShows(n: Box)
    requires n.Valid() && n.isDict
    ensures OutlineOf(n) == Outline(n.Abs().m)
  {
    forall k | k in n.entries ensures OutlineOf(n)[k] == Outline(n.Abs().m)[k] {
      EntryShows(n, k);
      ShallowShows(n.entries[k]);
    }
  }

  function FallbackLeaf(p: Policy): (string, Tree) -> Tree {
    (k: string, v: Tree) => Fallback(p, k, v)
  }

  lemma FallbacksRewritten(p: Policy, m: Obj)
    ensures LeavesRewritten(FallbackLeaf(p), m) == NoAssert(p, m) && LeafToLeaf(FallbackLeaf(p), m)
  {}

  /** Digit chrome, sibling rehydrate, fallbacks. */
  method PrepareInPlace(p: Policy, n: Box, d: Tree)
    requires n.Valid() && n.isDict
    modifies n.repr
    ensures n.Valid() && n.isDict && Grew(n) && (d.Null? ==> n.repr == old(n.repr))
    ensures n.Abs() == Dict(Prepare(p, old(n.Abs()).m, d))
  {
    FixDigitChrome(p, n, d);
    OutlineShows(n);
    RehydrateSiblings(n, d, p.order(OutlineOf(n)));
    FallbacksRewritten(p, n.Abs().m);
    RewriteLeaves(n, FallbackLeaf(p));
  }

  predicate AnyUnit(p: Policy, n: Box, d: Tree)
    reads n
  {
    exists k | k in n.entries :: IsUnitLabel(p, k, Shallow(n.entries[k]), Child(d, k))
  }

  lemma UnitShows(p: Policy, n: Box, d: Tree)
    requires n.Valid() && n.isDict
    ensures AnyUnit(p, n, d) == HasUnit(p, n.Abs().m, d)
  {
    forall k | k in n.entries
      ensures IsUnitLabel(p, k, Shallow(n.entries[k]), Child(d, k)) == IsUnitLabel(p, k, n.Abs().m[k], Child(d, k))
    {
      EntryShows(n, k);
      ShallowShows(n.entries[k]);
    }
  }

  /** One entry after the final loop. */
  function Visited(p: Policy, k: string, v: Tree, d: Tree, hasUnit: bool): Tree {
    if p.digitLike(k) then v
    else if v.Null? then (if Dashes(p, k, Child(d, k), hasUnit) then DASH else v)
    else if Container(v) then Walk(p, v, Child(d, k))
    else v
  }

  lemma EntryOfWalk(p: Policy, m: Obj, d: Tree, k: string)
    requires k in m
    ensures var w, n := Walk(p, Dict(m), d), Prepare(p, m, d);
      w.Dict? && k in w.m && k in n && w.m[k] == Visited(p, k, n[k], d, HasUnit(p, n, d))
  {
    WalkEntry(p, m, d, k);
  }

  lemma WalkKeys(p: Policy, m: Obj, d: Tree)
    ensures Walk(p, Dict(m), d).Dict? && Walk(p, Dict(m), d).m.Keys == m.Keys == Prepare(p, m, d).Keys
  {
    ContainerStays(p, Dict(m), d);
    forall k ensures k in Prepare(p, m, d) <==> k in m { PrepareAt(p, m, d, k); }
  }

  /** What the final loop has to do: each prepared entry goes to its visited one, and an entry the walk enters
      without a default is the one that was there. */
  ghost predicate Plan(p: Policy, m: Obj, before: Obj, goal: Obj, d: Tree, hasUnit: bool) {
    before.Keys == goal.Keys == m.Keys && forall k | k in m :: Planned(p, k, m[k], before[k], goal[k], d, hasUnit)
  }

  ghost predicate Planned(p: Policy, k: string, t0: Tree, t: Tree, after: Tree, d: Tree, hasUnit: bool) {
    after == Visited(p, k, t, d, hasUnit) && (Child(d, k).Null? && Container(t) && !p.digitLike(k) ==> t == t0)
  }

  lemma WalkPlans(p: Policy, m: Obj, d: Tree)
    ensures Walk(p, Dict(m), d).Dict?
    ensures Plan(p, m, Prepare(p, m, d), Walk(p, Dict(m), d).m, d, HasUnit(p, Prepare(p, m, d), d))
  {
    WalkKeys(p, m, d);
    forall k | k in m
      ensures Planned(p, k, m[k], Prepare(p, m, d)[k], Walk(p, Dict(m), d).m[k], d, HasUnit(p, Prepare(p, m, d), d))
    {
      EntryOfWalk(p, m, d, k);
      PrepareAt(p, m, d, k);
    }
  }

  method WalkInPlace(p: Policy, n: Box, d: Tree)
    requires n.Valid()
    modifies n.repr
    ensures n.Valid() && Grew(n) && n.Abs() == Walk(p, old(n.Abs()), d)
    decreases !d.Null?, d, n.Abs(), 3
  {
    if n.isDict {
      WalkDict(p, n, d);
    } else {
      WalkList(p, n, d);
    }
  }

  method WalkDict(p: Policy, n: Box, d: Tree)
    requires n.Valid() && n.isDict
    modifies n.repr
    ensures n.Valid() && Grew(n) && n.Abs() == Walk(p, old(n.Abs()), d)
    decreases !d.Null?, d, n.Abs(), 2
  {
    ghost var m := n.Abs().m;
    PrepareInPlace(p, n, d);
    var hasUnit := AnyUnit(p, n, d);
    UnitShows(p, n, d);
    WalkPlans(p, m, d);
    VisitEntries(p, n, d, hasUnit, m, n.Abs().m, Walk(p, Dict(m), d).m);
  }

  method VisitEntries(p: Policy, n: Box, d: Tree, hasUnit: bool, ghost m: Obj, ghost before: Obj, ghost goal: Obj)
    requires n.Valid() && n.isDict && n.Abs() == Dict(before) && Plan(p, m, before, goal, d, hasUnit)
    modifies n.repr
    ensures n.Valid() && Grew(n) && n.Abs() == Dict(goal)
    decreases !d.Null?, d, Dict(m), 1
  {
    var todo := n.entries.Keys;
    MixEnds(before, goal);
    while todo != {}
      invariant Partway(n, todo, before, goal) && Grew(n)
      decreases todo
    {
      var k :| k in todo;
      MixStep(todo, before, goal, k);
      Turn(p, n, d, hasUnit, k, m, before, goal);
      todo := todo - {k};
    }
  }

  /** One turn of the final loop. */
  method Turn(p: Policy, n: Box, d: Tree, hasUnit: bool, k: string, ghost m: Obj, ghost before: Obj, ghost goal: Obj)
    requires n.Valid() && n.isDict && k in m && Plan(p, m, before, goal, d, hasUnit) && k in n.entries && n.Abs().m[k] == before[k]
    modifies n.repr
    ensures n.Valid() && Grew(n) && n.Abs() == Dict(old(n.Abs()).m[k := goal[k]])
    decreases !d.Null?, d, Dict(m), 0
  {
    assert Planned(p, k, m[k], before[k], goal[k], d, hasUnit);
    VisitEntry(p, n, d, hasUnit, k, before[k], m[k], goal[k]);
  }

  /** `t` is the entry as prepared, `t0` as it was before, `after` what it becomes. */
  method VisitEntry(p: Policy, n: Box, d: Tree, hasUnit: bool, k: string, ghost t: Tree, ghost t0: Tree, ghost after: Tree)
    requires n.Valid() && n.isDict && k in n.entries && n.Abs().m[k] == t && Planned(p, k, t0, t, after, d, hasUnit)
    modifies n.repr
    ensures n.Valid() && Grew(n) && n.Abs() == Dict(old(n.Abs()).m[k := after])
    decreases !Child(d, k).Null?, Child(d, k), if Child(d, k).Null? then t0 else t, 5
  {
    EntryShows(n, k);
    ShallowShows(n.entries[k]);
    var v, dch := n.entries[k], Child(d, k);
    if !p.digitLike(k) && v == VLeaf(Null) && Dashes(p, k, dch, hasUnit) {
      SetEntry(n, k, VLeaf(DASH));
    } else if !p.digitLike(k) && v.VNode? {
      DescendEntry(p, n, dch, k, t);
    } else {
      assert n.Abs().m[k := t] == n.Abs().m;
    }
  }

  method DescendEntry(p: Policy, n: Box, dch: Tree, k: string, ghost t: Tree)
    requires n.Valid() && n.isDict && k in n.entries && n.entries[k].VNode? && n.Abs().m[k] == t
    modifies n.repr
    ensures n.Valid() && Grew(n) && n.Abs() == Dict(old(n.Abs()).m[k := Walk(p, t, dch)])
    decreases !dch.Null?, dch, t, 4
  {
    var child := n.entries[k].node;
    EntryShows(n, k);
    ShallowShows(n.entries[k]);
    assert t == child.Abs();
    WalkInPlace(p, child, dch);
    ghost var extra := child.repr - old(child.repr);
    n.repr := n.repr + extra;
    assert child.Valid() && child.Abs() == Walk(p, t, dch);
    forall o | o in old(n.repr) && o != n && o !in old(child.repr) ensures Same(o) {}
    EntryRewalked(n, k, extra);
  }

  method WalkList(p: Policy, n: Box, d: Tree)
    requires n.Valid() && !n.isDict
    modifies n.repr
    ensures n.Valid() && Grew(n) && n.Abs() == Walk(p, old(n.Abs()), d)
    decreases !d.Null?, d, n.Abs(), 2
  {
    ghost var before := n.Abs().xs;
    ghost var goal := Walk(p, List(before), d).xs;
    ListMixEnds(before, goal);
    for i := 0 to |n.items|
      invariant n.Valid() && Grew(n) && n.items == old(n.items) && |before| == |n.items|
      invariant n.Abs() == List(ListMix(i, before, goal))
    {
      ListMixStep(i, before, goal);
      assert goal[i] == if Container(before[i]) then Walk(p, before[i], Aligned(d, i)) else before[i];
      VisitItem(p, n, Aligned(d, i), i, before[i]);
    }
  }

  method VisitItem(p: Policy, n: Box, dref: Tree, i: nat, ghost t: Tree)
    requires n.Valid() && !n.isDict && i < |n.items| && n.Abs().xs[i] == t
    modifies n.repr
    ensures n.Valid() && Grew(n) && n.items == old(n.items)
    ensures n.Abs() == List(old(n.Abs()).xs[i := if Container(t) then Walk(p, t, dref) else t])
    decreases !dref.Null?, dref, t, 5
  {
    ShallowShows(n.items[i]);
    assert n.Abs().xs[i] == n.items[i].Abs();
    if n.items[i].VNode? {
      DescendItem(p, n, dref, i, t);
    } else {
      assert n.Abs().xs[i := t] == n.Abs().xs;
    }
  }

  method DescendItem(p: Policy, n: Box, dref: Tree, i: nat, ghost t: Tree)
    requires n.Valid() && !n.isDict && i < |n.items| && n.items[i].VNode? && n.Abs().xs[i] == t
    modifies n.repr
    ensures n.Valid() && Grew(n) && n.items == old(n.items)
    ensures n.Abs() == List(old(n.Abs()).xs[i := Walk(p, t, dref)])
    decreases !dref.Null?, dref, t, 4
  {
    var child := n.items[i].node;
    assert t == n.items[i].Abs() == child.Abs();
    WalkInPlace(p, child, dref);
    ghost var extra := child.repr - old(child.repr);
    n.repr := n.repr + extra;
    assert child.Valid() && child.Abs() == Walk(p, t, dref);
    forall o | o in old(n.repr) && o != n && o !in old(child.repr) ensures Same(o) {}
    ItemRewalked(n, i, extra);
  }

  /** `apply`: the valve, the type guards, the walk. */
  method ApplyInPlace(p: Policy, enabled: bool, payload: Slot, default: Tree)
    requires payload.Valid()
    modifies if payload.VNode? then payload.node.repr else {}
    ensures payload.Valid() && payload.Abs() == Apply(p, enabled, old(payload.Abs()), default)
  {
    ShallowShows(payload);
    if enabled && payload.VNode? && payload.node.isDict {
      WalkInPlace(p, payload.node, if default.Dict? then default else Null);
    }
  }
}
