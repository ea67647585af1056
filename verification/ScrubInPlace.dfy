/** The scrubs as the source runs them: in place, over containers that are objects.  `WalkInPlace`
    overwrites the entries of the payload it is given and is proved to leave exactly the tree `Scrub.Walk`
    computes, whatever the iteration order over a dictionary. */
module ScrubInPlace {
  import opened Json
  import opened JsonHeap
  import opened Scrub

  type Box = Node<string>

  type Slot = Value<string>

  predicate AnyNumber(entries: map<string, Slot>) {
    exists k | k in entries :: entries[k].VLeaf? && entries[k].leaf.Num?
  }

  lemma ShallowDecides(c: Config, r: Rule, h: bool, ancestors: seq<string>, key: string, v: Slot)
    requires v.Valid()
    ensures Decide(c, r, h, ancestors, key, Shallow(v)) == Decide(c, r, h, ancestors, key, v.Abs())
  {}

  method WalkInPlace(c: Config, r: Rule, n: Box, ancestors: seq<string>)
    requires n.Valid()
    modifies n.repr
    ensures n.Valid() && Grew(n)
    ensures n.Abs() == Walk(c, r, old(n.Abs()), ancestors)
    decreases n.Abs(), 3
  {
    if n.isDict {
      WalkDict(c, r, n, ancestors);
    } else {
      WalkList(c, r, n, ancestors);
    }
  }

  lemma NumbersShow(n: Box)
    requires n.Valid() && n.isDict
    ensures AnyNumber(n.entries) == HasNumber(n.Abs().m)
  {
    forall k | k in n.entries ensures n.Abs().m[k].Num? == (n.entries[k].VLeaf? && n.entries[k].leaf.Num?) {
      assert n.Abs().m[k] == n.entries[k].Abs();
      if n.entries[k].VNode? { assert n.entries[k].Abs() == n.entries[k].node.Abs(); }
    }
  }

  method WalkDict(c: Config, r: Rule, n: Box, ancestors: seq<string>)
    requires n.Valid() && n.isDict
    modifies n.repr
    ensures n.Valid() && Grew(n)
    ensures n.Abs() == Walk(c, r, old(n.Abs()), ancestors)
    decreases n.Abs(), 2
  {
    ghost var before := n.Abs().m;
    var hasNumber := AnyNumber(n.entries);
    NumbersShow(n);
    WalkOfDict(c, r, before, ancestors);
    VisitEntries(c, r, n, ancestors, hasNumber, before, Walk(c, r, Dict(before), ancestors).m);
  }

  lemma EntryOfWalk(c: Config, r: Rule, before: map<string, Tree>, ancestors: seq<string>, k: string)
    requires k in before
    ensures var w := Walk(c, r, Dict(before), ancestors);
      w.Dict? && k in w.m && w.m[k] == Entry(c, r, HasNumber(before), ancestors, k, before[k])
  {
    WalkOfDict(c, r, before, ancestors);
  }

  method VisitEntries(c: Config, r: Rule, n: Box, ancestors: seq<string>, hasNumber: bool,
                      ghost before: map<string, Tree>, ghost goal: map<string, Tree>)
    requires n.Valid() && n.isDict && n.Abs() == Dict(before) && goal.Keys == before.Keys
    requires Dict(goal) == Walk(c, r, Dict(before), ancestors) && hasNumber == HasNumber(before)
    modifies n.repr
    ensures n.Valid() && Grew(n) && n.Abs() == Dict(goal)
    decreases Dict(before), 1
  {
    var todo := n.entries.Keys;
    MixEnds(before, goal);
    while todo != {}
      invariant Partway(n, todo, before, goal) && Grew(n)
      decreases todo
    {
      var k :| k in todo;
      MixStep(todo, before, goal, k);
      EntryOfWalk(c, r, before, ancestors, k);
      VisitEntry(c, r, n, ancestors, hasNumber, k, before[k], goal[k]);
      todo := todo - {k};
    }
  }

  /** A fresh empty list takes the entry's place. */
  method EmptyEntry(n: Box, k: string)
    requires n.Valid() && n.isDict && k in n.entries
    modifies n
    ensures n.Valid() && Grew(n) && n.Abs() == Dict(old(n.Abs()).m[k := List([])])
  {
    var list := new Node<string>(false);
    SetEntry(n, k, VNode(list));
  }

  method VisitEntry(c: Config, r: Rule, n: Box, ancestors: seq<string>, hasNumber: bool, k: string,
                    ghost t: Tree, ghost after: Tree)
    requires n.Valid() && n.isDict && k in n.entries && n.Abs().m[k] == t
    requires after == Entry(c, r, hasNumber, ancestors, k, t)
    modifies n.repr
    ensures n.Valid() && Grew(n) && n.Abs() == Dict(old(n.Abs()).m[k := after])
    decreases t, 5
  {
    var v := n.entries[k];
    assert t == v.Abs();
    ShallowDecides(c, r, hasNumber, ancestors, k, v);
    var action := Decide(c, r, hasNumber, ancestors, k, Shallow(v));
    if action == Blank {
      SetEntry(n, k, VLeaf(Str(c.placeholder)));
    } else if action == Empty {
      EmptyEntry(n, k);
    } else if action == Descend && v.VNode? {
      DescendEntry(c, r, n, ancestors + [c.lower(k)], k, t);
    } else {
      WalkKeepsKind(c, r, t, ancestors + [c.lower(k)]);
      assert old(n.Abs()).m[k := t] == n.Abs().m;
    }
  }

  method DescendEntry(c: Config, r: Rule, n: Box, ancestors: seq<string>, k: string, ghost t: Tree)
    requires n.Valid() && n.isDict && k in n.entries && n.entries[k].VNode? && n.Abs().m[k] == t
    modifies n.repr
    ensures n.Valid() && Grew(n) && n.Abs() == Dict(old(n.Abs()).m[k := Walk(c, r, t, ancestors)])
    decreases t, 4
  {
    var child := n.entries[k].node;
    assert t == n.entries[k].Abs() == child.Abs();
    WalkInPlace(c, r, child, ancestors);
    ghost var extra := child.repr - old(child.repr);
    n.repr := n.repr + extra;
    forall o | o in old(n.repr) && o != n && o !in old(child.repr) ensures Same(o) {}
    EntryRewalked(n, k, extra);
  }

  method WalkList(c: Config, r: Rule, n: Box, ancestors: seq<string>)
    requires n.Valid() && !n.isDict
    modifies n.repr
    ensures n.Valid() && Grew(n)
    ensures n.Abs() == Walk(c, r, old(n.Abs()), ancestors)
    decreases n.Abs(), 2
  {
    ghost var before := n.Abs().xs;
    ghost var goal := Walk(c, r, List(before), ancestors).xs;
    ListMixEnds(before, goal);
    for i := 0 to |n.items|
      invariant n.Valid() && Grew(n) && n.items == old(n.items) && |before| == |n.items|
      invariant n.Abs() == List(ListMix(i, before, goal))
    {
      ListMixStep(i, before, goal);
      ShallowShows(n.items[i]);
      assert n.Abs().xs[i] == n.items[i].Abs();
      if n.items[i].VNode? {
        DescendItem(c, r, n, ancestors, i, before[i]);
      } else {
        assert goal[i] == Walk(c, r, before[i], ancestors) == before[i];
        assert n.Abs() == List(n.Abs().xs[i := before[i]]);
      }
    }
  }

  method DescendItem(c: Config, r: Rule, n: Box, ancestors: seq<string>, i: nat, ghost t: Tree)
    requires n.Valid() && !n.isDict && i < |n.items| && n.items[i].VNode? && n.Abs().xs[i] == t
    modifies n.repr
    ensures n.Valid() && Grew(n) && n.items == old(n.items)
    ensures n.Abs() == List(old(n.Abs()).xs[i := Walk(c, r, t, ancestors)])
    decreases t, 4
  {
    var child := n.items[i].node;
    assert t == n.items[i].Abs() == child.Abs();
    WalkInPlace(c, r, child, ancestors);
    ghost var extra := child.repr - old(child.repr);
    n.repr := n.repr + extra;
    forall o | o in old(n.repr) && o != n && o !in old(child.repr) ensures Same(o) {}
    ItemRewalked(n, i, extra);
  }
}
