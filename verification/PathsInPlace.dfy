/** lib/leaf_paths.py as it runs: a cursor walks down a tree of containers that are objects, and the last
    container is written in place.  The write is proved to leave exactly the tree `LeafPaths.Put` computes. */
module PathsInPlace {
  import opened Json
  import opened JsonHeap
  import opened LeafPaths

  datatype Found = Missing | Slot(v: Value<Key>)

  /** `node[key]` on a slot: what it holds, or nothing where it raises. */
  function StepInto(v: Value<Key>, key: Key): Found
    reads if v.VNode? then {v.node} else {}
  {
    match v
    case VNode(n) =>
      if n.isDict then (if key in n.entries then Slot(n.entries[key]) else Missing)
      else if key.Index? && key.index < |n.items| then Slot(n.items[key.index]) else Missing
    case VLeaf(t) =>
      if t.Str? && key.Index? && key.index < |t.s| then Slot(VLeaf(Str([t.s[key.index]]))) else Missing
  }

  /** A step stays inside the subtree and never comes back to where it started. */
  ghost function Below(v: Value<Key>, key: Key): (r: Found)
    requires v.Valid()
    reads if v.VNode? then {v.node} + v.node.repr else {}
    ensures r == StepInto(v, key)
    ensures r.Slot? ==> r.v.Valid()
    ensures r.Slot? && r.v.VNode? ==> v.VNode? && r.v.node in v.node.repr && r.v.node.repr <= v.node.repr - {v.node}
    ensures Step(v.Abs(), key) == if r.Slot? then At(r.v.Abs()) else Nowhere
  {
    assert v.VNode? ==> v.node.Valid();
    assert v.VNode? && v.node.isDict && key in v.node.entries ==> v.node.entries[key].Valid();
    assert v.VNode? && !v.node.isDict && key.Index? && key.index < |v.node.items| ==> v.node.items[key.index].Valid();
    assert v.VNode? && !v.node.isDict && key.Index? && key.index < |v.node.items| ==>
      v.node.Abs().xs[key.index] == v.node.items[key.index].Abs();
    StepInto(v, key)
  }

  lemma StepAgrees(v: Value<Key>, key: Key)
    requires v.Valid()
    ensures StepInto(v, key).Slot? <==> Step(v.Abs(), key).At?
    ensures StepInto(v, key).Slot? ==> StepInto(v, key).v.Valid() && Step(v.Abs(), key).v == StepInto(v, key).v.Abs()
  {}

  /** The cursor loop of the read. */
  method LeafAtInPlace(tree: Value<Key>, p: Path) returns (r: Found)
    requires tree.Valid()
    ensures (r.Slot? ==> r.v.Valid()) && (if r.Slot? then r.v.Abs() else Null) == Leaf(tree.Abs(), p)
    ensures r.Slot? <==> Reach(tree.Abs(), p).At?
  {
    var node := tree;
    for i := 0 to |p|
      invariant node.Valid() && Reach(tree.Abs(), p) == Reach(node.Abs(), p[i..])
    {
      StepAgrees(node, p[i]);
      var next := StepInto(node, p[i]);
      if next.Missing? { return Missing; }
      node := next.v;
    }
    r := Slot(node);
  }

  // ---------------------------------------------------------------- the write

  /** `node[key] = value` is legal. */
  predicate Assignable(v: Value<Key>, key: Key)
    reads if v.VNode? then {v.node} else {}
  {
    v.VNode? && (v.node.isDict || (key.Index? && key.index < |v.node.items|))
  }

  lemma AssignableAgrees(v: Value<Key>, key: Key)
    requires v.Valid()
    ensures Assignable(v, key) <==> Settable(v.Abs(), [key])
  {}

  /** The containers a cursor passes: each reached from the one before by its token, each deeper than all
      before it. */
  ghost predicate Passed(nodes: seq<Node<Key>>, p: Path)
    reads nodes, set n, o | n in nodes && o in n.repr :: o
  {
    && 0 < |nodes| <= |p|
    && (forall i | 0 <= i < |nodes| :: nodes[i].Valid())
    && (forall i | 0 <= i < |nodes| - 1 :: StepInto(VNode(nodes[i]), p[i]) == Slot(VNode(nodes[i + 1])))
    && (forall i, j | 0 <= i < j < |nodes| :: nodes[j].repr <= nodes[i].repr - {nodes[i]})
  }

  lemma PassedFurther(nodes: seq<Node<Key>>, p: Path, next: Node<Key>)
    requires Passed(nodes, p) && |nodes| < |p| && StepInto(VNode(nodes[|nodes| - 1]), p[|nodes| - 1]) == Slot(VNode(next))
    ensures Passed(nodes + [next], p)
  {
    var last := nodes[|nodes| - 1];
    assert Below(VNode(last), p[|nodes| - 1]) == Slot(VNode(next));
    assert VNode(next).Valid() && next.Valid();
  }

  /** The cursor loop of the write: the container the last token is to be assigned in, or nothing where a step
      raises or ends in a leaf. */
  method Descend(root: Node<Key>, p: Path) returns (r: Found, ghost nodes: seq<Node<Key>>)
    requires root.Valid() && p != []
    ensures r.Missing? ==> !Settable(root.Abs(), p)
    ensures r.Slot? ==> Assignable(r.v, p[|p| - 1]) && Passed(nodes, p) && |nodes| == |p| && nodes[0] == root && r.v == VNode(nodes[|p| - 1])
  {
    var node := VNode(root);
    nodes := [root];
    for i := 0 to |p| - 1
      invariant node.VNode? && |nodes| == i + 1 && nodes[0] == root && nodes[i] == node.node && Passed(nodes, p)
      invariant Settable(root.Abs(), p) ==> Settable(node.Abs(), p[i..])
    {
      StepAgrees(node, p[i]);
      var next := StepInto(node, p[i]);
      assert p[i..][1..] == p[i + 1..];
      if next.Missing? || next.v.VLeaf? { return Missing, nodes; }
      PassedFurther(nodes, p, next.v.node);
      nodes := nodes + [next.v.node];
      node := next.v;
    }
    assert p[|p| - 1..] == [p[|p| - 1]];
    AssignableAgrees(node, p[|p| - 1]);
    r := if Assignable(node, p[|p| - 1]) then Slot(node) else Missing;
  }

  /** Of the containers below the first of `nodes` only `nodes` changed: all grew by `extra`, and all but the
      last kept their slots. */
  twostate predicate Frame(nodes: seq<Node<Key>>, new extra: set<Node<Key>>)
    requires nodes != []
    reads *
  {
    && (forall o | o in old(nodes[0].repr) && o !in nodes :: Same(o))
    && (forall i | 0 <= i < |nodes| :: nodes[i].repr == old(nodes[i].repr) + extra)
    && (forall i | 0 <= i < |nodes| - 1 :: nodes[i].entries == old(nodes[i].entries) && nodes[i].items == old(nodes[i].items))
  }

  /** What another slot of the i-th container holds was not touched. */
  twostate lemma SiblingKept(nodes: seq<Node<Key>>, new p: Path, new i: nat, new extra: set<Node<Key>>, new key: Key, new sibling: Node<Key>)
    requires i < |nodes| && old(Passed(nodes, p)) && Frame(nodes, extra)
    requires key != p[i] && old(StepInto(VNode(nodes[i]), key)) == Slot(VNode(sibling))
    ensures forall o | o in old(sibling.repr) :: Same(o)
    ensures i + 1 < |nodes| ==> old(sibling.repr) !! old(nodes[i + 1].repr)
    ensures old(sibling.repr) <= old(nodes[0].repr)
  {
    var n := nodes[i];
    assert old(Below(VNode(n), key)) == Slot(VNode(sibling));
    if i + 1 < |nodes| {
      assert old(StepInto(VNode(n), p[i])) == Slot(VNode(nodes[i + 1]));
      assert old(n.Valid());
    }
    forall j | 0 <= j < |nodes| ensures nodes[j] !in old(sibling.repr) {
      if j > i { assert old(nodes[j].Valid()) && nodes[j] in old(nodes[j].repr); }
    }
    forall o | o in old(sibling.repr) ensures Same(o) {
      assert o in old(nodes[0].repr);
    }
  }

  /** Container `c` got a new slot. */
  twostate predicate Assigned(c: Node<Key>, new key: Key, new value: Value<Key>)
    reads c
  {
    if c.isDict then c.entries == old(c.entries)[key := value] && c.items == old(c.items)
    else key.Index? && key.index < |old(c.items)| && c.items == old(c.items)[key.index := value] && c.entries == old(c.entries)
  }

  /** The slot the i-th container now has on the way down: the next container, or at the end the value. */
  function SlotAt(nodes: seq<Node<Key>>, i: nat, value: Value<Key>): Value<Key>
    requires i < |nodes|
  {
    if i + 1 < |nodes| then VNode(nodes[i + 1]) else value
  }

  twostate lemma LiftDict(nodes: seq<Node<Key>>, new p: Path, new i: nat, new value: Value<Key>, new extra: set<Node<Key>>)
    requires i < |nodes| && old(Passed(nodes, p)) && Frame(nodes, extra) && Assigned(nodes[|nodes| - 1], p[|nodes| - 1], value)
    requires SlotAt(nodes, i, value).Valid() && extra !! old(nodes[0].repr)
    requires (value.VNode? ==> value.node in extra && value.node.repr == extra) && nodes[i].isDict
    ensures nodes[i].Valid() && nodes[i].Abs() == Write(old(nodes[i].Abs()), p[i], SlotAt(nodes, i, value).Abs())
  {
    var n, slot := nodes[i], SlotAt(nodes, i, value);
    assert i + 1 < |nodes| ==> old(StepInto(VNode(nodes[i]), p[i])) == Slot(VNode(nodes[i + 1]));
    forall k | k in old(n.entries) && k != p[i] && old(n.entries[k]).VNode?
      ensures forall o | o in old(n.entries[k].node.repr) :: Same(o)
      ensures slot.VNode? ==> slot.node.repr !! old(n.entries[k].node.repr)
    {
      SiblingKept(nodes, p, i, extra, k, old(n.entries[k]).node);
    }
    EntryWritten(n, p[i], slot, extra);
  }

  twostate lemma LiftList(nodes: seq<Node<Key>>, new p: Path, new i: nat, new value: Value<Key>, new extra: set<Node<Key>>)
    requires i < |nodes| && old(Passed(nodes, p)) && Frame(nodes, extra) && Assigned(nodes[|nodes| - 1], p[|nodes| - 1], value)
    requires SlotAt(nodes, i, value).Valid() && extra !! old(nodes[0].repr)
    requires (value.VNode? ==> value.node in extra && value.node.repr == extra) && !nodes[i].isDict
    ensures nodes[i].Valid() && nodes[i].Abs() == Write(old(nodes[i].Abs()), p[i], SlotAt(nodes, i, value).Abs())
  {
    var n, slot := nodes[i], SlotAt(nodes, i, value);
    assert i + 1 < |nodes| ==> old(StepInto(VNode(nodes[i]), p[i])) == Slot(VNode(nodes[i + 1]));
    forall j: nat | j < |old(n.items)| && p[i] != Index(j) && old(n.items[j]).VNode?
      ensures forall o | o in old(n.items[j].node.repr) :: Same(o)
      ensures slot.VNode? ==> slot.node.repr !! old(n.items[j].node.repr)
    {
      SiblingKept(nodes, p, i, extra, Index(j), old(n.items[j]).node);
    }
    ItemWritten(n, p[i].index, slot, extra);
  }

  twostate lemma LiftOne(nodes: seq<Node<Key>>, new p: Path, new i: nat, new value: Value<Key>, new extra: set<Node<Key>>)
    requires i < |nodes| && old(Passed(nodes, p)) && Frame(nodes, extra) && Assigned(nodes[|nodes| - 1], p[|nodes| - 1], value)
    requires SlotAt(nodes, i, value).Valid() && extra !! old(nodes[0].repr)
    requires value.VNode? ==> value.node in extra && value.node.repr == extra
    ensures nodes[i].Valid() && nodes[i].Abs() == Write(old(nodes[i].Abs()), p[i], SlotAt(nodes, i, value).Abs())
  {
    if nodes[i].isDict { LiftDict(nodes, p, i, value, extra); } else { LiftList(nodes, p, i, value, extra); }
  }

  /** One step up: the tree below the i-th container is the one `Put` gives. */
  lemma PutUp(t: Tree, child: Tree, after: Tree, key: Key, rest: Path, value: Tree)
    requires rest != [] && Step(t, key) == At(child) && after == Put(child, rest, value)
    ensures Write(t, key, after) == Put(t, [key] + rest, value)
  {}

  /** From the written container up, every container on the way is valid and stands for the written tree. */
  twostate lemma LiftAll(nodes: seq<Node<Key>>, new p: Path, new i: nat, new value: Value<Key>, new extra: set<Node<Key>>)
    requires i < |nodes| == |p| && old(Passed(nodes, p)) && Frame(nodes, extra) && Assigned(nodes[|nodes| - 1], p[|p| - 1], value)
    requires value.Valid() && extra !! old(nodes[0].repr)
    requires value.VNode? ==> value.node in extra && value.node.repr == extra
    ensures nodes[i].Valid() && nodes[i].Abs() == Put(old(nodes[i].Abs()), p[i..], value.Abs())
    decreases |nodes| - i
  {
    if i + 1 < |nodes| {
      LiftAll(nodes, p, i + 1, value, extra);
      assert old(StepInto(VNode(nodes[i]), p[i])) == Slot(VNode(nodes[i + 1]));
      assert old(Below(VNode(nodes[i]), p[i])) == Slot(VNode(nodes[i + 1]));
      PutUp(old(nodes[i].Abs()), old(nodes[i + 1].Abs()), nodes[i + 1].Abs(), p[i], p[i + 1..], value.Abs());
      assert p[i..] == [p[i]] + p[i + 1..];
    } else {
      assert p[i..] == [p[i]];
    }
    LiftOne(nodes, p, i, value, extra);
  }

  /** The assignment itself; the containers on the way take the value's containers into their `repr`. */
  method AssignSlot(c: Node<Key>, key: Key, value: Value<Key>, ghost nodes: seq<Node<Key>>, ghost extra: set<Node<Key>>)
    requires nodes != [] && c == nodes[|nodes| - 1] && Assignable(VNode(c), key)
    requires forall i, j | 0 <= i < j < |nodes| :: nodes[i] != nodes[j]
    modifies nodes
    ensures Frame(nodes, extra) && Assigned(c, key, value)
  {
    if c.isDict {
      c.entries := c.entries[key := value];
    } else {
      c.items := c.items[key.index := value];
    }
    forall n | n in nodes { n.repr := n.repr + extra; }
  }

  /** `_set_path`: a missing path or an illegal assignment changes nothing; otherwise one slot of one container
      is written, and the whole tree is the one `Put` gives.  The value is a leaf or a separate tree. */
  method SetPathInPlace(root: Node<Key>, p: Path, value: Value<Key>)
    requires root.Valid() && value.Valid() && (value.VNode? ==> value.node.repr !! root.repr)
    modifies root.repr
    ensures root.Valid() && value.Valid() && value.Abs() == old(value.Abs())
    ensures root.Abs() == Put(old(root.Abs()), p, old(value.Abs()))
  {
    if p == [] { return; }
    var found, nodes := Descend(root, p);
    if found.Missing? {
      UnsettableIsNoOp(root.Abs(), p, value.Abs());
      return;
    }
    ghost var extra := if value.VNode? then value.node.repr else {};
    assert value.VNode? ==> value.node.Valid();
    PassedDistinct(nodes, p);
    AssignSlot(found.v.node, p[|p| - 1], value, nodes, extra);
    SlotKept(value);
    LiftAll(nodes, p, 0, value, extra);
    assert p[0..] == p;
  }

  lemma PassedDistinct(nodes: seq<Node<Key>>, p: Path)
    requires Passed(nodes, p)
    ensures forall i, j | 0 <= i < j < |nodes| :: nodes[i] != nodes[j]
    ensures forall i | 0 <= i < |nodes| :: nodes[i] in nodes[0].repr
  {}

  /** What a slot holds: a list, a dictionary, or neither. */
  predicate IsList(v: Value<Key>)
    reads if v.VNode? then {v.node} else {}
  {
    v.VNode? && !v.node.isDict
  }

  predicate IsDict(v: Value<Key>)
    reads if v.VNode? then {v.node} else {}
  {
    v.VNode? && v.node.isDict
  }

  lemma KindsAgree(v: Value<Key>)
    requires v.Valid()
    ensures IsList(v) == v.Abs().List? && IsDict(v) == v.Abs().Dict?
  {}

  /** `_set_leaf_typed`: a list leaf only takes a list, a dictionary leaf only a dictionary. */
  method SetLeafTypedInPlace(root: Node<Key>, p: Path, value: Value<Key>)
    requires root.Valid() && value.Valid() && (value.VNode? ==> value.node.repr !! root.repr)
    modifies root.repr
    ensures root.Valid() && value.Valid() && value.Abs() == old(value.Abs())
    ensures root.Abs() == PutTyped(old(root.Abs()), p, old(value.Abs()))
  {
    var cur := LeafAtInPlace(VNode(root), p);
    KindsAgree(value);
    if cur.Slot? { KindsAgree(cur.v); }
    if cur.Slot? && IsList(cur.v) {
      if IsList(value) { SetPathInPlace(root, p, value); }
      return;
    }
    if cur.Slot? && IsDict(cur.v) {
      if IsDict(value) { SetPathInPlace(root, p, value); }
      return;
    }
    SetPathInPlace(root, p, value);
  }
}
