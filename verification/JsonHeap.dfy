/** JSON payloads as the source holds them: dictionaries and lists are objects, referred to by their parent and
    written in place; scalars are held by value. */
module JsonHeap {
  import opened Json

  /** A slot of a container: a leaf held by value or a container held by reference. */
  datatype Value<K(==)> = VLeaf(leaf: Json<K>) | VNode(node: Node<K>) {
    ghost predicate Valid()
      reads if VNode? then {node} + node.repr else {}
      decreases if VNode? then node.repr else {}, 1
    {
      if VNode? then node.Valid() else !leaf.Dict? && !leaf.List?
    }

    ghost function Abs(): Json<K>
      requires Valid()
      reads if VNode? then {node} + node.repr else {}
      decreases if VNode? then node.repr else {}, 1
    {
      if VNode? then node.Abs() else leaf
    }
  }

  ghost predicate Apart<K>(v: Value<K>, w: Value<K>)
    reads if v.VNode? then {v.node} else {}, if w.VNode? then {w.node} else {}
  {
    v.VNode? && w.VNode? ==> v.node.repr !! w.node.repr
  }

  /** A dictionary or a list; `repr` holds every container of its subtree, and no container has two parents. */
  class Node<K(==)> {
    const isDict: bool
    var entries: map<K, Value<K>>
    var items: seq<Value<K>>
    ghost var repr: set<Node<K>>

    ghost predicate Valid()
      reads this, repr
      decreases repr, 0
    {
      && this in repr
      && (forall k | k in entries && entries[k].VNode? :: entries[k].node in repr && entries[k].node.repr <= repr - {this})
      && (forall k | k in entries :: entries[k].Valid())
      && (forall j, k | j in entries && k in entries && j != k :: Apart(entries[j], entries[k]))
      && (forall i | 0 <= i < |items| && items[i].VNode? :: items[i].node in repr && items[i].node.repr <= repr - {this})
      && (forall i | 0 <= i < |items| :: items[i].Valid())
      && (forall i, j | 0 <= i < j < |items| :: Apart(items[i], items[j]))
      && (if isDict then items == [] else entries == map[])
    }

    constructor (isDict: bool)
      ensures Valid() && fresh(repr) && this.isDict == isDict && entries == map[] && items == []
      ensures Abs() == if isDict then Dict(map[]) else List([])
    {
      this.isDict, entries, items, repr := isDict, map[], [], {this};
    }

    ghost function Abs(): Json<K>
      requires Valid()
      reads this, repr
      decreases repr, 0
    {
      if isDict then Dict(map k | k in entries :: entries[k].Abs())
      else List(seq(|items|, i requires 0 <= i < |items| && Valid() reads this, repr => items[i].Abs()))
    }
  }

  twostate predicate Same<K>(o: Node<K>)
    reads o
  {
    unchanged(o)
  }

  /** A slot none of whose containers changed stands for what it stood for. */
  twostate lemma SlotKept<K>(v: Value<K>)
    requires old(v.Valid()) && (v.VNode? ==> forall o | o in old(v.node.repr) :: Same(o))
    ensures v.Valid() && v.Abs() == old(v.Abs()) && (v.VNode? ==> v.node.repr == old(v.node.repr))
  {
    if v.VNode? {
      assert old(v.node.Valid());
      forall o | o in old(v.node.repr) ensures unchanged(o) { assert Same(o); }
    }
  }

  /** Slot `key` of dictionary `n` now holds `value`; every other slot kept its containers. */
  twostate lemma EntryWritten<K>(n: Node<K>, new key: K, new value: Value<K>, new extra: set<Node<K>>)
    requires old(n.Valid()) && n.isDict && value.Valid()
    requires n.repr == old(n.repr) + extra && (value.VNode? ==> value.node.repr <= n.repr - {n} && value.node in value.node.repr)
    requires n.entries == old(n.entries)[key := value] && n.items == old(n.items)
    requires forall k | k in old(n.entries) && k != key && old(n.entries[k]).VNode? ::
               (forall o | o in old(n.entries[k].node.repr) :: Same(o)) && (value.VNode? ==> value.node.repr !! old(n.entries[k].node.repr))
    ensures n.Valid() && n.Abs() == Dict(old(n.Abs()).m[key := value.Abs()])
  {
    forall k | k in old(n.entries) && k != key
      ensures n.entries[k].Valid() && n.entries[k].Abs() == old(n.entries[k].Abs())
      ensures n.entries[k].VNode? ==> n.entries[k].node.repr == old(n.entries[k].node.repr)
    {
      SlotKept(old(n.entries[k]));
    }
    forall j, k | j in n.entries && k in n.entries && j != k ensures Apart(n.entries[j], n.entries[k]) {
      if j != key && k != key { assert old(Apart(n.entries[j], n.entries[k])); }
    }
    ValidDict(n);
    AbsOfDict(n, old(n.Abs()).m, key, value);
  }

  lemma ValidDict<K>(n: Node<K>)
    requires n.isDict && n in n.repr && n.items == []
    requires forall k | k in n.entries ::
      n.entries[k].Valid() && (n.entries[k].VNode? ==> n.entries[k].node in n.repr && n.entries[k].node.repr <= n.repr - {n})
    requires forall j, k | j in n.entries && k in n.entries && j != k :: Apart(n.entries[j], n.entries[k])
    ensures n.Valid()
  {}

  lemma AbsOfDict<K>(n: Node<K>, before: map<K, Json<K>>, key: K, value: Value<K>)
    requires n.Valid() && n.isDict && key in n.entries && n.entries[key] == value && value.Valid()
    requires n.entries.Keys == before.Keys + {key}
    requires forall k | k in n.entries && k != key :: n.entries[k].Abs() == before[k]
    ensures n.Abs() == Dict(before[key := value.Abs()])
  {
    var now := n.Abs().m;
    forall k | k in n.entries ensures now[k] == n.entries[k].Abs() {}
    assert now == before[key := value.Abs()];
  }

  /** The same for a list. */
  twostate lemma ItemWritten<K>(n: Node<K>, new index: nat, new value: Value<K>, new extra: set<Node<K>>)
    requires old(n.Valid()) && !n.isDict && value.Valid() && index < |old(n.items)|
    requires n.repr == old(n.repr) + extra && (value.VNode? ==> value.node.repr <= n.repr - {n} && value.node in value.node.repr)
    requires n.items == old(n.items)[index := value] && n.entries == old(n.entries)
    requires forall i | 0 <= i < |old(n.items)| && i != index && old(n.items[i]).VNode? ::
               (forall o | o in old(n.items[i].node.repr) :: Same(o)) && (value.VNode? ==> value.node.repr !! old(n.items[i].node.repr))
    ensures n.Valid() && n.Abs() == List(old(n.Abs()).xs[index := value.Abs()])
  {
    forall i | 0 <= i < |old(n.items)| && i != index
      ensures n.items[i].Valid() && n.items[i].Abs() == old(n.items[i].Abs())
      ensures n.items[i].VNode? ==> n.items[i].node.repr == old(n.items[i].node.repr)
    {
      SlotKept(old(n.items[i]));
    }
    assert forall i, j | 0 <= i < j < |n.items| && i != index && j != index :: old(Apart(n.items[i], n.items[j]));
    assert n.Valid();
    var before := old(n.Abs()).xs;
    forall i | 0 <= i < |n.items| ensures n.Abs().xs[i] == before[index := value.Abs()][i] {}
  }

  /** `d[key] = value` for a leaf or a separate tree. */
  method SetEntry<K>(n: Node<K>, key: K, value: Value<K>)
    requires n.Valid() && n.isDict && value.Valid() && (value.VNode? ==> value.node.repr !! n.repr)
    modifies n
    ensures n.Valid() && n.Abs() == Dict(old(n.Abs()).m[key := old(value.Abs())])
    ensures n.repr == old(n.repr) + (if value.VNode? then old(value.node.repr) else {})
    ensures n.entries == old(n.entries)[key := value]
    ensures forall j | j in old(n.entries) && j != key && old(n.entries)[j].VNode? ::
              n.entries[j].node.repr == old(n.entries[j].node.repr)
  {
    assert value.VNode? ==> value.node.Valid();
    n.entries := n.entries[key := value];
    if value.VNode? { n.repr := n.repr + value.node.repr; }
    SlotKept(value);
    EntryWritten(n, key, value, if value.VNode? then value.node.repr else {});
  }

  /** Only the subtree of one entry's container changed, perhaps growing by `extra`, which the parent took in. */
  twostate lemma EntryRewalked<K>(n: Node<K>, new key: K, new extra: set<Node<K>>)
    requires old(n.Valid()) && n.isDict && key in old(n.entries) && old(n.entries[key]).VNode?
    requires var child := old(n.entries[key]).node; child.Valid() && child.repr == old(child.repr) + extra
    requires extra !! old(n.repr) && n.repr == old(n.repr) + extra && n.entries == old(n.entries) && n.items == old(n.items)
    requires forall o | o in old(n.repr) && o != n && o !in old(n.entries[key].node.repr) :: Same(o)
    ensures n.Valid() && n.Abs() == Dict(old(n.Abs()).m[key := old(n.entries[key]).node.Abs()])
    ensures forall j | j in n.entries && j != key && n.entries[j].VNode? :: n.entries[j].node.repr == old(n.entries[j].node.repr)
  {
    var child := old(n.entries[key]).node;
    forall j | j in old(n.entries) && j != key && old(n.entries[j]).VNode?
      ensures forall o | o in old(n.entries[j].node.repr) :: Same(o)
      ensures child.repr !! old(n.entries[j].node.repr) && n.entries[j].node.repr == old(n.entries[j].node.repr)
    {
      assert old(Apart(n.entries[j], n.entries[key]));
      assert old(n.entries[j].Valid()) && old(n.entries[j].node.Valid());
      assert Same(old(n.entries[j]).node);
    }
    assert n.entries == old(n.entries)[key := VNode(child)];
    EntryWritten(n, key, VNode(child), extra);
  }

  /** The same for a list. */
  twostate lemma ItemRewalked<K>(n: Node<K>, new i: nat, new extra: set<Node<K>>)
    requires old(n.Valid()) && !n.isDict && i < |old(n.items)| && old(n.items[i]).VNode?
    requires var child := old(n.items[i]).node; child.Valid() && child.repr == old(child.repr) + extra
    requires extra !! old(n.repr) && n.repr == old(n.repr) + extra && n.entries == old(n.entries) && n.items == old(n.items)
    requires forall o | o in old(n.repr) && o != n && o !in old(n.items[i].node.repr) :: Same(o)
    ensures n.Valid() && n.Abs() == List(old(n.Abs()).xs[i := old(n.items[i]).node.Abs()])
    ensures forall j | 0 <= j < |n.items| && j != i && n.items[j].VNode? :: n.items[j].node.repr == old(n.items[j].node.repr)
  {
    var child := old(n.items[i]).node;
    forall j | 0 <= j < |old(n.items)| && j != i && old(n.items[j]).VNode?
      ensures forall o | o in old(n.items[j].node.repr) :: Same(o)
      ensures child.repr !! old(n.items[j].node.repr) && n.items[j].node.repr == old(n.items[j].node.repr)
    {
      assert old(Apart(n.items[if i < j then i else j], n.items[if i < j then j else i]));
      assert old(n.items[j].Valid()) && old(n.items[j].node.Valid());
      assert Same(old(n.items[j]).node);
    }
    assert n.items == old(n.items)[i := VNode(child)];
    ItemWritten(n, i, VNode(child), extra);
  }

  /** Shallow view of a slot: nested containers read as empty ones. */
  function Shallow<K>(v: Value<K>): Json<K> {
    match v
    case VLeaf(t) => t
    case VNode(node) => if node.isDict then Dict(map[]) else List([])
  }

  /** The view shows the slot's kind, and a leaf's whole value. */
  lemma ShallowShows<K>(v: Value<K>)
    requires v.Valid()
    ensures v.VLeaf? ==> v.Abs() == Shallow(v)
    ensures v.VNode? ==> v.Abs() == v.node.Abs() && v.node.Valid()
    ensures Shallow(v).Dict? == v.Abs().Dict? && Shallow(v).List? == v.Abs().List?
    ensures v.VNode? <==> v.Abs().Dict? || v.Abs().List?
  {}

  /** The subtree's containers are those it had and new ones. */
  twostate predicate Grew<K>(n: Node<K>)
    reads n
  {
    old(n.repr) <= n.repr && forall o | o in n.repr :: o in old(n.repr) || fresh(o)
  }

  /** A dictionary part of the way from `before` to `goal`. */
  ghost function Mix<K>(todo: set<K>, before: map<K, Json<K>>, goal: map<K, Json<K>>): map<K, Json<K>>
    requires before.Keys == goal.Keys
  {
    map k | k in before :: if k in todo then before[k] else goal[k]
  }

  lemma MixEnds<K>(before: map<K, Json<K>>, goal: map<K, Json<K>>)
    requires before.Keys == goal.Keys
    ensures Mix(before.Keys, before, goal) == before && Mix({}, before, goal) == goal
  {}

  lemma MixStep<K>(todo: set<K>, before: map<K, Json<K>>, goal: map<K, Json<K>>, k: K)
    requires before.Keys == goal.Keys && k in todo && k in before
    ensures Mix(todo, before, goal)[k] == before[k]
    ensures Mix(todo, before, goal)[k := goal[k]] == Mix(todo - {k}, before, goal)
  {}

  /** A list part of the way from `before` to `goal`. */
  ghost function ListMix<K>(i: nat, before: seq<Json<K>>, goal: seq<Json<K>>): seq<Json<K>>
    requires |before| == |goal|
  {
    seq(|before|, j requires 0 <= j < |before| => if j < i then goal[j] else before[j])
  }

  lemma ListMixEnds<K>(before: seq<Json<K>>, goal: seq<Json<K>>)
    requires |before| == |goal|
    ensures ListMix(0, before, goal) == before && ListMix(|before|, before, goal) == goal
  {}

  lemma ListMixStep<K>(i: nat, before: seq<Json<K>>, goal: seq<Json<K>>)
    requires i < |before| == |goal|
    ensures ListMix(i, before, goal)[i] == before[i]
    ensures ListMix(i, before, goal)[i := goal[i]] == ListMix(i + 1, before, goal)
  {}

  /** Where a loop over a dictionary's entries stands. */
  ghost predicate Partway<K>(n: Node<K>, todo: set<K>, before: map<K, Json<K>>, goal: map<K, Json<K>>)
    reads n, n.repr
  {
    n.Valid() && n.isDict && before.Keys == goal.Keys && todo <= before.Keys && n.Abs() == Dict(Mix(todo, before, goal))
  }

  /** What a rewrite that looks at leaves only leaves of a dictionary. */
  function LeavesRewritten<K>(f: (K, Json<K>) -> Json<K>, m: map<K, Json<K>>): map<K, Json<K>> {
    map k | k in m :: if Container(m[k]) then m[k] else f(k, m[k])
  }

  predicate LeafToLeaf<K>(f: (K, Json<K>) -> Json<K>, m: map<K, Json<K>>) {
    forall k | k in m && !Container(m[k]) :: !Container(f(k, m[k]))
  }

  /** One key: a leaf is overwritten, a container passed by. */
  method RewriteLeaf<K>(n: Node<K>, f: (K, Json<K>) -> Json<K>, k: K)
    requires n.Valid() && n.isDict && k in n.entries && (Container(n.Abs().m[k]) || !Container(f(k, n.Abs().m[k])))
    modifies n
    ensures n.Valid() && n.repr == old(n.repr) && n.entries.Keys == old(n.entries.Keys)
    ensures n.Abs() == Dict(old(n.Abs()).m[k := if Container(old(n.Abs()).m[k]) then old(n.Abs()).m[k] else f(k, old(n.Abs()).m[k])])
  {
    assert n.Abs().m[k] == n.entries[k].Abs();
    ShallowShows(n.entries[k]);
    if n.entries[k].VLeaf? {
      SetEntry(n, k, VLeaf(f(k, n.entries[k].leaf)));
    } else {
      assert n.Abs().m == n.Abs().m[k := n.Abs().m[k]];
    }
  }

  /** A loop over the keys that overwrites leaves; containers are passed by. */
  method RewriteLeaves<K>(n: Node<K>, f: (K, Json<K>) -> Json<K>)
    requires n.Valid() && n.isDict && LeafToLeaf(f, n.Abs().m)
    modifies n
    ensures n.Valid() && n.repr == old(n.repr)
    ensures n.Abs() == Dict(LeavesRewritten(f, old(n.Abs()).m))
  {
    ghost var before, goal := n.Abs().m, LeavesRewritten(f, n.Abs().m);
    var todo := n.entries.Keys;
    MixEnds(before, goal);
    while todo != {}
      invariant Partway(n, todo, before, goal) && n.repr == old(n.repr)
      decreases todo
    {
      var k :| k in todo;
      MixStep(todo, before, goal, k);
      RewriteLeaf(n, f, k);
      todo := todo - {k};
    }
  }
}
