/** lib/leaf_paths.py: dotted and indexed addressing of payload leaves. */
module LeafPaths {
  import opened Json

  /** A path token: all-digit tokens are integers, every other token is a name.  The same two kinds of key
      occur in dictionaries, since writing through an integer token inserts an integer key. */
  datatype Key = Name(name: string) | Index(index: nat)

  type Tree = Json<Key>
  type Path = seq<Key>

  datatype Lookup = Nowhere | At(v: Tree)

  /** `node[key]`: dictionaries by key, lists and strings by index in range; every other use raises. */
  function Step(node: Tree, key: Key): Lookup {
    match node
    case Dict(m) => if key in m then At(m[key]) else Nowhere
    case List(xs) => if key.Index? && key.index < |xs| then At(xs[key.index]) else Nowhere
    case Str(s) => if key.Index? && key.index < |s| then At(Str([s[key.index]])) else Nowhere
    case _ => Nowhere
  }

  function Reach(t: Tree, p: Path): Lookup
    decreases |p|
  {
    if p == [] then At(t)
    else match Step(t, p[0])
      case Nowhere => Nowhere
      case At(c) => Reach(c, p[1..])
  }

  /** `_leaf_at`: the value at the path, None where the path does not resolve. */
  function Leaf(t: Tree, p: Path): Tree {
    match Reach(t, p) case Nowhere => Null case At(v) => v
  }

  /** `node[key] = value` where the assignment is legal, nothing where it raises. */
  function Write(node: Tree, key: Key, value: Tree): Tree {
    match node
    case Dict(m) => Dict(m[key := value])
    case List(xs) => if key.Index? && key.index < |xs| then List(xs[key.index := value]) else node
    case _ => node
  }

  /** `_set_path`: the whole tree after the write. */
  function Put(t: Tree, p: Path, value: Tree): Tree
    decreases |p|
  {
    if p == [] then t
    else if |p| == 1 then Write(t, p[0], value)
    else match Step(t, p[0])
      case Nowhere => t
      case At(c) => Write(t, p[0], Put(c, p[1..], value))
  }

  method LeafAt(t: Tree, p: Path) returns (r: Tree)
    ensures r == Leaf(t, p)
  {
    var node := t;
    for i := 0 to |p|
      invariant Reach(t, p) == Reach(node, p[i..])
    {
      match Step(node, p[i]) {
        case Nowhere => return Null;
        case At(c) => node := c;
      }
    }
    return node;
  }

  method HasPath(t: Tree, p: Path) returns (r: bool)
    ensures r <==> p != [] && Reach(t, p).At?
  {
    if p == [] { return false; }
    var node := t;
    for i := 0 to |p|
      invariant Reach(t, p) == Reach(node, p[i..])
    {
      match Step(node, p[i]) {
        case Nowhere => return false;
        case At(c) => node := c;
      }
    }
    return true;
  }

  // ---------------------------------------------------------------- lens laws

  /** The write lands: every step but the last resolves and the last assignment is legal. */
  predicate Settable(t: Tree, p: Path)
    decreases |p|
  {
    p != [] &&
    (t.Dict? || (t.List? && p[0].Index? && p[0].index < |t.xs|)) &&
    (|p| > 1 ==> Step(t, p[0]).At? && Settable(Step(t, p[0]).v, p[1..]))
  }

  lemma StepAfterWrite(t: Tree, key: Key, v: Tree)
    requires Settable(t, [key])
    ensures Step(Write(t, key, v), key) == At(v)
  {}

  lemma StepElsewhere(t: Tree, key: Key, v: Tree, other: Key)
    requires other != key
    ensures Step(Write(t, key, v), other) == Step(t, other)
  {}

  lemma WriteSame(t: Tree, key: Key)
    requires Settable(t, [key]) && Step(t, key).At?
    ensures Write(t, key, Step(t, key).v) == t
  {}

  lemma WriteTwice(t: Tree, key: Key, v1: Tree, v2: Tree)
    requires Settable(t, [key])
    ensures Write(Write(t, key, v1), key, v2) == Write(t, key, v2)
  {}

  lemma {:induction false} UnsettableIsNoOp(t: Tree, p: Path, v: Tree)
    requires !Settable(t, p)
    ensures Put(t, p, v) == t
    decreases |p|
  {
    if |p| > 1 && Step(t, p[0]).At? {
      var c := Step(t, p[0]).v;
      if !Settable(c, p[1..]) {
        UnsettableIsNoOp(c, p[1..], v);
        if Settable(t, [p[0]]) { WriteSame(t, p[0]); }
      }
    }
  }

  /** Reading below the written path reads inside the written value. */
  lemma {:induction false} ReadBelowWrite(t: Tree, p: Path, v: Tree, rest: Path)
    requires Settable(t, p)
    ensures Reach(Put(t, p, v), p + rest) == Reach(v, rest)
    decreases |p|
  {
    var whole := p + rest;
    assert whole[0] == p[0] && whole[1..] == p[1..] + rest;
    if |p| == 1 {
      StepAfterWrite(t, p[0], v);
      assert whole[1..] == rest;
    } else {
      var c := Step(t, p[0]).v;
      ReadBelowWrite(c, p[1..], v, rest);
      StepAfterWrite(t, p[0], Put(c, p[1..], v));
    }
  }

  /** Get after set, exactly: it reads the value back iff the write lands or the value was already there. */
  lemma GetAfterSet(t: Tree, p: Path, v: Tree)
    requires p != []
    ensures Reach(Put(t, p, v), p) == At(v) <==> Settable(t, p) || Reach(t, p) == At(v)
  {}

  lemma {:induction false} SetAfterGet(t: Tree, p: Path)
    requires Reach(t, p).At?
    ensures Put(t, p, Leaf(t, p)) == t
    decreases |p|
  {
    if !Settable(t, p) {
      UnsettableIsNoOp(t, p, Leaf(t, p));
    } else if |p| == 1 {
      assert Reach(t, p) == Step(t, p[0]);
    } else {
      var c := Step(t, p[0]).v;
      SetAfterGet(c, p[1..]);
      WriteSame(t, p[0]);
    }
  }

  lemma {:induction false} SetAfterSet(t: Tree, p: Path, v1: Tree, v2: Tree)
    ensures Put(Put(t, p, v1), p, v2) == Put(t, p, v2)
    decreases |p|
  {
    if !Settable(t, p) {
      UnsettableIsNoOp(t, p, v1);
    } else if |p| == 1 {
      WriteTwice(t, p[0], v1, v2);
    } else {
      var c := Step(t, p[0]).v;
      var c1 := Put(c, p[1..], v1);
      SetAfterSet(c, p[1..], v1, v2);
      StepAfterWrite(t, p[0], c1);
      assert Put(t, p, v1) == Write(t, p[0], c1);
      WriteTwice(t, p[0], c1, Put(c1, p[1..], v2));
    }
  }

  predicate Diverge(p: Path, q: Path) {
    !(p <= q) && !(q <= p)
  }

  /** A write never disturbs a path that branches off from its own. */
  lemma {:induction false} NonInterference(t: Tree, p: Path, v: Tree, q: Path)
    requires Diverge(p, q)
    ensures Reach(Put(t, p, v), q) == Reach(t, q)
    decreases |p|
  {
    if !Settable(t, p) {
      UnsettableIsNoOp(t, p, v);
    } else if p[0] != q[0] {
      StepElsewhere(t, p[0], if |p| == 1 then v else Put(Step(t, p[0]).v, p[1..], v), q[0]);
    } else {
      assert p == [p[0]] + p[1..] && q == [q[0]] + q[1..];
      assert |p| > 1;
      var c := Step(t, p[0]).v;
      NonInterference(c, p[1..], v, q[1..]);
      StepAfterWrite(t, p[0], Put(c, p[1..], v));
    }
  }

  /** Reading above the written path reads the old subtree with the write made inside it. */
  lemma {:induction false} ReadAboveWrite(t: Tree, q: Path, rest: Path, v: Tree)
    requires rest != [] && Reach(t, q).At?
    ensures Reach(Put(t, q + rest, v), q) == At(Put(Reach(t, q).v, rest, v))
    decreases |q|
  {
    if q == [] {
      assert q + rest == rest;
    } else {
      var p := q + rest;
      assert p[0] == q[0] && p[1..] == q[1..] + rest && |p| > 1;
      var c := Step(t, q[0]).v;
      ReadAboveWrite(c, q[1..], rest, v);
      if Settable(t, [q[0]]) {
        StepAfterWrite(t, q[0], Put(c, p[1..], v));
      } else {
        StringStepAtom(t, q[0], q[1..], rest, v);
      }
    }
  }

  /** Indexing a string yields a string, which no write changes. */
  lemma {:induction false} StringStepAtom(t: Tree, key: Key, q: Path, rest: Path, v: Tree)
    requires Step(t, key).At? && !Settable(t, [key]) && Reach(Step(t, key).v, q).At?
    ensures Put(Step(t, key).v, q + rest, v) == Step(t, key).v
    ensures Put(Reach(Step(t, key).v, q).v, rest, v) == Reach(Step(t, key).v, q).v
  {
    StringsStayPut(Step(t, key).v, q + rest, v);
    StringsReachStrings(Step(t, key).v, q);
    StringsStayPut(Reach(Step(t, key).v, q).v, rest, v);
  }

  lemma StringsStayPut(t: Tree, p: Path, v: Tree)
    requires t.Str?
    ensures Put(t, p, v) == t
  {}

  lemma {:induction false} StringsReachStrings(t: Tree, q: Path)
    requires t.Str? && Reach(t, q).At?
    ensures Reach(t, q).v.Str?
    decreases |q|
  {
    if q != [] { StringsReachStrings(Step(t, q[0]).v, q[1..]); }
  }

  // ---------------------------------------------------------------- type-preserving writes

  /** `_set_leaf_typed`: a list leaf only ever takes a list, a dictionary leaf a dictionary. */
  function PutTyped(t: Tree, p: Path, v: Tree): Tree {
    var cur := Leaf(t, p);
    if cur.List? then (if v.List? then Put(t, p, v) else t)
    else if cur.Dict? then (if v.Dict? then Put(t, p, v) else t)
    else Put(t, p, v)
  }

  predicate SameContainer(a: Tree, b: Tree) {
    (a.List? && b.List?) || (a.Dict? && b.Dict?)
  }

  lemma PutKeepsContainer(t: Tree, p: Path, v: Tree)
    requires t.List? || t.Dict?
    ensures SameContainer(t, Put(t, p, v))
  {}

  /** A typed write takes effect, and does so strictly above `q`, replacing what `q` goes through. */
  predicate ReplacesAncestor(t: Tree, p: Path, v: Tree, q: Path) {
    p < q && p != [] && SameContainer(Leaf(t, p), v)
  }

  /** One typed write keeps the list or dictionary at `q` what it was, except exactly when it replaces an
      ancestor container by one that has no such container at the same place. */
  lemma TypedWriteKeepsContainer(t: Tree, p: Path, v: Tree, q: Path)
    requires Leaf(t, q).List? || Leaf(t, q).Dict?
    ensures SameContainer(Leaf(t, q), Leaf(PutTyped(t, p, v), q)) <==>
      (ReplacesAncestor(t, p, v, q) ==> SameContainer(Leaf(t, q), Leaf(v, q[|p|..])))
  {
    if p == [] {
    } else if Diverge(p, q) {
      NonInterference(t, p, v, q);
    } else if p == q {
      GetAfterSet(t, p, v);
      if !Settable(t, p) { UnsettableIsNoOp(t, p, v); }
    } else if p < q {
      assert q == p + q[|p|..];
      ReachesPrefix(t, p, q[|p|..]);
      if SameContainer(Leaf(t, p), v) {
        ResolvedIsSettable(t, p);
        ReadBelowWrite(t, p, v, q[|p|..]);
      }
    } else {
      var rest := p[|q|..];
      assert p == q + rest;
      ReadAboveWrite(t, q, rest, v);
      PutKeepsContainer(Reach(t, q).v, rest, v);
    }
  }

  /** If `p + rest` reaches a container then `p` reaches one. */
  lemma {:induction false} ReachesPrefix(t: Tree, p: Path, rest: Path)
    requires rest != [] && (Leaf(t, p + rest).List? || Leaf(t, p + rest).Dict?)
    ensures Reach(t, p).At? && (Leaf(t, p).List? || Leaf(t, p).Dict?)
    ensures Reach(t, p + rest) == Reach(Leaf(t, p), rest)
    decreases |p|
  {
    if p == [] {
      assert p + rest == rest;
      if t.Str? { StringsReachStrings(t, rest); }
    } else {
      var whole := p + rest;
      assert whole[0] == p[0] && whole[1..] == p[1..] + rest;
      ReachesPrefix(Step(t, p[0]).v, p[1..], rest);
    }
  }

  lemma {:induction false} ResolvedIsSettable(t: Tree, p: Path)
    requires p != [] && (Leaf(t, p).List? || Leaf(t, p).Dict?)
    ensures Settable(t, p)
    decreases |p|
  {
    if t.Str? {
      StringsReachStrings(t, p);
    } else if |p| > 1 {
      ResolvedIsSettable(Step(t, p[0]).v, p[1..]);
    } else {
      assert Reach(t, p) == Step(t, p[0]);
    }
  }

  datatype Edit = Edit(path: Path, value: Tree)

  function PutAll(t: Tree, edits: seq<Edit>): Tree
    decreases |edits|
  {
    if edits == [] then t
    else PutTyped(PutAll(t, edits[..|edits| - 1]), edits[|edits| - 1].path, edits[|edits| - 1].value)
  }

  /** Any sequence of typed writes that never aims at a proper ancestor of `q` keeps a list leaf a list and
      a dictionary leaf a dictionary. */
  lemma {:induction false} TypedWritesKeepContainers(t: Tree, edits: seq<Edit>, q: Path)
    requires Leaf(t, q).List? || Leaf(t, q).Dict?
    requires forall i | 0 <= i < |edits| :: !(edits[i].path < q) || edits[i].path == []
    ensures SameContainer(Leaf(t, q), Leaf(PutAll(t, edits), q))
    decreases |edits|
  {
    if edits != [] {
      var last := edits[|edits| - 1];
      TypedWritesKeepContainers(t, edits[..|edits| - 1], q);
      TypedWriteKeepsContainer(PutAll(t, edits[..|edits| - 1]), last.path, last.value, q);
    }
  }

  /** An ancestor write does lose the list: `{a: {b: [..]}}` after writing `{}` at `a`. */
  lemma AncestorWriteLosesList()
    ensures var t := Dict(map[Name("a") := Dict(map[Name("b") := List([Null])])]);
      var q := [Name("a"), Name("b")];
      Leaf(t, q).List? && Leaf(PutTyped(t, [Name("a")], Dict(map[])), q).Null?
  {}
}
