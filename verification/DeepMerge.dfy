/** lib/dict_merge.py: the recursive merge of a preset over a baseline. */
module DeepMerge {
  import opened Json

  type Tree = Json<string>

  /** `over` laid on `base` at one slot: two dictionaries merge key by key, anything else is replaced. */
  function Merge(base: Tree, over: Tree): Tree
    decreases over
  {
    if base.Dict? && over.Dict? then
      Dict(map k | k in base.m.Keys + over.m.Keys ::
        if k !in over.m then base.m[k]
        else if k in base.m then Merge(base.m[k], over.m[k])
        else over.m[k])
    else over
  }

  /** None reads as an empty dictionary on either side. */
  function OrEmpty(d: Tree): Tree {
    if d.Dict? then d else Dict(map[])
  }

  /** The merge itself: a fresh dictionary filled key by key; None on either side is an empty dictionary. */
  method DeepMerge(base: Tree, over: Tree) returns (out: Tree)
    requires base.Dict? || base.Null?
    requires over.Dict? || over.Null?
    ensures out == Merge(if base == Null then Dict(map[]) else base, if over == Null then Dict(map[]) else over)
    decreases OrEmpty(over)
  {
    var b, o := OrEmpty(base).m, OrEmpty(over).m;
    var m := b;
    var todo := o.Keys;
    while todo != {}
      invariant todo <= o.Keys
      invariant m.Keys == b.Keys + (o.Keys - todo)
      invariant forall k | k in m :: m[k] == (if k in todo then b[k] else Merged(b, o, k))
      decreases todo
    {
      var k :| k in todo;
      var v := o[k];
      if k in m && m[k].Dict? && v.Dict? {
        v := DeepMerge(m[k], v);
      }
      m := m[k := v];
      todo := todo - {k};
    }
    out := Dict(m);
    MergedIsMerge(b, o, m);
  }

  function Merged(base: map<string, Tree>, over: map<string, Tree>, k: string): Tree
    requires k in base || k in over
  {
    if k !in over then base[k] else if k in base then Merge(base[k], over[k]) else over[k]
  }

  lemma MergedIsMerge(b: map<string, Tree>, o: map<string, Tree>, m: map<string, Tree>)
    requires m.Keys == b.Keys + o.Keys
    requires forall k | k in m :: m[k] == Merged(b, o, k)
    ensures Dict(m) == Merge(Dict(b), Dict(o))
  {}

  // ---------------------------------------------------------------- laws

  lemma {:induction false} MergeIdentity(d: Tree)
    requires d.Dict?
    ensures Merge(Dict(map[]), d) == d && Merge(d, Dict(map[])) == d
  {}

  lemma {:induction false} MergeIdempotent(t: Tree)
    ensures Merge(t, t) == t
  {
    if t.Dict? {
      forall k | k in t.m { MergeIdempotent(t.m[k]); }
      assert Merge(t, t).m == t.m;
    }
  }

  datatype Found = Missing | Found(v: Tree)

  /** The value a chain of keys reaches. */
  function Find(t: Tree, path: seq<string>): Found
    decreases |path|
  {
    if path == [] then Found(t)
    else if t.Dict? && path[0] in t.m then Find(t.m[path[0]], path[1..])
    else Missing
  }

  /** Some proper prefix of `path` already ends in a non-dictionary of `t`. */
  predicate Shadowed(t: Tree, path: seq<string>)
    decreases |path|
  {
    path != [] && (!t.Dict? || (path[0] in t.m && Shadowed(t.m[path[0]], path[1..])))
  }

  /** Every path of the merge, exactly: where both sides hold dictionaries they merge, where the override
      holds anything else it wins, and where it holds nothing the base shows through unless shadowed. */
  lemma {:induction false} MergeByPath(base: Tree, over: Tree, path: seq<string>)
    ensures Find(Merge(base, over), path) ==
      match Find(over, path)
      case Missing => if Shadowed(over, path) then Missing else Find(base, path)
      case Found(v) => if v.Dict? && Find(base, path).Found? then Found(Merge(Find(base, path).v, v)) else Found(v)
    decreases |path|
  {
    if path != [] && over.Dict? {
      var k := path[0];
      if base.Dict? && k in base.m && k in over.m {
        MergeByPath(base.m[k], over.m[k], path[1..]);
      }
    }
  }

  /** Every leaf of the override survives the merge. */
  lemma OverrideLeafWins(base: Tree, over: Tree, path: seq<string>)
    requires Find(over, path).Found? && !Find(over, path).v.Dict?
    ensures Find(Merge(base, over), path) == Find(over, path)
  {}

  // ---------------------------------------------------------------- associativity, exactly

  /** `c` overrides all of `a`: it has every key of `a`, at every depth where both hold dictionaries. */
  predicate Covers(c: Tree, a: Tree)
    decreases c
  {
    c.Dict? && a.Dict? ==>
      a.m.Keys <= c.m.Keys && forall k | k in a.m && k in c.m :: Covers(c.m[k], a.m[k])
  }

  /** Merging gives exactly the override iff the override covers the base. */
  lemma {:induction false} CoversExactly(a: Tree, c: Tree)
    ensures Merge(a, c) == c <==> Covers(c, a)
    decreases c
  {
    if a.Dict? && c.Dict? {
      forall k | k in a.m && k in c.m { CoversExactly(a.m[k], c.m[k]); }
      var m := Merge(a, c).m;
      if Covers(c, a) {
        assert m == c.m;
      }
      if m == c.m {
        assert a.m.Keys <= m.Keys;
        forall k | k in a.m && k in c.m ensures Covers(c.m[k], a.m[k]) { assert m[k] == c.m[k]; }
      }
    }
  }

  /** `base` already has all of `over`: every key, at every depth where both hold dictionaries, and every leaf. */
  predicate Holds(base: Tree, over: Tree)
    decreases over
  {
    if base.Dict? && over.Dict? then
      over.m.Keys <= base.m.Keys && forall k | k in over.m && k in base.m :: Holds(base.m[k], over.m[k])
    else base == over
  }

  /** Merging changes nothing iff the base already holds all of the override. */
  lemma {:induction false} UnchangedExactly(base: Tree, over: Tree)
    ensures Merge(base, over) == base <==> Holds(base, over)
    decreases over
  {
    if base.Dict? && over.Dict? {
      forall k | k in over.m && k in base.m { UnchangedExactly(base.m[k], over.m[k]); }
      var m := Merge(base, over).m;
      if Holds(base, over) {
        assert m == base.m;
      }
      if m == base.m {
        assert over.m.Keys <= m.Keys;
        forall k | k in over.m && k in base.m ensures Holds(base.m[k], over.m[k]) { assert m[k] == base.m[k]; }
      }
    }
  }

  /** The three trees associate: a scalar of `b` may stand between dictionaries of `a` and `c` only where
      `c` covers all that `a` has there. */
  predicate Associable(a: Tree, b: Tree, c: Tree)
    decreases b
  {
    a.Dict? && c.Dict? ==>
      if b.Dict? then forall k | k in a.m && k in b.m && k in c.m :: Associable(a.m[k], b.m[k], c.m[k])
      else Covers(c, a)
  }

  lemma {:induction false} MergeAssociativeExactly(a: Tree, b: Tree, c: Tree)
    ensures Merge(Merge(a, b), c) == Merge(a, Merge(b, c)) <==> Associable(a, b, c)
    decreases b
  {
    if a.Dict? && c.Dict? {
      if b.Dict? {
        var l, r := Merge(Merge(a, b), c).m, Merge(a, Merge(b, c)).m;
        assert l.Keys == r.Keys;
        forall k | k in l
          ensures l[k] == r[k] <==>
            (k in a.m && k in b.m && k in c.m ==> Associable(a.m[k], b.m[k], c.m[k]))
        {
          if k in a.m && k in b.m && k in c.m { MergeAssociativeExactly(a.m[k], b.m[k], c.m[k]); }
        }
        if Associable(a, b, c) { assert l == r; }
        if l == r {
          forall k | k in a.m && k in b.m && k in c.m ensures Associable(a.m[k], b.m[k], c.m[k]) {
            assert k in l && l[k] == r[k];
          }
        }
      } else {
        CoversExactly(a, c);
      }
    }
  }

  /** The three trees agree, at every shared path, on being a dictionary or not. */
  predicate SameShape(a: Tree, b: Tree, c: Tree)
    decreases b
  {
    a.Dict? == b.Dict? == c.Dict? &&
    (b.Dict? ==> forall k | k in a.m && k in b.m && k in c.m :: SameShape(a.m[k], b.m[k], c.m[k]))
  }

  lemma {:induction false} SameShapeAssociates(a: Tree, b: Tree, c: Tree)
    requires SameShape(a, b, c)
    ensures Merge(Merge(a, b), c) == Merge(a, Merge(b, c))
  {
    SameShapeAssociable(a, b, c);
    MergeAssociativeExactly(a, b, c);
  }

  lemma {:induction false} SameShapeAssociable(a: Tree, b: Tree, c: Tree)
    requires SameShape(a, b, c)
    ensures Associable(a, b, c)
    decreases b
  {
    if b.Dict? {
      forall k | k in a.m && k in b.m && k in c.m { SameShapeAssociable(a.m[k], b.m[k], c.m[k]); }
    }
  }

  /** A scalar between two dictionaries is the counterexample to unconditional associativity. */
  lemma ScalarBetweenDictionaries()
    ensures var a, b, c := Dict(map["p" := Dict(map["x" := Num(1.0)])]), Dict(map["p" := Num(0.0)]), Dict(map["p" := Dict(map[])]);
      Merge(Merge(a, b), c) != Merge(a, Merge(b, c))
  {
    var a, b, c := Dict(map["p" := Dict(map["x" := Num(1.0)])]), Dict(map["p" := Num(0.0)]), Dict(map["p" := Dict(map[])]);
    assert !Covers(c.m["p"], a.m["p"]) by { assert "x" in a.m["p"].m; }
    assert !Associable(a.m["p"], b.m["p"], c.m["p"]);
    assert !Associable(a, b, c);
    MergeAssociativeExactly(a, b, c);
  }
}
