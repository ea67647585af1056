/** What the three scrubs decide, read off a value's path: which strings are blanked, which lists are emptied, and
    that nothing else changes. */
module ScrubRoles {
  import opened Json
  import opened JsonPaths
  import opened Scrub

  // ---------------------------------------------------------------- the roles of a path

  predicate KeyIn(c: Config, path: seq<Step>, i: int, keys: set<string>) {
    0 <= i < |path| && path[i].Name? && c.lower(path[i].k) in keys
  }

  /** Some key above the last step is one of these. */
  predicate Above(c: Config, path: seq<Step>, keys: set<string>) {
    exists i | 0 <= i < |path| - 1 :: KeyIn(c, path, i, keys)
  }

  /** Step `i` is the nearest key above the last step; positions in lists do not count. */
  predicate Nearest(path: seq<Step>, i: int) {
    0 <= i < |path| - 1 && path[i].Name? && forall j | i < j < |path| - 1 :: path[j].Index?
  }

  predicate Parent(c: Config, path: seq<Step>, keys: set<string>) {
    exists i | 0 <= i < |path| - 1 :: Nearest(path, i) && KeyIn(c, path, i, keys)
  }

  predicate WorstParent(c: Config, path: seq<Step>) {
    exists i | 0 <= i < |path| - 1 :: Nearest(path, i) && "worst" <= c.lower(path[i].k)
  }

  predicate EndsIn(key: string, suffix: string) {
    |suffix| <= |key| && forall i | 0 <= i < |suffix| :: key[|key| - |suffix| + i] == suffix[i]
  }

  predicate SpellsVocab(key: string, i: nat) {
    i + 5 <= |key| && key[i] == 'v' && key[i + 1] == 'o' && key[i + 2] == 'c' && key[i + 3] == 'a' && key[i + 4] == 'b'
  }

  predicate HasVocab(key: string) {
    exists i: nat | i < |key| :: SpellsVocab(key, i)
  }

  /** Some key of the path, the last included, opens a lookup dictionary. */
  predicate Sealed(c: Config, path: seq<Step>) {
    exists i | 0 <= i < |path| :: path[i].Name? && (HasVocab(c.lower(path[i].k)) || c.lower(path[i].k) in c.dictionaryKeys)
  }

  /** Some key of the path, the last included, opens a design-chrome subtree. */
  predicate InChrome(c: Config, path: seq<Step>) {
    exists i | 0 <= i < |path| :: KeyIn(c, path, i, c.chromeKeys)
  }

  predicate EndsInKey(path: seq<Step>) { path != [] && path[|path| - 1].Name? }

  /** The role scrub's reading of a text at a key: a meter pointer; a key that asserts by its own name; a tone, but
      for the style of a reference line; an attribute of an event; a worded metric; an attribute of a derived pick;
      a derived fact of a roster row, never its display identity; a verdict of a state object outside any roster. */
  predicate Asserts(c: Config, path: seq<Step>, text: string)
    requires EndsInKey(path)
  {
    var key := c.lower(path[|path| - 1].k);
    || c.meterPointer(text)
    || key in c.globalKeys
    || (EndsIn(key, c.toneSuffix) && !Above(c, path, c.referenceParents))
    || (Above(c, path, c.eventParents) && key in c.eventKeys)
    || (Parent(c, path, c.metricParents) && key in c.metricKeys && !c.numeric(text))
    || ((Parent(c, path, c.pickParents) || WorstParent(c, path)) && key in c.activeKeys)
    || (Above(c, path, c.rosterParents) && key in c.rosterBlank && key !in c.rosterIdentity)
    || (!Above(c, path, c.rosterParents) && Parent(c, path, c.stateParents) && key in c.activeKeys)
  }

  /** When the role scrub blanks the text `s` at a path. */
  predicate RoleBlanks(c: Config, path: seq<Step>, s: string) {
    EndsInKey(path) && !Sealed(c, path) && c.strip(s) != "" && Asserts(c, path, c.strip(s))
  }

  /** The dictionary the path's last key is in has a numeric entry. */
  predicate NumberBeside(t: Tree, path: seq<Step>)
    requires path != []
  {
    var parent := Read(t, path[..|path| - 1]);
    parent.Dict? && exists k | k in parent.m :: parent.m[k].Num?
  }

  /** When the measured-annotation scrub blanks the text `s` at a path. */
  predicate MeasuredBlanks(c: Config, t: Tree, path: seq<Step>, s: string) {
    EndsInKey(path) && !Sealed(c, path) && !InChrome(c, path) && c.lower(path[|path| - 1].k) in c.annotationKeys
    && c.strip(s) != "" && c.measured(s) && NumberBeside(t, path)
  }

  /** The first `n` steps lead to a list of event instances, outside lookup dictionaries. */
  predicate EventList(c: Config, t: Tree, path: seq<Step>, n: int) {
    1 <= n <= |path| && KeyIn(c, path, n - 1, c.eventParents) && !Sealed(c, path[..n]) && Read(t, path[..n]).List?
  }

  /** The path leads below such a list. */
  predicate BelowEvents(c: Config, t: Tree, path: seq<Step>) {
    exists n | 1 <= n < |path| :: EventList(c, t, path, n)
  }

  /** The value is of the same kind and shape; a leaf other than a text is the same. */
  predicate SameKind(before: Tree, after: Tree) {
    match before
    case Dict(m) => after.Dict? && after.m.Keys == m.Keys
    case List(xs) => after.List? && |after.xs| == |xs|
    case Str(_) => after.Str?
    case _ => after == before
  }

  // ---------------------------------------------------------------- names on a path

  /** The lowercased keys of a path. */
  function Names(c: Config, path: seq<Step>): seq<string> {
    if path == [] then []
    else Names(c, path[..|path| - 1]) + (match path[|path| - 1] case Name(k) => [c.lower(k)] case Index(_) => [])
  }

  lemma {:induction false} NamesIn(c: Config, path: seq<Step>, keys: set<string>)
    ensures SomeAncestor(Names(c, path), keys) <==> exists i | 0 <= i < |path| :: KeyIn(c, path, i, keys)
    decreases |path|
  {
    if path != [] {
      var n := |path| - 1;
      var front, names := Names(c, path[..n]), Names(c, path);
      NamesIn(c, path[..n], keys);
      assert names[..|front|] == front && (path[n].Name? ==> names[|front|] == c.lower(path[n].k));
      if j :| 0 <= j < |names| && names[j] in keys {
        if j < |front| {
          assert front[j] in keys;
          var i :| 0 <= i < n && KeyIn(c, path[..n], i, keys);
          assert KeyIn(c, path, i, keys);
        } else {
          assert KeyIn(c, path, n, keys);
        }
      }
      if i :| 0 <= i < |path| && KeyIn(c, path, i, keys) {
        if i < n {
          assert KeyIn(c, path[..n], i, keys);
          var j :| 0 <= j < |front| && front[j] in keys;
          assert names[j] in keys;
        } else {
          assert names[|front|] in keys;
        }
      }
    }
  }

  /** The last of the names is the nearest key. */
  lemma {:induction false} LastName(c: Config, path: seq<Step>) returns (i: int)
    ensures Names(c, path) == [] ==> i == -1 && forall j | 0 <= j < |path| :: path[j].Index?
    ensures Names(c, path) != [] ==> 0 <= i < |path| && path[i].Name? && Names(c, path)[|Names(c, path)| - 1] == c.lower(path[i].k)
                                     && forall j | i < j < |path| :: path[j].Index?
    decreases |path|
  {
    if path == [] {
      i := -1;
    } else if path[|path| - 1].Name? {
      i := |path| - 1;
    } else {
      i := LastName(c, path[..|path| - 1]);
      assert Names(c, path) == Names(c, path[..|path| - 1]);
      assert forall j | 0 <= j < |path| - 1 :: path[..|path| - 1][j] == path[j];
    }
  }

  lemma AboveNames(c: Config, path: seq<Step>, keys: set<string>)
    requires path != []
    ensures SomeAncestor(Names(c, path[..|path| - 1]), keys) <==> Above(c, path, keys)
  {
    var front := path[..|path| - 1];
    NamesIn(c, front, keys);
    assert forall i | 0 <= i < |front| :: KeyIn(c, front, i, keys) <==> KeyIn(c, path, i, keys);
  }

  lemma ParentName(c: Config, path: seq<Step>, keys: set<string>)
    requires path != []
    ensures NearestAncestor(Names(c, path[..|path| - 1]), keys) <==> Parent(c, path, keys)
    ensures var names := Names(c, path[..|path| - 1]); (names != [] && "worst" <= names[|names| - 1]) <==> WorstParent(c, path)
  {
    var front := path[..|path| - 1];
    var i := LastName(c, front);
    assert forall j | 0 <= j < |front| :: front[j] == path[j];
    if Names(c, front) != [] { assert Nearest(path, i); }
    forall j | Nearest(path, j) ensures j == i {
      assert front[j] == path[j];
    }
  }

  lemma EndsInIs(key: string, suffix: string)
    ensures EndsIn(key, suffix) <==> EndsWith(key, suffix)
  {
    if |suffix| <= |key| {
      var tail := key[|key| - |suffix|..];
      assert forall i | 0 <= i < |suffix| :: tail[i] == key[|key| - |suffix| + i];
    }
  }

  /** The decision of the role scrub is the one its roles say. */
  lemma AssertsExactly(c: Config, path: seq<Step>, text: string)
    requires EndsInKey(path)
    ensures BlankHere(c, c.lower(path[|path| - 1].k), text, Names(c, path[..|path| - 1])) <==> Asserts(c, path, text)
  {
    EndsInIs(c.lower(path[|path| - 1].k), c.toneSuffix);
    AboveNames(c, path, c.referenceParents);
    AboveNames(c, path, c.eventParents);
    AboveNames(c, path, c.rosterParents);
    ParentName(c, path, c.metricParents);
    ParentName(c, path, c.pickParents);
    ParentName(c, path, c.stateParents);
  }

  // ---------------------------------------------------------------- one step down a path

  predicate Seals(c: Config, s: Step) {
    s.Name? && (HasVocab(c.lower(s.k)) || c.lower(s.k) in c.dictionaryKeys)
  }

  lemma VocabIs(key: string)
    ensures HasVocab(key) <==> Contains(key, "vocab")
  {
    forall i: nat | i < |key| ensures SpellsVocab(key, i) <==> "vocab" <= key[i..] {}
  }

  lemma SealsIs(c: Config, k: string)
    ensures Seals(c, Name(k)) <==> IsDictionary(c, c.lower(k))
  {
    VocabIs(c.lower(k));
  }

  lemma SealedBelow(c: Config, path: seq<Step>)
    requires path != []
    ensures Sealed(c, path) <==> Seals(c, path[0]) || Sealed(c, path[1..])
  {
    assert forall i | 1 <= i < |path| :: path[i] == path[1..][i - 1];
    assert forall i | 0 <= i < |path| :: path[i].Name? && (HasVocab(c.lower(path[i].k)) || c.lower(path[i].k) in c.dictionaryKeys) <==> Seals(c, path[i]);
    if i :| 0 <= i < |path[1..]| && Seals(c, path[1..][i]) { assert Seals(c, path[i + 1]); }
  }

  lemma {:induction false} NamesBelow(c: Config, path: seq<Step>)
    requires path != []
    ensures Names(c, path) == (match path[0] case Name(k) => [c.lower(k)] case Index(_) => []) + Names(c, path[1..])
    decreases |path|
  {
    if |path| == 1 {
      assert path[..0] == [] && path[1..] == [];
    } else {
      NamesBelow(c, path[..|path| - 1]);
      assert path[..|path| - 1][1..] == path[1..][..|path| - 2];
    }
  }

  lemma LeafReads(t: Tree, path: seq<Step>)
    requires !Container(t) && path != []
    ensures Read(t, path) == Null
  {
    NullReadsNull(path[1..]);
  }

  // ---------------------------------------------------------------- the role scrub

  /** What becomes of the text `s` at a path of a tree the role scrub entered through `ancestors`. */
  predicate RoleResult(c: Config, ancestors: seq<string>, path: seq<Step>, s: string, after: Tree) {
    after == Str(
      if EndsInKey(path) && !Sealed(c, path) && c.strip(s) != ""
         && BlankHere(c, c.lower(path[|path| - 1].k), c.strip(s), ancestors + Names(c, path[..|path| - 1]))
      then c.placeholder else s)
  }

  lemma RoleResultBelow(c: Config, ancestors: seq<string>, path: seq<Step>, s: string, after: Tree)
    requires |path| >= 2 && !Seals(c, path[0])
    requires RoleResult(c, ancestors + (match path[0] case Name(k) => [c.lower(k)] case Index(_) => []), path[1..], s, after)
    ensures RoleResult(c, ancestors, path, s, after)
  {
    var rest := path[1..];
    var own := match path[0] case Name(k) => [c.lower(k)] case Index(_) => [];
    SealedBelow(c, path);
    NamesBelow(c, path[..|path| - 1]);
    assert path[..|path| - 1][1..] == rest[..|rest| - 1];
    assert path[..|path| - 1][0] == path[0];
    assert rest[|rest| - 1] == path[|path| - 1];
    assert ancestors + own + Names(c, rest[..|rest| - 1]) == ancestors + Names(c, path[..|path| - 1]);
  }

  /** Where a path that reads a text goes first. */
  lemma TextBelow(t: Tree, path: seq<Step>, s: string)
    requires path != [] && Read(t, path) == Str(s)
    ensures match path[0]
      case Name(k) => t.Dict? && k in t.m && Read(t.m[k], path[1..]) == Str(s) && (t.m[k].Str? ==> path[1..] == [])
      case Index(i) => t.List? && i < |t.xs| && Read(t.xs[i], path[1..]) == Str(s) && (t.xs[i].Str? ==> path[1..] == [])
  {
    NullReadsNull(path[1..]);
    var below := match path[0] case Name(k) => Child(t, k) case Index(i) => if t.List? && i < |t.xs| then t.xs[i] else Null;
    if below.Str? && path[1..] != [] { LeafReads(below, path[1..]); }
  }

  /** A text, wherever it stands, after the walk that entered `t` through `ancestors`. */
  lemma {:induction false} RoleAt(c: Config, t: Tree, ancestors: seq<string>, path: seq<Step>, s: string)
    requires Read(t, path) == Str(s)
    ensures RoleResult(c, ancestors, path, s, Read(Walk(c, RoleRule, t, ancestors), path))
    decreases |path|, 1
  {
    if path != [] {
      TextBelow(t, path, s);
      match path[0]
      case Name(k) => RoleKey(c, t, ancestors, path, s);
      case Index(i) =>
        RoleAt(c, t.xs[i], ancestors, path[1..], s);
        if |path| >= 2 {
          assert ancestors + [] == ancestors;
          RoleResultBelow(c, ancestors, path, s, Read(Walk(c, RoleRule, t, ancestors), path));
        }
    }
  }

  lemma {:induction false} RoleKey(c: Config, t: Tree, ancestors: seq<string>, path: seq<Step>, s: string)
    requires path != [] && path[0].Name? && Read(t, path) == Str(s)
    ensures RoleResult(c, ancestors, path, s, Read(Walk(c, RoleRule, t, ancestors), path))
    decreases |path|, 0
  {
    TextBelow(t, path, s);
    var k, rest := path[0].k, path[1..];
    var v := t.m[k];
    SealsIs(c, k);
    SealedBelow(c, path);
    WalkOfDict(c, RoleRule, t.m, ancestors);
    if !Seals(c, path[0]) {
      if rest == [] {
        assert path[..0] == [] && ancestors + [] == ancestors && !Sealed(c, rest);
      } else {
        RoleAt(c, v, ancestors + [c.lower(k)], rest, s);
        RoleResultBelow(c, ancestors, path, s, Read(Walk(c, RoleRule, t, ancestors), path));
      }
    }
  }

  /** The role scrub, exactly: a text becomes the placeholder if and only if its path and the vocabularies say it
      asserts something; otherwise it stays. */
  lemma RoleScrubExactly(c: Config, t: Tree, path: seq<Step>, s: string)
    requires Read(t, path) == Str(s)
    ensures Read(Walk(c, RoleRule, t, []), path) == Str(if RoleBlanks(c, path, s) then c.placeholder else s)
  {
    RoleAt(c, t, [], path, s);
    if EndsInKey(path) {
      AssertsExactly(c, path, c.strip(s));
      assert [] + Names(c, path[..|path| - 1]) == Names(c, path[..|path| - 1]);
    }
  }

  /** Where the path's first step leads. */
  function FirstStep(t: Tree, s: Step): Tree {
    match s case Name(k) => Child(t, k) case Index(i) => if t.List? && i < |t.xs| then t.xs[i] else Null
  }

  lemma ReadFirst(t: Tree, path: seq<Step>)
    requires path != []
    ensures Read(t, path) == Read(FirstStep(t, path[0]), path[1..])
  {}

  /** The walked tree below a key, and below a position. */
  lemma WalkedKey(c: Config, r: Rule, t: Tree, ancestors: seq<string>, k: string)
    ensures FirstStep(Walk(c, r, t, ancestors), Name(k)) ==
      if t.Dict? && k in t.m then Entry(c, r, HasNumber(t.m), ancestors, k, t.m[k]) else Null
  {
    if t.Dict? { WalkOfDict(c, r, t.m, ancestors); }
  }

  lemma WalkedIndex(c: Config, r: Rule, t: Tree, ancestors: seq<string>, i: nat)
    ensures FirstStep(Walk(c, r, t, ancestors), Index(i)) == Walk(c, r, FirstStep(t, Index(i)), ancestors)
  {}

  /** What a scrub other than the event scrub makes of an entry. */
  lemma EntryIs(c: Config, r: Rule, h: bool, ancestors: seq<string>, k: string, v: Tree)
    requires r != EventRule
    ensures var e := Entry(c, r, h, ancestors, k, v);
      && (Seals(c, Name(k)) ==> e == v)
      && (v.Str? ==> e.Str?)
      && (!v.Str? ==> e == v || e == Walk(c, r, v, ancestors + [c.lower(k)]))
  {
    SealsIs(c, k);
  }

  /** Nothing inside a lookup dictionary changes. */
  lemma {:induction false} SealedUntouched(c: Config, r: Rule, t: Tree, ancestors: seq<string>, path: seq<Step>)
    requires Sealed(c, path) && r != EventRule
    ensures Read(Walk(c, r, t, ancestors), path) == Read(t, path)
    decreases |path|
  {
    var rest := path[1..];
    SealedBelow(c, path);
    ReadFirst(t, path);
    ReadFirst(Walk(c, r, t, ancestors), path);
    match path[0]
    case Name(k) =>
      WalkedKey(c, r, t, ancestors, k);
      if t.Dict? && k in t.m {
        var e := Entry(c, r, HasNumber(t.m), ancestors, k, t.m[k]);
        EntryIs(c, r, HasNumber(t.m), ancestors, k, t.m[k]);
        if !Seals(c, path[0]) {
          SealedUntouched(c, r, t.m[k], ancestors + [c.lower(k)], rest);
          if t.m[k].Str? {
            LeafReads(t.m[k], rest);
            LeafReads(e, rest);
          }
        }
      }
    case Index(i) =>
      WalkedIndex(c, r, t, ancestors, i);
      if !Seals(c, path[0]) { SealedUntouched(c, r, FirstStep(t, Index(i)), ancestors, rest); }
  }

  lemma SameKindRefl(t: Tree)
    ensures SameKind(t, t)
  {}

  lemma WalkSameKind(c: Config, r: Rule, t: Tree, ancestors: seq<string>)
    ensures SameKind(t, Walk(c, r, t, ancestors)) && (t.Str? ==> Walk(c, r, t, ancestors) == t)
  {
    if t.Dict? { WalkOfDict(c, r, t.m, ancestors); }
  }

  /** Neither the role scrub nor the annotation scrub changes what kind of value stands anywhere, or any leaf that is
      no text. */
  lemma {:induction false} KindsStay(c: Config, r: Rule, t: Tree, ancestors: seq<string>, path: seq<Step>)
    requires r != EventRule
    ensures SameKind(Read(t, path), Read(Walk(c, r, t, ancestors), path))
    decreases |path|
  {
    if path == [] {
      WalkSameKind(c, r, t, ancestors);
    } else {
      var rest := path[1..];
      ReadFirst(t, path);
      ReadFirst(Walk(c, r, t, ancestors), path);
      match path[0]
      case Name(k) =>
        WalkedKey(c, r, t, ancestors, k);
        NullReadsNull(rest);
        if t.Dict? && k in t.m {
          var v, e := t.m[k], Entry(c, r, HasNumber(t.m), ancestors, k, t.m[k]);
          EntryIs(c, r, HasNumber(t.m), ancestors, k, v);
          KindsStay(c, r, v, ancestors + [c.lower(k)], rest);
          SameKindRefl(Read(v, rest));
          if v.Str? && rest != [] {
            LeafReads(v, rest);
            LeafReads(e, rest);
          }
        }
      case Index(i) =>
        WalkedIndex(c, r, t, ancestors, i);
        KindsStay(c, r, FirstStep(t, Index(i)), ancestors, rest);
    }
  }

  // ---------------------------------------------------------------- the event scrub

  lemma EventListBelow(c: Config, t: Tree, path: seq<Step>, n: int)
    requires path != [] && 2 <= n <= |path|
    ensures EventList(c, t, path, n) <==>
      !Seals(c, path[0]) && match path[0]
        case Name(k) => EventList(c, Child(t, k), path[1..], n - 1)
        case Index(i) => EventList(c, if t.List? && i < |t.xs| then t.xs[i] else Null, path[1..], n - 1)
  {
    SealedBelow(c, path[..n]);
    assert path[..n][1..] == path[1..][..n - 1];
  }

  lemma BelowEventsFirst(c: Config, t: Tree, path: seq<Step>)
    requires |path| >= 2 && !EventList(c, t, path, 1)
    ensures BelowEvents(c, t, path) <==> !Seals(c, path[0]) && BelowEvents(c, FirstStep(t, path[0]), path[1..])
  {
    forall n | 2 <= n <= |path|
      ensures EventList(c, t, path, n) <==> !Seals(c, path[0]) && EventList(c, FirstStep(t, path[0]), path[1..], n - 1)
    {
      EventListBelow(c, t, path, n);
    }
    if n :| 1 <= n < |path[1..]| && EventList(c, FirstStep(t, path[0]), path[1..], n) {
      assert !Seals(c, path[0]) ==> EventList(c, t, path, n + 1);
    }
  }

  /** What the event scrub leaves at a path: nothing below an emptied list, the empty list at it, the same kind and the
      same leaf anywhere else. */
  predicate EventResult(c: Config, t: Tree, path: seq<Step>, after: Tree) {
    if BelowEvents(c, t, path) then after == Null
    else if EventList(c, t, path, |path|) then after == List([])
    else SameKind(Read(t, path), after) && (Read(t, path).Str? ==> after == Read(t, path))
  }

  lemma EventResultBelow(c: Config, t: Tree, path: seq<Step>, after: Tree)
    requires path != [] && !Seals(c, path[0]) && !EventList(c, t, path, 1)
    requires EventResult(c, FirstStep(t, path[0]), path[1..], after)
    ensures EventResult(c, t, path, after)
  {
    EventFirst(c, t, path);
    ReadFirst(t, path);
  }

  /** The entry at a key: kept, emptied, or entered. */
  lemma EventKey(c: Config, t: Tree, ancestors: seq<string>, path: seq<Step>)
    requires path != [] && path[0].Name? && t.Dict? && path[0].k in t.m
    requires var k := path[0].k; EventResult(c, t.m[k], path[1..], Read(Walk(c, EventRule, t.m[k], ancestors + [c.lower(k)]), path[1..]))
    ensures EventResult(c, t, path, Read(Entry(c, EventRule, HasNumber(t.m), ancestors, path[0].k, t.m[path[0].k]), path[1..]))
  {
    var k, rest := path[0].k, path[1..];
    SealsIs(c, k);
    EventFirst(c, t, path);
    ReadFirst(t, path);
    if Seals(c, path[0]) {
      SameKindRefl(Read(t, path));
    } else if EventList(c, t, path, 1) {
      if rest != [] { EmptyReads(rest); }
    } else {
      EventResultBelow(c, t, path, Read(Walk(c, EventRule, t.m[k], ancestors + [c.lower(k)]), rest));
    }
  }

  /** The event scrub, exactly: a list becomes empty if and only if it stands at an event-parent key outside lookup
      dictionaries; nothing else changes. */
  lemma {:induction false} EventScrubExactly(c: Config, t: Tree, ancestors: seq<string>, path: seq<Step>)
    ensures EventResult(c, t, path, Read(Walk(c, EventRule, t, ancestors), path))
    decreases |path|
  {
    if path == [] {
      WalkSameKind(c, EventRule, t, ancestors);
    } else {
      var rest := path[1..];
      ReadFirst(t, path);
      ReadFirst(Walk(c, EventRule, t, ancestors), path);
      match path[0]
      case Name(k) =>
        WalkedKey(c, EventRule, t, ancestors, k);
        if t.Dict? && k in t.m {
          EventScrubExactly(c, t.m[k], ancestors + [c.lower(k)], rest);
          EventKey(c, t, ancestors, path);
        } else {
          NullReadsNull(rest);
          EventFirst(c, t, path);
          NothingBelowNull(c, rest);
        }
      case Index(i) =>
        WalkedIndex(c, EventRule, t, ancestors, i);
        EventScrubExactly(c, FirstStep(t, Index(i)), ancestors, rest);
        EventFirst(c, t, path);
        EventResultBelow(c, t, path, Read(Walk(c, EventRule, FirstStep(t, Index(i)), ancestors), rest));
    }
  }

  lemma EmptyReads(rest: seq<Step>)
    requires rest != []
    ensures Read(List([]), rest) == Null
  {
    NullReadsNull(rest[1..]);
  }

  lemma NothingBelowNull(c: Config, path: seq<Step>)
    ensures !BelowEvents(c, Null, path) && !EventList(c, Null, path, |path|)
  {
    forall n | 1 <= n <= |path| ensures !EventList(c, Null, path, n) { NullReadsNull(path[..n]); }
  }

  /** The emptied lists of a path, by its first step. */
  lemma EventFirst(c: Config, t: Tree, path: seq<Step>)
    requires path != []
    ensures EventList(c, t, path, 1) <==>
      path[0].Name? && c.lower(path[0].k) in c.eventParents && !Seals(c, path[0]) && FirstStep(t, path[0]).List?
    ensures |path| == 1 ==> !BelowEvents(c, t, path)
    ensures |path| >= 2 && EventList(c, t, path, 1) ==> BelowEvents(c, t, path)
    ensures |path| >= 2 && !EventList(c, t, path, 1) ==>
      (BelowEvents(c, t, path) <==> !Seals(c, path[0]) && BelowEvents(c, FirstStep(t, path[0]), path[1..]))
      && (EventList(c, t, path, |path|) <==> !Seals(c, path[0]) && EventList(c, FirstStep(t, path[0]), path[1..], |path| - 1))
  {
    SealedBelow(c, path[..1]);
    assert path[..1][1..] == [] && path[..1][0] == path[0];
    ReadFirst(t, path[..1]);
    if |path| >= 2 && !EventList(c, t, path, 1) {
      BelowEventsFirst(c, t, path);
      EventListBelow(c, t, path, |path|);
    }
  }

  // ---------------------------------------------------------------- the measured-annotation scrub

  lemma InChromeBelow(c: Config, path: seq<Step>)
    requires path != []
    ensures InChrome(c, path) <==> KeyIn(c, path, 0, c.chromeKeys) || InChrome(c, path[1..])
  {
    forall i | 1 <= i < |path| ensures KeyIn(c, path, i, c.chromeKeys) <==> KeyIn(c, path[1..], i - 1, c.chromeKeys) {}
    if i :| 0 <= i < |path[1..]| && KeyIn(c, path[1..], i, c.chromeKeys) { assert KeyIn(c, path, i + 1, c.chromeKeys); }
  }

  lemma NumberBelow(t: Tree, path: seq<Step>)
    requires |path| >= 2
    ensures NumberBeside(t, path) <==> NumberBeside(FirstStep(t, path[0]), path[1..])
  {
    assert path[..|path| - 1][1..] == path[1..][..|path| - 2];
    ReadFirst(t, path[..|path| - 1]);
  }

  lemma MeasuredBelow(c: Config, t: Tree, path: seq<Step>, s: string)
    requires |path| >= 2
    ensures MeasuredBlanks(c, t, path, s) <==>
      !Seals(c, path[0]) && !KeyIn(c, path, 0, c.chromeKeys) && MeasuredBlanks(c, FirstStep(t, path[0]), path[1..], s)
  {
    SealedBelow(c, path);
    InChromeBelow(c, path);
    NumberBelow(t, path);
    assert path[1..][|path| - 2] == path[|path| - 1];
  }

  lemma MeasuredAlone(c: Config, m: map<string, Tree>, k: string, s: string)
    ensures MeasuredBlanks(c, Dict(m), [Name(k)], s) <==>
      !Seals(c, Name(k)) && c.lower(k) !in c.chromeKeys && c.lower(k) in c.annotationKeys
      && c.strip(s) != "" && c.measured(s) && HasNumber(m)
  {
    var path := [Name(k)];
    assert path[..0] == [] && path[1..] == [];
    SealedBelow(c, path);
    InChromeBelow(c, path);
    assert Read(Dict(m), path[..|path| - 1]) == Dict(m);
  }

  /** The annotation scrub, exactly: a text becomes the placeholder if and only if it embeds a measurement, stands at an
      annotation key beside a number, and no key on its path opens a lookup dictionary or design chrome. */
  lemma {:induction false} MeasuredScrubExactly(c: Config, t: Tree, ancestors: seq<string>, path: seq<Step>, s: string)
    requires Read(t, path) == Str(s)
    ensures Read(Walk(c, MeasuredRule, t, ancestors), path) == Str(if MeasuredBlanks(c, t, path, s) then c.placeholder else s)
    decreases |path|
  {
    if path != [] {
      TextBelow(t, path, s);
      ReadFirst(Walk(c, MeasuredRule, t, ancestors), path);
      if |path| >= 2 { MeasuredBelow(c, t, path, s); }
      match path[0]
      case Name(k) =>
        WalkedKey(c, MeasuredRule, t, ancestors, k);
        SealsIs(c, k);
        if |path| == 1 {
          assert path == [Name(k)];
          MeasuredAlone(c, t.m, k, s);
        } else {
          MeasuredScrubExactly(c, t.m[k], ancestors + [c.lower(k)], path[1..], s);
        }
      case Index(i) =>
        WalkedIndex(c, MeasuredRule, t, ancestors, i);
        MeasuredScrubExactly(c, t.xs[i], ancestors, path[1..], s);
    }
  }

  // ---------------------------------------------------------------- any sequence of scrubs

  /** Of the same kind, with the same keys. */
  predicate SameSort(before: Tree, after: Tree) {
    && before.Dict? == after.Dict? && before.List? == after.List? && before.Str? == after.Str? && before.Num? == after.Num?
    && (before.Dict? && after.Dict? ==> before.m.Keys == after.m.Keys)
  }

  /** At `path`, unless that lies below an emptied event list, the two trees have values of one kind. */
  predicate AlikeAt(c: Config, t: Tree, after: Tree, path: seq<Step>) {
    !BelowEvents(c, t, path) ==> SameSort(Read(t, path), Read(after, path))
  }

  lemma EventListIs(c: Config, t: Tree, path: seq<Step>)
    requires EventList(c, t, path, |path|)
    ensures Read(t, path).List?
  {
    assert path[..|path|] == path;
  }

  lemma WalkAlike(c: Config, r: Rule, t: Tree, path: seq<Step>)
    ensures AlikeAt(c, t, Walk(c, r, t, []), path)
    ensures r != EventRule ==> SameSort(Read(t, path), Read(Walk(c, r, t, []), path))
  {
    if r == EventRule {
      EventScrubExactly(c, t, [], path);
      if EventList(c, t, path, |path|) { EventListIs(c, t, path); }
    } else {
      KindsStay(c, r, t, [], path);
    }
  }

  /** Nothing above a value that outlives the event scrub is emptied. */
  lemma PrefixLives(c: Config, t: Tree, path: seq<Step>)
    requires path != [] && !BelowEvents(c, t, path)
    ensures !BelowEvents(c, t, path[..|path| - 1])
  {
    var front := path[..|path| - 1];
    forall n | 1 <= n < |front| ensures !EventList(c, t, front, n) {
      assert front[..n] == path[..n];
      assert !EventList(c, t, path, n);
    }
  }

  lemma DictEntryLives(c: Config, t: Tree, parent: seq<Step>, k: string)
    requires !BelowEvents(c, t, parent) && Read(t, parent).Dict?
    ensures !BelowEvents(c, t, parent + [Name(k)])
  {
    var path := parent + [Name(k)];
    forall n | 1 <= n < |path| ensures !EventList(c, t, path, n) {
      assert path[..n] == parent[..n];
      if n == |parent| { assert parent[..n] == parent; } else { assert !EventList(c, t, parent, n); }
    }
  }

  /** A numeric entry reads the same in both. */
  lemma NumberAlike(t: Tree, after: Tree, parent: seq<Step>, k: string)
    requires SameSort(Read(t, parent + [Name(k)]), Read(after, parent + [Name(k)]))
    ensures Child(Read(t, parent), k).Num? == Child(Read(after, parent), k).Num?
  {
    ReadOn(t, parent, Name(k));
    ReadOn(after, parent, Name(k));
  }

  /** The evidence of the annotation scrub is the same before and after another scrub. */
  lemma NumbersAlike(c: Config, r: Rule, t: Tree, path: seq<Step>)
    requires path != [] && (r == EventRule ==> !BelowEvents(c, t, path))
    ensures NumberBeside(t, path) <==> NumberBeside(Walk(c, r, t, []), path)
  {
    var front, after := path[..|path| - 1], Walk(c, r, t, []);
    if r == EventRule { PrefixLives(c, t, path); }
    WalkAlike(c, r, t, front);
    var past, now := Read(t, front), Read(after, front);
    if past.Dict? {
      forall k ensures Child(past, k).Num? == Child(now, k).Num? {
        if r == EventRule { DictEntryLives(c, t, front, k); }
        WalkAlike(c, r, t, front + [Name(k)]);
        NumberAlike(t, after, front, k);
      }
      if k :| k in past.m && past.m[k].Num? { assert Child(past, k).Num? && k in now.m && Child(now, k).Num?; }
      if k :| k in now.m && now.m[k].Num? { assert Child(now, k).Num? && k in past.m && Child(past, k).Num?; }
    }
  }

  /** The role scrub neither makes nor removes an event list. */
  lemma EventsAlike(c: Config, t: Tree, path: seq<Step>)
    ensures BelowEvents(c, t, path) <==> BelowEvents(c, Walk(c, RoleRule, t, []), path)
  {
    forall n | 1 <= n <= |path| ensures EventList(c, t, path, n) <==> EventList(c, Walk(c, RoleRule, t, []), path, n) {
      WalkAlike(c, RoleRule, t, path[..n]);
    }
  }

  lemma MeasuredAlike(c: Config, r: Rule, t: Tree, path: seq<Step>, s: string)
    requires r == EventRule ==> !BelowEvents(c, t, path)
    ensures MeasuredBlanks(c, t, path, s) <==> MeasuredBlanks(c, Walk(c, r, t, []), path, s)
  {
    if path != [] { NumbersAlike(c, r, t, path); }
  }

  /** What is left at a path of the text `s` when the scrubs in `rules` have run. */
  function ScrubbedText(c: Config, rules: set<Rule>, t: Tree, path: seq<Step>, s: string): Tree {
    if EventRule in rules && BelowEvents(c, t, path) then Null
    else if (RoleRule in rules && RoleBlanks(c, path, s)) || (MeasuredRule in rules && MeasuredBlanks(c, t, path, s)) then Str(c.placeholder)
    else Str(s)
  }

  lemma AfterRole(c: Config, on: bool, t: Tree, path: seq<Step>, s: string)
    requires Read(t, path) == Str(s)
    ensures var t1 := ApplyIf(c, on, RoleRule, t);
      && Read(t1, path) == Str(if on && RoleBlanks(c, path, s) then c.placeholder else s)
      && (BelowEvents(c, t1, path) <==> BelowEvents(c, t, path))
      && forall x :: MeasuredBlanks(c, t1, path, x) <==> MeasuredBlanks(c, t, path, x)
  {
    RoleScrubExactly(c, t, path, s);
    EventsAlike(c, t, path);
    forall x ensures MeasuredBlanks(c, ApplyIf(c, on, RoleRule, t), path, x) <==> MeasuredBlanks(c, t, path, x) {
      MeasuredAlike(c, RoleRule, t, path, x);
    }
  }

  lemma AfterEvents(c: Config, on: bool, t: Tree, path: seq<Step>, s: string)
    requires Read(t, path) == Str(s)
    ensures var t2 := ApplyIf(c, on, EventRule, t);
      && Read(t2, path) == (if on && BelowEvents(c, t, path) then Null else Str(s))
      && (!on || !BelowEvents(c, t, path) ==> forall x :: MeasuredBlanks(c, t2, path, x) <==> MeasuredBlanks(c, t, path, x))
  {
    EventScrubExactly(c, t, [], path);
    if EventList(c, t, path, |path|) { EventListIs(c, t, path); }
    if on && !BelowEvents(c, t, path) {
      forall x ensures MeasuredBlanks(c, ApplyIf(c, on, EventRule, t), path, x) <==> MeasuredBlanks(c, t, path, x) {
        MeasuredAlike(c, EventRule, t, path, x);
      }
    }
  }

  lemma AfterMeasured(c: Config, on: bool, t: Tree, path: seq<Step>)
    requires Read(t, path).Null? || Read(t, path).Str?
    ensures var now, was := Read(ApplyIf(c, on, MeasuredRule, t), path), Read(t, path);
      now == if on && was.Str? && MeasuredBlanks(c, t, path, was.s) then Str(c.placeholder) else was
  {
    KindsStay(c, MeasuredRule, t, [], path);
    if Read(t, path).Str? { MeasuredScrubExactly(c, t, [], path, Read(t, path).s); }
  }

  /** The texts of the evidence below emptied lists are of no account once the lists are emptied. */
  lemma MeasuredOfLive(c: Config, eventsOn: bool, t: Tree, path: seq<Step>, s: string)
    requires Read(t, path) == Str(s)
    ensures var t2 := ApplyIf(c, eventsOn, EventRule, t); var now := Read(ApplyIf(c, true, MeasuredRule, t2), path);
      now == if eventsOn && BelowEvents(c, t, path) then Null
             else Str(if MeasuredBlanks(c, t, path, s) then c.placeholder else s)
  {
    AfterEvents(c, eventsOn, t, path, s);
    AfterMeasured(c, true, ApplyIf(c, eventsOn, EventRule, t), path);
  }

  /** Any sequence of scrubs, in any order and however often repeated, exactly: a text of the tree is gone if it stood
      in a list of event instances and the event scrub ran, is the placeholder if the role or the annotation scrub
      ran and its path says so, and otherwise is still there. */
  lemma PipelineTexts(c: Config, rules: seq<Rule>, t: Tree, path: seq<Step>, s: string)
    requires Read(t, path) == Str(s)
    ensures Read(Pipeline(c, rules, t), path) == ScrubbedText(c, RulesOf(rules), t, path, s)
  {
    PipelineIsCanonical(c, rules, t);
    var on := RulesOf(rules);
    var t1 := ApplyIf(c, RoleRule in on, RoleRule, t);
    var s1 := if RoleRule in on && RoleBlanks(c, path, s) then c.placeholder else s;
    AfterRole(c, RoleRule in on, t, path, s);
    AfterEvents(c, EventRule in on, t1, path, s1);
    if MeasuredRule in on { MeasuredOfLive(c, EventRule in on, t1, path, s1); }
  }
}
