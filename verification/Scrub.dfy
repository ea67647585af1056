/** The three build-time scrubs of a card skeleton (grounding/role_scrub.py, event_skeleton_scrub.py and
    measured_annotation_scrub.py): each walks the payload and blanks seed data found by slot role.

    The three walks share one traversal; what differs is the decision taken at a dictionary entry, so the
    model is one `Walk` over a `Rule`. */
module Scrub {
  import opened Json

  type Tree = Json<string>

  /** The vocabulary rows the scrubs read, and the string tests whose insides are regular expressions or
      Unicode tables (`lower`, `strip`, the meter-pointer pattern, the number parse, the measurement pattern). */
  datatype Config = Config(
    pickParents: set<string>, stateParents: set<string>, activeKeys: set<string>,
    rosterParents: set<string>, rosterIdentity: set<string>, rosterBlank: set<string>,
    eventParents: set<string>, eventKeys: set<string>, dictionaryKeys: set<string>,
    globalKeys: set<string>, toneSuffix: string, referenceParents: set<string>,
    metricParents: set<string>, metricKeys: set<string>,
    chromeKeys: set<string>, annotationKeys: set<string>,
    lower: string -> string, strip: string -> string,
    meterPointer: string -> bool, numeric: string -> bool, measured: string -> bool,
    placeholder: string)

  datatype Rule = RoleRule | EventRule | MeasuredRule

  /** What a walk does with one dictionary entry. */
  datatype Action = Keep | Blank | Empty | Descend

  predicate Contains(hay: string, needle: string) {
    exists i | 0 <= i <= |hay| - |needle| :: needle <= hay[i..]
  }

  predicate EndsWith(s: string, suffix: string) {
    |suffix| <= |s| && s[|s| - |suffix|..] == suffix
  }

  /** A lookup-dictionary subtree: no scrub ever enters it. */
  predicate IsDictionary(c: Config, kl: string) {
    Contains(kl, "vocab") || kl in c.dictionaryKeys
  }

  predicate SomeAncestor(ancestors: seq<string>, parents: set<string>) {
    exists i | 0 <= i < |ancestors| :: ancestors[i] in parents
  }

  predicate NearestAncestor(ancestors: seq<string>, parents: set<string>) {
    ancestors != [] && ancestors[|ancestors| - 1] in parents
  }

  predicate DerivedPickParent(c: Config, ancestors: seq<string>) {
    ancestors != [] &&
    (ancestors[|ancestors| - 1] in c.pickParents || "worst" <= ancestors[|ancestors| - 1])
  }

  /** Does the string `value` at lowercased key `key` assert something only live data can know? */
  predicate BlankHere(c: Config, key: string, value: string, ancestors: seq<string>) {
    if c.meterPointer(value) then true
    else if key in c.globalKeys then true
    else if EndsWith(key, c.toneSuffix) && !SomeAncestor(ancestors, c.referenceParents) then true
    else if SomeAncestor(ancestors, c.eventParents) && key in c.eventKeys then true
    else if NearestAncestor(ancestors, c.metricParents) && key in c.metricKeys && !c.numeric(value) then true
    else if DerivedPickParent(c, ancestors) && key in c.activeKeys then true
    else if SomeAncestor(ancestors, c.rosterParents) then
      key !in c.rosterIdentity && key in c.rosterBlank
    else NearestAncestor(ancestors, c.stateParents) && key in c.activeKeys
  }

  predicate HasNumber(m: map<string, Tree>) {
    exists k | k in m :: m[k].Num?
  }

  /** The decision each scrub takes at entry `key: v` of a dictionary reached through `ancestors`;
      `hasNumber` says whether that dictionary carries a numeric sibling. */
  function Decide(c: Config, r: Rule, hasNumber: bool, ancestors: seq<string>, key: string, v: Tree): Action {
    var kl := c.lower(key);
    if IsDictionary(c, kl) then Keep
    else match r
      case RoleRule =>
        if !v.Str? then Descend
        else if c.strip(v.s) != "" && BlankHere(c, kl, c.strip(v.s), ancestors) then Blank
        else Keep
      case EventRule =>
        if kl in c.eventParents && v.List? then Empty else Descend
      case MeasuredRule =>
        if kl in c.chromeKeys then Keep
        else if !v.Str? then Descend
        else if hasNumber && kl in c.annotationKeys && c.strip(v.s) != "" && c.measured(v.s) then Blank
        else Keep
  }

  /** The tree a scrub leaves behind. */
  function Walk(c: Config, r: Rule, t: Tree, ancestors: seq<string>): Tree
    decreases t, 0
  {
    match t
    case Dict(m) => Dict(map k | k in m :: Entry(c, r, HasNumber(m), ancestors, k, m[k]))
    case List(xs) => List(seq(|xs|, i requires 0 <= i < |xs| => Walk(c, r, xs[i], ancestors)))
    case _ => t
  }

  function Entry(c: Config, r: Rule, hasNumber: bool, ancestors: seq<string>, key: string, v: Tree): Tree
    decreases v, 1
  {
    match Decide(c, r, hasNumber, ancestors, key, v)
    case Keep => v
    case Blank => Str(c.placeholder)
    case Empty => List([])
    case Descend => Walk(c, r, v, ancestors + [c.lower(key)])
  }

  // ---------------------------------------------------------------- what a walk leaves alone

  /** `after` differs from `before` only in blanked strings and emptied event lists, never inside a
      lookup dictionary, and never in the shape of anything else. */
  ghost predicate OnlyScrubbed(c: Config, before: Tree, after: Tree)
    decreases before, 0
  {
    match before
    case Dict(m) =>
      after.Dict? && after.m.Keys == m.Keys &&
      forall k | k in m :: EntryScrubbed(c, c.lower(k), m[k], after.m[k])
    case List(xs) =>
      after.List? && |after.xs| == |xs| &&
      forall i | 0 <= i < |xs| :: OnlyScrubbed(c, xs[i], after.xs[i])
    case _ => after == before
  }

  ghost predicate EntryScrubbed(c: Config, kl: string, before: Tree, after: Tree)
    decreases before, 1
  {
    if IsDictionary(c, kl) then after == before
    else
      || (before.Str? && after == Str(c.placeholder))
      || (before.List? && kl in c.eventParents && after == List([]))
      || OnlyScrubbed(c, before, after)
  }

  lemma {:induction false} UnchangedIsScrubbed(c: Config, t: Tree)
    ensures OnlyScrubbed(c, t, t)
  {
    match t
    case Dict(m) => forall k | k in m ensures EntryScrubbed(c, c.lower(k), m[k], m[k]) { UnchangedIsScrubbed(c, m[k]); }
    case List(xs) => forall i | 0 <= i < |xs| { UnchangedIsScrubbed(c, xs[i]); }
    case _ =>
  }

  lemma ScrubbedKeepsKind(c: Config, before: Tree, after: Tree)
    requires OnlyScrubbed(c, before, after)
    ensures before.Str? || after.Str? || before == List([]) ==> after == before
    ensures before.List? == after.List?
  {}

  lemma {:induction false} ScrubbedTransitive(c: Config, t0: Tree, t1: Tree, t2: Tree)
    requires OnlyScrubbed(c, t0, t1) && OnlyScrubbed(c, t1, t2)
    ensures OnlyScrubbed(c, t0, t2)
    decreases t0
  {
    match t0
    case Dict(m) =>
      forall k | k in m ensures EntryScrubbed(c, c.lower(k), m[k], t2.m[k]) {
        assert EntryScrubbed(c, c.lower(k), m[k], t1.m[k]);
        assert EntryScrubbed(c, c.lower(k), t1.m[k], t2.m[k]);
        if OnlyScrubbed(c, m[k], t1.m[k]) { ScrubbedKeepsKind(c, m[k], t1.m[k]); }
        if OnlyScrubbed(c, t1.m[k], t2.m[k]) { ScrubbedKeepsKind(c, t1.m[k], t2.m[k]); }
        if OnlyScrubbed(c, m[k], t1.m[k]) && OnlyScrubbed(c, t1.m[k], t2.m[k]) {
          ScrubbedTransitive(c, m[k], t1.m[k], t2.m[k]);
        }
      }
    case List(xs) => forall i | 0 <= i < |xs| { ScrubbedTransitive(c, xs[i], t1.xs[i], t2.xs[i]); }
    case _ =>
  }

  lemma {:induction false} WalkOnlyScrubs(c: Config, r: Rule, t: Tree, ancestors: seq<string>)
    ensures OnlyScrubbed(c, t, Walk(c, r, t, ancestors))
    decreases t
  {
    match t
    case Dict(m) =>
      forall k | k in m ensures EntryScrubbed(c, c.lower(k), m[k], Walk(c, r, t, ancestors).m[k]) {
        WalkOnlyScrubs(c, r, m[k], ancestors + [c.lower(k)]);
        UnchangedIsScrubbed(c, m[k]);
      }
    case List(xs) => forall i | 0 <= i < |xs| { WalkOnlyScrubs(c, r, xs[i], ancestors); }
    case _ =>
  }

  // ---------------------------------------------------------------- confluence

  lemma EntryKeepsNumber(c: Config, r: Rule, h: bool, ancestors: seq<string>, key: string, v: Tree)
    ensures Entry(c, r, h, ancestors, key, v).Num? == v.Num?
  {}

  /** A walk never turns a number into something else nor makes a new one, so the numeric-sibling test of
      the measured rule reads the same before and after any other scrub. */
  lemma WalkKeepsNumbers(c: Config, r: Rule, m: map<string, Tree>, ancestors: seq<string>)
    ensures HasNumber(Walk(c, r, Dict(m), ancestors).m) == HasNumber(m)
  {
    var after := Walk(c, r, Dict(m), ancestors).m;
    assert forall k | k in m :: after[k] == Entry(c, r, HasNumber(m), ancestors, k, m[k]);
    forall k | k in m ensures after[k].Num? == m[k].Num? {
      EntryKeepsNumber(c, r, HasNumber(m), ancestors, k, m[k]);
    }
    if HasNumber(m) {
      var k :| k in m && m[k].Num?;
      assert k in after && after[k].Num?;
    }
  }

  /** The decision at an entry that is no string depends on its value only through being a list. */
  lemma DecideByKind(c: Config, r: Rule, h: bool, ancestors: seq<string>, key: string, v: Tree, w: Tree)
    requires !v.Str? && !w.Str? && v.List? == w.List?
    ensures Decide(c, r, h, ancestors, key, v) == Decide(c, r, h, ancestors, key, w)
    ensures Decide(c, r, h, ancestors, key, v) != Blank
    ensures Decide(c, r, h, ancestors, key, v) == Empty ==> r == EventRule && v.List?
  {}

  lemma EntryOfString(c: Config, r: Rule, h: bool, ancestors: seq<string>, key: string, v: Tree)
    requires v.Str?
    ensures Entry(c, r, h, ancestors, key, v) ==
      if Decide(c, r, h, ancestors, key, v) == Blank then Str(c.placeholder) else v
  {}

  lemma WalkKeepsKind(c: Config, r: Rule, t: Tree, ancestors: seq<string>)
    ensures Walk(c, r, t, ancestors).Str? == t.Str? && Walk(c, r, t, ancestors).List? == t.List?
    ensures t == List([]) ==> Walk(c, r, t, ancestors) == List([])
  {}

  lemma EntriesCommute(c: Config, r1: Rule, r2: Rule, h: bool, ancestors: seq<string>, key: string, v: Tree)
    requires var below := ancestors + [c.lower(key)];
      Walk(c, r1, Walk(c, r2, v, below), below) == Walk(c, r2, Walk(c, r1, v, below), below)
    ensures Entry(c, r1, h, ancestors, key, Entry(c, r2, h, ancestors, key, v))
         == Entry(c, r2, h, ancestors, key, Entry(c, r1, h, ancestors, key, v))
  {
    if v.Str? {
      EntryOfString(c, r1, h, ancestors, key, v);
      EntryOfString(c, r2, h, ancestors, key, v);
      EntryOfString(c, r1, h, ancestors, key, Str(c.placeholder));
      EntryOfString(c, r2, h, ancestors, key, Str(c.placeholder));
    } else {
      var below := ancestors + [c.lower(key)];
      var w1, w2 := Entry(c, r1, h, ancestors, key, v), Entry(c, r2, h, ancestors, key, v);
      WalkKeepsKind(c, r1, v, below);
      WalkKeepsKind(c, r2, v, below);
      WalkKeepsKind(c, r1, List([]), below);
      WalkKeepsKind(c, r2, List([]), below);
      DecideByKind(c, r1, h, ancestors, key, v, w2);
      DecideByKind(c, r2, h, ancestors, key, v, w1);
    }
  }

  lemma EntryIdempotent(c: Config, r: Rule, h: bool, ancestors: seq<string>, key: string, v: Tree)
    requires var below := ancestors + [c.lower(key)];
      Walk(c, r, Walk(c, r, v, below), below) == Walk(c, r, v, below)
    ensures var once := Entry(c, r, h, ancestors, key, v); Entry(c, r, h, ancestors, key, once) == once
  {}

  lemma WalkOfDict(c: Config, r: Rule, m: map<string, Tree>, ancestors: seq<string>)
    ensures var w := Walk(c, r, Dict(m), ancestors);
      w.Dict? && w.m.Keys == m.Keys && forall k | k in m :: w.m[k] == Entry(c, r, HasNumber(m), ancestors, k, m[k])
  {}

  lemma {:induction false} WalksCommute(c: Config, r1: Rule, r2: Rule, t: Tree, ancestors: seq<string>)
    ensures Walk(c, r1, Walk(c, r2, t, ancestors), ancestors) == Walk(c, r2, Walk(c, r1, t, ancestors), ancestors)
    decreases t
  {
    match t
    case Dict(m) =>
      forall k | k in m
        ensures Entry(c, r1, HasNumber(m), ancestors, k, Entry(c, r2, HasNumber(m), ancestors, k, m[k]))
             == Entry(c, r2, HasNumber(m), ancestors, k, Entry(c, r1, HasNumber(m), ancestors, k, m[k]))
      {
        WalksCommute(c, r1, r2, m[k], ancestors + [c.lower(k)]);
        EntriesCommute(c, r1, r2, HasNumber(m), ancestors, k, m[k]);
      }
      DictWalksCommute(c, r1, r2, m, ancestors);
    case List(xs) =>
      forall i | 0 <= i < |xs| { WalksCommute(c, r1, r2, xs[i], ancestors); }
    case _ =>
  }

  lemma DictWalksCommute(c: Config, r1: Rule, r2: Rule, m: map<string, Tree>, ancestors: seq<string>)
    requires forall k | k in m ::
      Entry(c, r1, HasNumber(m), ancestors, k, Entry(c, r2, HasNumber(m), ancestors, k, m[k]))
      == Entry(c, r2, HasNumber(m), ancestors, k, Entry(c, r1, HasNumber(m), ancestors, k, m[k]))
    ensures Walk(c, r1, Walk(c, r2, Dict(m), ancestors), ancestors) == Walk(c, r2, Walk(c, r1, Dict(m), ancestors), ancestors)
  {
    var w1, w2 := Walk(c, r1, Dict(m), ancestors), Walk(c, r2, Dict(m), ancestors);
    WalkOfDict(c, r1, m, ancestors);
    WalkOfDict(c, r2, m, ancestors);
    WalkKeepsNumbers(c, r1, m, ancestors);
    WalkKeepsNumbers(c, r2, m, ancestors);
    WalkOfDict(c, r1, w2.m, ancestors);
    WalkOfDict(c, r2, w1.m, ancestors);
    var l, r := Walk(c, r1, w2, ancestors).m, Walk(c, r2, w1, ancestors).m;
    forall k | k in m ensures l[k] == r[k] {}
    assert l == r;
  }

  lemma {:induction false} WalkIdempotent(c: Config, r: Rule, t: Tree, ancestors: seq<string>)
    ensures Walk(c, r, Walk(c, r, t, ancestors), ancestors) == Walk(c, r, t, ancestors)
    decreases t
  {
    match t
    case Dict(m) =>
      var h, m1 := HasNumber(m), Walk(c, r, t, ancestors).m;
      WalkKeepsNumbers(c, r, m, ancestors);
      forall k | k in m ensures Entry(c, r, h, ancestors, k, m1[k]) == m1[k] {
        WalkIdempotent(c, r, m[k], ancestors + [c.lower(k)]);
        EntryIdempotent(c, r, h, ancestors, k, m[k]);
      }
      assert Walk(c, r, Dict(m1), ancestors).m == m1;
    case List(xs) =>
      forall i | 0 <= i < |xs| { WalkIdempotent(c, r, xs[i], ancestors); }
    case _ =>
  }

  /** Scrubs applied one after the other, in the order listed. */
  function Pipeline(c: Config, rules: seq<Rule>, t: Tree): Tree {
    if rules == [] then t else Pipeline(c, rules[1..], Walk(c, rules[0], t, []))
  }

  function ApplyIf(c: Config, on: bool, r: Rule, t: Tree): Tree {
    if on then Walk(c, r, t, []) else t
  }

  /** The scrubs of a set, in the order the skeleton builder runs them. */
  function Canonical(c: Config, rules: set<Rule>, t: Tree): Tree {
    ApplyIf(c, MeasuredRule in rules, MeasuredRule,
      ApplyIf(c, EventRule in rules, EventRule,
        ApplyIf(c, RoleRule in rules, RoleRule, t)))
  }

  lemma AppliedAround(c: Config, on: bool, r1: Rule, r2: Rule, t: Tree)
    ensures ApplyIf(c, on, r1, Walk(c, r2, t, [])) == Walk(c, r2, ApplyIf(c, on, r1, t), [])
    ensures r1 == r2 ==> ApplyIf(c, on, r1, Walk(c, r2, t, [])) == ApplyIf(c, true, r1, t)
  {
    WalksCommute(c, r1, r2, t, []);
    WalkIdempotent(c, r2, t, []);
  }

  lemma CanonicalAbsorbs(c: Config, rules: set<Rule>, r: Rule, t: Tree)
    ensures Canonical(c, rules, Walk(c, r, t, [])) == Canonical(c, rules + {r}, t)
  {
    var t1 := ApplyIf(c, RoleRule in rules, RoleRule, t);
    var t2 := ApplyIf(c, EventRule in rules, EventRule, t1);
    AppliedAround(c, RoleRule in rules, RoleRule, r, t);
    match r
    case RoleRule =>
    case EventRule => AppliedAround(c, EventRule in rules, EventRule, r, t1);
    case MeasuredRule =>
      AppliedAround(c, EventRule in rules, EventRule, r, t1);
      AppliedAround(c, MeasuredRule in rules, MeasuredRule, r, t2);
  }

  ghost function RulesOf(rules: seq<Rule>): set<Rule> {
    set i | 0 <= i < |rules| :: rules[i]
  }

  /** However often and in whatever order the scrubs run, the result depends only on which of them ran. */
  lemma {:induction false} PipelineIsCanonical(c: Config, rules: seq<Rule>, t: Tree)
    ensures Pipeline(c, rules, t) == Canonical(c, RulesOf(rules), t)
    decreases |rules|
  {
    if rules != [] {
      PipelineIsCanonical(c, rules[1..], Walk(c, rules[0], t, []));
      CanonicalAbsorbs(c, RulesOf(rules[1..]), rules[0], t);
      assert RulesOf(rules) == RulesOf(rules[1..]) + {rules[0]} by {
        forall r | r in RulesOf(rules) ensures r in RulesOf(rules[1..]) + {rules[0]} {
          var i :| 0 <= i < |rules| && rules[i] == r;
          if i > 0 { assert rules[1..][i - 1] == r; }
        }
        forall r | r in RulesOf(rules[1..]) ensures r in RulesOf(rules) {
          var i :| 0 <= i < |rules[1..]| && rules[1..][i] == r;
          assert rules[i + 1] == r;
        }
      }
    }
  }

  lemma ScrubOrderIrrelevant(c: Config, rules1: seq<Rule>, rules2: seq<Rule>, t: Tree)
    requires RulesOf(rules1) == RulesOf(rules2)
    ensures Pipeline(c, rules1, t) == Pipeline(c, rules2, t)
  {
    PipelineIsCanonical(c, rules1, t);
    PipelineIsCanonical(c, rules2, t);
  }

  /** Whatever scrubs run: only strings blanked, only event lists emptied, dictionaries untouched. */
  lemma {:induction false} PipelineOnlyScrubs(c: Config, rules: seq<Rule>, t: Tree)
    ensures OnlyScrubbed(c, t, Pipeline(c, rules, t))
    decreases |rules|
  {
    if rules == [] {
      UnchangedIsScrubbed(c, t);
    } else {
      var t1 := Walk(c, rules[0], t, []);
      WalkOnlyScrubs(c, rules[0], t, []);
      PipelineOnlyScrubs(c, rules[1..], t1);
      ScrubbedTransitive(c, t, t1, Pipeline(c, rules[1..], t1));
    }
  }

  // ---------------------------------------------------------------- nothing is left to scrub

  /** No entry a scrub reaches still asserts anything: what it would blank is the placeholder, what it would
      empty is empty. */
  predicate Settled(c: Config, r: Rule, t: Tree, ancestors: seq<string>)
    decreases t, 0
  {
    match t
    case Dict(m) => forall k | k in m :: EntrySettled(c, r, HasNumber(m), ancestors, k, m[k])
    case List(xs) => forall i | 0 <= i < |xs| :: Settled(c, r, xs[i], ancestors)
    case _ => true
  }

  predicate EntrySettled(c: Config, r: Rule, hasNumber: bool, ancestors: seq<string>, key: string, v: Tree)
    decreases v, 1
  {
    match Decide(c, r, hasNumber, ancestors, key, v)
    case Keep => true
    case Blank => v == Str(c.placeholder)
    case Empty => v == List([])
    case Descend => Settled(c, r, v, ancestors + [c.lower(key)])
  }

  /** A tree is settled exactly when the scrub leaves it as it is. */
  lemma {:induction false} SettledExactly(c: Config, r: Rule, t: Tree, ancestors: seq<string>)
    ensures Settled(c, r, t, ancestors) <==> Walk(c, r, t, ancestors) == t
    decreases t
  {
    match t
    case Dict(m) =>
      WalkOfDict(c, r, m, ancestors);
      var w := Walk(c, r, t, ancestors).m;
      forall k | k in m ensures EntrySettled(c, r, HasNumber(m), ancestors, k, m[k]) <==> w[k] == m[k] {
        if Decide(c, r, HasNumber(m), ancestors, k, m[k]) == Descend { SettledExactly(c, r, m[k], ancestors + [c.lower(k)]); }
      }
      assert w == m <==> forall k | k in m :: w[k] == m[k];
    case List(xs) =>
      var w := Walk(c, r, t, ancestors).xs;
      forall i | 0 <= i < |xs| ensures Settled(c, r, xs[i], ancestors) <==> w[i] == xs[i] { SettledExactly(c, r, xs[i], ancestors); }
      assert w == xs <==> forall i | 0 <= i < |xs| :: w[i] == xs[i];
    case _ =>
  }

  lemma {:induction false} PipelineAppend(c: Config, rules: seq<Rule>, r: Rule, t: Tree)
    ensures Pipeline(c, rules + [r], t) == Walk(c, r, Pipeline(c, rules, t), [])
    decreases |rules|
  {
    if rules != [] {
      assert (rules + [r])[1..] == rules[1..] + [r];
      PipelineAppend(c, rules[1..], r, Walk(c, rules[0], t, []));
    }
  }

  lemma RepeatAddsNothing(rules: seq<Rule>, r: Rule)
    requires r in rules
    ensures RulesOf(rules + [r]) == RulesOf(rules)
  {
    var more := rules + [r];
    forall x ensures x in RulesOf(more) <==> x in RulesOf(rules) {
      if x in RulesOf(rules) {
        var i :| 0 <= i < |rules| && rules[i] == x;
        assert more[i] == x;
      }
    }
  }

  /** After any sequence of scrubs the tree is settled for each of them: a later scrub never brings back what an
      earlier one removed. */
  lemma PipelineLeavesNothing(c: Config, rules: seq<Rule>, r: Rule, t: Tree)
    requires r in rules
    ensures Settled(c, r, Pipeline(c, rules, t), [])
  {
    PipelineAppend(c, rules, r, t);
    RepeatAddsNothing(rules, r);
    ScrubOrderIrrelevant(c, rules + [r], rules, t);
    SettledExactly(c, r, Pipeline(c, rules, t), []);
  }
}
