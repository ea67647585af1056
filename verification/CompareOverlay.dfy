/** host/compare_overlay.py: N per-comparand cards of one render id become one card that shows every
    comparand inline, or side by side where the payload has no inline shape. */
module CompareOverlay {
  import opened Json

  type Tree = Json<string>
  type Obj = map<string, Tree>

  /** `x or {}` where x is a dictionary or absent. */
  function OrDict(t: Tree): Obj {
    if t.Dict? then t.m else map[]
  }

  /** `x or []` where x is a list or absent. */
  function OrList(t: Tree): seq<Tree> {
    if t.List? then t.xs else []
  }

  /** Each element once, in the order of its first occurrence. */
  function FirstSeen<T(==,!new)>(s: seq<T>): (r: seq<T>)
    ensures forall x :: x in r <==> x in s
    ensures forall i, j | 0 <= i < j < |r| :: r[i] != r[j]
  {
    if s == [] then []
    else
      var front := FirstSeen(s[..|s| - 1]);
      assert s == s[..|s| - 1] + [s[|s| - 1]];
      if s[|s| - 1] in front then front else front + [s[|s| - 1]]
  }

  // ---------------------------------------------------------------- stats: sections and the Total tile

  predicate Numeric(t: Tree) {
    t.Num? || t.Bool?
  }

  /** A Python bool adds as 0 or 1. */
  function Amount(t: Tree): real {
    match t case Num(n) => n case Bool(b) => (if b then 1.0 else 0.0) case _ => 0.0
  }

  function Stats(per: map<string, Obj>, tok: string): Obj {
    if tok in per then OrDict(Child(Dict(per[tok]), "stats")) else map[]
  }

  function AddStats(union: map<string, real>, st: Obj): map<string, real> {
    map k | k in union.Keys + (set j | j in st && Numeric(st[j])) ::
      (if k in union then union[k] else 0.0) + (if k in st then Amount(st[k]) else 0.0)
  }

  function UnionStats(per: map<string, Obj>, toks: seq<string>): map<string, real> {
    if toks == [] then map[]
    else AddStats(UnionStats(per, toks[..|toks| - 1]), Stats(per, toks[|toks| - 1]))
  }

  function Sections(per: map<string, Obj>, toks: seq<string>): Obj {
    map tok | tok in toks :: Dict(Stats(per, tok))
  }

  function MergeStats(sub: Obj, per: map<string, Obj>, toks: seq<string>): Obj {
    var union := UnionStats(per, toks);
    var base := OrDict(Child(Dict(sub), "stats"));
    sub["stats" := Dict((base + map k | k in union :: Num(union[k]))["sections" := Dict(Sections(per, toks))])]
  }

  /** A comparand's own entry in its stats. */
  function Own(per: map<string, Obj>, tok: string, k: string): Tree {
    if tok in per then Child(Child(Dict(per[tok]), "stats"), k) else Null
  }

  /** The sum of a KPI over the comparands: numbers as they are, true as one, anything else and nothing as zero. */
  function Total(per: map<string, Obj>, toks: seq<string>, k: string): real {
    if toks == [] then 0.0
    else
      var v := Own(per, toks[|toks| - 1], k);
      Total(per, toks[..|toks| - 1], k) + (if v.Num? then v.n else if v == Bool(true) then 1.0 else 0.0)
  }

  /** The KPI is a number, or a truth value, for some comparand. */
  predicate Counted(per: map<string, Obj>, toks: seq<string>, k: string) {
    exists tok | tok in toks :: Own(per, tok, k).Num? || Own(per, tok, k).Bool?
  }

  lemma {:induction false} UnionIsTotal(per: map<string, Obj>, toks: seq<string>, k: string)
    ensures k in UnionStats(per, toks) <==> Counted(per, toks, k)
    ensures k in UnionStats(per, toks) ==> UnionStats(per, toks)[k] == Total(per, toks, k)
    ensures k !in UnionStats(per, toks) ==> Total(per, toks, k) == 0.0
  {
    if toks != [] {
      var front, last := toks[..|toks| - 1], toks[|toks| - 1];
      UnionIsTotal(per, front, k);
      assert toks == front + [last];
      assert Counted(per, toks, k) <==> Counted(per, front, k) || (k in Stats(per, last) && Numeric(Stats(per, last)[k])) by {
        assert forall tok :: tok in toks <==> tok in front || tok == last;
      }
      assert UnionStats(per, toks) == AddStats(UnionStats(per, front), Stats(per, last));
    }
  }

  /** Every comparand's own stats are kept whole under its token, and the Total tile of a numeric KPI is the
      sum over the comparands. */
  lemma StatsLossless(sub: Obj, per: map<string, Obj>, toks: seq<string>, tok: string, k: string)
    ensures var stats := Child(Dict(MergeStats(sub, per, toks)), "stats");
      && (tok in toks ==>
            Child(Child(stats, "sections"), tok) ==
              if tok in per && Child(Dict(per[tok]), "stats").Dict? then Child(Dict(per[tok]), "stats") else Dict(map[]))
      && (tok !in toks ==> Child(Child(stats, "sections"), tok) == Null)
      && (k != "sections" && Counted(per, toks, k) ==> Child(stats, k) == Num(Total(per, toks, k)))
  {
    UnionIsTotal(per, toks, k);
  }

  /** Any other entry of the stats is the base card's. */
  lemma StatsKeepBase(sub: Obj, per: map<string, Obj>, toks: seq<string>, k: string)
    requires k != "sections" && !Counted(per, toks, k)
    ensures Child(Child(Dict(MergeStats(sub, per, toks)), "stats"), k) == Child(Child(Dict(sub), "stats"), k)
  {
    UnionIsTotal(per, toks, k);
  }

  // ---------------------------------------------------------------- period.panels

  function Panels(per: map<string, Obj>, tok: string): seq<Tree> {
    if tok in per then OrList(Child(Child(Dict(per[tok]), "period"), "panels")) else []
  }

  /** The text a value formats to; a string formats to itself. */
  datatype Format = Format(other: Tree -> string, tint: (Tree, nat) -> Tree)

  function Show(f: Format, t: Tree): string {
    if t.Str? then t.s else f.other(t)
  }

  function TagPanel(f: Format, p: Obj, tok: string): Tree {
    Dict(p["section" := Str(tok)]["id" := Str(tok + "::" + Show(f, Child(Dict(p), "id")))])
  }

  function TagPanels(f: Format, panels: seq<Tree>, tok: string): seq<Tree> {
    if panels == [] then []
    else
      var front, last := panels[..|panels| - 1], panels[|panels| - 1];
      TagPanels(f, front, tok) + (if last.Dict? then [TagPanel(f, last.m, tok)] else [])
  }

  function AllPanels(f: Format, per: map<string, Obj>, toks: seq<string>): seq<Tree> {
    if toks == [] then []
    else AllPanels(f, per, toks[..|toks| - 1]) + TagPanels(f, Panels(per, toks[|toks| - 1]), toks[|toks| - 1])
  }

  function TokenList(toks: seq<string>): Tree {
    List(seq(|toks|, i requires 0 <= i < |toks| => Str(toks[i])))
  }

  /** The section column of a merged table. */
  function StampSectionColumn(pres: Tree): Tree {
    var order, column := Child(pres, "eventModeOrder"), Child(pres, "eventColumn");
    if pres.Dict? && order.List? && column.Dict? && Child(column, "shortByMode").Dict? && Str("section") !in order.xs then
      Dict(pres.m["eventModeOrder" := List([Str("section")] + order.xs)]
                 ["eventColumn" := Dict(column.m["shortByMode" := Dict(Child(column, "shortByMode").m["section" := Str("Sec")])])])
    else pres
  }

  function MergePanels(f: Format, sub: Obj, per: map<string, Obj>, toks: seq<string>): Obj {
    var period := OrDict(Child(Dict(sub), "period"));
    var merged := sub["period" := Dict(period["panels" := List(AllPanels(f, per, toks))])]["sectionCompare" := TokenList(toks)];
    if "pres" in merged then merged["pres" := StampSectionColumn(merged["pres"])] else merged
  }

  /** The merged panels that carry a comparand's tag, in order. */
  function OfSection(panels: seq<Tree>, tok: string): seq<Tree> {
    if panels == [] then []
    else
      OfSection(panels[..|panels| - 1], tok) +
      (if Child(panels[|panels| - 1], "section") == Str(tok) then [panels[|panels| - 1]] else [])
  }

  lemma {:induction false} OfSectionConcat(a: seq<Tree>, b: seq<Tree>, tok: string)
    ensures OfSection(a + b, tok) == OfSection(a, tok) + OfSection(b, tok)
    decreases |b|
  {
    if b == [] {
      assert a + b == a;
    } else {
      OfSectionConcat(a, b[..|b| - 1], tok);
      assert (a + b)[..|a + b| - 1] == a + b[..|b| - 1];
    }
  }

  lemma TagOf(f: Format, p: Obj, owner: string)
    ensures Child(TagPanel(f, p, owner), "section") == Str(owner)
  {}

  lemma OfSectionOne(panel: Tree, tok: string)
    ensures OfSection([panel], tok) == if Child(panel, "section") == Str(tok) then [panel] else []
  {
    assert [panel][..0] == [];
  }

  /** Panels tagged by their owner are all in its section. */
  lemma {:induction false} OwnSectionWhole(f: Format, panels: seq<Tree>, owner: string)
    ensures OfSection(TagPanels(f, panels, owner), owner) == TagPanels(f, panels, owner)
    decreases |panels|
  {
    if panels != [] {
      var last := panels[|panels| - 1];
      OwnSectionWhole(f, panels[..|panels| - 1], owner);
      if last.Dict? {
        TagOf(f, last.m, owner);
        OfSectionOne(TagPanel(f, last.m, owner), owner);
        OfSectionConcat(TagPanels(f, panels[..|panels| - 1], owner), [TagPanel(f, last.m, owner)], owner);
      } else {
        assert TagPanels(f, panels, owner) == TagPanels(f, panels[..|panels| - 1], owner);
      }
    }
  }

  /** None of them is in another section. */
  lemma {:induction false} OtherSectionEmpty(f: Format, panels: seq<Tree>, owner: string, tok: string)
    requires tok != owner
    ensures OfSection(TagPanels(f, panels, owner), tok) == []
    decreases |panels|
  {
    if panels != [] {
      var last := panels[|panels| - 1];
      OtherSectionEmpty(f, panels[..|panels| - 1], owner, tok);
      if last.Dict? {
        TagOf(f, last.m, owner);
        OfSectionOne(TagPanel(f, last.m, owner), tok);
        OfSectionConcat(TagPanels(f, panels[..|panels| - 1], owner), [TagPanel(f, last.m, owner)], tok);
      } else {
        assert TagPanels(f, panels, owner) == TagPanels(f, panels[..|panels| - 1], owner);
      }
    }
  }

  /** The dictionaries among the panels, in order. */
  function DictsIn(panels: seq<Tree>): seq<Obj> {
    if panels == [] then []
    else DictsIn(panels[..|panels| - 1]) + (if panels[|panels| - 1].Dict? then [panels[|panels| - 1].m] else [])
  }

  /** The panel with every field it had, its section set to the token and its id prefixed with it. */
  predicate CarriesPanel(f: Format, el: Tree, p: Obj, tok: string) {
    && el.Dict? && el.m.Keys == p.Keys + {"section", "id"}
    && (forall k | k in p && k != "section" && k != "id" :: el.m[k] == p[k])
    && el.m["section"] == Str(tok)
    && el.m["id"] == Str(tok + "::" + (if Child(Dict(p), "id").Str? then Child(Dict(p), "id").s else f.other(Child(Dict(p), "id"))))
  }

  predicate CarriesPanels(f: Format, section: seq<Tree>, own: seq<Tree>, tok: string) {
    |section| == |DictsIn(own)| && forall i | 0 <= i < |section| :: CarriesPanel(f, section[i], DictsIn(own)[i], tok)
  }

  lemma {:induction false} TaggedCarry(f: Format, panels: seq<Tree>, tok: string)
    ensures CarriesPanels(f, TagPanels(f, panels, tok), panels, tok)
    decreases |panels|
  {
    if panels != [] { TaggedCarry(f, panels[..|panels| - 1], tok); }
  }

  lemma SectionsSplit(f: Format, per: map<string, Obj>, front: seq<string>, last: string, tok: string)
    ensures OfSection(AllPanels(f, per, front + [last]), tok) ==
      OfSection(AllPanels(f, per, front), tok) + OfSection(TagPanels(f, Panels(per, last), last), tok)
  {
    var toks := front + [last];
    assert toks[..|toks| - 1] == front;
    OfSectionConcat(AllPanels(f, per, front), TagPanels(f, Panels(per, last), last), tok);
  }

  lemma {:induction false} AbsentSectionEmpty(f: Format, per: map<string, Obj>, toks: seq<string>, tok: string)
    requires tok !in toks
    ensures OfSection(AllPanels(f, per, toks), tok) == []
    decreases |toks|
  {
    if toks != [] {
      var front, last := toks[..|toks| - 1], toks[|toks| - 1];
      assert toks == front + [last];
      AbsentSectionEmpty(f, per, front, tok);
      OtherSectionEmpty(f, Panels(per, last), last, tok);
      SectionsSplit(f, per, front, last, tok);
    }
  }

  predicate DistinctTokens(toks: seq<string>) {
    forall i, j | 0 <= i < j < |toks| :: toks[i] != toks[j]
  }

  lemma LastOnce(front: seq<string>, last: string)
    requires DistinctTokens(front + [last])
    ensures last !in front && DistinctTokens(front)
  {
    forall i | 0 <= i < |front| ensures front[i] != last { assert (front + [last])[i] != (front + [last])[|front|]; }
    forall i, j | 0 <= i < j < |front| ensures front[i] != front[j] { assert (front + [last])[i] != (front + [last])[j]; }
  }

  lemma {:induction false} PresentSectionWhole(f: Format, per: map<string, Obj>, toks: seq<string>, tok: string)
    requires DistinctTokens(toks) && tok in toks
    ensures OfSection(AllPanels(f, per, toks), tok) == TagPanels(f, Panels(per, tok), tok)
    decreases |toks|
  {
    var front, last := toks[..|toks| - 1], toks[|toks| - 1];
    assert toks == front + [last];
    LastOnce(front, last);
    SectionsSplit(f, per, front, last, tok);
    if tok == last {
      AbsentSectionEmpty(f, per, front, tok);
      OwnSectionWhole(f, Panels(per, tok), tok);
    } else {
      PresentSectionWhole(f, per, front, tok);
      OtherSectionEmpty(f, Panels(per, last), last, tok);
    }
  }

  /** Selecting one comparand's section of the merged panels gives back that comparand's dictionary panels, in order,
      each with every field it had; no other section holds anything. */
  lemma PanelsLossless(f: Format, per: map<string, Obj>, toks: seq<string>, tok: string)
    requires DistinctTokens(toks)
    ensures var section := OfSection(AllPanels(f, per, toks), tok);
      if tok in toks then CarriesPanels(f, section, Panels(per, tok), tok) else section == []
  {
    if tok in toks {
      PresentSectionWhole(f, per, toks, tok);
      TaggedCarry(f, Panels(per, tok), tok);
    } else {
      AbsentSectionEmpty(f, per, toks, tok);
    }
  }

  lemma {:induction false} TagsOf(f: Format, panels: seq<Tree>, tok: string)
    ensures forall el | el in TagPanels(f, panels, tok) :: Child(el, "section") == Str(tok)
    decreases |panels|
  {
    if panels != [] {
      TagsOf(f, panels[..|panels| - 1], tok);
      if panels[|panels| - 1].Dict? { TagOf(f, panels[|panels| - 1].m, tok); }
    }
  }

  /** Every merged panel is in the section of some comparand. */
  lemma {:induction false} PanelsAllTagged(f: Format, per: map<string, Obj>, toks: seq<string>, el: Tree) returns (tok: string)
    requires el in AllPanels(f, per, toks)
    ensures tok in toks && Child(el, "section") == Str(tok)
    decreases |toks|
  {
    var last := toks[|toks| - 1];
    if el in TagPanels(f, Panels(per, last), last) {
      TagsOf(f, Panels(per, last), last);
      tok := last;
    } else {
      tok := PanelsAllTagged(f, per, toks[..|toks| - 1], el);
    }
  }

  /** The section column exactly: stamped where the presentation has an event order without a section and a column with
      short names; nothing else of the presentation changes. */
  lemma SectionColumnExactly(pres: Tree, k: string)
    ensures var order, column, out := Child(pres, "eventModeOrder"), Child(pres, "eventColumn"), StampSectionColumn(pres);
      var stamped := order.List? && column.Dict? && Child(column, "shortByMode").Dict? && forall i | 0 <= i < |order.xs| :: order.xs[i] != Str("section");
      && (!stamped ==> out == pres)
      && (stamped ==>
            && Child(out, "eventModeOrder").List? && |Child(out, "eventModeOrder").xs| == 1 + |order.xs|
            && Child(out, "eventModeOrder").xs[0] == Str("section") && Child(out, "eventModeOrder").xs[1..] == order.xs
            && Child(Child(Child(out, "eventColumn"), "shortByMode"), "section") == Str("Sec")
            && (k != "section" ==> Child(Child(Child(out, "eventColumn"), "shortByMode"), k) == Child(Child(column, "shortByMode"), k))
            && (k != "shortByMode" ==> Child(Child(out, "eventColumn"), k) == Child(column, k))
            && (k != "eventModeOrder" && k != "eventColumn" ==> Child(out, k) == Child(pres, k)))
  {}

  // ---------------------------------------------------------------- points: per-comparand columns

  /** The points of a subtree; each is a dictionary. */
  function PointsOf(sub: Obj): seq<Obj> {
    var xs := OrList(Child(Dict(sub), "points"));
    seq(|xs|, i requires 0 <= i < |xs| => OrDict(xs[i]))
  }

  function Points(per: map<string, Obj>, tok: string): seq<Obj> {
    if tok in per then PointsOf(per[tok]) else []
  }

  function Label(p: Obj): Tree {
    Child(Dict(p), "label")
  }

  function Labels(points: seq<Obj>): seq<Tree> {
    seq(|points|, i requires 0 <= i < |points| => Label(points[i]))
  }

  function AllLabels(per: map<string, Obj>, toks: seq<string>): seq<Tree> {
    if toks == [] then []
    else AllLabels(per, toks[..|toks| - 1]) + Labels(Points(per, toks[|toks| - 1]))
  }

  /** The series keys: those of the first comparand's first point. */
  function BaseKeys(points: seq<Obj>): set<string> {
    if points == [] then {} else points[0].Keys - {"label"}
  }

  /** `idx[tok].get(lab) or {}`: the last point with the label. */
  function At(points: seq<Obj>, lab: Tree): Obj {
    if points == [] then map[]
    else if Label(points[|points| - 1]) == lab then points[|points| - 1]
    else At(points[..|points| - 1], lab)
  }

  function Column(key: string, tok: string): string {
    key + "@@" + tok
  }

  /** Two base keys never share a column of the same comparand. */
  lemma ColumnInjective(tok: string)
    ensures forall k1, k2 | Column(k1, tok) == Column(k2, tok) :: k1 == k2
  {
    forall k1, k2 | Column(k1, tok) == Column(k2, tok) ensures k1 == k2 {
      var suffix := "@@" + tok;
      assert Column(k1, tok) == k1 + suffix && Column(k2, tok) == k2 + suffix;
      assert (k1 + suffix)[..|k1|] == k1 && (k2 + suffix)[..|k2|] == k2;
    }
  }

  /** The columns one comparand adds to the point of `lab`. */
  function Columns(keys: set<string>, points: seq<Obj>, lab: Tree, tok: string): Obj {
    ColumnInjective(tok);
    map k | k in keys :: Column(k, tok) := Child(Dict(At(points, lab)), k)
  }

  function MergedPoint(per: map<string, Obj>, toks: seq<string>, keys: set<string>, lab: Tree): Obj {
    if toks == [] then map["label" := lab]
    else
      MergedPoint(per, toks[..|toks| - 1], keys, lab) +
      Columns(keys, Points(per, toks[|toks| - 1]), lab, toks[|toks| - 1])
  }

  function MergedPoints(per: map<string, Obj>, toks: seq<string>): seq<Obj>
    requires toks != []
  {
    var keys, labels := BaseKeys(Points(per, toks[0])), FirstSeen(AllLabels(per, toks));
    seq(|labels|, i requires 0 <= i < |labels| => MergedPoint(per, toks, keys, labels[i]))
  }

  predicate EndsWith(s: string, suffix: string) {
    |suffix| <= |s| && s[|s| - |suffix|..] == suffix
  }

  /** One token, written after "@@", ends the other's column suffix. */
  predicate Overlap(t1: string, t2: string) {
    EndsWith("@@" + t1, "@@" + t2) || EndsWith("@@" + t2, "@@" + t1)
  }

  lemma ColumnSplit(k: string, tok: string)
    ensures Column(k, tok) == k + ("@@" + tok)
  {}

  /** Of two suffixes of one text the shorter ends the longer. */
  lemma SuffixesNest(k1: string, s1: string, k2: string, s2: string)
    requires k1 + s1 == k2 + s2
    ensures EndsWith(s1, s2) || EndsWith(s2, s1)
  {
    var c := k1 + s1;
    assert c[|c| - |s1|..] == s1 && c[|c| - |s2|..] == s2;
    if |s1| <= |s2| {
      assert s2[|s2| - |s1|..] == c[|c| - |s1|..];
    } else {
      assert s1[|s1| - |s2|..] == c[|c| - |s2|..];
    }
  }

  /** When one token's suffix ends the other's, some base keys meet in one column. */
  lemma NestedCollide(t1: string, t2: string) returns (k: string)
    requires EndsWith("@@" + t1, "@@" + t2)
    ensures Column("", t1) == Column(k, t2)
  {
    var s1, s2 := "@@" + t1, "@@" + t2;
    k := s1[..|s1| - |s2|];
    ColumnSplit("", t1);
    ColumnSplit(k, t2);
    assert k + s2 == s1;
  }

  /** Columns of two different comparands can collide exactly when their tokens overlap. */
  lemma CollisionsExactly(t1: string, t2: string)
    ensures (exists k1, k2 :: Column(k1, t1) == Column(k2, t2)) <==> Overlap(t1, t2)
  {
    forall k1, k2 | Column(k1, t1) == Column(k2, t2) ensures Overlap(t1, t2) {
      ColumnSplit(k1, t1);
      ColumnSplit(k2, t2);
      SuffixesNest(k1, "@@" + t1, k2, "@@" + t2);
    }
    if EndsWith("@@" + t1, "@@" + t2) {
      var k := NestedCollide(t1, t2);
      assert Column("", t1) == Column(k, t2);
    } else if EndsWith("@@" + t2, "@@" + t1) {
      var k := NestedCollide(t2, t1);
      assert Column(k, t1) == Column("", t2);
    }
  }

  /** Tokens free of '@' never overlap. */
  lemma PlainTokensApart(t1: string, t2: string)
    requires t1 != t2 && '@' !in t1 && '@' !in t2
    ensures Apart(t1, t2)
  {
    PlainSuffix(t1, t2);
    PlainSuffix(t2, t1);
  }

  lemma PlainSuffix(t1: string, t2: string)
    requires '@' !in t1
    ensures EndsWith("@@" + t1, "@@" + t2) <==> t1 == t2
  {
    var s1, s2 := "@@" + t1, "@@" + t2;
    assert s1[2..] == t1 && s2[2..] == t2;
    assert forall i | 2 <= i < |s1| :: s1[i] == t1[i - 2];
    if EndsWith(s1, s2) {
      var i := |s1| - |s2|;
      assert s1[i] == s2[0] == '@' && s1[i + 1] == s2[1] == '@';
    }
  }

  predicate Apart(t1: string, t2: string) {
    t1 != t2 && !Overlap(t1, t2)
  }

  predicate ApartTokens(toks: seq<string>) {
    forall i, j | 0 <= i < j < |toks| :: Apart(toks[i], toks[j])
  }

  lemma ColumnsApart(k1: string, t1: string, k2: string, t2: string)
    requires Apart(t1, t2)
    ensures Column(k1, t1) != Column(k2, t2)
  {
    CollisionsExactly(t1, t2);
  }

  lemma ColumnIsNotLabel(k: string, tok: string)
    ensures Column(k, tok) != "label"
  {
    assert Column(k, tok)[|k|] == '@';
    assert forall i | 0 <= i < 5 :: "label"[i] != '@';
  }

  lemma ColumnsRead(keys: set<string>, points: seq<Obj>, lab: Tree, tok: string, k: string)
    requires k in keys
    ensures var cols := Columns(keys, points, lab, tok);
      Column(k, tok) in cols && cols[Column(k, tok)] == Child(Dict(At(points, lab)), k)
  {
    ColumnInjective(tok);
  }

  lemma ColumnsMiss(keys: set<string>, points: seq<Obj>, lab: Tree, owner: string, k: string, tok: string)
    requires Apart(tok, owner)
    ensures Column(k, tok) !in Columns(keys, points, lab, owner)
  {
    forall k2 ensures Column(k2, owner) != Column(k, tok) { ColumnsApart(k, tok, k2, owner); }
  }

  lemma ApartFromLast(toks: seq<string>, tok: string)
    requires ApartTokens(toks) && tok in toks && tok != toks[|toks| - 1]
    ensures Apart(tok, toks[|toks| - 1]) && tok in toks[..|toks| - 1] && ApartTokens(toks[..|toks| - 1])
  {
    var i :| 0 <= i < |toks| && toks[i] == tok;
    assert Apart(toks[i], toks[|toks| - 1]);
    assert toks[..|toks| - 1][i] == tok;
  }

  /** The point holds `v` in the column of `k` and `tok`. */
  predicate HoldsColumn(pt: Obj, k: string, tok: string, v: Tree) {
    Column(k, tok) in pt && pt[Column(k, tok)] == v
  }

  lemma OwnColumn(before: Obj, keys: set<string>, points: seq<Obj>, lab: Tree, tok: string, k: string)
    requires k in keys
    ensures HoldsColumn(before + Columns(keys, points, lab, tok), k, tok, Child(Dict(At(points, lab)), k))
  {
    ColumnsRead(keys, points, lab, tok, k);
  }

  lemma OtherColumn(before: Obj, keys: set<string>, points: seq<Obj>, lab: Tree, owner: string, tok: string, k: string, v: Tree)
    requires HoldsColumn(before, k, tok, v) && Apart(tok, owner)
    ensures HoldsColumn(before + Columns(keys, points, lab, owner), k, tok, v)
  {
    ColumnsMiss(keys, points, lab, owner, k, tok);
  }

  /** Reading `key@@tok` in the point of any label gives that comparand's own value there, None where it has
      no such label or key. */
  lemma {:induction false} ReadColumn(per: map<string, Obj>, toks: seq<string>, keys: set<string>, lab: Tree, tok: string, k: string)
    requires ApartTokens(toks) && tok in toks && k in keys
    ensures HoldsColumn(MergedPoint(per, toks, keys, lab), k, tok, Child(Dict(At(Points(per, tok), lab)), k))
    decreases |toks|
  {
    var n := |toks| - 1;
    var before := MergedPoint(per, toks[..n], keys, lab);
    if tok == toks[n] {
      OwnColumn(before, keys, Points(per, tok), lab, tok, k);
    } else {
      ApartFromLast(toks, tok);
      ReadColumn(per, toks[..n], keys, lab, tok, k);
      OtherColumn(before, keys, Points(per, toks[n]), lab, toks[n], tok, k, Child(Dict(At(Points(per, tok), lab)), k));
    }
  }

  /** Other than base keys, a comparand contributes no column. */
  lemma {:induction false} MissingColumn(per: map<string, Obj>, toks: seq<string>, keys: set<string>, lab: Tree, tok: string, k: string)
    requires k !in keys && forall t | t in toks :: t == tok || !Overlap(tok, t)
    ensures Column(k, tok) !in MergedPoint(per, toks, keys, lab)
    decreases |toks|
  {
    if toks == [] {
      ColumnIsNotLabel(k, tok);
    } else {
      var front, last := toks[..|toks| - 1], toks[|toks| - 1];
      assert toks == front + [last];
      MissingColumn(per, front, keys, lab, tok, k);
      if last == tok {
        ColumnsOnly(keys, Points(per, last), lab, tok, k);
      } else {
        ColumnsMiss(keys, Points(per, last), lab, last, k, tok);
      }
    }
  }

  lemma ColumnsOnly(keys: set<string>, points: seq<Obj>, lab: Tree, tok: string, k: string)
    requires k !in keys
    ensures Column(k, tok) !in Columns(keys, points, lab, tok)
  {
    ColumnInjective(tok);
  }

  predicate Owned(keys: set<string>, tok: string, c: string) {
    exists k | k in keys :: c == Column(k, tok)
  }

  lemma OwnedExactly(keys: set<string>, points: seq<Obj>, lab: Tree, tok: string, c: string)
    ensures c in Columns(keys, points, lab, tok) <==> Owned(keys, tok, c)
  {
    ColumnInjective(tok);
  }

  predicate OwnedBySome(keys: set<string>, toks: seq<string>, c: string) {
    exists tok | tok in toks :: Owned(keys, tok, c)
  }

  lemma OwnedByOneMore(keys: set<string>, toks: seq<string>, c: string)
    requires toks != []
    ensures OwnedBySome(keys, toks, c) <==> OwnedBySome(keys, toks[..|toks| - 1], c) || Owned(keys, toks[|toks| - 1], c)
  {
    var front, last := toks[..|toks| - 1], toks[|toks| - 1];
    assert forall tok :: tok in toks <==> tok in front || tok == last by { assert toks == front + [last]; }
  }

  lemma {:induction false} ColumnsOf(per: map<string, Obj>, toks: seq<string>, keys: set<string>, lab: Tree, c: string)
    ensures c in MergedPoint(per, toks, keys, lab) <==> c == "label" || OwnedBySome(keys, toks, c)
    decreases |toks|
  {
    if toks != [] {
      var n := |toks| - 1;
      ColumnsOf(per, toks[..n], keys, lab, c);
      OwnedExactly(keys, Points(per, toks[n]), lab, toks[n], c);
      OwnedByOneMore(keys, toks, c);
    }
  }

  /** The keys of a merged point: its label, and for every comparand one column for each key the first comparand's first
      point has beside its label. */
  lemma ColumnsExactly(per: map<string, Obj>, toks: seq<string>, i: nat, c: string)
    requires toks != [] && i < |MergedPoints(per, toks)|
    ensures c in MergedPoints(per, toks)[i] <==>
      c == "label" || exists tok | tok in toks ::
        Points(per, toks[0]) != [] && exists k | k in Points(per, toks[0])[0] :: k != "label" && c == k + "@@" + tok
  {
    ColumnsOf(per, toks, BaseKeys(Points(per, toks[0])), FirstSeen(AllLabels(per, toks))[i], c);
    forall tok | tok in toks { OwnedSpelled(Points(per, toks[0]), tok, c); }
  }

  lemma OwnedSpelled(base: seq<Obj>, tok: string, c: string)
    ensures Owned(BaseKeys(base), tok, c) <==> base != [] && exists k | k in base[0] :: k != "label" && c == k + "@@" + tok
  {
    if base != [] {
      forall k | k in base[0] && k != "label" && c == k + "@@" + tok ensures Owned(BaseKeys(base), tok, c) {
        assert k in BaseKeys(base) && c == Column(k, tok);
      }
    }
  }

  /** The last point with its label is the point itself where labels are unique. */
  lemma {:induction false} AtOwnLabel(points: seq<Obj>, j: nat)
    requires j < |points|
    requires forall i | j < i < |points| :: Label(points[i]) != Label(points[j])
    ensures At(points, Label(points[j])) == points[j]
    decreases |points|
  {
    if j < |points| - 1 { AtOwnLabel(points[..|points| - 1], j); }
  }

  predicate UniqueLabels(points: seq<Obj>) {
    forall i, j | 0 <= i < j < |points| :: Label(points[i]) != Label(points[j])
  }

  /** Some merged point of label `lab` holds `v` under `key`. */
  ghost predicate Serves(merged: seq<Obj>, lab: Tree, key: string, v: Tree) {
    exists i | 0 <= i < |merged| :: Label(merged[i]) == lab && key in merged[i] && merged[i][key] == v
  }

  /** The value the j-th point of a comparand has under `k` stands in its column of the merged point of its label. */
  ghost predicate Kept(per: map<string, Obj>, toks: seq<string>, tok: string, j: nat, k: string)
    requires toks != [] && j < |Points(per, tok)| && k in Points(per, tok)[j]
  {
    Serves(MergedPoints(per, toks), Label(Points(per, tok)[j]), Column(k, tok), Points(per, tok)[j][k])
  }

  /** Every value of every comparand's points is kept. */
  ghost predicate NothingLost(per: map<string, Obj>, toks: seq<string>)
    requires toks != []
  {
    forall tok, j: nat, k | tok in toks && j < |Points(per, tok)| && k in Points(per, tok)[j] && k != "label" ::
      Kept(per, toks, tok, j, k)
  }

  /** The j-th point is the last with its label. */
  predicate LastOfLabel(points: seq<Obj>, j: nat)
    requires j < |points|
  {
    forall i | j < i < |points| :: Label(points[i]) != Label(points[j])
  }

  /** Every value of a point is repeated by the last point of its label. */
  predicate LastSaysTheSame(points: seq<Obj>) {
    forall i: nat, j: nat, k | i <= j < |points| && Label(points[i]) == Label(points[j]) && LastOfLabel(points, j)
      && k in points[i] && k != "label" :: Child(Dict(points[j]), k) == points[i][k]
  }

  predicate KeysAmong(points: seq<Obj>, keys: set<string>) {
    forall j | 0 <= j < |points| :: points[j].Keys <= keys + {"label"}
  }

  /** The comparand's points have base keys only, and it does not contradict itself at a label. */
  predicate Steady(per: map<string, Obj>, toks: seq<string>, tok: string)
    requires toks != []
  {
    KeysAmong(Points(per, tok), BaseKeys(Points(per, toks[0]))) && LastSaysTheSame(Points(per, tok))
  }

  /** The merge keeps every value iff no comparand's point has a key beyond those of the first comparand's first
      point, and no comparand contradicts itself at a label: a series only a later comparand (or point) reports is
      dropped, and of two points with one label the later replaces the earlier. */
  lemma LosslessExactly(per: map<string, Obj>, toks: seq<string>)
    requires toks != [] && ApartTokens(toks)
    ensures NothingLost(per, toks) <==> forall tok | tok in toks :: Steady(per, toks, tok)
  {
    if NothingLost(per, toks) {
      forall tok | tok in toks ensures Steady(per, toks, tok) {
        KeptMeansAgreed(per, toks, tok);
      }
    } else {
      var tok, j: nat, k :| tok in toks && j < |Points(per, tok)| && k in Points(per, tok)[j] && k != "label"
        && !Kept(per, toks, tok, j, k);
      KeptExactly(per, toks, tok, j, k);
      var last := LastPoint(Points(per, tok), j);
    }
  }

  lemma KeptMeansAgreed(per: map<string, Obj>, toks: seq<string>, tok: string)
    requires toks != [] && ApartTokens(toks) && tok in toks && NothingLost(per, toks)
    ensures KeysAmong(Points(per, tok), BaseKeys(Points(per, toks[0]))) && LastSaysTheSame(Points(per, tok))
  {
    var points, keys := Points(per, tok), BaseKeys(Points(per, toks[0]));
    forall j: nat, k | j < |points| && k in points[j] && k != "label" ensures k in keys && LastSays(points, j, k) {
      assert Kept(per, toks, tok, j, k);
      KeptExactly(per, toks, tok, j, k);
    }
    EachLastSays(points, keys);
  }

  /** The last point of its label has the same value under `k` as the j-th. */
  predicate LastSays(points: seq<Obj>, j: nat, k: string)
    requires j < |points| && k in points[j]
  {
    Child(Dict(At(points, Label(points[j]))), k) == points[j][k]
  }

  lemma EachLastSays(points: seq<Obj>, keys: set<string>)
    requires forall j: nat, k | j < |points| && k in points[j] && k != "label" :: k in keys && LastSays(points, j, k)
    ensures KeysAmong(points, keys) && LastSaysTheSame(points)
  {
    forall i: nat, j: nat, k | i <= j < |points| && Label(points[i]) == Label(points[j]) && LastOfLabel(points, j)
      && k in points[i] && k != "label" ensures Child(Dict(points[j]), k) == points[i][k]
    {
      assert LastSays(points, i, k);
      AtOwnLabel(points, j);
    }
  }

  /** A value of a point stands in its column exactly when its key is a base key and the last point of its label
      says the same. */
  lemma KeptExactly(per: map<string, Obj>, toks: seq<string>, tok: string, j: nat, k: string)
    requires toks != [] && ApartTokens(toks) && tok in toks
    requires j < |Points(per, tok)| && k in Points(per, tok)[j] && k != "label"
    ensures Kept(per, toks, tok, j, k) <==> k in BaseKeys(Points(per, toks[0])) && LastSays(Points(per, tok), j, k)
  {
    var lab, keys := Label(Points(per, tok)[j]), BaseKeys(Points(per, toks[0]));
    LabelListed(per, toks, tok, j);
    ServesAtLabel(per, toks, lab, Column(k, tok), Points(per, tok)[j][k]);
    HasColumn(per, toks, keys, lab, tok, k);
    if k in keys { ReadColumn(per, toks, keys, lab, tok, k); }
  }

  /** Among points with distinct labels only the one of `lab` can serve it. */
  lemma ServesOnly(merged: seq<Obj>, i: nat, key: string, v: Tree)
    requires i < |merged| && UniqueLabels(merged)
    ensures Serves(merged, Label(merged[i]), key, v) <==> key in merged[i] && merged[i][key] == v
  {}

  lemma MergedLabels(per: map<string, Obj>, toks: seq<string>)
    requires toks != []
    ensures Labels(MergedPoints(per, toks)) == FirstSeen(AllLabels(per, toks)) && UniqueLabels(MergedPoints(per, toks))
  {
    var labels := FirstSeen(AllLabels(per, toks));
    forall i | 0 <= i < |labels| ensures Label(MergedPoints(per, toks)[i]) == labels[i] {
      MergedLabel(per, toks, BaseKeys(Points(per, toks[0])), labels[i]);
    }
  }

  /** The merged points are the merged point of each label. */
  lemma ServesAtLabel(per: map<string, Obj>, toks: seq<string>, lab: Tree, key: string, v: Tree)
    requires toks != [] && lab in AllLabels(per, toks)
    ensures var pt := MergedPoint(per, toks, BaseKeys(Points(per, toks[0])), lab);
      Serves(MergedPoints(per, toks), lab, key, v) <==> key in pt && pt[key] == v
  {
    var merged := MergedPoints(per, toks);
    MergedLabels(per, toks);
    var i :| 0 <= i < |merged| && Labels(merged)[i] == lab;
    ServesOnly(merged, i, key, v);
  }

  lemma {:induction false} MergedLabel(per: map<string, Obj>, toks: seq<string>, keys: set<string>, lab: Tree)
    ensures Label(MergedPoint(per, toks, keys, lab)) == lab
    decreases |toks|
  {
    if toks != [] {
      var last := toks[|toks| - 1];
      MergedLabel(per, toks[..|toks| - 1], keys, lab);
      NoLabelColumn(keys, Points(per, last), lab, last);
    }
  }

  lemma NoLabelColumn(keys: set<string>, points: seq<Obj>, lab: Tree, tok: string)
    ensures "label" !in Columns(keys, points, lab, tok)
  {
    ColumnInjective(tok);
    forall k { ColumnIsNotLabel(k, tok); }
  }

  lemma {:induction false} LastPoint(points: seq<Obj>, j: nat) returns (last: nat)
    requires j < |points|
    ensures j <= last < |points| && Label(points[last]) == Label(points[j]) && LastOfLabel(points, last)
    ensures At(points, Label(points[j])) == points[last]
    decreases |points| - j
  {
    if i :| j < i < |points| && Label(points[i]) == Label(points[j]) {
      last := LastPoint(points, i);
    } else {
      last := j;
      AtOwnLabel(points, j);
    }
  }

  /** Two points of one comparand with one label: the first one's value is nowhere in the merged points. */
  lemma RepeatedLabelLoses(tok: string, lab: Tree, v1: Tree, v2: Tree)
    requires v1 != v2
    ensures var per := map[tok := map["points" := List([Dict(map["label" := lab, "sag" := v1]), Dict(map["label" := lab, "sag" := v2])])]];
      && KeysAmong(Points(per, tok), BaseKeys(Points(per, tok)))
      && !Serves(MergedPoints(per, [tok]), lab, Column("sag", tok), v1)
      && !NothingLost(per, [tok])
  {
    var p1, p2 := map["label" := lab, "sag" := v1], map["label" := lab, "sag" := v2];
    var per := map[tok := map["points" := List([Dict(p1), Dict(p2)])]];
    assert Points(per, tok) == [p1, p2];
    assert Label(p1) == lab && Label(p2) == lab && p1["sag"] == v1;
    assert At([p1, p2], lab) == p2;
    KeptExactly(per, [tok], tok, 0, "sag");
  }

  lemma HasColumn(per: map<string, Obj>, toks: seq<string>, keys: set<string>, lab: Tree, tok: string, k: string)
    requires ApartTokens(toks) && tok in toks
    ensures Column(k, tok) in MergedPoint(per, toks, keys, lab) <==> k in keys
  {
    if k in keys {
      ReadColumn(per, toks, keys, lab, tok, k);
    } else {
      var i :| 0 <= i < |toks| && toks[i] == tok;
      forall t | t in toks && t != tok ensures !Overlap(tok, t) {
        var j :| 0 <= j < |toks| && toks[j] == t;
        assert Apart(toks[if i < j then i else j], toks[if i < j then j else i]);
      }
      MissingColumn(per, toks, keys, lab, tok, k);
    }
  }

  /** The property the merge promises: at a comparand's own point, every base key reads back its own value, None
      where the point has no such key. */
  lemma PointReadsBack(per: map<string, Obj>, toks: seq<string>, tok: string, j: nat, k: string)
    requires toks != [] && ApartTokens(toks) && tok in toks
    requires j < |Points(per, tok)| && UniqueLabels(Points(per, tok)) && k in BaseKeys(Points(per, toks[0]))
    ensures Serves(MergedPoints(per, toks), Label(Points(per, tok)[j]), Column(k, tok), Child(Dict(Points(per, tok)[j]), k))
  {
    var lab, v := Label(Points(per, tok)[j]), Child(Dict(Points(per, tok)[j]), k);
    AtOwnLabel(Points(per, tok), j);
    ReadColumn(per, toks, BaseKeys(Points(per, toks[0])), lab, tok, k);
    LabelListed(per, toks, tok, j);
    ServesAtLabel(per, toks, lab, Column(k, tok), v);
  }

  lemma {:induction false} LabelListed(per: map<string, Obj>, toks: seq<string>, tok: string, j: nat)
    requires tok in toks && j < |Points(per, tok)|
    ensures Label(Points(per, tok)[j]) in AllLabels(per, toks)
    decreases |toks|
  {
    var front, last := toks[..|toks| - 1], toks[|toks| - 1];
    assert toks == front + [last];
    if tok == last {
      assert Labels(Points(per, tok))[j] == Label(Points(per, tok)[j]);
    } else {
      LabelListed(per, front, tok, j);
    }
  }

  // ---------------------------------------------------------------- points: the presentation rewrite

  function SeriesEntry(f: Format, e: Obj, tok: string, i: nat): Tree {
    Dict(e["key" := Str(Column(Show(f, Child(Dict(e), "key")), tok))]
          ["label" := Str(Show(f, Child(Dict(e), "label")) + " — " + tok)]
          ["color" := if i == 0 then Child(Dict(e), "color") else f.tint(Child(Dict(e), "color"), i)])
  }

  function PerToken(f: Format, e: Obj, toks: seq<string>): seq<Tree> {
    seq(|toks|, i requires 0 <= i < |toks| => SeriesEntry(f, e, toks[i], i))
  }

  function RebuildSeries(f: Format, base: seq<Tree>, toks: seq<string>): seq<Tree> {
    if base == [] then []
    else RebuildSeries(f, base[..|base| - 1], toks) + PerToken(f, OrDict(base[|base| - 1]), toks)
  }

  function OrderRow(f: Format, name: Tree, toks: seq<string>): seq<Tree> {
    seq(|toks|, i requires 0 <= i < |toks| => Str(Column(Show(f, name), toks[i])))
  }

  function RebuildOrder(f: Format, base: seq<Tree>, toks: seq<string>): seq<Tree> {
    if base == [] then []
    else RebuildOrder(f, base[..|base| - 1], toks) + OrderRow(f, base[|base| - 1], toks)
  }

  function RewriteAt(pres: Obj, key: string, rebuilt: seq<Tree>): Obj {
    if OrList(Child(Dict(pres), key)) == [] then pres else pres[key := List(rebuilt)]
  }

  /** The series lists, then the orders, each rebuilt from what the base had. */
  function RewriteLists(f: Format, pres: Obj, toks: seq<string>): Obj {
    var p1 := RewriteAt(pres, "stackSeries", RebuildSeries(f, OrList(Child(Dict(pres), "stackSeries")), toks));
    var p2 := RewriteAt(p1, "lineSeries", RebuildSeries(f, OrList(Child(Dict(pres), "lineSeries")), toks));
    var p3 := RewriteAt(p2, "stackOrder", RebuildOrder(f, OrList(Child(Dict(pres), "stackOrder")), toks));
    RewriteAt(p3, "lineOrder", RebuildOrder(f, OrList(Child(Dict(pres), "lineOrder")), toks))
  }

  function RewritePres(f: Format, pres: Obj, toks: seq<string>): Obj {
    RewriteLists(f, pres, toks)["sectionSplit" := Bool(true)]["showLegend" := Bool(true)]["sectionCompare" := TokenList(toks)]
  }

  function DictList(points: seq<Obj>): Tree {
    List(seq(|points|, i requires 0 <= i < |points| => Dict(points[i])))
  }

  function MergePoints(f: Format, sub: Obj, per: map<string, Obj>, toks: seq<string>): Obj
    requires toks != []
  {
    sub["points" := DictList(MergedPoints(per, toks))]
       ["pres" := Dict(RewritePres(f, OrDict(Child(Dict(sub), "pres")), toks))]
  }

  /** `i` times `width`. */
  function Row(i: nat, width: nat): (n: nat)
    ensures i == 0 ==> n == 0
  {
    if i == 0 then 0 else Row(i - 1, width) + width
  }

  lemma {:induction false} RowBefore(i: nat, n: nat, width: nat)
    requires i < n
    ensures Row(i, width) + width <= Row(n, width)
  {
    if i < n - 1 { RowBefore(i, n - 1, width); }
  }

  lemma {:induction false} RowIsProduct(i: nat, width: nat)
    ensures Row(i, width) == i * width
  {
    if i > 0 {
      RowIsProduct(i - 1, width);
      assert i * width == (i - 1) * width + width;
    }
  }

  /** The entry of `rebuilt` made for `toks[j]` from the `i`-th entry of a list: entries come in the order of the
      list, and for each entry in the order of the tokens. */
  function Nth(rebuilt: seq<Tree>, toks: seq<string>, i: nat, j: nat): Tree {
    var at := Row(i, |toks|) + j;
    if at < |rebuilt| then rebuilt[at] else Null
  }

  /** Rows of equal width, one after the other. */
  lemma NthOfRows(front: seq<Tree>, row: seq<Tree>, toks: seq<string>, n: nat, i: nat, j: nat)
    requires |front| == Row(n, |toks|) && |row| == |toks| && i <= n && j < |toks|
    ensures Nth(front + row, toks, i, j) == if i < n then Nth(front, toks, i, j) else row[j]
  {
    if i < n { RowBefore(i, n, |toks|); }
  }

  lemma {:induction false} RebuiltSeriesSize(f: Format, base: seq<Tree>, toks: seq<string>)
    ensures |RebuildSeries(f, base, toks)| == Row(|base|, |toks|)
    decreases |base|
  {
    if base != [] { RebuiltSeriesSize(f, base[..|base| - 1], toks); }
  }

  lemma {:induction false} RebuiltSeriesAt(f: Format, base: seq<Tree>, toks: seq<string>, i: nat, j: nat)
    requires i < |base| && j < |toks|
    ensures Nth(RebuildSeries(f, base, toks), toks, i, j) == SeriesEntry(f, OrDict(base[i]), toks[j], j)
    decreases |base|
  {
    var n := |base| - 1;
    RebuiltSeriesSize(f, base[..n], toks);
    NthOfRows(RebuildSeries(f, base[..n], toks), PerToken(f, OrDict(base[n]), toks), toks, n, i, j);
    if i < n { RebuiltSeriesAt(f, base[..n], toks, i, j); }
  }

  lemma {:induction false} RebuiltOrderSize(f: Format, base: seq<Tree>, toks: seq<string>)
    ensures |RebuildOrder(f, base, toks)| == Row(|base|, |toks|)
    decreases |base|
  {
    if base != [] { RebuiltOrderSize(f, base[..|base| - 1], toks); }
  }

  lemma {:induction false} RebuiltOrderAt(f: Format, base: seq<Tree>, toks: seq<string>, i: nat, j: nat)
    requires i < |base| && j < |toks|
    ensures Nth(RebuildOrder(f, base, toks), toks, i, j) == Str(Column(Show(f, base[i]), toks[j]))
    decreases |base|
  {
    var n := |base| - 1;
    RebuiltOrderSize(f, base[..n], toks);
    NthOfRows(RebuildOrder(f, base[..n], toks), OrderRow(f, base[n], toks), toks, n, i, j);
    if i < n { RebuiltOrderAt(f, base[..n], toks, i, j); }
  }

  predicate SeriesList(key: string) { key == "stackSeries" || key == "lineSeries" }
  predicate OrderList(key: string) { key == "stackOrder" || key == "lineOrder" }

  /** A list of the presentation. */
  function PresList(sub: Obj, key: string): seq<Tree> {
    OrList(Child(Child(Dict(sub), "pres"), key))
  }

  lemma RewriteReads(pres: Obj, key: string, rebuilt: seq<Tree>, other: string)
    ensures Child(Dict(RewriteAt(pres, key, rebuilt)), other) ==
      if other == key && OrList(Child(Dict(pres), key)) != [] then List(rebuilt) else Child(Dict(pres), other)
  {}

  /** Each of the four lists is rebuilt once and no other entry of the presentation is touched by it. */
  lemma ListsRead(f: Format, pres: Obj, toks: seq<string>, key: string)
    requires OrList(Child(Dict(pres), key)) != []
    ensures SeriesList(key) ==> Child(Dict(RewriteLists(f, pres, toks)), key) == List(RebuildSeries(f, OrList(Child(Dict(pres), key)), toks))
    ensures OrderList(key) ==> Child(Dict(RewriteLists(f, pres, toks)), key) == List(RebuildOrder(f, OrList(Child(Dict(pres), key)), toks))
  {
    var r1 := RebuildSeries(f, OrList(Child(Dict(pres), "stackSeries")), toks);
    var r2 := RebuildSeries(f, OrList(Child(Dict(pres), "lineSeries")), toks);
    var r3 := RebuildOrder(f, OrList(Child(Dict(pres), "stackOrder")), toks);
    var p1 := RewriteAt(pres, "stackSeries", r1);
    var p2 := RewriteAt(p1, "lineSeries", r2);
    var p3 := RewriteAt(p2, "stackOrder", r3);
    RewriteReads(pres, "stackSeries", r1, key);
    RewriteReads(p1, "lineSeries", r2, key);
    RewriteReads(p2, "stackOrder", r3, key);
    RewriteReads(p3, "lineOrder", RebuildOrder(f, OrList(Child(Dict(pres), "lineOrder")), toks), key);
  }

  lemma FlagsElsewhere(f: Format, pres: Obj, toks: seq<string>, key: string)
    requires SeriesList(key) || OrderList(key)
    ensures Child(Dict(RewritePres(f, pres, toks)), key) == Child(Dict(RewriteLists(f, pres, toks)), key)
  {}

  lemma RewrittenLists(f: Format, sub: Obj, per: map<string, Obj>, toks: seq<string>, key: string)
    requires toks != [] && PresList(sub, key) != [] && (SeriesList(key) || OrderList(key))
    ensures PresList(MergePoints(f, sub, per, toks), key) ==
      if SeriesList(key) then RebuildSeries(f, PresList(sub, key), toks) else RebuildOrder(f, PresList(sub, key), toks)
  {
    var pres := OrDict(Child(Dict(sub), "pres"));
    assert Child(Dict(pres), key) == Child(Child(Dict(sub), "pres"), key);
    assert Child(Dict(MergePoints(f, sub, per, toks)), "pres") == Dict(RewritePres(f, pres, toks));
    FlagsElsewhere(f, pres, toks, key);
    ListsRead(f, pres, toks, key);
  }

  /** `column` names, in every merged point, the comparand's own value of `key` at the point's label. */
  ghost predicate Resolves(per: map<string, Obj>, toks: seq<string>, tok: string, key: string, column: Tree)
    requires toks != []
  {
    column.Str? && forall m | m in MergedPoints(per, toks) ::
      column.s in m && m[column.s] == Child(Dict(At(Points(per, tok), Label(m))), key)
  }

  /** `column` names nothing in any merged point. */
  ghost predicate Dangles(per: map<string, Obj>, toks: seq<string>, column: Tree)
    requires toks != []
  {
    column.Str? && forall m | m in MergedPoints(per, toks) :: column.s !in m
  }

  /** The rewritten name of a base key resolves, any other dangles. */
  ghost predicate Follows(per: map<string, Obj>, toks: seq<string>, tok: string, key: string, column: Tree)
    requires toks != []
  {
    if key in BaseKeys(Points(per, toks[0])) then Resolves(per, toks, tok, key, column) else Dangles(per, toks, column)
  }

  lemma ColumnResolves(per: map<string, Obj>, toks: seq<string>, tok: string, key: string)
    requires toks != [] && ApartTokens(toks) && tok in toks
    ensures Follows(per, toks, tok, key, Str(Column(key, tok)))
  {
    var keys, merged := BaseKeys(Points(per, toks[0])), MergedPoints(per, toks);
    forall m | m in merged
      ensures Column(key, tok) in m <==> key in keys
      ensures key in keys ==> m[Column(key, tok)] == Child(Dict(At(Points(per, tok), Label(m))), key)
    {
      var i :| 0 <= i < |merged| && merged[i] == m;
      var lab := FirstSeen(AllLabels(per, toks))[i];
      MergedLabel(per, toks, keys, lab);
      HasColumn(per, toks, keys, lab, tok, key);
      if key in keys { ReadColumn(per, toks, keys, lab, tok, key); }
    }
  }

  /** A series entry made for the `i`-th comparand from `e`: the legend label names the comparand, the first keeps the
      color and the others get a tint of it, and every other field is as it was. */
  predicate CarriesSeries(f: Format, r: Tree, e: Tree, tok: string, i: nat) {
    && r.Dict? && r.m.Keys == OrDict(e).Keys + {"key", "label", "color"}
    && r.m["key"] == Str((if Child(e, "key").Str? then Child(e, "key").s else f.other(Child(e, "key"))) + "@@" + tok)
    && r.m["label"] == Str((if Child(e, "label").Str? then Child(e, "label").s else f.other(Child(e, "label"))) + " — " + tok)
    && r.m["color"] == (if i == 0 then Child(e, "color") else f.tint(Child(e, "color"), i))
    && forall k | k in OrDict(e) && k != "key" && k != "label" && k != "color" :: r.m[k] == OrDict(e)[k]
  }

  lemma EntryCarries(f: Format, e: Tree, tok: string, i: nat)
    ensures CarriesSeries(f, SeriesEntry(f, OrDict(e), tok, i), e, tok, i)
    ensures Child(SeriesEntry(f, OrDict(e), tok, i), "key") == Str(Column(Show(f, Child(e, "key")), tok))
  {
    assert forall k :: Child(Dict(OrDict(e)), k) == Child(e, k);
  }

  lemma SeriesEntryAt(f: Format, sub: Obj, per: map<string, Obj>, toks: seq<string>, list: string, i: nat, j: nat)
    requires toks != [] && SeriesList(list) && i < |PresList(sub, list)| && j < |toks|
    ensures var rebuilt := PresList(MergePoints(f, sub, per, toks), list);
      && |rebuilt| == Row(|PresList(sub, list)|, |toks|)
      && CarriesSeries(f, Nth(rebuilt, toks, i, j), PresList(sub, list)[i], toks[j], j)
      && Child(Nth(rebuilt, toks, i, j), "key") == Str(Column(Show(f, Child(PresList(sub, list)[i], "key")), toks[j]))
  {
    RewrittenLists(f, sub, per, toks, list);
    RebuiltSeriesSize(f, PresList(sub, list), toks);
    RebuiltSeriesAt(f, PresList(sub, list), toks, i, j);
    EntryCarries(f, PresList(sub, list)[i], toks[j], j);
  }

  /** After the rewrite every entry of a series list has one entry per comparand, in its place and labelled with the
      comparand.  Whatever else the
      list holds, an entry whose key was a base key still resolves: its new key is a column of every merged point,
      that comparand's values of the old key.  The new key of any other entry is a column of none. */
  lemma SeriesResolve(f: Format, sub: Obj, per: map<string, Obj>, toks: seq<string>, list: string, i: nat, j: nat)
    requires toks != [] && ApartTokens(toks) && SeriesList(list) && i < |PresList(sub, list)| && j < |toks|
    ensures var rebuilt := PresList(MergePoints(f, sub, per, toks), list);
      var key, column := Show(f, Child(PresList(sub, list)[i], "key")), Child(Nth(rebuilt, toks, i, j), "key");
      && |rebuilt| == Row(|PresList(sub, list)|, |toks|)
      && CarriesSeries(f, Nth(rebuilt, toks, i, j), PresList(sub, list)[i], toks[j], j)
      && Follows(per, toks, toks[j], key, column)
  {
    SeriesEntryAt(f, sub, per, toks, list, i, j);
    ColumnResolves(per, toks, toks[j], Show(f, Child(PresList(sub, list)[i], "key")));
  }

  lemma OrderNameAt(f: Format, sub: Obj, per: map<string, Obj>, toks: seq<string>, list: string, i: nat, j: nat)
    requires toks != [] && OrderList(list) && i < |PresList(sub, list)| && j < |toks|
    ensures var rebuilt := PresList(MergePoints(f, sub, per, toks), list);
      && |rebuilt| == Row(|PresList(sub, list)|, |toks|)
      && Nth(rebuilt, toks, i, j) == Str(Column(Show(f, PresList(sub, list)[i]), toks[j]))
  {
    RewrittenLists(f, sub, per, toks, list);
    RebuiltOrderSize(f, PresList(sub, list), toks);
    RebuiltOrderAt(f, PresList(sub, list), toks, i, j);
  }

  /** The same of every name in the stacking and line orders. */
  lemma OrderResolves(f: Format, sub: Obj, per: map<string, Obj>, toks: seq<string>, list: string, i: nat, j: nat)
    requires toks != [] && ApartTokens(toks) && OrderList(list) && i < |PresList(sub, list)| && j < |toks|
    ensures var rebuilt := PresList(MergePoints(f, sub, per, toks), list);
      var key, column := Show(f, PresList(sub, list)[i]), Nth(rebuilt, toks, i, j);
      && |rebuilt| == Row(|PresList(sub, list)|, |toks|)
      && Follows(per, toks, toks[j], key, column)
  {
    OrderNameAt(f, sub, per, toks, list, i, j);
    ColumnResolves(per, toks, toks[j], Show(f, PresList(sub, list)[i]));
  }

  // ---------------------------------------------------------------- what the merges leave alone

  /** The list names the comparands in order. */
  predicate NamesTokens(t: Tree, toks: seq<string>) {
    t.List? && |t.xs| == |toks| && forall i | 0 <= i < |toks| :: t.xs[i] == Str(toks[i])
  }

  /** Nothing but the stats. */
  lemma MergeStatsFrame(sub: Obj, per: map<string, Obj>, toks: seq<string>, k: string)
    requires k != "stats"
    ensures Child(Dict(MergeStats(sub, per, toks)), k) == Child(Dict(sub), k)
  {}

  /** The panels of the period, the section column of the presentation, and the list of comparands. */
  lemma MergePanelsFrame(f: Format, sub: Obj, per: map<string, Obj>, toks: seq<string>, k: string)
    ensures var out := MergePanels(f, sub, per, toks);
      && NamesTokens(Child(Dict(out), "sectionCompare"), toks)
      && Child(Dict(out), "pres") == StampSectionColumn(Child(Dict(sub), "pres"))
      && (k != "period" && k != "pres" && k != "sectionCompare" ==> Child(Dict(out), k) == Child(Dict(sub), k))
      && (k != "panels" ==> Child(Child(Dict(out), "period"), k) == Child(Child(Dict(sub), "period"), k))
  {}

  predicate RewrittenByPoints(k: string) {
    SeriesList(k) || OrderList(k) || k == "sectionSplit" || k == "showLegend" || k == "sectionCompare"
  }

  lemma ListsElsewhere(f: Format, pres: Obj, toks: seq<string>, k: string)
    requires !SeriesList(k) && !OrderList(k)
    ensures Child(Dict(RewriteLists(f, pres, toks)), k) == Child(Dict(pres), k)
  {}

  lemma PresFlags(f: Format, pres: Obj, toks: seq<string>)
    ensures var out := Dict(RewritePres(f, pres, toks));
      && Child(out, "sectionSplit") == Bool(true) && Child(out, "showLegend") == Bool(true)
      && NamesTokens(Child(out, "sectionCompare"), toks)
  {}

  lemma PresElsewhere(f: Format, pres: Obj, toks: seq<string>, k: string)
    requires !RewrittenByPoints(k)
    ensures Child(Dict(RewritePres(f, pres, toks)), k) == Child(Dict(pres), k)
  {
    ListsElsewhere(f, pres, toks, k);
    var lists := RewriteLists(f, pres, toks);
    assert Child(Dict(RewritePres(f, pres, toks)), k) == Child(Dict(lists), k);
  }

  /** The points, and of the presentation the series and orders, the legend and split flags and the comparands. */
  lemma MergePointsFrame(f: Format, sub: Obj, per: map<string, Obj>, toks: seq<string>, k: string)
    requires toks != []
    ensures var out := MergePoints(f, sub, per, toks); var pres := Child(Dict(out), "pres");
      && Child(pres, "sectionSplit") == Bool(true) && Child(pres, "showLegend") == Bool(true) && NamesTokens(Child(pres, "sectionCompare"), toks)
      && (k != "points" && k != "pres" ==> Child(Dict(out), k) == Child(Dict(sub), k))
      && (!RewrittenByPoints(k) ==> Child(pres, k) == Child(Child(Dict(sub), "pres"), k))
  {
    var pres := OrDict(Child(Dict(sub), "pres"));
    assert Child(Dict(MergePoints(f, sub, per, toks)), "pres") == Dict(RewritePres(f, pres, toks));
    PresFlags(f, pres, toks);
    if !RewrittenByPoints(k) { PresElsewhere(f, pres, toks, k); }
  }
}
