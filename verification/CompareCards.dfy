/** host/compare_overlay.py, merge_overlay and merge_all: the flat multi-asset card list becomes one card
    per render id, in first-seen order. */
module CompareCards {
  import opened Json
  import opened CompareOverlay

  datatype Asset = Untagged | Asset(id: int, name: Tree)

  /** One comparand's untouched payload, as the side-by-side fallback carries it. */
  datatype Side = Side(token: string, name: Tree, payload: seq<(string, Tree)>)

  /** A card: its payload keeps the order of its top-level keys, which decides the mergeable subtree. */
  datatype Card = Card(renderId: int, asset: Asset, payload: seq<(string, Tree)>, sides: seq<Side>)

  datatype Entry = Entry(tok: string, card: Card)

  function Lookup(payload: seq<(string, Tree)>, key: string): Tree {
    if payload == [] then Null
    else if payload[0].0 == key then payload[0].1
    else Lookup(payload[1..], key)
  }

  function Replace(payload: seq<(string, Tree)>, key: string, v: Tree): seq<(string, Tree)> {
    if payload == [] then []
    else if payload[0].0 == key then [(key, v)] + payload[1..]
    else [payload[0]] + Replace(payload[1..], key, v)
  }

  predicate Chrome(key: string) {
    key == "widgets" || key == "variant" || key == "ai_summary"
  }

  predicate HasSubtree(payload: seq<(string, Tree)>) {
    payload != [] && ((payload[0].1.Dict? && !Chrome(payload[0].0)) || HasSubtree(payload[1..]))
  }

  /** The first dictionary of the payload that is not chrome. */
  function SubtreeKey(payload: seq<(string, Tree)>): string
    requires HasSubtree(payload)
  {
    if payload[0].1.Dict? && !Chrome(payload[0].0) then payload[0].0 else SubtreeKey(payload[1..])
  }

  /** The subtree exactly: the first entry that is a dictionary and neither widgets, variant nor AI summary. */
  lemma {:induction false} SubtreeExactly(payload: seq<(string, Tree)>, i: nat)
    requires i < |payload| && payload[i].1.Dict? && payload[i].0 !in {"widgets", "variant", "ai_summary"}
    requires forall j | 0 <= j < i :: !payload[j].1.Dict? || payload[j].0 in {"widgets", "variant", "ai_summary"}
    ensures HasSubtree(payload) && SubtreeKey(payload) == payload[i].0
  {
    if i > 0 { SubtreeExactly(payload[1..], i - 1); }
  }

  lemma {:induction false} NoSubtreeExactly(payload: seq<(string, Tree)>)
    requires forall j | 0 <= j < |payload| :: !payload[j].1.Dict? || payload[j].0 in {"widgets", "variant", "ai_summary"}
    ensures !HasSubtree(payload)
  {
    if payload != [] { NoSubtreeExactly(payload[1..]); }
  }

  lemma {:induction false} LookupReplaced(payload: seq<(string, Tree)>, key: string, v: Tree)
    requires Lookup(payload, key) != Null
    ensures Lookup(Replace(payload, key, v), key) == v
  {
    if payload[0].0 != key { LookupReplaced(payload[1..], key, v); }
  }

  /** Every comparand's subtree by token; of two entries with the same token the later one stays. */
  function Per(entries: seq<Entry>, key: string): map<string, Obj> {
    if entries == [] then map[]
    else
      var last := entries[|entries| - 1];
      Per(entries[..|entries| - 1], key)[last.tok := OrDict(Lookup(last.card.payload, key))]
  }

  predicate HasStats(sub: Obj) { Child(Dict(sub), "stats").Dict? }
  predicate HasPanels(sub: Obj) { Child(Child(Dict(sub), "period"), "panels").List? }
  predicate HasPoints(sub: Obj) { Child(Dict(sub), "points").List? }

  /** The three inline merges, each guarded by its shape, each reading what the one before left. */
  function MergeSub(f: Format, sub: Obj, per: map<string, Obj>, toks: seq<string>): Obj
    requires toks != []
  {
    var s1 := if HasStats(sub) then MergeStats(sub, per, toks) else sub;
    var s2 := if HasPanels(s1) then MergePanels(f, s1, per, toks) else s1;
    if HasPoints(s2) then MergePoints(f, s2, per, toks) else s2
  }

  function Sides(entries: seq<Entry>): seq<Side> {
    seq(|entries|, i requires 0 <= i < |entries| =>
      Side(entries[i].tok, if entries[i].card.asset.Asset? then entries[i].card.asset.name else Null, entries[i].card.payload))
  }

  function MergeOverlay(f: Format, entries: seq<Entry>, toks: seq<string>): Card
    requires entries != [] && toks != []
  {
    var base := entries[0].card;
    if !HasSubtree(base.payload) then base.(asset := Untagged, sides := Sides(entries))
    else
      var key := SubtreeKey(base.payload);
      var sub := OrDict(Lookup(base.payload, key));
      if !HasStats(sub) && !HasPanels(sub) && !HasPoints(sub) then base.(asset := Untagged, sides := Sides(entries))
      else
        base.(asset := Untagged,
              payload := Replace(base.payload, key, Dict(MergeSub(f, sub, Per(entries, key), toks))))
  }

  // ---------------------------------------------------------------- no comparand is lost

  function Tokens(entries: seq<Entry>): seq<string> {
    seq(|entries|, i requires 0 <= i < |entries| => entries[i].tok)
  }

  lemma {:induction false} PerOwn(entries: seq<Entry>, key: string, i: nat)
    requires i < |entries| && forall j | i < j < |entries| :: entries[j].tok != entries[i].tok
    ensures entries[i].tok in Per(entries, key)
    ensures Per(entries, key)[entries[i].tok] == OrDict(Lookup(entries[i].card.payload, key))
    decreases |entries|
  {
    if i < |entries| - 1 { PerOwn(entries[..|entries| - 1], key, i); }
  }

  lemma StatsShape(sub: Obj, per: map<string, Obj>, toks: seq<string>)
    ensures var out := MergeStats(sub, per, toks);
      && Child(Child(Dict(out), "stats"), "sections") == Dict(Sections(per, toks))
      && Child(Dict(out), "period") == Child(Dict(sub), "period") && Child(Dict(out), "points") == Child(Dict(sub), "points")
  {}

  lemma PanelsShape(f: Format, sub: Obj, per: map<string, Obj>, toks: seq<string>)
    ensures var out := MergePanels(f, sub, per, toks);
      && Child(Child(Dict(out), "period"), "panels") == List(AllPanels(f, per, toks))
      && Child(Dict(out), "stats") == Child(Dict(sub), "stats") && Child(Dict(out), "points") == Child(Dict(sub), "points")
  {}

  lemma PointsShape(f: Format, sub: Obj, per: map<string, Obj>, toks: seq<string>)
    requires toks != []
    ensures var out := MergePoints(f, sub, per, toks);
      && PointsOf(out) == MergedPoints(per, toks)
      && Child(Dict(out), "stats") == Child(Dict(sub), "stats") && Child(Dict(out), "period") == Child(Dict(sub), "period")
  {
    DictsListed(MergePoints(f, sub, per, toks), MergedPoints(per, toks));
  }

  lemma DictsListed(sub: Obj, points: seq<Obj>)
    requires Child(Dict(sub), "points") == DictList(points)
    ensures PointsOf(sub) == points
  {}

  /** Each inline merge writes its own part of the subtree, and only where the first comparand has the shape; a part
      without the shape stays as the first comparand has it. */
  lemma MergeSubShapes(f: Format, sub: Obj, per: map<string, Obj>, toks: seq<string>)
    requires toks != []
    ensures var out := MergeSub(f, sub, per, toks);
      && (if HasStats(sub) then Child(Child(Dict(out), "stats"), "sections") == Dict(Sections(per, toks))
          else Child(Dict(out), "stats") == Child(Dict(sub), "stats"))
      && (if HasPanels(sub) then Child(Child(Dict(out), "period"), "panels") == List(AllPanels(f, per, toks))
          else Child(Dict(out), "period") == Child(Dict(sub), "period"))
      && (if HasPoints(sub) then PointsOf(out) == MergedPoints(per, toks)
          else Child(Dict(out), "points") == Child(Dict(sub), "points"))
  {
    StatsShape(sub, per, toks);
    var s1 := if HasStats(sub) then MergeStats(sub, per, toks) else sub;
    PanelsShape(f, s1, per, toks);
    PointsShape(f, if HasPanels(s1) then MergePanels(f, s1, per, toks) else s1, per, toks);
  }

  /** The subtree of a card that its group merges. */
  function BaseSub(base: Card): Obj
    requires HasSubtree(base.payload)
  {
    OrDict(Lookup(base.payload, SubtreeKey(base.payload)))
  }

  /** The group of this first card merges inline: its subtree has a stats dictionary, a list of panels in its period,
      or a list of points. */
  predicate Inline(base: Card) {
    && HasSubtree(base.payload)
    && var sub := Dict(BaseSub(base));
       Child(sub, "stats").Dict? || Child(Child(sub, "period"), "panels").List? || Child(sub, "points").List?
  }

  /** A comparand's stats stand under its token; without the shape in the first comparand they stay as that has them. */
  predicate ShowsStats(merged: Obj, base: Obj, tok: string, own: Obj) {
    if Child(Dict(base), "stats").Dict? then Child(Child(Child(Dict(merged), "stats"), "sections"), tok) == Dict(OrDict(Child(Dict(own), "stats")))
    else Child(Dict(merged), "stats") == Child(Dict(base), "stats")
  }

  /** A comparand's dictionary panels, each with every field it had, are the panels of its section. */
  predicate ShowsPanels(f: Format, merged: Obj, base: Obj, tok: string, own: Obj) {
    if Child(Child(Dict(base), "period"), "panels").List? then
      CarriesPanels(f, OfSection(OrList(Child(Child(Dict(merged), "period"), "panels")), tok),
                    OrList(Child(Child(Dict(own), "period"), "panels")), tok)
    else Child(Dict(merged), "period") == Child(Dict(base), "period")
  }

  /** The merged card carries a comparand's stats, panels or whole payload under its token.  The first card of the
      group, `base`, alone decides the shapes: one it lacks is not merged, and stays as `base` has it. */
  ghost predicate Shows(f: Format, out: Card, base: Card, tok: string, card: Card) {
    if !Inline(base) then Side(tok, if card.asset.Asset? then card.asset.name else Null, card.payload) in out.sides
    else
      var key := SubtreeKey(base.payload);
      var own, merged := OrDict(Lookup(card.payload, key)), OrDict(Lookup(out.payload, key));
      ShowsStats(merged, BaseSub(base), tok, own) && ShowsPanels(f, merged, BaseSub(base), tok, own)
  }

  /** Where points merge, each of the comparand's points, its labels being unique, reads back in the merged card:
      under `key@@tok` its own value of every base key, None where it has none. */
  ghost predicate ShowsPoints(out: Card, base: Card, tok: string, card: Card) {
    Inline(base) && Child(Dict(BaseSub(base)), "points").List? ==>
      var key := SubtreeKey(base.payload);
      ReadsBack(PointsOf(OrDict(Lookup(out.payload, key))), PointsOf(OrDict(Lookup(card.payload, key))),
                BaseKeys(PointsOf(BaseSub(base))), tok)
  }

  ghost predicate ReadsBack(merged: seq<Obj>, own: seq<Obj>, keys: set<string>, tok: string) {
    UniqueLabels(own) ==>
      forall j, k | 0 <= j < |own| && k in keys :: Serves(merged, Label(own[j]), Column(k, tok), Child(Dict(own[j]), k))
  }

  lemma {:induction false} InlineOut(f: Format, entries: seq<Entry>, toks: seq<string>)
    requires entries != [] && toks != [] && Inline(entries[0].card)
    ensures var base := entries[0].card; var key := SubtreeKey(base.payload);
      Lookup(MergeOverlay(f, entries, toks).payload, key) == Dict(MergeSub(f, BaseSub(base), Per(entries, key), toks))
  {
    var base := entries[0].card;
    var key := SubtreeKey(base.payload);
    LookupReplaced(base.payload, key, Dict(MergeSub(f, BaseSub(base), Per(entries, key), toks)));
  }

  lemma MergedShowsStats(f: Format, base: Obj, per: map<string, Obj>, toks: seq<string>, tok: string)
    requires tok in toks && tok in per
    ensures ShowsStats(MergeSub(f, base, per, toks), base, tok, per[tok])
  {
    MergeSubShapes(f, base, per, toks);
  }

  lemma MergedShowsPanels(f: Format, base: Obj, per: map<string, Obj>, toks: seq<string>, tok: string)
    requires DistinctTokens(toks) && tok in toks && tok in per
    ensures ShowsPanels(f, MergeSub(f, base, per, toks), base, tok, per[tok])
  {
    MergeSubShapes(f, base, per, toks);
    PanelsLossless(f, per, toks, tok);
  }

  /** A merge of comparands with distinct tokens shows every comparand. */
  lemma {:induction false} OverlayKeepsComparand(f: Format, entries: seq<Entry>, i: nat)
    requires i < |entries| && DistinctTokens(Tokens(entries))
    ensures Shows(f, MergeOverlay(f, entries, Tokens(entries)), entries[0].card, entries[i].tok, entries[i].card)
  {
    var base, toks, tok := entries[0].card, Tokens(entries), entries[i].tok;
    assert toks[i] == tok;
    if Inline(base) {
      var key := SubtreeKey(base.payload);
      InlineOut(f, entries, toks);
      PerOwnEntry(entries, key, i);
      MergedShowsStats(f, BaseSub(base), Per(entries, key), toks, tok);
      MergedShowsPanels(f, BaseSub(base), Per(entries, key), toks, tok);
    } else {
      assert Sides(entries)[i].token == tok && Sides(entries)[i] in MergeOverlay(f, entries, toks).sides;
    }
  }

  predicate MergedKey(k: string) {
    k == "stats" || k == "period" || k == "points" || k == "pres" || k == "sectionCompare"
  }

  predicate MergedPresKey(k: string) {
    RewrittenByPoints(k) || k == "eventModeOrder" || k == "eventColumn"
  }

  /** What the stats and the panels merge leave, of which the points merge reads the rest. */
  function BeforePoints(f: Format, sub: Obj, per: map<string, Obj>, toks: seq<string>): Obj {
    var s1 := if HasStats(sub) then MergeStats(sub, per, toks) else sub;
    if HasPanels(s1) then MergePanels(f, s1, per, toks) else s1
  }

  lemma BeforePointsFrame(f: Format, sub: Obj, per: map<string, Obj>, toks: seq<string>, k: string)
    ensures var out := BeforePoints(f, sub, per, toks);
      && (k != "stats" && k != "period" && k != "pres" && k != "sectionCompare" ==> Child(Dict(out), k) == Child(Dict(sub), k))
      && (k != "panels" ==> Child(Child(Dict(out), "period"), k) == Child(Child(Dict(sub), "period"), k))
      && (HasPanels(sub) ==> NamesTokens(Child(Dict(out), "sectionCompare"), toks))
      && Child(Dict(out), "pres") == (if HasPanels(sub) then StampSectionColumn(Child(Dict(sub), "pres")) else Child(Dict(sub), "pres"))
  {
    var s1 := if HasStats(sub) then MergeStats(sub, per, toks) else sub;
    forall j | j != "stats" ensures Child(Dict(s1), j) == Child(Dict(sub), j) { MergeStatsFrame(sub, per, toks, j); }
    MergePanelsFrame(f, s1, per, toks, k);
  }

  /** Of the merged subtree: every entry that no merge writes is the first comparand's. */
  lemma MergeSubFrame(f: Format, sub: Obj, per: map<string, Obj>, toks: seq<string>, k: string)
    requires toks != []
    ensures var out := MergeSub(f, sub, per, toks);
      && (!MergedKey(k) ==> Child(Dict(out), k) == Child(Dict(sub), k))
      && (k != "panels" ==> Child(Child(Dict(out), "period"), k) == Child(Child(Dict(sub), "period"), k))
      && (HasPanels(sub) ==> NamesTokens(Child(Dict(out), "sectionCompare"), toks))
  {
    var s2 := BeforePoints(f, sub, per, toks);
    BeforePointsFrame(f, sub, per, toks, k);
    if HasPoints(s2) {
      MergePointsFrame(f, s2, per, toks, k);
      MergePointsFrame(f, s2, per, toks, "period");
      MergePointsFrame(f, s2, per, toks, "sectionCompare");
    }
  }

  /** Of the presentation: every entry that no merge writes is the first comparand's, and a points merge raises the
      split and legend flags and names the comparands. */
  lemma MergePresFrame(f: Format, sub: Obj, per: map<string, Obj>, toks: seq<string>, k: string)
    requires toks != []
    ensures var pres := Child(Dict(MergeSub(f, sub, per, toks)), "pres");
      && (!MergedPresKey(k) ==> Child(pres, k) == Child(Child(Dict(sub), "pres"), k))
      && (HasPoints(sub) ==>
            NamesTokens(Child(pres, "sectionCompare"), toks) && Child(pres, "sectionSplit") == Bool(true) && Child(pres, "showLegend") == Bool(true))
  {
    var s2 := BeforePoints(f, sub, per, toks);
    BeforePointsFrame(f, sub, per, toks, "points");
    SectionColumnExactly(Child(Dict(sub), "pres"), k);
    if HasPoints(s2) { MergePointsFrame(f, s2, per, toks, k); }
  }

  /** The Total tile of the merged card: a KPI numeric for some comparand is the sum over them, any other entry of the
      stats is the first comparand's. */
  lemma OverlayTotals(f: Format, base: Obj, per: map<string, Obj>, toks: seq<string>, k: string)
    requires toks != [] && HasStats(base) && k != "sections"
    ensures Child(Child(Dict(MergeSub(f, base, per, toks)), "stats"), k) ==
      if Counted(per, toks, k) then Num(Total(per, toks, k))
      else Child(Child(Dict(base), "stats"), k)
  {
    MergedStatsStay(f, base, per, toks);
    if Counted(per, toks, k) { StatsLossless(base, per, toks, "", k); } else { StatsKeepBase(base, per, toks, k); }
  }

  lemma MergedStatsStay(f: Format, base: Obj, per: map<string, Obj>, toks: seq<string>)
    requires toks != [] && HasStats(base)
    ensures Child(Dict(MergeSub(f, base, per, toks)), "stats") == Child(Dict(MergeStats(base, per, toks)), "stats")
  {
    var s1 := MergeStats(base, per, toks);
    var s2 := if HasPanels(s1) then MergePanels(f, s1, per, toks) else s1;
    MergePanelsFrame(f, s1, per, toks, "stats");
    MergePointsFrame(f, s2, per, toks, "stats");
  }

  lemma {:induction false} ReplacedElsewhere(payload: seq<(string, Tree)>, key: string, v: Tree, k: string)
    ensures |Replace(payload, key, v)| == |payload| && forall i | 0 <= i < |payload| :: Replace(payload, key, v)[i].0 == payload[i].0
    ensures k != key ==> Lookup(Replace(payload, key, v), k) == Lookup(payload, k)
  {
    if payload != [] && payload[0].0 != key { ReplacedElsewhere(payload[1..], key, v, k); }
  }

  /** The merged card is the first comparand's without its asset tag; inline, only the merged subtree of its payload
      differs, side by side nothing of it, and the sides are the comparands in order. */
  lemma OverlayKeepsRest(f: Format, entries: seq<Entry>, toks: seq<string>, k: string)
    requires entries != [] && toks != []
    ensures var base, out := entries[0].card, MergeOverlay(f, entries, toks);
      && out.renderId == base.renderId && out.asset == Untagged && |out.payload| == |base.payload|
      && (forall i | 0 <= i < |base.payload| :: out.payload[i].0 == base.payload[i].0)
      && (if Inline(base) then out.sides == base.sides && (k != SubtreeKey(base.payload) ==> Lookup(out.payload, k) == Lookup(base.payload, k))
          else out.payload == base.payload && |out.sides| == |entries|
               && forall i | 0 <= i < |entries| :: out.sides[i].token == entries[i].tok && out.sides[i].payload == entries[i].card.payload)
  {
    var base := entries[0].card;
    if Inline(base) {
      var key := SubtreeKey(base.payload);
      ReplacedElsewhere(base.payload, key, Dict(MergeSub(f, BaseSub(base), Per(entries, key), toks)), k);
    }
  }

  lemma {:induction false} PerOwnEntry(entries: seq<Entry>, key: string, i: nat)
    requires i < |entries| && DistinctTokens(Tokens(entries))
    ensures entries[i].tok in Per(entries, key)
    ensures Per(entries, key)[entries[i].tok] == OrDict(Lookup(entries[i].card.payload, key))
  {
    forall j | i < j < |entries| ensures entries[j].tok != entries[i].tok { assert Tokens(entries)[i] != Tokens(entries)[j]; }
    PerOwn(entries, key, i);
  }

  lemma PointsReadBack(per: map<string, Obj>, toks: seq<string>, tok: string)
    requires toks != [] && ApartTokens(toks) && tok in toks
    ensures ReadsBack(MergedPoints(per, toks), Points(per, tok), BaseKeys(Points(per, toks[0])), tok)
  {
    var own := Points(per, tok);
    if UniqueLabels(own) {
      forall j: nat, k | j < |own| && k in BaseKeys(Points(per, toks[0]))
        ensures Serves(MergedPoints(per, toks), Label(own[j]), Column(k, tok), Child(Dict(own[j]), k))
      {
        PointReadsBack(per, toks, tok, j, k);
      }
    }
  }

  lemma MergedShowsPoints(f: Format, base: Obj, per: map<string, Obj>, toks: seq<string>, tok: string)
    requires HasPoints(base) && ApartTokens(toks) && tok in toks && tok in per && toks[0] in per
    ensures ReadsBack(PointsOf(MergeSub(f, base, per, toks)), PointsOf(per[tok]), BaseKeys(PointsOf(per[toks[0]])), tok)
  {
    MergeSubShapes(f, base, per, toks);
    PointsReadBack(per, toks, tok);
  }

  /** With tokens whose columns cannot collide it also keeps every comparand's points. */
  lemma {:induction false} OverlayKeepsPoints(f: Format, entries: seq<Entry>, i: nat)
    requires i < |entries| && ApartTokens(Tokens(entries))
    ensures ShowsPoints(MergeOverlay(f, entries, Tokens(entries)), entries[0].card, entries[i].tok, entries[i].card)
  {
    var base, toks, tok := entries[0].card, Tokens(entries), entries[i].tok;
    assert toks[i] == tok;
    if Inline(base) && HasPoints(BaseSub(base)) {
      var key := SubtreeKey(base.payload);
      InlineOut(f, entries, toks);
      PerOwnEntry(entries, key, i);
      PerOwnEntry(entries, key, 0);
      MergedShowsPoints(f, BaseSub(base), Per(entries, key), toks, tok);
    }
  }

  // ---------------------------------------------------------------- grouping by render id

  function Ids(cards: seq<Card>): seq<int> {
    seq(|cards|, i requires 0 <= i < |cards| => cards[i].renderId)
  }

  function WithId(cards: seq<Card>, id: int): (r: seq<Card>)
    ensures (exists c | c in cards :: c.renderId == id) ==> r != []
    ensures forall c | c in r :: c.renderId == id
  {
    if cards == [] then []
    else
      var last := cards[|cards| - 1];
      assert cards == cards[..|cards| - 1] + [last];
      WithId(cards[..|cards| - 1], id) + (if last.renderId == id then [last] else [])
  }

  /** The card's asset has a token. */
  predicate Tagged(c: Card, tokens: map<int, string>) {
    c.asset.Asset? && c.asset.id in tokens
  }

  /** The cards of a group whose asset has a token. */
  function TaggedEntries(group: seq<Card>, tokens: map<int, string>): (r: seq<Entry>)
    ensures forall e | e in r :: e.card in group
  {
    if group == [] then []
    else
      var last := group[|group| - 1];
      assert group == group[..|group| - 1] + [last];
      TaggedEntries(group[..|group| - 1], tokens) +
      (if Tagged(last, tokens) then [Entry(tokens[last.asset.id], last)] else [])
  }

  function MergeGroup(f: Format, group: seq<Card>, tokens: map<int, string>): Card
    requires group != []
  {
    var tagged := TaggedEntries(group, tokens);
    if |tagged| < 2 then group[0]
    else
      assert Tokens(tagged)[0] in FirstSeen(Tokens(tagged));
      MergeOverlay(f, tagged, FirstSeen(Tokens(tagged)))
  }

  function MergeAll(f: Format, cards: seq<Card>, tokens: map<int, string>): seq<Card> {
    var ids := FirstSeen(Ids(cards));
    seq(|ids|, i requires 0 <= i < |ids| =>
      GroupOfSeenId(cards, ids[i]);
      MergeGroup(f, WithId(cards, ids[i]), tokens))
  }

  lemma GroupOfSeenId(cards: seq<Card>, id: int)
    requires id in Ids(cards)
    ensures WithId(cards, id) != []
  {}

  /** Every listed id has its cards, in order; no other id has a group. */
  ghost predicate Grouped(groups: map<int, seq<Card>>, order: seq<int>, cards: seq<Card>) {
    (forall id :: id in groups <==> id in order) && (forall id | id in groups :: groups[id] == WithId(cards, id))
  }

  lemma SeenStep<T(!new)>(seen: seq<T>, x: T)
    ensures FirstSeen(seen + [x]) == FirstSeen(seen) + (if x in FirstSeen(seen) then [] else [x])
  {}

  lemma IdsStep(cards: seq<Card>, c: Card)
    ensures FirstSeen(Ids(cards + [c])) == FirstSeen(Ids(cards)) + (if c.renderId in FirstSeen(Ids(cards)) then [] else [c.renderId])
  {
    SeenStep(Ids(cards), c.renderId);
    assert Ids(cards + [c]) == Ids(cards) + [c.renderId];
  }

  lemma WithIdStep(cards: seq<Card>, c: Card, id: int)
    ensures WithId(cards + [c], id) == WithId(cards, id) + (if c.renderId == id then [c] else [])
  {}

  lemma GroupStep(groups: map<int, seq<Card>>, order: seq<int>, cards: seq<Card>, c: Card)
    requires Grouped(groups, order, cards) && forall id :: id in order <==> id in Ids(cards)
    ensures c.renderId !in groups ==> Grouped(groups[c.renderId := [c]], order + [c.renderId], cards + [c])
    ensures c.renderId in groups ==> Grouped(groups[c.renderId := groups[c.renderId] + [c]], order, cards + [c])
  {
    forall id ensures WithId(cards + [c], id) == WithId(cards, id) + (if c.renderId == id then [c] else []) {
      WithIdStep(cards, c, id);
    }
    if c.renderId !in groups { NoneWithId(cards, c.renderId); }
  }

  /** One turn of the grouping loop. */
  lemma LoopStep(groups: map<int, seq<Card>>, order: seq<int>, before: seq<Card>, c: Card)
    requires order == FirstSeen(Ids(before)) && Grouped(groups, order, before)
    ensures if c.renderId in groups then
              order == FirstSeen(Ids(before + [c])) && Grouped(groups[c.renderId := groups[c.renderId] + [c]], order, before + [c])
            else
              order + [c.renderId] == FirstSeen(Ids(before + [c]))
              && Grouped(groups[c.renderId := [c]], order + [c.renderId], before + [c])
  {
    IdsStep(before, c);
    GroupStep(groups, order, before, c);
  }

  /** The body of the grouping loop. */
  method GroupOne(order0: seq<int>, groups0: map<int, seq<Card>>, c: Card, ghost before: seq<Card>)
      returns (order: seq<int>, groups: map<int, seq<Card>>)
    requires order0 == FirstSeen(Ids(before)) && Grouped(groups0, order0, before)
    ensures order == FirstSeen(Ids(before + [c])) && Grouped(groups, order, before + [c])
  {
    LoopStep(groups0, order0, before, c);
    if c.renderId !in groups0 {
      order, groups := order0 + [c.renderId], groups0[c.renderId := [c]];
    } else {
      order, groups := order0, groups0[c.renderId := groups0[c.renderId] + [c]];
    }
  }

  /** The grouping loop: an ordered dictionary of lists. */
  method GroupCards(cards: seq<Card>) returns (order: seq<int>, groups: map<int, seq<Card>>)
    ensures order == FirstSeen(Ids(cards)) && Grouped(groups, order, cards)
  {
    order, groups := [], map[];
    for i := 0 to |cards|
      invariant order == FirstSeen(Ids(cards[..i])) && Grouped(groups, order, cards[..i])
    {
      order, groups := GroupOne(order, groups, cards[i], cards[..i]);
      assert cards[..i + 1] == cards[..i] + [cards[i]];
    }
    assert cards[..|cards|] == cards;
  }

  method MergeGroups(f: Format, order: seq<int>, groups: map<int, seq<Card>>, tokens: map<int, string>)
      returns (merged: seq<Card>)
    requires forall j | 0 <= j < |order| :: order[j] in groups && groups[order[j]] != []
    ensures |merged| == |order| && forall j | 0 <= j < |order| :: merged[j] == MergeGroup(f, groups[order[j]], tokens)
  {
    merged := [];
    for i := 0 to |order|
      invariant |merged| == i && forall j | 0 <= j < i :: merged[j] == MergeGroup(f, groups[order[j]], tokens)
    {
      var card := MergeGroup(f, groups[order[i]], tokens);
      merged := merged + [card];
    }
  }

  method MergeAllCards(f: Format, cards: seq<Card>, tokens: map<int, string>) returns (merged: seq<Card>)
    ensures merged == MergeAll(f, cards, tokens)
  {
    var order, groups := GroupCards(cards);
    forall j | 0 <= j < |order| ensures order[j] in groups && groups[order[j]] != [] { GroupOfSeenId(cards, order[j]); }
    merged := MergeGroups(f, order, groups, tokens);
  }

  lemma {:induction false} NoneWithId(cards: seq<Card>, id: int)
    requires id !in Ids(cards)
    ensures WithId(cards, id) == []
    decreases |cards|
  {
    if cards != [] {
      assert Ids(cards)[|cards| - 1] == cards[|cards| - 1].renderId;
      assert Ids(cards[..|cards| - 1]) == Ids(cards)[..|cards| - 1];
      NoneWithId(cards[..|cards| - 1], id);
    }
  }

  /** One card per render id, in first-seen order. */
  lemma OneCardPerRenderId(f: Format, cards: seq<Card>, tokens: map<int, string>)
    ensures Ids(MergeAll(f, cards, tokens)) == FirstSeen(Ids(cards))
  {
    var ids := FirstSeen(Ids(cards));
    forall i | 0 <= i < |ids| ensures MergeAll(f, cards, tokens)[i].renderId == ids[i] {
      GroupOfSeenId(cards, ids[i]);
      var group := WithId(cards, ids[i]);
      var tagged := TaggedEntries(group, tokens);
      assert group[0] in group;
      if |tagged| >= 2 { assert tagged[0] in tagged && tagged[0].card in group; }
    }
  }

  // ---------------------------------------------------------------- the point loop

  lemma LabelStep(before: seq<Tree>, points: seq<Obj>, j: nat)
    requires j < |points|
    ensures before + Labels(points[..j + 1]) == before + Labels(points[..j]) + [Label(points[j])]
  {}

  /** One comparand's labels join the order. */
  method AddLabels(before: seq<Tree>, points: seq<Obj>, order0: seq<Tree>, seen0: set<Tree>)
      returns (order: seq<Tree>, seen: set<Tree>)
    requires order0 == FirstSeen(before) && forall x :: x in seen0 <==> x in order0
    ensures order == FirstSeen(before + Labels(points)) && forall x :: x in seen <==> x in order
  {
    order, seen := order0, seen0;
    assert before + Labels(points[..0]) == before;
    for j := 0 to |points|
      invariant order == FirstSeen(before + Labels(points[..j]))
      invariant forall x :: x in seen <==> x in order
    {
      var lab := Label(points[j]);
      SeenStep(before + Labels(points[..j]), lab);
      LabelStep(before, points, j);
      if lab !in seen {
        seen := seen + {lab};
        order := order + [lab];
      }
    }
    assert points[..|points|] == points;
  }

  /** The union of the comparands' labels, in first-seen order. */
  method UnionLabels(per: map<string, Obj>, toks: seq<string>) returns (order: seq<Tree>)
    ensures order == FirstSeen(AllLabels(per, toks))
  {
    var seen: set<Tree> := {};
    order := [];
    for i := 0 to |toks|
      invariant order == FirstSeen(AllLabels(per, toks[..i])) && forall x :: x in seen <==> x in order
    {
      order, seen := AddLabels(AllLabels(per, toks[..i]), Points(per, toks[i]), order, seen);
      assert toks[..i + 1][..i] == toks[..i];
    }
    assert toks[..|toks|] == toks;
  }

  /** The nested loops of the points merge. */
  method BuildPoints(per: map<string, Obj>, toks: seq<string>) returns (merged: seq<Obj>)
    requires toks != []
    ensures merged == MergedPoints(per, toks)
  {
    var order := UnionLabels(per, toks);
    var keys := BaseKeys(Points(per, toks[0]));
    merged := [];
    for i := 0 to |order|
      invariant merged == MergedPoints(per, toks)[..i]
    {
      var pt := BuildPoint(per, toks, keys, order[i]);
      merged := merged + [pt];
    }
  }

  method BuildPoint(per: map<string, Obj>, toks: seq<string>, keys: set<string>, lab: Tree) returns (pt: Obj)
    ensures pt == MergedPoint(per, toks, keys, lab)
  {
    pt := map["label" := lab];
    for j := 0 to |toks|
      invariant pt == MergedPoint(per, toks[..j], keys, lab)
    {
      assert toks[..j + 1][..j] == toks[..j];
      pt := pt + Columns(keys, Points(per, toks[j]), lab, toks[j]);
    }
    assert toks[..|toks|] == toks;
  }
}
