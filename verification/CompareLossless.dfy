/** host/compare_overlay.py, merge_all: what becomes of every card of the flat list, tagged or not. */
module CompareLossless {
  import opened Json
  import opened CompareOverlay
  import opened CompareCards

  // ---------------------------------------------------------------- the card of a render id

  /** The position of a render id in the merged list. */
  lemma MergedAt(f: Format, cards: seq<Card>, tokens: map<int, string>, c: Card) returns (p: nat)
    requires c in cards
    ensures WithId(cards, c.renderId) != []
    ensures p < |MergeAll(f, cards, tokens)| && MergeAll(f, cards, tokens)[p] == MergeGroup(f, WithId(cards, c.renderId), tokens)
    ensures forall q | 0 <= q < |MergeAll(f, cards, tokens)| && MergeAll(f, cards, tokens)[q].renderId == c.renderId :: q == p
  {
    var ids := FirstSeen(Ids(cards));
    var i :| 0 <= i < |cards| && cards[i] == c;
    assert Ids(cards)[i] == c.renderId;
    assert c.renderId in ids;
    p :| 0 <= p < |ids| && ids[p] == c.renderId;
    GroupOfSeenId(cards, c.renderId);
    OneCardPerRenderId(f, cards, tokens);
    forall q | 0 <= q < |MergeAll(f, cards, tokens)| ensures MergeAll(f, cards, tokens)[q].renderId == ids[q] {
      assert Ids(MergeAll(f, cards, tokens))[q] == ids[q];
    }
  }

  /** A card of this render id is in the merged list iff it is what its group merges into. */
  lemma InMergedExactly(f: Format, cards: seq<Card>, tokens: map<int, string>, c: Card)
    requires c in cards
    ensures WithId(cards, c.renderId) != []
    ensures c in MergeAll(f, cards, tokens) <==> c == MergeGroup(f, WithId(cards, c.renderId), tokens)
  {
    var p := MergedAt(f, cards, tokens, c);
  }

  // ---------------------------------------------------------------- untagged cards, by value

  /** Fewer than two cards of the render id have a token: no comparison. */
  predicate Few(cards: seq<Card>, tokens: map<int, string>, id: int) {
    |TaggedEntries(WithId(cards, id), tokens)| < 2
  }

  /** `c` is the card the tagged ones of the group merge into; its asset is gone. */
  predicate IsOverlay(f: Format, group: seq<Card>, tokens: map<int, string>, c: Card) {
    var tagged := TaggedEntries(group, tokens);
    tagged != [] && c.asset.Untagged? && FirstSeen(Tokens(tagged)) != [] && c == MergeOverlay(f, tagged, FirstSeen(Tokens(tagged)))
  }

  /** An untagged card passes through iff fewer than two cards of its render id are tagged and it is the first of
      them.  In a comparison only a card that happens to equal the overlay of the tagged ones is in the result, so
      none that carries an asset. */
  lemma UntaggedPassesExactly(f: Format, cards: seq<Card>, tokens: map<int, string>, c: Card)
    requires c in cards && !Tagged(c, tokens)
    ensures var group := WithId(cards, c.renderId);
      group != [] && (c in MergeAll(f, cards, tokens) <==>
        if Few(cards, tokens, c.renderId) then c == group[0] else IsOverlay(f, group, tokens, c))
  {
    InMergedExactly(f, cards, tokens, c);
    var tagged := TaggedEntries(WithId(cards, c.renderId), tokens);
    if |tagged| >= 2 { assert Tokens(tagged)[0] in FirstSeen(Tokens(tagged)); }
  }

  lemma {:induction false} NoneTagged(group: seq<Card>)
    ensures TaggedEntries(group, map[]) == []
    decreases |group|
  {
    if group != [] { NoneTagged(group[..|group| - 1]); }
  }

  /** The first card of the render id, of all cards passed through. */
  lemma PassesIfHead(f: Format, cards: seq<Card>, c: Card) returns (head: Card)
    requires c in cards
    ensures WithId(cards, c.renderId) != [] && head == WithId(cards, c.renderId)[0]
    ensures head in cards && head.renderId == c.renderId
    ensures c in MergeAll(f, cards, map[]) <==> c == head
  {
    NoneTagged(WithId(cards, c.renderId));
    UntaggedPassesExactly(f, cards, map[], c);
    WithIdAmong(cards, c.renderId);
    head := WithId(cards, c.renderId)[0];
  }

  predicate OneCardPerId(cards: seq<Card>) {
    forall c, d | c in cards && d in cards && c.renderId == d.renderId :: c == d
  }

  /** With no tokens at all, every card passes through iff no two different cards share a render id. */
  lemma AllPassExactly(f: Format, cards: seq<Card>)
    ensures (forall c | c in cards :: c in MergeAll(f, cards, map[])) <==> OneCardPerId(cards)
  {
    if OneCardPerId(cards) {
      forall c | c in cards ensures c in MergeAll(f, cards, map[]) { var head := PassesIfHead(f, cards, c); }
    } else {
      var c, d :| c in cards && d in cards && c.renderId == d.renderId && c != d;
      var head := PassesIfHead(f, cards, c);
      head := PassesIfHead(f, cards, d);
    }
  }

  /** Of two untagged cards only the first is kept. */
  lemma UntaggedCardsDropped(f: Format, a: Card, b: Card)
    requires a.renderId == b.renderId && a.asset.Untagged? && b.asset.Untagged?
    ensures MergeAll(f, [a, b], map[]) == [a]
  {
    var cards := [a, b];
    assert cards[0] == a;
    FirstCard(cards, 0);
    NoneTagged(WithId(cards, a.renderId));
    assert Ids(cards) == [a.renderId, a.renderId] && Ids(cards)[..1] == [a.renderId] && [a.renderId][..0] == [];
    assert FirstSeen([a.renderId]) == [a.renderId];
    assert FirstSeen(Ids(cards)) == [a.renderId];
  }

  lemma {:induction false} WithIdAmong(cards: seq<Card>, id: int)
    ensures forall c | c in WithId(cards, id) :: c in cards
    decreases |cards|
  {
    if cards != [] { WithIdAmong(cards[..|cards| - 1], id); }
  }

  // ---------------------------------------------------------------- untagged cards, by position

  /** No earlier card has the render id. */
  predicate FirstOfId(cards: seq<Card>, i: nat)
    requires i < |cards|
  {
    forall j | 0 <= j < i :: cards[j].renderId != cards[i].renderId
  }

  lemma {:induction false} FirstCard(cards: seq<Card>, i: nat)
    requires i < |cards| && FirstOfId(cards, i)
    ensures WithId(cards, cards[i].renderId) != [] && WithId(cards, cards[i].renderId)[0] == cards[i]
    decreases |cards|
  {
    var front := cards[..|cards| - 1];
    if i < |front| {
      FirstCard(front, i);
    } else {
      assert cards[i].renderId !in Ids(front);
      NoneWithId(front, cards[i].renderId);
    }
  }

  lemma {:induction false} FirstIndex(cards: seq<Card>, i: nat) returns (m: nat)
    requires i < |cards|
    ensures m <= i && cards[m].renderId == cards[i].renderId && FirstOfId(cards, m)
    ensures m == i <==> FirstOfId(cards, i)
  {
    if j :| 0 <= j < i && cards[j].renderId == cards[i].renderId { m := FirstIndex(cards, j); } else { m := i; }
  }

  lemma TaggedStep(group: seq<Card>, c: Card, tokens: map<int, string>)
    ensures TaggedEntries(group + [c], tokens) ==
      TaggedEntries(group, tokens) + (if Tagged(c, tokens) then [Entry(tokens[c.asset.id], c)] else [])
  {
    var longer := group + [c];
    assert longer[..|longer| - 1] == group && longer[|longer| - 1] == c;
  }

  lemma TaggedWithIdStep(cards: seq<Card>, c: Card, id: int, tokens: map<int, string>)
    ensures TaggedEntries(WithId(cards + [c], id), tokens) == TaggedEntries(WithId(cards, id), tokens)
      + (if c.renderId == id && Tagged(c, tokens) then [Entry(tokens[c.asset.id], c)] else [])
  {
    WithIdStep(cards, c, id);
    if c.renderId == id { TaggedStep(WithId(cards, id), c, tokens); } else { assert WithId(cards, id) + [] == WithId(cards, id); }
  }

  /** The `j`-th card is a tagged card of the render id. */
  predicate TaggedAt(cards: seq<Card>, tokens: map<int, string>, id: int, j: nat) {
    j < |cards| && cards[j].renderId == id && Tagged(cards[j], tokens)
  }

  lemma {:induction false} TaggedAtIsSome(cards: seq<Card>, tokens: map<int, string>, id: int, j: nat)
    requires TaggedAt(cards, tokens, id, j)
    ensures TaggedEntries(WithId(cards, id), tokens) != []
    decreases |cards|
  {
    var n := |cards| - 1;
    assert cards == cards[..n] + [cards[n]];
    TaggedWithIdStep(cards[..n], cards[n], id, tokens);
    if j < n { TaggedAtIsSome(cards[..n], tokens, id, j); }
  }

  lemma {:induction false} SomeIsTaggedAt(cards: seq<Card>, tokens: map<int, string>, id: int) returns (j: nat)
    requires TaggedEntries(WithId(cards, id), tokens) != []
    ensures TaggedAt(cards, tokens, id, j)
    decreases |cards|
  {
    var n := |cards| - 1;
    assert cards == cards[..n] + [cards[n]];
    TaggedWithIdStep(cards[..n], cards[n], id, tokens);
    if TaggedAt(cards, tokens, id, n) { j := n; } else { j := SomeIsTaggedAt(cards[..n], tokens, id); }
  }

  /** The `j`-th and the `k`-th card of the render id are a comparison. */
  predicate Pair(cards: seq<Card>, tokens: map<int, string>, id: int, j: nat, k: nat) {
    j < k && TaggedAt(cards, tokens, id, j) && TaggedAt(cards, tokens, id, k)
  }

  lemma {:induction false} PairIsTwo(cards: seq<Card>, tokens: map<int, string>, id: int, j: nat, k: nat)
    requires Pair(cards, tokens, id, j, k)
    ensures !Few(cards, tokens, id)
    decreases |cards|
  {
    var n := |cards| - 1;
    var front := cards[..n];
    assert cards == front + [cards[n]] && front[j] == cards[j];
    TaggedWithIdStep(front, cards[n], id, tokens);
    if k == n { TaggedAtIsSome(front, tokens, id, j); } else { PairIsTwo(front, tokens, id, j, k); }
  }

  lemma {:induction false} TwoArePair(cards: seq<Card>, tokens: map<int, string>, id: int) returns (j: nat, k: nat)
    requires !Few(cards, tokens, id)
    ensures Pair(cards, tokens, id, j, k)
    decreases |cards|
  {
    var n := |cards| - 1;
    var front := cards[..n];
    assert cards == front + [cards[n]];
    TaggedWithIdStep(front, cards[n], id, tokens);
    if !Few(front, tokens, id) {
      j, k := TwoArePair(front, tokens, id);
      assert front[j] == cards[j] && front[k] == cards[k];
    } else {
      j := SomeIsTaggedAt(front, tokens, id);
      k := n;
    }
  }

  /** The untagged card at `i` is first of its render id, and no two cards of that id are tagged. */
  predicate Undisturbed(cards: seq<Card>, tokens: map<int, string>, i: nat)
    requires i < |cards|
  {
    FirstOfId(cards, i) && forall j: nat, k: nat | j < k < |cards| :: !Pair(cards, tokens, cards[i].renderId, j, k)
  }

  /** Few, read off the list. */
  lemma UndisturbedExactly(cards: seq<Card>, tokens: map<int, string>, i: nat)
    requires i < |cards|
    ensures Undisturbed(cards, tokens, i) <==> Few(cards, tokens, cards[i].renderId) && FirstOfId(cards, i)
  {
    var id := cards[i].renderId;
    if Few(cards, tokens, id) {
      forall j: nat, k: nat | j < k < |cards| ensures !Pair(cards, tokens, id, j, k) {
        if Pair(cards, tokens, id, j, k) { PairIsTwo(cards, tokens, id, j, k); }
      }
    } else {
      var j, k := TwoArePair(cards, tokens, id);
    }
  }

  lemma {:induction false} TaggedKept(cards: seq<Card>, tokens: map<int, string>, i: nat, d: Card, id: int)
    requires i < |cards| && !Tagged(cards[i], tokens) && !Tagged(d, tokens)
    ensures TaggedEntries(WithId(cards[i := d], id), tokens) == TaggedEntries(WithId(cards, id), tokens)
    decreases |cards|
  {
    var n := |cards| - 1;
    var front, last := cards[..n], cards[n];
    assert cards == front + [last];
    TaggedWithIdStep(front, last, id, tokens);
    if i < n {
      assert cards[i := d] == front[i := d] + [last];
      TaggedKept(front, tokens, i, d, id);
      TaggedWithIdStep(front[i := d], last, id, tokens);
    } else {
      assert cards[i := d] == front + [d];
      TaggedWithIdStep(front, d, id, tokens);
    }
  }

  lemma FirstKept(cards: seq<Card>, i: nat, d: Card, j: nat)
    requires i < |cards| && j < |cards| && d.renderId == cards[i].renderId
    ensures var id := cards[j].renderId;
      && WithId(cards, id) != [] && WithId(cards[i := d], id) != []
      && WithId(cards[i := d], id)[0] ==
           if id == d.renderId && FirstOfId(cards, i) then d else WithId(cards, id)[0]
  {
    var m := FirstIndex(cards, j);
    var out := cards[i := d];
    assert forall k | 0 <= k < |cards| :: out[k].renderId == cards[k].renderId;
    FirstCard(cards, m);
    FirstCard(out, m);
  }

  lemma SameMerge(f: Format, g1: seq<Card>, g2: seq<Card>, tokens: map<int, string>)
    requires g1 != [] && g2 != [] && TaggedEntries(g1, tokens) == TaggedEntries(g2, tokens)
    requires |TaggedEntries(g1, tokens)| >= 2 || g1[0] == g2[0]
    ensures MergeGroup(f, g1, tokens) == MergeGroup(f, g2, tokens)
  {}

  lemma GroupKept(f: Format, cards: seq<Card>, tokens: map<int, string>, i: nat, d: Card, id: int)
    requires i < |cards| && !Tagged(cards[i], tokens) && !Tagged(d, tokens) && d.renderId == cards[i].renderId
    requires !Few(cards, tokens, d.renderId) || !FirstOfId(cards, i)
    requires id in Ids(cards)
    ensures WithId(cards, id) != [] && WithId(cards[i := d], id) != []
    ensures MergeGroup(f, WithId(cards[i := d], id), tokens) == MergeGroup(f, WithId(cards, id), tokens)
  {
    var j :| 0 <= j < |cards| && Ids(cards)[j] == id;
    TaggedKept(cards, tokens, i, d, id);
    FirstKept(cards, i, d, j);
    assert !Few(cards, tokens, d.renderId) ==> id == d.renderId ==> |TaggedEntries(WithId(cards, id), tokens)| >= 2;
    SameMerge(f, WithId(cards[i := d], id), WithId(cards, id), tokens);
  }

  /** An untagged card that is not first, or is in a comparison, might as well be any other. */
  lemma DroppedIrrelevant(f: Format, cards: seq<Card>, tokens: map<int, string>, i: nat, d: Card)
    requires i < |cards| && !Tagged(cards[i], tokens) && !Tagged(d, tokens) && d.renderId == cards[i].renderId
    requires !Few(cards, tokens, d.renderId) || !FirstOfId(cards, i)
    ensures MergeAll(f, cards[i := d], tokens) == MergeAll(f, cards, tokens)
  {
    var ids := FirstSeen(Ids(cards));
    assert Ids(cards[i := d]) == Ids(cards);
    forall p | 0 <= p < |ids| ensures MergeAll(f, cards[i := d], tokens)[p] == MergeAll(f, cards, tokens)[p] {
      assert ids[p] in Ids(cards);
      GroupKept(f, cards, tokens, i, d, ids[p]);
    }
  }

  /** The merged list depends on the untagged card at `i`. */
  ghost predicate Reads(f: Format, cards: seq<Card>, tokens: map<int, string>, i: nat)
    requires i < |cards|
  {
    exists d: Card :: d.renderId == cards[i].renderId && !Tagged(d, tokens) &&
      MergeAll(f, cards[i := d], tokens) != MergeAll(f, cards, tokens)
  }

  lemma KeptIfFirst(f: Format, cards: seq<Card>, tokens: map<int, string>, i: nat)
    requires i < |cards| && !Tagged(cards[i], tokens) && Few(cards, tokens, cards[i].renderId) && FirstOfId(cards, i)
    ensures cards[i] in MergeAll(f, cards, tokens)
    ensures forall d | d in MergeAll(f, cards, tokens) && d.renderId == cards[i].renderId :: d == cards[i]
  {
    FirstCard(cards, i);
    var p := MergedAt(f, cards, tokens, cards[i]);
  }

  /** The merged list depends on an untagged card iff no two cards of its render id are tagged and it is the first of
      them; it then stands in the list as it is. */
  lemma UntaggedReadExactly(f: Format, cards: seq<Card>, tokens: map<int, string>, i: nat)
    requires i < |cards| && !Tagged(cards[i], tokens)
    ensures Reads(f, cards, tokens, i) <==> Few(cards, tokens, cards[i].renderId) && FirstOfId(cards, i)
    ensures Reads(f, cards, tokens, i) ==> cards[i] in MergeAll(f, cards, tokens)
  {
    if Few(cards, tokens, cards[i].renderId) && FirstOfId(cards, i) {
      var d := cards[i].(sides := cards[i].sides + [Side("", Null, [])]);
      TaggedKept(cards, tokens, i, d, d.renderId);
      KeptIfFirst(f, cards, tokens, i);
      KeptIfFirst(f, cards[i := d], tokens, i);
      assert d in MergeAll(f, cards[i := d], tokens) && d !in MergeAll(f, cards, tokens);
    } else {
      forall d: Card | d.renderId == cards[i].renderId && !Tagged(d, tokens)
        ensures MergeAll(f, cards[i := d], tokens) == MergeAll(f, cards, tokens)
      {
        DroppedIrrelevant(f, cards, tokens, i, d);
      }
    }
  }

  /** No untagged card is dropped iff each is the first card of its render id, and no two cards of that id are tagged. */
  lemma NoneDroppedExactly(f: Format, cards: seq<Card>, tokens: map<int, string>)
    ensures (forall i: nat | i < |cards| && !Tagged(cards[i], tokens) :: Reads(f, cards, tokens, i))
       <==> forall i: nat | i < |cards| && !Tagged(cards[i], tokens) :: Undisturbed(cards, tokens, i)
  {
    forall i: nat | i < |cards| && !Tagged(cards[i], tokens)
      ensures Reads(f, cards, tokens, i) <==> Undisturbed(cards, tokens, i)
    {
      UntaggedReadExactly(f, cards, tokens, i);
      UndisturbedExactly(cards, tokens, i);
    }
  }

  // ---------------------------------------------------------------- tagged cards

  predicate AllTagged(group: seq<Card>, tokens: map<int, string>) {
    forall c | c in group :: c.asset.Asset? && c.asset.id in tokens
  }

  predicate OneCardPerAsset(group: seq<Card>) {
    forall i, j | 0 <= i < j < |group| && group[i].asset.Asset? && group[j].asset.Asset? :: group[i].asset.id != group[j].asset.id
  }

  lemma {:induction false} AllTaggedEntries(group: seq<Card>, tokens: map<int, string>)
    requires AllTagged(group, tokens)
    ensures TaggedEntries(group, tokens) == seq(|group|, i requires 0 <= i < |group| => Entry(tokens[group[i].asset.id], group[i]))
    decreases |group|
  {
    if group != [] {
      assert group == group[..|group| - 1] + [group[|group| - 1]];
      AllTaggedEntries(group[..|group| - 1], tokens);
    }
  }

  lemma {:induction false} FirstSeenDistinct<T(!new)>(s: seq<T>)
    requires forall i, j | 0 <= i < j < |s| :: s[i] != s[j]
    ensures FirstSeen(s) == s
    decreases |s|
  {
    if s != [] {
      var front, last := s[..|s| - 1], s[|s| - 1];
      forall i | 0 <= i < |front| ensures front[i] != last { assert s[i] != s[|s| - 1]; }
      FirstSeenDistinct(front);
      assert FirstSeen(s) == front + [last];
    }
  }

  /** A fully tagged group of at least two, one card per asset, under an injective token dictionary, merges
      over all its cards, each under its own distinct token. */
  lemma TaggedGroupMergesWhole(f: Format, group: seq<Card>, tokens: map<int, string>)
    requires |group| >= 2 && AllTagged(group, tokens) && OneCardPerAsset(group)
    requires forall a, b | a in tokens && b in tokens && a != b :: tokens[a] != tokens[b]
    ensures var tagged := TaggedEntries(group, tokens);
      && |tagged| == |group| && (forall i | 0 <= i < |group| :: tagged[i].card == group[i])
      && (forall j, k | 0 <= j < k < |tagged| :: tagged[j].tok != tagged[k].tok)
      && MergeGroup(f, group, tokens) == MergeOverlay(f, tagged, Tokens(tagged))
  {
    AllTaggedEntries(group, tokens);
    var tagged := TaggedEntries(group, tokens);
    forall j, k | 0 <= j < k < |tagged| ensures tagged[j].tok != tagged[k].tok {
      assert group[j] in group && group[k] in group;
    }
    FirstSeenDistinct(Tokens(tagged));
  }

  /** Each asset contributes at most one card per render id. */
  predicate OnePerAssetAndId(cards: seq<Card>) {
    forall i, j | 0 <= i < j < |cards| && cards[i].renderId == cards[j].renderId && cards[i].asset.Asset? && cards[j].asset.Asset? ::
      cards[i].asset.id != cards[j].asset.id
  }

  lemma {:induction false} GroupOnePerAsset(cards: seq<Card>, id: int)
    requires OnePerAssetAndId(cards)
    ensures OneCardPerAsset(WithId(cards, id))
    decreases |cards|
  {
    if cards != [] {
      var n := |cards| - 1;
      GroupOnePerAsset(cards[..n], id);
      WithIdAmong(cards[..n], id);
      forall c | c in WithId(cards[..n], id) && c.renderId == cards[n].renderId && c.asset.Asset? && cards[n].asset.Asset?
        ensures c.asset.id != cards[n].asset.id
      {
        var i :| 0 <= i < n && cards[..n][i] == c;
        assert cards[i] == c;
      }
    }
  }

  /** Tokens that no comparand shares and that are free of '@', as the allocator gives them. */
  predicate GoodTokens(tokens: map<int, string>) {
    (forall a, b | a in tokens && b in tokens && a != b :: tokens[a] != tokens[b]) && forall a | a in tokens :: '@' !in tokens[a]
  }

  lemma GroupTokensApart(group: seq<Card>, tokens: map<int, string>)
    requires AllTagged(group, tokens) && OneCardPerAsset(group) && GoodTokens(tokens)
    ensures ApartTokens(Tokens(TaggedEntries(group, tokens)))
  {
    AllTaggedEntries(group, tokens);
    var toks := Tokens(TaggedEntries(group, tokens));
    forall i, j | 0 <= i < j < |toks| ensures Apart(toks[i], toks[j]) {
      assert group[i] in group && group[j] in group;
      PlainTokensApart(toks[i], toks[j]);
    }
  }

  /** The group of a render id, every card tagged, one card per asset: alone it stays as it is, otherwise the merged
      card shows each of its cards. */
  lemma GroupLossless(f: Format, group: seq<Card>, tokens: map<int, string>, i: nat)
    requires i < |group| && AllTagged(group, tokens) && OneCardPerAsset(group) && GoodTokens(tokens)
    ensures group[i].asset.Asset? && group[i].asset.id in tokens
    ensures var out := MergeGroup(f, group, tokens);
      if |group| == 1 then out == group[i]
      else Shows(f, out, group[0], tokens[group[i].asset.id], group[i]) && ShowsPoints(out, group[0], tokens[group[i].asset.id], group[i])
  {
    assert group[i] in group;
    AllTaggedEntries(group, tokens);
    if |group| >= 2 {
      var tagged := TaggedEntries(group, tokens);
      TaggedGroupMergesWhole(f, group, tokens);
      GroupTokensApart(group, tokens);
      ApartDistinct(Tokens(tagged));
      OverlayKeepsComparand(f, tagged, i);
      OverlayKeepsPoints(f, tagged, i);
    }
  }

  lemma ApartDistinct(toks: seq<string>)
    requires ApartTokens(toks)
    ensures DistinctTokens(toks)
  {
    forall i, j | 0 <= i < j < |toks| ensures toks[i] != toks[j] { assert Apart(toks[i], toks[j]); }
  }

  /** End to end: when every card is tagged and each asset has at most one card per render id, no comparand's data is
      lost.  The one merged card of a card's render id is the card itself, if it is alone, and otherwise shows its
      stats, panels, points or whole payload under its own token. */
  lemma MergeAllLossless(f: Format, cards: seq<Card>, tokens: map<int, string>, c: Card)
    requires c in cards && AllTagged(cards, tokens) && OnePerAssetAndId(cards) && GoodTokens(tokens)
    ensures c.asset.Asset? && c.asset.id in tokens && WithId(cards, c.renderId) != []
    ensures exists out | out in MergeAll(f, cards, tokens) && out.renderId == c.renderId ::
      var group := WithId(cards, c.renderId);
      if |group| == 1 then out == c
      else Shows(f, out, group[0], tokens[c.asset.id], c) && ShowsPoints(out, group[0], tokens[c.asset.id], c)
  {
    var group := WithId(cards, c.renderId);
    var p := MergedAt(f, cards, tokens, c);
    var out := MergeAll(f, cards, tokens)[p];
    WithIdAmong(cards, c.renderId);
    GroupOnePerAsset(cards, c.renderId);
    InGroup(cards, c);
    var i :| 0 <= i < |group| && group[i] == c;
    GroupLossless(f, group, tokens, i);
    OneCardPerRenderId(f, cards, tokens);
    MergedId(f, group, tokens);
    assert out in MergeAll(f, cards, tokens);
  }

  lemma {:induction false} InGroup(cards: seq<Card>, c: Card)
    requires c in cards
    ensures c in WithId(cards, c.renderId)
    decreases |cards|
  {
    var n := |cards| - 1;
    if c != cards[n] { InGroup(cards[..n], c); }
  }

  lemma MergedId(f: Format, group: seq<Card>, tokens: map<int, string>)
    requires group != [] && forall c | c in group :: c.renderId == group[0].renderId
    ensures MergeGroup(f, group, tokens).renderId == group[0].renderId
  {
    var tagged := TaggedEntries(group, tokens);
    if |tagged| >= 2 { assert tagged[0] in tagged && tagged[0].card in group; }
  }
}
