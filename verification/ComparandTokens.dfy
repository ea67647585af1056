/** host/compare_overlay.py, unique_comparand_tokens: a short collision-free label for every comparand. */
module ComparandTokens {
  /** One comparand in lane order: its id, the short token its name suggests, and the progressively wider
      variants of that token (both read off the name by patterns this model leaves open). */
  datatype Named = Named(cid: int, bare: string, wider: seq<string>)

  const LETTERS: string := "bcdefghijklmnopqrstuvwxyz"

  /** The letters are b to z in order. */
  function Letter(i: nat): char
    requires i < 25
  {
    ('b' as int + i) as char
  }

  lemma LettersInOrder()
    ensures LETTERS == seq(25, i requires 0 <= i < 25 => Letter(i))
  {}

  predicate IsSuffix(s: string) {
    forall i | 0 <= i < |s| :: 'b' <= s[i] <= 'z'
  }

  // ---------------------------------------------------------------- the suffix stream

  function WithEachLetter(p: string): seq<string> {
    seq(25, i requires 0 <= i < 25 => p + [Letter(i)])
  }

  /** Every string of the pool followed by every letter. */
  function Extend(pool: seq<string>): seq<string> {
    if pool == [] then []
    else Extend(pool[..|pool| - 1]) + WithEachLetter(pool[|pool| - 1])
  }

  predicate Distinct(s: seq<string>) {
    forall i, j | 0 <= i < j < |s| :: s[i] != s[j]
  }

  predicate SuffixesOfLength(s: seq<string>, n: nat) {
    forall e | e in s :: |e| == n && IsSuffix(e)
  }

  lemma LetterStrings(p: string, n: nat)
    requires |p| == n && IsSuffix(p)
    ensures forall e | e in WithEachLetter(p) :: |e| == n + 1 && IsSuffix(e) && e[..n] == p
    ensures WithEachLetter(p) != []
  {
    assert WithEachLetter(p)[0] == p + [Letter(0)];
  }

  lemma {:induction false} ExtendStrings(pool: seq<string>, n: nat)
    requires SuffixesOfLength(pool, n)
    ensures SuffixesOfLength(Extend(pool), n + 1) && |Extend(pool)| >= |pool|
    ensures |pool| > 0 ==> |Extend(pool)| > |pool|
    decreases |pool|
  {
    if pool != [] {
      ExtendStrings(pool[..|pool| - 1], n);
      LetterStrings(pool[|pool| - 1], n);
    }
  }

  lemma {:induction false} ExtendPrefixes(pool: seq<string>, n: nat)
    requires SuffixesOfLength(pool, n)
    ensures forall e | e in Extend(pool) :: |e| == n + 1 && e[..n] in pool
    decreases |pool|
  {
    if pool != [] {
      ExtendPrefixes(pool[..|pool| - 1], n);
      LetterStrings(pool[|pool| - 1], n);
    }
  }

  lemma WithEachLetterDistinct(p: string)
    ensures Distinct(WithEachLetter(p))
    ensures forall e | e in WithEachLetter(p) :: |e| == |p| + 1 && e[..|p|] == p
  {
    var all := WithEachLetter(p);
    forall i, j | 0 <= i < j < |all| ensures all[i] != all[j] { assert all[i][|p|] != all[j][|p|]; }
  }

  lemma ConcatDistinct(a: seq<string>, b: seq<string>)
    requires Distinct(a) && Distinct(b) && forall e | e in b :: e !in a
    ensures Distinct(a + b)
  {
    forall i, j | 0 <= i < j < |a + b| ensures (a + b)[i] != (a + b)[j] {
      if i < |a| <= j { assert a[i] in a && b[j - |a|] in b; }
    }
  }

  lemma {:induction false} ExtendDistinct(pool: seq<string>, n: nat)
    requires SuffixesOfLength(pool, n) && Distinct(pool)
    ensures Distinct(Extend(pool))
    decreases |pool|
  {
    if pool != [] {
      var front, p := pool[..|pool| - 1], pool[|pool| - 1];
      ExtendDistinct(front, n);
      ExtendPrefixes(front, n);
      WithEachLetterDistinct(p);
      assert p !in front && |p| == n;
      ConcatDistinct(Extend(front), WithEachLetter(p));
    }
  }

  lemma {:induction false} ExtendHas(pool: seq<string>, p: string, ch: char)
    requires p in pool && 'b' <= ch <= 'z'
    ensures p + [ch] in Extend(pool)
    decreases |pool|
  {
    if p == pool[|pool| - 1] {
      assert WithEachLetter(p)[ch as int - 'b' as int] == p + [ch];
    } else {
      ExtendHas(pool[..|pool| - 1], p, ch);
    }
  }

  /** The pool after `n` rounds of the generator. */
  function Level(n: nat): seq<string> {
    if n == 0 then [""] else Extend(Level(n - 1))
  }

  lemma {:induction false} LevelFacts(n: nat, pool: seq<string>)
    requires pool == Level(n)
    ensures SuffixesOfLength(pool, n) && Distinct(pool) && |pool| > n
    decreases n
  {
    if n > 0 {
      var last := Level(n - 1);
      LevelFacts(n - 1, last);
      ExtendStrings(last, n - 1);
      ExtendDistinct(last, n - 1);
      assert pool == Extend(last);
    }
  }

  /** What a generator has yielded after rounds 1 to `n`. */
  function Yielded(round: nat -> seq<string>, n: nat): seq<string> {
    if n == 0 then [] else Yielded(round, n - 1) + round(n)
  }

  function Stream(n: nat): seq<string> {
    Yielded(Level, n)
  }

  lemma {:induction false} LevelComplete(n: nat, s: string)
    requires IsSuffix(s) && |s| == n
    ensures s in Level(n)
  {
    if n > 0 {
      var front := s[..n - 1];
      assert s == front + [s[n - 1]];
      LevelComplete(n - 1, front);
      ExtendHas(Level(n - 1), front, s[n - 1]);
    }
  }

  lemma {:induction false} YieldedHasRound(round: nat -> seq<string>, n: nat, m: nat, s: string)
    requires 1 <= m <= n && s in round(m)
    ensures s in Yielded(round, n)
  {
    if m < n { YieldedHasRound(round, n - 1, m, s); }
  }

  predicate Ascending(s: seq<string>) {
    forall i, j | 0 <= i < j < |s| :: s[i] != s[j] && |s[i]| <= |s[j]|
  }

  /** Rounds of distinct strings, each round one character longer, come out distinct and in length order. */
  lemma {:induction false} YieldedAscending(round: nat -> seq<string>, n: nat)
    requires forall m: nat | 1 <= m <= n :: SuffixesOfLength(round(m), m) && Distinct(round(m))
    ensures Ascending(Yielded(round, n))
    ensures forall e | e in Yielded(round, n) :: 1 <= |e| <= n && IsSuffix(e)
  {
    if n > 0 {
      YieldedAscending(round, n - 1);
      var a, b := Yielded(round, n - 1), round(n);
      forall i, j | 0 <= i < j < |a + b| ensures (a + b)[i] != (a + b)[j] && |(a + b)[i]| <= |(a + b)[j]| {
        if |a| <= j { assert (a + b)[j] in b; }
        if |a| <= i { assert (a + b)[i] in b; } else { assert (a + b)[i] in a; }
      }
    }
  }

  /** The stream enumerates the non-empty strings over b..z, each exactly once, shorter ones first. */
  lemma StreamEnumerates(n: nat)
    ensures forall s: string :: s in Stream(n) <==> 1 <= |s| <= n && IsSuffix(s)
    ensures Ascending(Stream(n))
  {
    forall m: nat | 1 <= m <= n ensures SuffixesOfLength(Level(m), m) && Distinct(Level(m)) { LevelFacts(m, Level(m)); }
    YieldedAscending(Level, n);
    forall s: string | 1 <= |s| <= n && IsSuffix(s) ensures s in Stream(n) {
      LevelComplete(|s|, s);
      YieldedHasRound(Level, n, |s|, s);
    }
  }

  // ---------------------------------------------------------------- the allocator

  /** `tok` with the first stream suffix that is still free. */
  ghost predicate FirstFree(tok: string, used: set<string>, r: string) {
    exists n: nat, i: nat ::
      i < |Stream(n)| && r == tok + Stream(n)[i] && r !in used &&
      forall j | 0 <= j < i :: tok + Stream(n)[j] in used
  }

  ghost function TokenSet(toks: seq<string>): set<string> {
    set i | 0 <= i < |toks| :: toks[i]
  }

  lemma TokenSetAppend(toks: seq<string>, tok: string)
    ensures TokenSet(toks + [tok]) == TokenSet(toks) + {tok}
  {
    var all := toks + [tok];
    forall t | t in TokenSet(toks) + {tok} ensures t in TokenSet(all) {
      if t in TokenSet(toks) {
        var i :| 0 <= i < |toks| && toks[i] == t;
        assert all[i] == t;
      } else {
        assert all[|toks|] == t;
      }
    }
  }

  lemma {:induction false} DistinctCount(toks: seq<string>)
    requires Distinct(toks)
    ensures |TokenSet(toks)| == |toks|
  {
    if toks != [] {
      var n := |toks| - 1;
      DistinctCount(toks[..n]);
      assert toks == toks[..n] + [toks[n]];
      TokenSetAppend(toks[..n], toks[n]);
    }
  }

  /** A round of suffixes all taken means more than that many tokens are in use. */
  lemma TakenLevelBounds(tok: string, used: set<string>, n: nat)
    requires forall i | 0 <= i < |Level(n)| :: tok + Level(n)[i] in used
    ensures n < |used|
  {
    LevelFacts(n, Level(n));
    TakenCount(tok, Level(n), used);
  }

  lemma TakenCount(tok: string, pool: seq<string>, used: set<string>)
    requires Distinct(pool) && forall i | 0 <= i < |pool| :: tok + pool[i] in used
    ensures |pool| <= |used|
  {
    var taken := seq(|pool|, i requires 0 <= i < |pool| => tok + pool[i]);
    forall i, j | 0 <= i < j < |taken| ensures taken[i] != taken[j] {
      assert taken[i][|tok|..] == pool[i] && taken[j][|tok|..] == pool[j];
    }
    DistinctCount(taken);
    SubsetSize(TokenSet(taken), used);
  }

  lemma {:induction false} SubsetSize<T>(a: set<T>, b: set<T>)
    requires a <= b
    ensures |a| <= |b|
  {
    if a != {} {
      var x :| x in a;
      SubsetSize(a - {x}, b - {x});
    }
  }

  /** The first of a round's suffixes that frees the token, if any. */
  method FirstInRound(tok: string, used: set<string>, pool: seq<string>) returns (i: nat)
    ensures i <= |pool| && AllTaken(tok, used, pool, i) && (i < |pool| ==> tok + pool[i] !in used)
  {
    i := 0;
    while i < |pool| && tok + pool[i] in used
      invariant i <= |pool| && AllTaken(tok, used, pool, i)
    {
      i := i + 1;
    }
  }

  /** The first `upto` of these suffixes are taken. */
  predicate AllTaken(tok: string, used: set<string>, suffixes: seq<string>, upto: nat)
    requires upto <= |suffixes|
  {
    forall i | 0 <= i < upto :: tok + suffixes[i] in used
  }

  lemma RoundsJoin(tok: string, used: set<string>, before: seq<string>, pool: seq<string>, upto: nat)
    requires upto <= |pool| && AllTaken(tok, used, before, |before|) && AllTaken(tok, used, pool, upto)
    ensures AllTaken(tok, used, before + pool, |before| + upto)
  {}

  lemma NextRoundFrees(tok: string, used: set<string>, n: nat, pool: seq<string>, i: nat)
    requires AllTaken(tok, used, Stream(n), |Stream(n)|) && pool == Level(n + 1)
    requires i < |pool| && tok + pool[i] !in used && AllTaken(tok, used, pool, i)
    ensures FirstFree(tok, used, tok + pool[i])
  {
    RoundsJoin(tok, used, Stream(n), pool, i);
    FirstFreeOf(tok, Stream(n) + pool, n + 1, |Stream(n)| + i, used);
  }

  lemma NextRoundTaken(tok: string, used: set<string>, n: nat, pool: seq<string>)
    requires AllTaken(tok, used, Stream(n), |Stream(n)|) && pool == Level(n + 1) && AllTaken(tok, used, pool, |pool|)
    ensures AllTaken(tok, used, Stream(n + 1), |Stream(n + 1)|) && n + 1 < |used|
  {
    RoundsJoin(tok, used, Stream(n), pool, |pool|);
    TakenLevelBounds(tok, used, n + 1);
  }

  lemma FirstFreeOf(tok: string, all: seq<string>, m: nat, i: nat, used: set<string>)
    requires all == Stream(m) && i < |all| && tok + all[i] !in used && AllTaken(tok, used, all, i)
    ensures FirstFree(tok, used, tok + all[i])
  {}

  /** The tie-break: rounds of suffixes until one is free, which the pigeonhole bound guarantees. */
  method FreeSuffix(tok: string, used: set<string>) returns (r: string)
    ensures r !in used && FirstFree(tok, used, r)
  {
    var pool := [""];
    ghost var n := 0;
    while true
      invariant pool == Level(n) && AllTaken(tok, used, Stream(n), |Stream(n)|)
      invariant n > 0 ==> n < |used|
      decreases |used| - n
    {
      pool := Extend(pool);
      var i := FirstInRound(tok, used, pool);
      if i < |pool| {
        NextRoundFrees(tok, used, n, pool, i);
        return tok + pool[i];
      }
      NextRoundTaken(tok, used, n, pool);
      n := n + 1;
    }
  }

  /** The token one comparand gets when `used` is taken. */
  ghost predicate Chosen(n: Named, used: set<string>, tok: string) {
    if n.bare !in used then tok == n.bare
    else if exists i | 0 <= i < |n.wider| :: n.wider[i] !in used then
      exists i | 0 <= i < |n.wider| :: tok == n.wider[i] && tok !in used && forall j | 0 <= j < i :: n.wider[j] in used
    else FirstFree(n.bare, used, tok) && tok !in used
  }

  method ChooseToken(n: Named, used: set<string>) returns (tok: string)
    ensures Chosen(n, used, tok) && tok !in used
  {
    tok := n.bare;
    if tok in used {
      var i := 0;
      while i < |n.wider| && n.wider[i] in used
        invariant 0 <= i <= |n.wider|
        invariant forall j | 0 <= j < i :: n.wider[j] in used
      {
        i := i + 1;
      }
      if i < |n.wider| { tok := n.wider[i]; }
    }
    if tok in used {
      tok := FreeSuffix(tok, used);
    }
  }

  /** Every token was chosen against exactly the tokens before it. */
  ghost predicate AllChosen(named: seq<Named>, toks: seq<string>) {
    |toks| <= |named| &&
    forall i | 0 <= i < |toks| :: Chosen(named[i], TokenSet(toks[..i]), toks[i])
  }

  lemma AllChosenAppend(named: seq<Named>, toks: seq<string>, tok: string)
    requires AllChosen(named, toks) && |toks| < |named| && Chosen(named[|toks|], TokenSet(toks), tok)
    ensures AllChosen(named, toks + [tok])
  {
    var all := toks + [tok];
    forall i | 0 <= i < |all| ensures Chosen(named[i], TokenSet(all[..i]), all[i]) {
      assert all[..i] == toks[..i];
      if i == |toks| { assert toks[..i] == toks; }
    }
  }

  function TokensById(named: seq<Named>, toks: seq<string>): map<int, string>
    requires |named| == |toks|
    decreases |named|
  {
    if named == [] then map[]
    else
      var n := |named| - 1;
      TokensById(named[..n], toks[..n])[named[n].cid := toks[n]]
  }

  lemma TokensByIdStep(named: seq<Named>, toks: seq<string>, n: Named, tok: string)
    requires |named| == |toks|
    ensures TokensById(named + [n], toks + [tok]) == TokensById(named, toks)[n.cid := tok]
  {
    assert (named + [n])[..|named|] == named && (toks + [tok])[..|toks|] == toks;
  }

  /** Each comparand's token was chosen against exactly the ones before, and all are different. */
  ghost predicate Allocated(named: seq<Named>, toks: seq<string>, used: set<string>) {
    |toks| <= |named| && AllChosen(named, toks) && Distinct(toks) && used == TokenSet(toks)
  }

  lemma AllocatedStep(named: seq<Named>, toks: seq<string>, used: set<string>, tok: string)
    requires Allocated(named, toks, used) && |toks| < |named| && Chosen(named[|toks|], used, tok) && tok !in used
    ensures Allocated(named, toks + [tok], used + {tok})
  {
    AllChosenAppend(named, toks, tok);
    TokenSetAppend(toks, tok);
    assert forall i | 0 <= i < |toks| :: toks[i] in TokenSet(toks);
  }

  /** One turn of the allocator loop. */
  method AllocateOne(named: seq<Named>, out0: map<int, string>, toks0: seq<string>, used0: set<string>)
      returns (out: map<int, string>, toks: seq<string>, used: set<string>)
    requires |toks0| < |named| && Allocated(named, toks0, used0) && out0 == TokensById(named[..|toks0|], toks0)
    ensures |toks| == |toks0| + 1 && Allocated(named, toks, used) && out == TokensById(named[..|toks|], toks)
  {
    var n := named[|toks0|];
    var tok := ChooseToken(n, used0);
    AllocatedStep(named, toks0, used0, tok);
    TokensByIdStep(named[..|toks0|], toks0, n, tok);
    assert named[..|toks0| + 1] == named[..|toks0|] + [n];
    out, toks, used := out0[n.cid := tok], toks0 + [tok], used0 + {tok};
  }

  /** Tokens in lane order, and the id-to-token dictionary built from them (a later entry with the same id
      replaces the earlier one). */
  method UniqueComparandTokens(named: seq<Named>) returns (out: map<int, string>, toks: seq<string>)
    ensures |toks| == |named| && AllChosen(named, toks) && Distinct(toks)
    ensures out == TokensById(named, toks)
  {
    out, toks := map[], [];
    var used := {};
    for k := 0 to |named|
      invariant |toks| == k && Allocated(named, toks, used) && out == TokensById(named[..k], toks)
    {
      out, toks, used := AllocateOne(named, out, toks, used);
    }
    assert named[..|named|] == named;
  }

  /** The dictionary of distinct tokens is injective: no comparand can overwrite another's payload. */
  lemma {:induction false} TokensByIdInjective(named: seq<Named>, toks: seq<string>)
    requires |named| == |toks| && Distinct(toks)
    ensures var out := TokensById(named, toks);
      && (forall i | 0 <= i < |named| :: named[i].cid in out)
      && (forall a | a in out :: out[a] in toks)
      && (forall a, b | a in out && b in out && a != b :: out[a] != out[b])
    decreases |named|
  {
    if named != [] {
      var n := |named| - 1;
      TokensByIdInjective(named[..n], toks[..n]);
      assert forall t | t in toks[..n] :: t != toks[n];
      assert forall i | 0 <= i < n :: named[i] == named[..n][i];
    }
  }

  // ---------------------------------------------------------------- who keeps the bare token

  /** `tok` is `bare` with a non-empty suffix of the stream. */
  ghost predicate Suffixed(bare: string, tok: string) {
    exists s: string :: s != [] && IsSuffix(s) && tok == bare + s
  }

  /** The comparand can end up with `tok` without suggesting it. */
  ghost predicate MayDrift(n: Named, tok: string) {
    tok in n.wider || Suffixed(n.bare, tok)
  }

  /** A token is the bare one exactly when that was unused; otherwise it is a wider variant or a suffixed one. */
  lemma ChosenShape(n: Named, used: set<string>, tok: string)
    requires Chosen(n, used, tok)
    ensures tok !in used
    ensures tok == n.bare <==> n.bare !in used
    ensures tok == n.bare || MayDrift(n, tok)
  {
    if n.bare in used && !(exists i | 0 <= i < |n.wider| :: n.wider[i] !in used) {
      var k: nat, i: nat :| i < |Stream(k)| && tok == n.bare + Stream(k)[i];
      StreamEnumerates(k);
      assert Stream(k)[i] in Stream(k);
    }
  }

  /** The `j`-th comparand was moved off its own bare token onto `tok`. */
  ghost predicate DriftedOnto(named: seq<Named>, toks: seq<string>, j: nat, tok: string)
    requires j < |toks| <= |named|
  {
    toks[j] == tok && named[j].bare != tok && MayDrift(named[j], tok)
  }

  /** A comparand keeps the token its name suggests iff no earlier one holds it bare and none was widened or suffixed
      onto it. */
  lemma KeepsBareExactly(named: seq<Named>, toks: seq<string>, i: nat)
    requires AllChosen(named, toks) && i < |toks|
    ensures toks[i] == named[i].bare <==>
      forall j: nat | j < i :: !(toks[j] == named[j].bare == named[i].bare) && !DriftedOnto(named, toks, j, named[i].bare)
  {
    ChosenShape(named[i], TokenSet(toks[..i]), toks[i]);
    forall j: nat | j < i ensures toks[j] in TokenSet(toks[..i]) { assert toks[..i][j] == toks[j]; }
    if named[i].bare in TokenSet(toks[..i]) {
      var j: nat :| j < i && toks[..i][j] == named[i].bare;
      ChosenShape(named[j], TokenSet(toks[..j]), toks[j]);
    }
  }

  /** What a caller can check on the names: the first holder of a bare token keeps it when no earlier name has it as a
      wider variant or is shorter by a suffix. */
  lemma FirstHolderKeeps(named: seq<Named>, toks: seq<string>, i: nat)
    requires AllChosen(named, toks) && i < |toks|
    requires forall j | 0 <= j < i :: named[j].bare != named[i].bare && !MayDrift(named[j], named[i].bare)
    ensures toks[i] == named[i].bare
  {
    KeepsBareExactly(named, toks, i);
  }

  /** Comparands that each take their own bare token. */
  function Plain(toks: seq<string>): seq<Named> {
    seq(|toks|, i requires 0 <= i < |toks| => Named(i, toks[i], []))
  }

  lemma PlainChosen(toks: seq<string>, more: seq<Named>)
    requires Distinct(toks)
    ensures AllChosen(Plain(toks) + more, toks)
  {
    forall i | 0 <= i < |toks| ensures Chosen((Plain(toks) + more)[i], TokenSet(toks[..i]), toks[i]) {
      assert forall j | 0 <= j < i :: toks[..i][j] == toks[j] != toks[i];
    }
  }

  lemma {:induction false} Listed(s: set<string>) returns (toks: seq<string>)
    ensures Distinct(toks) && TokenSet(toks) == s
    decreases s
  {
    if s == {} {
      toks := [];
    } else {
      var x := Some(s);
      var rest := Listed(s - {x});
      TokenSetAppend(rest, x);
      toks := rest + [x];
      forall i, j | 0 <= i < j < |toks| ensures toks[i] != toks[j] { assert rest[i] in TokenSet(rest); }
    }
  }

  lemma Some(s: set<string>) returns (x: string)
    requires s != {}
    ensures x in s
  {
    x :| x in s;
  }

  /** With the bare token and all narrower variants in use, the comparand is widened onto `tok`. */
  lemma DriftByWider(n: Named, tok: string) returns (used: set<string>)
    requires n.bare != tok && tok in n.wider
    ensures tok !in used && Chosen(n, used, tok)
  {
    var i := FirstOf(n.wider, tok);
    used := {n.bare} + set j | 0 <= j < i :: n.wider[j];
    assert n.wider[i] !in used;
  }

  lemma SameSuffix(bare: string, s1: string, s2: string)
    requires bare + s1 == bare + s2
    ensures s1 == s2
  {
    assert (bare + s1)[|bare|..] == s1 && (bare + s2)[|bare|..] == s2;
  }

  /** The bare token with each of the first `i` suffixes. */
  function SuffixedWith(bare: string, all: seq<string>, i: nat): set<string>
    requires i <= |all|
  {
    set j | 0 <= j < i :: bare + all[j]
  }

  lemma NotSuffixedYet(bare: string, all: seq<string>, i: nat)
    requires i < |all| && all[i] != [] && forall j | 0 <= j < i :: all[j] != all[i]
    ensures bare + all[i] !in SuffixedWith(bare, all, i) && bare + all[i] != bare
  {
    assert |bare + all[i]| > |bare|;
    forall j | 0 <= j < i ensures bare + all[j] != bare + all[i] {
      if bare + all[j] == bare + all[i] { SameSuffix(bare, all[j], all[i]); }
    }
  }

  /** With the bare token, all its variants and all earlier suffixes in use, the comparand is suffixed onto `tok`. */
  lemma DriftBySuffix(n: Named, s: string) returns (used: set<string>)
    requires s != [] && IsSuffix(s) && n.bare + s !in n.wider
    ensures n.bare + s !in used && Chosen(n, used, n.bare + s)
  {
    StreamEnumerates(|s|);
    var all := Stream(|s|);
    var i := FirstOf(all, s);
    NotSuffixedYet(n.bare, all, i);
    used := {n.bare} + (set j | 0 <= j < |n.wider| :: n.wider[j]) + SuffixedWith(n.bare, all, i);
    FirstFreeOf(n.bare, all, |s|, i, used);
  }

  /** The tokens in use that make a comparand drift onto `tok`. */
  lemma DriftSet(n: Named, tok: string) returns (used: set<string>)
    requires n.bare != tok && MayDrift(n, tok)
    ensures tok !in used && Chosen(n, used, tok)
  {
    if tok in n.wider {
      used := DriftByWider(n, tok);
    } else {
      var s: string :| s != [] && IsSuffix(s) && tok == n.bare + s;
      used := DriftBySuffix(n, s);
    }
  }

  lemma FirstOf(s: seq<string>, x: string) returns (i: nat)
    requires x in s
    ensures i < |s| && s[i] == x && forall j | 0 <= j < i :: s[j] != x
  {
    i := 0;
    while s[i] != x
      invariant i < |s| && forall j | 0 <= j < i :: s[j] != x
      invariant x in s[i..]
      decreases |s| - i
    {
      i := i + 1;
    }
  }

  /** In some lane order, `n` ends up with `tok` although no name before it suggests `tok`. */
  ghost predicate Takes(others: seq<string>, n: Named, tok: string) {
    Distinct(others) && tok !in others && AllChosen(Plain(others) + [n], others + [tok])
  }

  /** The names alone decide who can be robbed: a comparand can be moved onto a token it does not suggest exactly when
      that is one of its wider variants or its bare token with a suffix. */
  lemma DriftsExactly(n: Named, tok: string)
    requires n.bare != tok
    ensures (exists others :: Takes(others, n, tok)) <==> MayDrift(n, tok)
  {
    forall others | Takes(others, n, tok) ensures MayDrift(n, tok) {
      assert Chosen((Plain(others) + [n])[|others|], TokenSet((others + [tok])[..|others|]), (others + [tok])[|others|]);
      ChosenShape(n, TokenSet((others + [tok])[..|others|]), tok);
    }
    if MayDrift(n, tok) {
      var used := DriftSet(n, tok);
      var others := Listed(used);
      PlainChosen(others, [n]);
      assert forall i | 0 <= i < |others| :: others[i] in TokenSet(others);
      AllChosenAppend(Plain(others) + [n], others, tok);
      assert Takes(others, n, tok);
    }
  }

  /** A lane order in which the first holder of a bare token loses it to an earlier wider variant. */
  lemma FirstHolderMayLoseToken(toks: seq<string>)
    requires |toks| == 3
    requires AllChosen([Named(1, "P1", []), Named(2, "P1", ["Pu1"]), Named(3, "Pu1", [])], toks)
    ensures toks[2] != "Pu1"
  {
    var named := [Named(1, "P1", []), Named(2, "P1", ["Pu1"]), Named(3, "Pu1", [])];
    assert TokenSet(toks[..0]) == {};
    assert Chosen(named[0], TokenSet(toks[..0]), toks[0]) && Chosen(named[1], TokenSet(toks[..1]), toks[1]);
    assert toks[..1][0] == toks[0] == "P1";
    assert TokenSet(toks[..1]) == {"P1"};
    assert named[1].wider[0] !in TokenSet(toks[..1]);
    assert toks[1] == "Pu1";
    var j: nat := 1;
    assert DriftedOnto(named, toks, j, "Pu1");
    KeepsBareExactly(named, toks, 2);
  }
}
