/** grounding/swap_settle.py: the deterministic settle of colliding card swaps. */
module SwapSettle {
  datatype Option<T> = None | Some(value: T)

  /** A slot's swap decision.  `target` is present exactly when the action is "swap" with a target id;
      `settled` marks a decision this pass reverted to keep. */
  datatype Decision = Decision(target: Option<int>, confidence: real, settled: bool)

  type Outputs = map<int, Decision>

  datatype Claim = Claim(cardId: int, target: int)

  datatype Board = Board(already: set<int>, outputs: Outputs, reverts: seq<Claim>, swaps: seq<Claim>)

  predicate Swapping(d: Decision) {
    d.target.Some?
  }

  function Revert(d: Decision): Decision {
    d.(target := None, settled := true)
  }

  /** The processing order: swapping slots first, then higher confidence, then lower id. */
  predicate Before(o: Outputs, a: int, b: int)
    requires a in o && b in o
  {
    if Swapping(o[a]) != Swapping(o[b]) then Swapping(o[a])
    else o[a].confidence > o[b].confidence || (o[a].confidence == o[b].confidence && a < b)
  }

  lemma ConsOrdered(o: Outputs, x: int, s: seq<int>)
    requires x in o && Ordered(o, s) && forall y | y in Members(s) :: Before(o, x, y)
    ensures Ordered(o, [x] + s) && Members([x] + s) == {x} + Members(s)
  {
    var r := [x] + s;
    forall i, j | 0 <= i < j < |r| ensures Before(o, r[i], r[j]) {
      assert r[j] == s[j - 1] && s[j - 1] in Members(s);
    }
  }

  lemma HeadIsFirst(o: Outputs, s: seq<int>)
    requires s != [] && Ordered(o, s)
    ensures Ordered(o, s[1..]) && Members(s) == {s[0]} + Members(s[1..])
    ensures forall y | y in Members(s[1..]) :: Before(o, s[0], y)
  {
    assert s == [s[0]] + s[1..];
  }

  function Insert(o: Outputs, x: int, s: seq<int>): (r: seq<int>)
    requires x in o && x !in s && Ordered(o, s)
    ensures Ordered(o, r) && |r| == |s| + 1 && Members(r) == Members(s) + {x}
  {
    if s == [] then [x]
    else
      HeadIsFirst(o, s);
      if Before(o, x, s[0]) then
        ConsOrdered(o, x, s);
        [x] + s
      else
        var rest := Insert(o, x, s[1..]);
        ConsOrdered(o, s[0], rest);
        [s[0]] + rest
  }

  function Members(s: seq<int>): set<int> {
    set x | x in s
  }

  predicate Ordered(o: Outputs, s: seq<int>) {
    (forall i | 0 <= i < |s| :: s[i] in o) &&
    forall i, j | 0 <= i < j < |s| :: Before(o, s[i], s[j])
  }

  /** `sorted(outputs.items(), key=...)` over the dictionary in the order `items` lists it. */
  function Sorted(o: Outputs, items: seq<int>): (r: seq<int>)
    requires Members(items) <= o.Keys && Distinct(items)
    ensures Ordered(o, r) && |r| == |items| && Members(r) == Members(items)
  {
    if items == [] then []
    else
      assert items == [items[0]] + items[1..];
      assert items[0] !in Members(items[1..]);
      Insert(o, items[0], Sorted(o, items[1..]))
  }

  predicate Distinct(s: seq<int>) {
    forall i, j | 0 <= i < j < |s| :: s[i] != s[j]
  }

  predicate Enumerates(items: seq<int>, keys: set<int>) {
    Members(items) == keys && Distinct(items)
  }

  /** One slot of the settle loop. */
  function Step(b: Board, cid: int): Board
    requires cid in b.outputs
  {
    var d := b.outputs[cid];
    if !Swapping(d) then b.(already := b.already + {cid})
    else if d.target.value in b.already then
      b.(already := b.already + {cid}, outputs := b.outputs[cid := Revert(d)],
         reverts := b.reverts + [Claim(cid, d.target.value)])
    else
      b.(already := b.already + {d.target.value}, swaps := b.swaps + [Claim(cid, d.target.value)])
  }

  /** The board after the first `n` slots of `order`. */
  function Run(o: Outputs, reserved: set<int>, order: seq<int>, n: nat): (r: Board)
    requires n <= |order| && Ordered(o, order)
    ensures r.outputs.Keys == o.Keys
  {
    if n == 0 then Board(reserved, o, [], [])
    else Step(Run(o, reserved, order, n - 1), order[n - 1])
  }

  /** The whole settle of outputs that the dictionary lists in the order `items`. */
  function Settled(o: Outputs, reserved: set<int>, items: seq<int>): (r: Board)
    requires Enumerates(items, o.Keys)
    ensures r.outputs.Keys == o.Keys
  {
    var order := Sorted(o, items);
    Run(o, reserved, order, |order|)
  }

  /** The outputs of one page, settled in place. */
  class Page {
    var outputs: Outputs

    method Settle(pageIds: set<int>, templateIds: set<int>, items: seq<int>)
      returns (already: set<int>, reverts: seq<Claim>, swaps: seq<Claim>)
      requires Enumerates(items, outputs.Keys)
      modifies this
      ensures Board(already, outputs, reverts, swaps) == Settled(old(outputs), pageIds + templateIds, items)
    {
      already, reverts, swaps := SettleInOrder(pageIds + templateIds, Sorted(outputs, items));
    }

    method SettleInOrder(reserved: set<int>, order: seq<int>)
      returns (already: set<int>, reverts: seq<Claim>, swaps: seq<Claim>)
      requires Ordered(outputs, order)
      modifies this
      ensures Board(already, outputs, reverts, swaps) == Run(old(outputs), reserved, order, |order|)
    {
      already, reverts, swaps := reserved, [], [];
      for i := 0 to |order|
        invariant Board(already, outputs, reverts, swaps) == Run(old(outputs), reserved, order, i)
      {
        var cid := order[i];
        var d := outputs[cid];
        if !Swapping(d) {
          already := already + {cid};
        } else if d.target.value in already {
          outputs := outputs[cid := Revert(d)];
          reverts := reverts + [Claim(cid, d.target.value)];
          already := already + {cid};
        } else {
          already := already + {d.target.value};
          swaps := swaps + [Claim(cid, d.target.value)];
        }
      }
    }
  }

  // ---------------------------------------------------------------- order independence

  lemma {:induction false} OrderedUnique(o: Outputs, s: seq<int>, t: seq<int>)
    requires Ordered(o, s) && Ordered(o, t) && Members(s) == Members(t)
    ensures s == t
    decreases |s|
  {
    if s != [] { assert s[0] in Members(s); }
    if t != [] { assert t[0] in Members(t); }
    if s != [] {
      assert s == [s[0]] + s[1..] && t == [t[0]] + t[1..];
      assert s[0] == t[0];
      assert Members(s[1..]) == Members(s) - {s[0]} by { assert forall y | y in s[1..] :: Before(o, s[0], y); }
      assert Members(t[1..]) == Members(t) - {t[0]} by { assert forall y | y in t[1..] :: Before(o, t[0], y); }
      OrderedUnique(o, s[1..], t[1..]);
    }
  }

  /** The settle does not depend on the iteration order of the outputs dictionary. */
  lemma SettleIgnoresDictOrder(o: Outputs, reserved: set<int>, items1: seq<int>, items2: seq<int>)
    requires Enumerates(items1, o.Keys) && Enumerates(items2, o.Keys)
    ensures Settled(o, reserved, items1) == Settled(o, reserved, items2)
  {
    OrderedUnique(o, Sorted(o, items1), Sorted(o, items2));
  }

  // ---------------------------------------------------------------- the declarative reading

  predicate Claims(o: Outputs, c: int, target: int) {
    c in o && o[c].target == Some(target)
  }

  /** `c` is the claimant of highest confidence (ties to the lowest id) of a free target. */
  predicate Wins(o: Outputs, reserved: set<int>, c: int)
    requires c in o
  {
    Swapping(o[c]) && o[c].target.value !in reserved &&
    forall other | other in o && other != c && Claims(o, other, o[c].target.value) :: Before(o, c, other)
  }

  function Outcome(o: Outputs, reserved: set<int>, c: int): Decision
    requires c in o
  {
    if Swapping(o[c]) && !Wins(o, reserved, c) then Revert(o[c]) else o[c]
  }

  lemma {:induction false} BestClaimantExists(o: Outputs, order: seq<int>, n: nat, target: int) returns (i: nat)
    requires Ordered(o, order) && n < |order| && Claims(o, order[n], target)
    ensures i <= n && Claims(o, order[i], target) && forall j | 0 <= j < i :: !Claims(o, order[j], target)
  {
    if j :| 0 <= j < n && Claims(o, order[j], target) {
      i := BestClaimantExists(o, order, j, target);
    } else {
      i := n;
    }
  }

  /** `t` is reserved or went to one of the first `n` slots. */
  predicate Taken(o: Outputs, reserved: set<int>, order: seq<int>, n: nat, t: int)
    requires Ordered(o, order) && n <= |order|
  {
    t in reserved || exists i | 0 <= i < n :: Wins(o, reserved, order[i]) && Claims(o, order[i], t)
  }

  lemma TakenGrows(o: Outputs, reserved: set<int>, order: seq<int>, m: nat, t: int)
    requires Ordered(o, order) && m < |order|
    ensures Taken(o, reserved, order, m + 1, t) <==>
            Taken(o, reserved, order, m, t) || (Wins(o, reserved, order[m]) && Claims(o, order[m], t))
  {}

  /** When a slot's turn comes, its target is already taken exactly when the slot does not win it. */
  lemma TakenExactly(o: Outputs, reserved: set<int>, order: seq<int>, m: nat)
    requires Ordered(o, order) && Members(order) == o.Keys && m < |order| && Swapping(o[order[m]])
    ensures Taken(o, reserved, order, m, o[order[m]].target.value) <==> !Wins(o, reserved, order[m])
  {
    var c := order[m];
    var t := o[c].target.value;
    var i := BestClaimantExists(o, order, m, t);
    if t !in reserved { FirstClaimantWins(o, reserved, order, i, t); }
    forall j | 0 <= j < m ensures Wins(o, reserved, order[j]) && Claims(o, order[j], t) ==> !Wins(o, reserved, c) {
      assert Before(o, order[j], c);
    }
    if i < m { assert Before(o, order[i], c); }
  }

  lemma OnceInOrder(o: Outputs, order: seq<int>, m: nat, i: nat)
    requires Ordered(o, order) && m < |order| && i < |order| && i != m
    ensures order[i] != order[m]
  {}

  /** What the loop has done after `n` slots, when every slot id is reserved. */
  lemma {:induction false} RunFollowsSpec(o: Outputs, reserved: set<int>, order: seq<int>, n: nat)
    requires Ordered(o, order) && n <= |order| && o.Keys <= reserved && Members(order) == o.Keys
    ensures var b := Run(o, reserved, order, n);
      && (forall i | 0 <= i < |order| :: b.outputs[order[i]] == (if i < n then Outcome(o, reserved, order[i]) else o[order[i]]))
      && (forall t :: t in b.already <==> Taken(o, reserved, order, n, t))
  {
    if n > 0 {
      var m := n - 1;
      RunFollowsSpec(o, reserved, order, m);
      forall i | 0 <= i < |order| && i != m ensures order[i] != order[m] { OnceInOrder(o, order, m, i); }
      forall t ensures Taken(o, reserved, order, n, t) <==>
                       Taken(o, reserved, order, m, t) || (Wins(o, reserved, order[m]) && Claims(o, order[m], t))
      {
        TakenGrows(o, reserved, order, m, t);
      }
      if Swapping(o[order[m]]) { TakenExactly(o, reserved, order, m); }
    }
  }

  lemma FirstClaimantWins(o: Outputs, reserved: set<int>, order: seq<int>, i: nat, t: int)
    requires Ordered(o, order) && Members(order) == o.Keys && i < |order| && t !in reserved
    requires Claims(o, order[i], t) && forall j | 0 <= j < i :: !Claims(o, order[j], t)
    ensures Wins(o, reserved, order[i])
  {}

  /** The declarative specification: with every slot id on the page or in its template, each free target
      goes to its best claimant and every other swap reverts. */
  lemma SettleMeetsSpec(o: Outputs, reserved: set<int>, items: seq<int>)
    requires Enumerates(items, o.Keys) && o.Keys <= reserved
    ensures Settled(o, reserved, items).outputs == map c | c in o :: Outcome(o, reserved, c)
  {
    var order := Sorted(o, items);
    RunFollowsSpec(o, reserved, order, |order|);
    forall c | c in o ensures Settled(o, reserved, items).outputs[c] == Outcome(o, reserved, c) {
      assert c in Members(order);
      var i :| 0 <= i < |order| && order[i] == c;
    }
  }

  // ---------------------------------------------------------------- what holds without the precondition

  predicate WinnersSound(o: Outputs, reserved: set<int>) {
    (forall c | c in o && Swapping(o[c]) :: o[c].target.value !in reserved) &&
    forall a, b | a in o && b in o && a != b && Swapping(o[a]) && Swapping(o[b]) :: o[a].target != o[b].target
  }

  /** The slots not yet processed are as they were. */
  predicate Untouched(o: Outputs, done: set<int>, b: Board) {
    b.outputs.Keys == o.Keys && done <= o.Keys && forall c | c in o && c !in done :: b.outputs[c] == o[c]
  }

  /** The winners so far hold taken targets outside the reserved set. */
  predicate WonOutside(reserved: set<int>, done: set<int>, b: Board)
    requires done <= b.outputs.Keys
  {
    reserved <= b.already &&
    forall c | c in done && Swapping(b.outputs[c]) :: b.outputs[c].target.value in b.already - reserved
  }

  /** No two of them hold the same. */
  predicate WonApart(done: set<int>, b: Board)
    requires done <= b.outputs.Keys
  {
    forall c, d | c in done && d in done && c != d && Swapping(b.outputs[c]) && Swapping(b.outputs[d]) ::
      b.outputs[c].target != b.outputs[d].target
  }

  /** The winners among the slots processed so far: distinct claimed targets outside the reserved set. */
  predicate SoundSoFar(o: Outputs, reserved: set<int>, done: set<int>, b: Board) {
    Untouched(o, done, b) && WonOutside(reserved, done, b) && WonApart(done, b)
  }

  lemma StepUntouched(o: Outputs, done: set<int>, b: Board, c: int)
    requires Untouched(o, done, b) && c in o
    ensures Untouched(o, done + {c}, Step(b, c))
  {}

  lemma StepOutside(reserved: set<int>, done: set<int>, b: Board, c: int)
    requires done <= b.outputs.Keys && c in b.outputs && c !in done && WonOutside(reserved, done, b)
    ensures done + {c} <= Step(b, c).outputs.Keys && WonOutside(reserved, done + {c}, Step(b, c))
  {}

  lemma StepApart(reserved: set<int>, done: set<int>, b: Board, c: int)
    requires done <= b.outputs.Keys && c in b.outputs && c !in done && WonOutside(reserved, done, b) && WonApart(done, b)
    ensures done + {c} <= Step(b, c).outputs.Keys && WonApart(done + {c}, Step(b, c))
  {}

  lemma StepSound(o: Outputs, reserved: set<int>, done: set<int>, b: Board, c: int)
    requires SoundSoFar(o, reserved, done, b) && c in o && c !in done
    ensures SoundSoFar(o, reserved, done + {c}, Step(b, c))
  {
    StepUntouched(o, done, b, c);
    StepOutside(reserved, done, b, c);
    StepApart(reserved, done, b, c);
  }

  lemma PrefixGrows(o: Outputs, order: seq<int>, m: nat)
    requires Ordered(o, order) && m < |order|
    ensures order[m] in o && order[m] !in Members(order[..m]) && Members(order[..m + 1]) == Members(order[..m]) + {order[m]}
  {
    forall i | 0 <= i < m ensures order[i] != order[m] { OnceInOrder(o, order, m, i); }
    assert order[..m + 1] == order[..m] + [order[m]];
  }

  lemma {:induction false} RunWinnersSound(o: Outputs, reserved: set<int>, order: seq<int>, n: nat)
    requires Ordered(o, order) && n <= |order|
    ensures SoundSoFar(o, reserved, Members(order[..n]), Run(o, reserved, order, n))
  {
    if n > 0 {
      var m: nat := n - 1;
      RunWinnersSound(o, reserved, order, m);
      PrefixGrows(o, order, m);
      StepSound(o, reserved, Members(order[..m]), Run(o, reserved, order, m), order[m]);
    }
  }

  /** Whatever the slot ids, surviving swaps aim at distinct targets outside page and template. */
  lemma WinnersAlwaysSound(o: Outputs, reserved: set<int>, items: seq<int>)
    requires Enumerates(items, o.Keys)
    ensures WinnersSound(Settled(o, reserved, items).outputs, reserved)
  {
    var order := Sorted(o, items);
    RunWinnersSound(o, reserved, order, |order|);
    assert order[..|order|] == order;
  }

  /** Once winners are sound nothing more reverts. */
  lemma {:induction false} SoundRunIsIdle(o: Outputs, reserved: set<int>, order: seq<int>, n: nat)
    requires Ordered(o, order) && n <= |order| && WinnersSound(o, reserved)
    ensures var b := Run(o, reserved, order, n);
      && b.outputs == o && b.reverts == []
      && ((forall i | 0 <= i < n :: Swapping(o[order[i]])) ==>
            forall t | t in b.already && t !in reserved :: exists i | 0 <= i < n :: Claims(o, order[i], t))
  {
    if n > 0 {
      SoundRunIsIdle(o, reserved, order, n - 1);
      var c := order[n - 1];
      forall i | 0 <= i < n - 1 ensures order[i] != c && (Swapping(o[c]) ==> Swapping(o[order[i]])) {
        assert Before(o, order[i], c);
      }
      if Swapping(o[c]) {
        assert forall i | 0 <= i < n - 1 :: !Claims(o, order[i], o[c].target.value);
      }
    }
  }

  /** Settling a settled page changes nothing and reverts nothing, for any slot ids. */
  lemma SettleIdempotent(o: Outputs, reserved: set<int>, items: seq<int>)
    requires Enumerates(items, o.Keys)
    ensures var once := Settled(o, reserved, items).outputs;
      Settled(once, reserved, items).outputs == once && Settled(once, reserved, items).reverts == []
  {
    var once := Settled(o, reserved, items).outputs;
    WinnersAlwaysSound(o, reserved, items);
    var order := Sorted(once, items);
    SoundRunIsIdle(once, reserved, order, |order|);
  }

  // ---------------------------------------------------------------- what a settle reports

  /** The slot still goes for the target it asked for. */
  predicate KeptTarget(o: Outputs, b: Board, c: int, target: int) {
    c in o && c in b.outputs && o[c].target == Some(target) && b.outputs[c].target == Some(target)
  }

  /** The slot asked for the target and was reverted to its own card, its confidence left standing. */
  predicate LostTarget(o: Outputs, b: Board, c: int, target: int) {
    c in o && c in b.outputs && o[c].target == Some(target) && b.outputs[c] == Decision(None, o[c].confidence, true)
  }

  /** The report on the slots in `done`: who won which target, who lost which, and what is taken: the reserved cards,
      the won targets, and the own card of every slot that keeps or was reverted. */
  ghost predicate Reported(o: Outputs, reserved: set<int>, done: set<int>, b: Board) {
    && b.outputs.Keys == o.Keys && done <= o.Keys
    && (forall c, t :: Claim(c, t) in b.swaps <==> c in done && KeptTarget(o, b, c, t))
    && (forall c, t :: Claim(c, t) in b.reverts <==> c in done && LostTarget(o, b, c, t))
    && (forall x :: x in b.already <==> x in reserved || Holds(done, b, x))
    && (forall c | c in o && (c !in done || !Swapping(o[c])) :: b.outputs[c] == o[c])
    && (forall c | c in done && Swapping(o[c]) :: b.outputs[c] == o[c] || b.outputs[c] == Decision(None, o[c].confidence, true))
  }

  /** A processed slot shows card `x`. */
  ghost predicate Holds(done: set<int>, b: Board, x: int) {
    exists c | c in done && c in b.outputs :: x == if b.outputs[c].target.Some? then b.outputs[c].target.value else c
  }

  lemma ClaimAppended(s: seq<Claim>, last: Claim, c: int, t: int)
    ensures Claim(c, t) in s + [last] <==> Claim(c, t) in s || last == Claim(c, t)
  {}

  lemma HoldsStep(done: set<int>, b: Board, c: int, x: int)
    requires done <= b.outputs.Keys && c in b.outputs && c !in done
    ensures var b' := Step(b, c);
      Holds(done + {c}, b', x) <==> Holds(done, b, x) || x == (if b'.outputs[c].target.Some? then b'.outputs[c].target.value else c)
  {
    var b' := Step(b, c);
    forall d | d in done ensures b'.outputs[d] == b.outputs[d] {}
    if Holds(done, b, x) {
      var d :| d in done && d in b.outputs && x == if b.outputs[d].target.Some? then b.outputs[d].target.value else d;
      assert d in done + {c} && d in b'.outputs;
    }
    assert c in done + {c} && c in b'.outputs;
  }

  lemma ReportSwaps(o: Outputs, reserved: set<int>, done: set<int>, b: Board, c: int, d: int, t: int)
    requires Reported(o, reserved, done, b) && c in o && c !in done
    ensures var b' := Step(b, c);
      && (Claim(d, t) in b'.swaps <==> d in done + {c} && KeptTarget(o, b', d, t))
      && (Claim(d, t) in b'.reverts <==> d in done + {c} && LostTarget(o, b', d, t))
  {
    if Swapping(o[c]) {
      ClaimAppended(b.swaps, Claim(c, o[c].target.value), d, t);
      ClaimAppended(b.reverts, Claim(c, o[c].target.value), d, t);
    }
  }

  lemma ReportStep(o: Outputs, reserved: set<int>, done: set<int>, b: Board, c: int)
    requires Reported(o, reserved, done, b) && c in o && c !in done
    ensures Reported(o, reserved, done + {c}, Step(b, c))
  {
    var b' := Step(b, c);
    forall d, t
      ensures Claim(d, t) in b'.swaps <==> d in done + {c} && KeptTarget(o, b', d, t)
      ensures Claim(d, t) in b'.reverts <==> d in done + {c} && LostTarget(o, b', d, t)
    {
      ReportSwaps(o, reserved, done, b, c, d, t);
    }
    forall x ensures x in b'.already <==> x in reserved || Holds(done + {c}, b', x) { HoldsStep(done, b, c, x); }
  }

  lemma {:induction false} RunReports(o: Outputs, reserved: set<int>, order: seq<int>, n: nat)
    requires Ordered(o, order) && n <= |order|
    ensures Reported(o, reserved, Members(order[..n]), Run(o, reserved, order, n))
  {
    if n > 0 {
      var m: nat := n - 1;
      RunReports(o, reserved, order, m);
      PrefixGrows(o, order, m);
      ReportStep(o, reserved, Members(order[..m]), Run(o, reserved, order, m), order[m]);
    }
  }

  /** Whatever the slot ids: the swaps reported are exactly the winners with the targets they asked for, the reverts
      exactly the losers with theirs, every other slot is untouched, and what is taken in the end is the reserved cards
      and the card each slot shows. */
  lemma SettleReports(o: Outputs, reserved: set<int>, items: seq<int>)
    requires Enumerates(items, o.Keys)
    ensures Reported(o, reserved, o.Keys, Settled(o, reserved, items))
  {
    var order := Sorted(o, items);
    RunReports(o, reserved, order, |order|);
    assert order[..|order|] == order && Members(order) == o.Keys;
  }

  predicate OncePerSlot(s: seq<Claim>) {
    forall i, j | 0 <= i < j < |s| :: s[i].cardId != s[j].cardId
  }

  predicate NoneOf(s: seq<Claim>, c: int) {
    forall i | 0 <= i < |s| :: s[i].cardId != c
  }

  lemma OnceAppended(s: seq<Claim>, last: Claim)
    requires OncePerSlot(s) && NoneOf(s, last.cardId)
    ensures OncePerSlot(s + [last])
  {}

  lemma ReportedOfDone(o: Outputs, reserved: set<int>, done: set<int>, b: Board, c: int)
    requires Reported(o, reserved, done, b) && c !in done
    ensures NoneOf(b.swaps, c) && NoneOf(b.reverts, c)
  {
    forall i | 0 <= i < |b.swaps| ensures b.swaps[i].cardId != c {
      var claim := b.swaps[i];
      assert Claim(claim.cardId, claim.target) in b.swaps;
    }
    forall i | 0 <= i < |b.reverts| ensures b.reverts[i].cardId != c {
      var claim := b.reverts[i];
      assert Claim(claim.cardId, claim.target) in b.reverts;
    }
  }

  /** Each slot is reported once at most. */
  lemma {:induction false} ReportedOnce(o: Outputs, reserved: set<int>, order: seq<int>, n: nat)
    requires Ordered(o, order) && n <= |order|
    ensures OncePerSlot(Run(o, reserved, order, n).swaps) && OncePerSlot(Run(o, reserved, order, n).reverts)
  {
    if n > 0 {
      var m: nat := n - 1;
      var b, c := Run(o, reserved, order, m), order[m];
      ReportedOnce(o, reserved, order, m);
      RunReports(o, reserved, order, m);
      PrefixGrows(o, order, m);
      ReportedOfDone(o, reserved, Members(order[..m]), b, c);
      if Swapping(b.outputs[c]) {
        OnceAppended(b.swaps, Claim(c, b.outputs[c].target.value));
        OnceAppended(b.reverts, Claim(c, b.outputs[c].target.value));
      }
    }
  }

  /** Winning, spelled out: the target is free, and every other slot that asks for it is less confident, or as
      confident with a higher id. */
  lemma WinsExactly(o: Outputs, reserved: set<int>, c: int)
    requires c in o
    ensures Wins(o, reserved, c) <==>
      o[c].target.Some? && o[c].target.value !in reserved
      && forall other | other in o && other != c && o[other].target == o[c].target ::
           o[other].confidence < o[c].confidence || (o[other].confidence == o[c].confidence && c < other)
  {
    if o[c].target.Some? {
      forall other | other in o ensures Claims(o, other, o[c].target.value) <==> o[other].target == o[c].target {}
    }
  }

  // ---------------------------------------------------------------- distinct cards on the page, exactly

  /** The card a slot renders. */
  function Rendered(o: Outputs, c: int): int
    requires c in o
  {
    if Swapping(o[c]) then o[c].target.value else c
  }

  predicate AllDistinct(o: Outputs) {
    forall a, b | a in o && b in o && a != b :: Rendered(o, a) != Rendered(o, b)
  }

  lemma {:induction false} RunOnlyReverts(o: Outputs, reserved: set<int>, order: seq<int>, n: nat, c: int)
    requires Ordered(o, order) && n <= |order| && c in o
    ensures var d := Run(o, reserved, order, n).outputs[c]; d == o[c] || (Swapping(o[c]) && d == Revert(o[c]))
    ensures 0 < |order| && c == order[0] && Swapping(o[c]) && o[c].target.value !in reserved ==>
      Run(o, reserved, order, n).outputs[c] == o[c]
  {
    if n > 0 {
      RunOnlyReverts(o, reserved, order, n - 1, c);
      if n > 1 { assert Before(o, order[0], order[n - 1]); }
    }
  }

  /** Slot `a` swaps onto the id of slot `b`; every other slot keeps. */
  function LoneSwap(slots: set<int>, a: int, b: int): Outputs {
    map c | c in slots :: Decision(if c == a then Some(b) else None, 0.0, false)
  }

  lemma OnlySwapFirst(o: Outputs, order: seq<int>, a: int)
    requires Ordered(o, order) && a in Members(order) && Swapping(o[a]) && forall c | c in o :: Swapping(o[c]) ==> c == a
    ensures order[0] == a
  {}

  /** A slot id outside page and template lets another slot swap onto it while it keeps its own card: a
      keep slot reserves its id only after every swap has been processed. */
  lemma UnreservedSlotCollides(slots: set<int>, reserved: set<int>, a: int, b: int, items: seq<int>)
    requires a in slots && b in slots && a != b && b !in reserved && Enumerates(items, slots)
    ensures !AllDistinct(Settled(LoneSwap(slots, a, b), reserved, items).outputs)
  {
    var o := LoneSwap(slots, a, b);
    var order := Sorted(o, items);
    assert a in Members(order);
    OnlySwapFirst(o, order, a);
    RunOnlyReverts(o, reserved, order, |order|, a);
    RunOnlyReverts(o, reserved, order, |order|, b);
    var final := Settled(o, reserved, items).outputs;
    assert Rendered(final, a) == b && Rendered(final, b) == b;
  }

  lemma ReservedSlotsDistinct(o: Outputs, reserved: set<int>, items: seq<int>)
    requires Enumerates(items, o.Keys) && o.Keys <= reserved
    ensures AllDistinct(Settled(o, reserved, items).outputs)
  {
    WinnersAlwaysSound(o, reserved, items);
  }

  lemma Unreserved<T>(slots: set<T>, reserved: set<T>) returns (b: T)
    requires !(slots <= reserved)
    ensures b in slots && b !in reserved
  {
    b :| b in slots && b !in reserved;
  }

  /** Whatever the decisions, the settled page shows pairwise distinct cards iff every slot id is on the page
      or in its template (or there is at most one slot). */
  lemma DistinctExactly(slots: set<int>, reserved: set<int>, items: seq<int>)
    requires Enumerates(items, slots)
    ensures (forall o: Outputs | o.Keys == slots :: AllDistinct(Settled(o, reserved, items).outputs))
       <==> slots <= reserved || |items| <= 1
  {
    if slots <= reserved {
      forall o: Outputs | o.Keys == slots ensures AllDistinct(Settled(o, reserved, items).outputs) {
        ReservedSlotsDistinct(o, reserved, items);
      }
    } else if |items| <= 1 {
      assert forall a, b | a in Members(items) && b in Members(items) :: a == b;
    } else {
      var b := Unreserved(slots, reserved);
      assert b in Members(items);
      var a := if items[0] == b then items[1] else items[0];
      assert a in Members(items);
      UnreservedSlotCollides(slots, reserved, a, b, items);
      assert LoneSwap(slots, a, b).Keys == slots;
    }
  }
}
