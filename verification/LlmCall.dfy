/** llm/client.py, the attempt loop of one call, and llm/transient_retry.py around it.  The model server is an
    oracle that may answer anything. */
module LlmCall {
  type Obj = map<string, string>

  /** One wire call: an exception classified to a kind, or a reply. */
  datatype Wire = Failed(kind: string, detail: string) | Reply(text: string, finish: string)

  datatype Parse = Parsed(obj: Obj) | Unusable(kind: string, detail: string)

  datatype Mode = Empty | Marker | Raise

  /** What the caller gets. */
  datatype Outcome = Returned(obj: Obj) | LlmError(kind: string, detail: string)

  /** What a failure detail adds about the prompt's estimated size. */
  datatype Note = Unsent | Skipped | AboutPrompt | CutShort

  /** The settings one call reads, the shared text functions, and the texts it composes. */
  datatype Settings = Settings(
    parseRetry: nat, budget: int, noRetry: set<string>, mode: Mode, cacheKey: bool, system: string, user: string,
    extract: string -> Parse, correction: (string, string) -> string, note: (Note, nat) -> string)

  function Tokens(c: Settings, prompt: string): nat { (|c.system| + |prompt|) / 4 }

  predicate OverBudget(c: Settings, prompt: string) { c.budget > 0 && Tokens(c, prompt) > c.budget }

  function Take(s: string, n: nat): string { if |s| <= n then s else s[..n] }

  function Fail(c: Settings, kind: string, detail: string): Outcome {
    match c.mode
    case Raise => LlmError(kind, detail)
    case Marker => Returned(map["_llm_error" := kind, "_llm_error_detail" := Take(detail, 300)])
    case Empty => Returned(map[])
  }

  /** Truncation first: a reply cut at the token ceiling never counts as parsed. */
  function Classify(c: Settings, prompt: string, reply: Wire): Parse
    requires reply.Reply?
  {
    if reply.finish == "length" then Unusable("truncated", c.note(CutShort, Tokens(c, prompt)))
    else c.extract(reply.text)
  }

  /** The retry prompt: the original one, the error and the end of the reply. */
  function Retry(c: Settings, detail: string, text: string): string {
    c.user + c.correction(detail, text)
  }

  /** One call: its outcome, the prompts it sent, and what it stored in the response cache. */
  datatype Trace = Trace(out: Outcome, sent: seq<string>, stored: seq<Obj>)

  /** The loop from `attempt` on, about to send `prompt`; `kind` and `detail` are the failure so far. */
  function Attempts(c: Settings, wire: (nat, string) -> Wire, attempt: nat, prompt: string, kind: string, detail: string): Trace
    requires attempt <= c.parseRetry
    decreases c.parseRetry - attempt
  {
    if OverBudget(c, prompt) then
      if attempt == 0 then Trace(Fail(c, "over_budget", c.note(Unsent, Tokens(c, prompt))), [], [])
      else Trace(Fail(c, kind, detail + c.note(Skipped, Tokens(c, prompt))), [], [])
    else
      var reply := wire(attempt, prompt);
      if reply.Failed? then Trace(Fail(c, reply.kind, reply.detail + c.note(AboutPrompt, Tokens(c, c.user))), [prompt], [])
      else
        var parse := Classify(c, prompt, reply);
        if parse.Parsed? then Trace(Returned(parse.obj), [prompt], if c.cacheKey then [parse.obj] else [])
        else if parse.kind in c.noRetry || attempt == c.parseRetry then Trace(Fail(c, parse.kind, parse.detail), [prompt], [])
        else
          var rest := Attempts(c, wire, attempt + 1, Retry(c, parse.detail, reply.text), parse.kind, parse.detail);
          After([prompt], rest)
  }

  /** A cache hit answers without sending. */
  function Call(c: Settings, cached: Parse, wire: (nat, string) -> Wire): Trace {
    if c.cacheKey && cached.Parsed? then Trace(Returned(cached.obj), [], [])
    else Attempts(c, wire, 0, c.user, "parse", "")
  }

  /** What is left of the call, after `sent`. */
  function After(sent: seq<string>, rest: Trace): Trace { Trace(rest.out, sent + rest.sent, rest.stored) }

  lemma AfterOne(sent: seq<string>, prompt: string, rest: Trace)
    ensures After(sent, After([prompt], rest)) == After(sent + [prompt], rest)
  {}

  /** What one turn of the loop comes to: the call is over, or the reply was no use and why. */
  datatype Turn = Over(trace: Trace) | Useless(kind: string, detail: string, text: string)

  /** One turn: the budget, the admission slot, held across the wire call only, and the verdict on the reply. */
  method TakeTurn(c: Settings, wire: (nat, string) -> Wire, slot: bool, attempt: nat, prompt: string, kind: string, detail: string)
      returns (turn: Turn, acquired: nat, released: nat)
    requires attempt <= c.parseRetry
    ensures Attempts(c, wire, attempt, prompt, kind, detail) == Resumed(c, wire, attempt, prompt, turn)
    ensures acquired == released <= (if OverBudget(c, prompt) then 0 else 1)
    ensures turn.Over? ==> acquired <= |turn.trace.sent|
  {
    acquired, released := 0, 0;
    if OverBudget(c, prompt) {
      var why := if attempt == 0 then c.note(Unsent, Tokens(c, prompt)) else detail + c.note(Skipped, Tokens(c, prompt));
      return Over(Trace(Fail(c, if attempt == 0 then "over_budget" else kind, why), [], [])), acquired, released;
    }
    if slot { acquired := acquired + 1; }
    var reply := wire(attempt, prompt);
    if slot { released := released + 1; }
    if reply.Failed? {
      return Over(Trace(Fail(c, reply.kind, reply.detail + c.note(AboutPrompt, Tokens(c, c.user))), [prompt], [])), acquired, released;
    }
    var parse := Classify(c, prompt, reply);
    if parse.Parsed? {
      turn := Over(Trace(Returned(parse.obj), [prompt], if c.cacheKey then [parse.obj] else []));
    } else if parse.kind in c.noRetry {
      turn := Over(Trace(Fail(c, parse.kind, parse.detail), [prompt], []));
    } else {
      turn := Useless(parse.kind, parse.detail, reply.text);
    }
  }

  /** The rest of the call after a turn. */
  function Resumed(c: Settings, wire: (nat, string) -> Wire, attempt: nat, prompt: string, turn: Turn): Trace
    requires attempt <= c.parseRetry
  {
    match turn
    case Over(trace) => trace
    case Useless(kind, detail, text) =>
      if attempt == c.parseRetry then Trace(Fail(c, kind, detail), [prompt], [])
      else After([prompt], Attempts(c, wire, attempt + 1, Retry(c, detail, text), kind, detail))
  }

  /** The loop: `prompt` is about to be sent unless the attempts are used up. */
  ghost predicate Underway(c: Settings, wire: (nat, string) -> Wire, whole: Trace, attempt: nat, sent: seq<string>,
                           prompt: string, kind: string, detail: string) {
    if attempt <= c.parseRetry then whole == After(sent, Attempts(c, wire, attempt, prompt, kind, detail))
    else whole == Trace(Fail(c, kind, detail), sent, [])
  }

  lemma TurnUseless(c: Settings, wire: (nat, string) -> Wire, whole: Trace, attempt: nat, sent: seq<string>,
                    prompt: string, turn: Turn)
    requires attempt <= c.parseRetry && turn.Useless? && whole == After(sent, Resumed(c, wire, attempt, prompt, turn))
    ensures Underway(c, wire, whole, attempt + 1, sent + [prompt], Retry(c, turn.detail, turn.text), turn.kind, turn.detail)
  {
    if attempt < c.parseRetry {
      AfterOne(sent, prompt, Attempts(c, wire, attempt + 1, Retry(c, turn.detail, turn.text), turn.kind, turn.detail));
    }
  }

  lemma CallBegins(c: Settings, wire: (nat, string) -> Wire, whole: Trace)
    requires whole == Attempts(c, wire, 0, c.user, "parse", "")
    ensures Underway(c, wire, whole, 0, [], c.user, "parse", "")
  {
    assert [] + whole.sent == whole.sent;
  }

  /** The loop itself.  `slot` says whether an admission slot was obtained for each attempt. */
  method AttemptLoop(c: Settings, wire: (nat, string) -> Wire, slot: nat -> bool)
      returns (trace: Trace, acquired: nat, released: nat)
    ensures trace == Attempts(c, wire, 0, c.user, "parse", "")
    ensures acquired == released <= |trace.sent|
  {
    acquired, released := 0, 0;
    var prompt, kind, detail := c.user, "parse", "";
    var sent: seq<string> := [];
    ghost var whole := Attempts(c, wire, 0, c.user, "parse", "");
    CallBegins(c, wire, whole);
    for attempt := 0 to c.parseRetry + 1
      invariant acquired == released <= |sent|
      invariant Underway(c, wire, whole, attempt, sent, prompt, kind, detail)
    {
      var turn, a, r := TakeTurn(c, wire, slot(attempt), attempt, prompt, kind, detail);
      acquired, released := acquired + a, released + r;
      if turn.Over? { return After(sent, turn.trace), acquired, released; }
      TurnUseless(c, wire, whole, attempt, sent, prompt, turn);
      sent, kind, detail := sent + [prompt], turn.kind, turn.detail;
      if attempt < c.parseRetry { prompt := Retry(c, detail, turn.text); }
    }
    trace := Trace(Fail(c, kind, detail), sent, []);
  }

  method CallRaw(c: Settings, cached: Parse, wire: (nat, string) -> Wire, slot: nat -> bool)
      returns (trace: Trace, acquired: nat, released: nat)
    ensures trace == Call(c, cached, wire)
    ensures acquired == released <= |trace.sent|
  {
    if c.cacheKey && cached.Parsed? { return Trace(Returned(cached.obj), [], []), 0, 0; }
    trace, acquired, released := AttemptLoop(c, wire, slot);
  }

  // ---------------------------------------------------------------- what every call keeps

  /** The i-th wire call went wrong in a way the loop may try again. */
  predicate Retriable(c: Settings, prompt: string, reply: Wire) {
    reply.Reply? && Classify(c, prompt, reply).Unusable? && Classify(c, prompt, reply).kind !in c.noRetry
  }

  predicate FailsWith(c: Settings, t: Trace, kind: string) {
    t.stored == [] && match c.mode
      case Raise => t.out.LlmError? && t.out.kind == kind
      case Marker =>
        t.out.Returned? && t.out.obj.Keys == {"_llm_error", "_llm_error_detail"} && t.out.obj["_llm_error"] == kind
        && |t.out.obj["_llm_error_detail"]| <= 300
      case Empty => t.out == Returned(map[])
  }

  /** The reply of the last wire call decides: its parse is returned and stored, or its kind is the failure. */
  predicate Decides(c: Settings, t: Trace, prompt: string, reply: Wire) {
    if reply.Failed? then FailsWith(c, t, reply.kind)
    else
      match Classify(c, prompt, reply)
      case Parsed(obj) => t.out == Returned(obj) && t.stored == (if c.cacheKey then [obj] else [])
      case Unusable(kind, _) => FailsWith(c, t, kind)
  }

  /** Why no further prompt was sent after the n-th. */
  predicate Stops(c: Settings, n: nat, prompt: string, reply: Wire) {
    || !Retriable(c, prompt, reply)
    || n > c.parseRetry
    || OverBudget(c, Retry(c, Classify(c, prompt, reply).detail, reply.text))
  }

  /** The (i+1)-th prompt is the retry prompt of the i-th reply, which was retriable. */
  predicate Linked(c: Settings, wire: (nat, string) -> Wire, from: nat, sent: seq<string>, i: nat)
    requires i + 1 < |sent|
  {
    var reply := wire(from + i, sent[i]);
    Retriable(c, sent[i], reply) && sent[i + 1] == Retry(c, Classify(c, sent[i], reply).detail, reply.text)
  }

  function LastReply(wire: (nat, string) -> Wire, from: nat, sent: seq<string>): Wire
    requires sent != []
  {
    wire(from + |sent| - 1, sent[|sent| - 1])
  }

  predicate Protocol(c: Settings, wire: (nat, string) -> Wire, from: nat, t: Trace) {
    var n := |t.sent|;
    && from + n <= c.parseRetry + 1
    && (forall i | 0 <= i < n :: !OverBudget(c, t.sent[i]))
    && (forall i: nat | i + 1 < n :: Linked(c, wire, from, t.sent, i))
    && (n > 0 ==>
          && Decides(c, t, t.sent[n - 1], LastReply(wire, from, t.sent))
          && Stops(c, from + n, t.sent[n - 1], LastReply(wire, from, t.sent)))
  }

  /** One retriable attempt in front of a run of the protocol. */
  lemma ProtocolExtends(c: Settings, wire: (nat, string) -> Wire, attempt: nat, prompt: string, rest: Trace)
    requires !OverBudget(c, prompt) && Retriable(c, prompt, wire(attempt, prompt)) && Protocol(c, wire, attempt + 1, rest)
    requires var parse := Classify(c, prompt, wire(attempt, prompt));
      var next := Retry(c, parse.detail, wire(attempt, prompt).text);
      && (rest.sent != [] ==> rest.sent[0] == next)
      && (rest.sent == [] ==> OverBudget(c, next) && FailsWith(c, rest, parse.kind) && attempt < c.parseRetry)
    ensures Protocol(c, wire, attempt, After([prompt], rest))
  {
    var t := After([prompt], rest);
    forall i: nat | i + 1 < |t.sent| ensures Linked(c, wire, attempt, t.sent, i) {
      if i > 0 {
        var k: nat := i - 1;
        assert Linked(c, wire, attempt + 1, rest.sent, k);
        assert t.sent[i] == rest.sent[k] && t.sent[i + 1] == rest.sent[k + 1] && attempt + i == attempt + 1 + k;
      }
    }
    if rest.sent != [] {
      assert t.sent[|t.sent| - 1] == rest.sent[|rest.sent| - 1];
      assert LastReply(wire, attempt, t.sent) == LastReply(wire, attempt + 1, rest.sent);
    }
  }

  /** A call that ends with its only attempt. */
  lemma ProtocolOfOne(c: Settings, wire: (nat, string) -> Wire, attempt: nat, prompt: string, t: Trace)
    requires attempt <= c.parseRetry && !OverBudget(c, prompt) && t.sent == [prompt]
    requires Decides(c, t, prompt, wire(attempt, prompt)) && Stops(c, attempt + 1, prompt, wire(attempt, prompt))
    ensures Protocol(c, wire, attempt, t)
  {}

  lemma LastAttempt(c: Settings, wire: (nat, string) -> Wire, attempt: nat, prompt: string, kind: string, detail: string)
    requires attempt <= c.parseRetry && !OverBudget(c, prompt)
    requires !Retriable(c, prompt, wire(attempt, prompt)) || attempt == c.parseRetry
    ensures var t := Attempts(c, wire, attempt, prompt, kind, detail);
      t.sent == [prompt] && Decides(c, t, prompt, wire(attempt, prompt)) && Stops(c, attempt + 1, prompt, wire(attempt, prompt))
  {}

  lemma {:induction false} AttemptsKeepProtocol(c: Settings, wire: (nat, string) -> Wire, attempt: nat, prompt: string, kind: string, detail: string)
    requires attempt <= c.parseRetry
    ensures var t := Attempts(c, wire, attempt, prompt, kind, detail);
      && Protocol(c, wire, attempt, t)
      && (t.sent == [] <==> OverBudget(c, prompt)) && (t.sent != [] ==> t.sent[0] == prompt)
      && (t.sent == [] ==> FailsWith(c, t, if attempt == 0 then "over_budget" else kind))
    decreases c.parseRetry - attempt
  {
    if !OverBudget(c, prompt) {
      var reply := wire(attempt, prompt);
      if Retriable(c, prompt, reply) && attempt < c.parseRetry {
        var parse := Classify(c, prompt, reply);
        var next := Retry(c, parse.detail, reply.text);
        var rest := Attempts(c, wire, attempt + 1, next, parse.kind, parse.detail);
        AttemptsKeepProtocol(c, wire, attempt + 1, next, parse.kind, parse.detail);
        assert Attempts(c, wire, attempt, prompt, kind, detail) == After([prompt], rest);
        ProtocolExtends(c, wire, attempt, prompt, rest);
      } else {
        LastAttempt(c, wire, attempt, prompt, kind, detail);
        ProtocolOfOne(c, wire, attempt, prompt, Attempts(c, wire, attempt, prompt, kind, detail));
      }
    }
  }

  /** Every call: at most parse_retry + 1 wire sends, none over the token budget, nothing re-sent after a
      transport failure or a no-retry kind; a success and a cache store come only from the last, untruncated,
      parsed reply, and every failure carries the last attempt's kind. */
  lemma CallKeepsProtocol(c: Settings, cached: Parse, wire: (nat, string) -> Wire)
    ensures var t := Call(c, cached, wire);
      && Protocol(c, wire, 0, t)
      && (t.sent == [] ==> (c.cacheKey && cached.Parsed? && t.out == Returned(cached.obj) && t.stored == [])
                           || (OverBudget(c, c.user) && FailsWith(c, t, "over_budget")))
  {
    AttemptsKeepProtocol(c, wire, 0, c.user, "parse", "");
  }

  // ---------------------------------------------------------------- the same in the wire's own terms

  /** The prompt fits the token budget, estimated at four characters a token. */
  predicate Fits(c: Settings, prompt: string) {
    c.budget <= 0 || (|c.system| + |prompt|) / 4 <= c.budget
  }

  /** Why a reply is no use, from the wire: cut at the token ceiling, whatever its text parses to, or not parsed. */
  predicate NoUse(c: Settings, prompt: string, reply: Wire, kind: string, detail: string) {
    reply.Reply? &&
    if reply.finish == "length" then kind == "truncated" && detail == c.note(CutShort, (|c.system| + |prompt|) / 4)
    else c.extract(reply.text) == Unusable(kind, detail)
  }

  /** The reply came whole and parses to `obj`. */
  predicate CameWhole(c: Settings, reply: Wire, obj: Obj) {
    reply.Reply? && reply.finish != "length" && c.extract(reply.text) == Parsed(obj)
  }

  /** After `prompt` and its reply, `next` is sent: the reply was of no use, of a kind that may be retried, and the
      next prompt is the original one with the correction of that reply. */
  ghost predicate Resent(c: Settings, prompt: string, reply: Wire, next: string) {
    exists kind, detail :: NoUse(c, prompt, reply, kind, detail) && kind !in c.noRetry && next == c.user + c.correction(detail, reply.text)
  }

  /** How the call ends after its last prompt and that prompt's reply. */
  predicate EndsAs(c: Settings, t: Trace, prompt: string, reply: Wire) {
    && (reply.Failed? ==> FailsWith(c, t, reply.kind))
    && (reply.Reply? && reply.finish == "length" ==> FailsWith(c, t, "truncated"))
    && (reply.Reply? && reply.finish != "length" ==>
          match c.extract(reply.text)
          case Parsed(obj) => t.out == Returned(obj) && t.stored == (if c.cacheKey then [obj] else [])
          case Unusable(kind, _) => FailsWith(c, t, kind))
  }

  /** Why nothing is sent after the n-th prompt and a reply of no use. */
  ghost predicate NothingMore(c: Settings, n: nat, prompt: string, reply: Wire) {
    forall kind, detail | NoUse(c, prompt, reply, kind, detail) ::
      kind in c.noRetry || n > c.parseRetry || !Fits(c, c.user + c.correction(detail, reply.text))
  }

  lemma DecidesPlainly(c: Settings, t: Trace, prompt: string, reply: Wire)
    ensures Decides(c, t, prompt, reply) <==> EndsAs(c, t, prompt, reply)
  {}

  lemma LinkedPlainly(c: Settings, prompt: string, reply: Wire, next: string)
    requires Retriable(c, prompt, reply) && next == Retry(c, Classify(c, prompt, reply).detail, reply.text)
    ensures Resent(c, prompt, reply, next)
  {
    var parse := Classify(c, prompt, reply);
    assert NoUse(c, prompt, reply, parse.kind, parse.detail);
  }

  lemma StopsPlainly(c: Settings, n: nat, prompt: string, reply: Wire)
    requires Stops(c, n, prompt, reply)
    ensures NothingMore(c, n, prompt, reply)
  {}

  /** The whole protocol of a call in terms of what crossed the wire.  Each prompt fits the budget, the first is the
      caller's; another follows exactly a reply of no use whose kind may be retried, while attempts are left and the
      correction fits.  The last reply decides: only one that came whole is returned or stored, and a reply cut at
      the token ceiling fails as truncated even when its text parses. */
  lemma CallOnTheWire(c: Settings, cached: Parse, wire: (nat, string) -> Wire)
    ensures var t := Call(c, cached, wire); var n := |t.sent|;
      && n <= c.parseRetry + 1
      && (n == 0 <==> (c.cacheKey && cached.Parsed?) || !Fits(c, c.user))
      && (n > 0 ==> t.sent[0] == c.user && EndsAs(c, t, t.sent[n - 1], wire(n - 1, t.sent[n - 1])))
      && (forall i | 0 <= i < n :: Fits(c, t.sent[i]))
      && (forall i: nat | i + 1 < n :: Resent(c, t.sent[i], wire(i, t.sent[i]), t.sent[i + 1]))
      && (n > 0 ==> NothingMore(c, n, t.sent[n - 1], wire(n - 1, t.sent[n - 1])))
  {
    var t := Call(c, cached, wire);
    var n := |t.sent|;
    AttemptsKeepProtocol(c, wire, 0, c.user, "parse", "");
    CallKeepsProtocol(c, cached, wire);
    forall i: nat | i + 1 < n ensures Resent(c, t.sent[i], wire(i, t.sent[i]), t.sent[i + 1]) {
      assert Linked(c, wire, 0, t.sent, i);
      LinkedPlainly(c, t.sent[i], wire(i, t.sent[i]), t.sent[i + 1]);
    }
    if n > 0 {
      var last := wire(n - 1, t.sent[n - 1]);
      assert last == LastReply(wire, 0, t.sent);
      DecidesPlainly(c, t, t.sent[n - 1], last);
      StopsPlainly(c, n, t.sent[n - 1], last);
    }
  }

  /** The failure as the caller sees it: the kind and the whole detail, of which a marker carries 300 characters. */
  predicate FailsAs(c: Settings, t: Trace, kind: string, detail: string) {
    t.stored == [] && match c.mode
      case Raise => t.out == LlmError(kind, detail)
      case Marker =>
        t.out == Returned(map["_llm_error" := kind, "_llm_error_detail" := if |detail| <= 300 then detail else detail[..300]])
      case Empty => t.out == Returned(map[])
  }

  /** What a failed call says after its n-th prompt and that prompt's reply: the wire's error and the size of the
      caller's prompt; else the reply's fault, and the size of the correction when that was skipped for the budget. */
  ghost predicate Explains(c: Settings, t: Trace, n: nat, prompt: string, reply: Wire) {
    && (reply.Failed? ==> FailsAs(c, t, reply.kind, reply.detail + c.note(AboutPrompt, (|c.system| + |c.user|) / 4)))
    && forall kind, detail | NoUse(c, prompt, reply, kind, detail) ::
         if kind in c.noRetry || n > c.parseRetry then FailsAs(c, t, kind, detail)
         else FailsAs(c, t, kind, detail + c.note(Skipped, (|c.system| + |c.user + c.correction(detail, reply.text)|) / 4))
  }

  lemma ExplainsOne(c: Settings, wire: (nat, string) -> Wire, attempt: nat, prompt: string, kind: string, detail: string)
    requires attempt <= c.parseRetry && !OverBudget(c, prompt)
    requires !Retriable(c, prompt, wire(attempt, prompt)) || attempt == c.parseRetry
    ensures Explains(c, Attempts(c, wire, attempt, prompt, kind, detail), attempt + 1, prompt, wire(attempt, prompt))
  {}

  /** The correction was too long: the failure stands, with the size of what was not sent. */
  lemma ExplainsSkipped(c: Settings, t: Trace, n: nat, prompt: string, reply: Wire)
    requires n <= c.parseRetry && Retriable(c, prompt, reply)
    requires var parse := Classify(c, prompt, reply);
      FailsAs(c, t, parse.kind, parse.detail + c.note(Skipped, (|c.system| + |Retry(c, parse.detail, reply.text)|) / 4))
    ensures Explains(c, t, n, prompt, reply)
  {}

  /** Prompts sent before do not matter. */
  lemma ExplainsLater(c: Settings, sent: seq<string>, t: Trace, n: nat, prompt: string, reply: Wire)
    requires Explains(c, t, n, prompt, reply)
    ensures Explains(c, After(sent, t), n, prompt, reply)
  {}

  /** Why the call failed, joined at any attempt. */
  ghost predicate Explained(c: Settings, wire: (nat, string) -> Wire, attempt: nat, prompt: string, kind: string, detail: string, t: Trace) {
    var n := |t.sent|;
    if n > 0 then Explains(c, t, attempt + n, t.sent[n - 1], wire(attempt + n - 1, t.sent[n - 1]))
    else if attempt == 0 then FailsAs(c, t, "over_budget", c.note(Unsent, (|c.system| + |prompt|) / 4))
    else FailsAs(c, t, kind, detail + c.note(Skipped, (|c.system| + |prompt|) / 4))
  }

  lemma ExplainedBefore(c: Settings, wire: (nat, string) -> Wire, attempt: nat, prompt: string, kind: string, detail: string, rest: Trace)
    requires attempt < c.parseRetry && Retriable(c, prompt, wire(attempt, prompt))
    requires var parse := Classify(c, prompt, wire(attempt, prompt));
      Explained(c, wire, attempt + 1, Retry(c, parse.detail, wire(attempt, prompt).text), parse.kind, parse.detail, rest)
    ensures Explained(c, wire, attempt, prompt, kind, detail, After([prompt], rest))
  {
    var t, n := After([prompt], rest), |rest.sent|;
    if n > 0 {
      assert t.sent[n] == rest.sent[n - 1];
      ExplainsLater(c, [prompt], rest, attempt + 1 + n, rest.sent[n - 1], wire(attempt + n, rest.sent[n - 1]));
    } else {
      ExplainsSkipped(c, t, attempt + 1, prompt, wire(attempt, prompt));
    }
  }

  lemma {:induction false} AttemptsExplain(c: Settings, wire: (nat, string) -> Wire, attempt: nat, prompt: string, kind: string, detail: string)
    requires attempt <= c.parseRetry
    ensures Explained(c, wire, attempt, prompt, kind, detail, Attempts(c, wire, attempt, prompt, kind, detail))
    decreases c.parseRetry - attempt
  {
    if !OverBudget(c, prompt) {
      var reply := wire(attempt, prompt);
      if Retriable(c, prompt, reply) && attempt < c.parseRetry {
        var parse := Classify(c, prompt, reply);
        var next := Retry(c, parse.detail, reply.text);
        var rest := Attempts(c, wire, attempt + 1, next, parse.kind, parse.detail);
        AttemptsExplain(c, wire, attempt + 1, next, parse.kind, parse.detail);
        assert Attempts(c, wire, attempt, prompt, kind, detail) == After([prompt], rest);
        ExplainedBefore(c, wire, attempt, prompt, kind, detail, rest);
      } else {
        LastAttempt(c, wire, attempt, prompt, kind, detail);
        ExplainsOne(c, wire, attempt, prompt, kind, detail);
      }
    }
  }

  /** Every failed call says why: what it explains is the fault of its last reply, or the size of a prompt never sent. */
  lemma FailureExplained(c: Settings, cached: Parse, wire: (nat, string) -> Wire)
    ensures var t := Call(c, cached, wire); var n := |t.sent|;
      && (n > 0 ==> Explains(c, t, n, t.sent[n - 1], wire(n - 1, t.sent[n - 1])))
      && (n == 0 ==> if c.cacheKey && cached.Parsed? then t.out == Returned(cached.obj) && t.stored == []
                     else FailsAs(c, t, "over_budget", c.note(Unsent, (|c.system| + |c.user|) / 4)))
  {
    AttemptsExplain(c, wire, 0, c.user, "parse", "");
  }

  /** What a call stores, or in raise mode returns after sending, is the object of a reply that came whole; nothing of a
      reply cut at the token ceiling is ever served, and after one another prompt is sent only if "truncated" may be
      retried. */
  lemma TruncatedNeverServed(c: Settings, cached: Parse, wire: (nat, string) -> Wire)
    ensures var t := Call(c, cached, wire); var n := |t.sent|;
      && (n > 0 && (t.stored != [] || (c.mode == Raise && t.out.Returned?)) ==>
            t.out.Returned? && CameWhole(c, wire(n - 1, t.sent[n - 1]), t.out.obj) && (t.stored == [] || t.stored == [t.out.obj]))
      && (forall i: nat | i + 1 < n && wire(i, t.sent[i]).Reply? && wire(i, t.sent[i]).finish == "length" :: "truncated" !in c.noRetry)
  {
    CallOnTheWire(c, cached, wire);
    var t := Call(c, cached, wire);
    forall i: nat | i + 1 < |t.sent| && wire(i, t.sent[i]).Reply? && wire(i, t.sent[i]).finish == "length"
      ensures "truncated" !in c.noRetry
    {
      assert Resent(c, t.sent[i], wire(i, t.sent[i]), t.sent[i + 1]);
    }
  }

  // ---------------------------------------------------------------- the transport retry

  predicate Transient(raw: Obj, noRetry: set<string>) {
    "_llm_error" in raw && raw["_llm_error"] != "" && raw["_llm_error"] !in noRetry
  }

  /** The re-call loop: the final reply and how many calls were made. */
  method RetryTransient(call: nat -> Obj, transportRetry: nat, noRetry: set<string>) returns (raw: Obj, calls: nat)
    ensures 1 <= calls <= transportRetry + 1 && raw == call(calls - 1)
    ensures forall i: nat | i < calls - 1 :: Transient(call(i), noRetry)
    ensures !Transient(raw, noRetry) || calls == transportRetry + 1
  {
    raw, calls := call(0), 1;
    var retries := transportRetry;
    while Transient(raw, noRetry) && retries > 0
      invariant 1 <= calls && calls + retries == transportRetry + 1 && raw == call(calls - 1)
      invariant forall i: nat | i < calls - 1 :: Transient(call(i), noRetry)
    {
      retries := retries - 1;
      raw := call(calls);
      calls := calls + 1;
    }
  }

  /** The result without the failure marker, and whether the model was never heard. */
  method RetryTransientResult(call: nat -> Obj, transportRetry: nat, noRetry: set<string>)
      returns (result: Obj, failed: bool, ghost calls: nat)
    ensures 1 <= calls <= transportRetry + 1
    ensures failed <==> "_llm_error" in call(calls - 1) && call(calls - 1)["_llm_error"] != ""
    ensures result == if failed then map[] else call(calls - 1)
  {
    var raw, n := RetryTransient(call, transportRetry, noRetry);
    calls := n;
    failed := "_llm_error" in raw && raw["_llm_error"] != "";
    result := if failed then map[] else raw;
  }

  /** What the n-th re-call of the same marker-mode request does; the server answers each call anew. */
  function Marked(c: Settings, wires: nat -> (nat, string) -> Wire, i: nat): Trace {
    Attempts(c, wires(i), 0, c.user, "parse", "")
  }

  function TotalSends(c: Settings, wires: nat -> (nat, string) -> Wire, calls: nat): nat {
    if calls == 0 then 0 else TotalSends(c, wires, calls - 1) + |Marked(c, wires, calls - 1).sent|
  }

  /** The two loops together: `calls` re-calls send at most calls * (parse_retry + 1) prompts. */
  lemma {:induction false} SendsMultiply(c: Settings, wires: nat -> (nat, string) -> Wire, calls: nat)
    ensures TotalSends(c, wires, calls) <= calls * (c.parseRetry + 1)
  {
    if calls > 0 {
      SendsMultiply(c, wires, calls - 1);
      AttemptsKeepProtocol(c, wires(calls - 1), 0, c.user, "parse", "");
      assert calls * (c.parseRetry + 1) == (calls - 1) * (c.parseRetry + 1) + (c.parseRetry + 1);
    }
  }

  /** The reply of the n-th re-call, which in marker mode never raises. */
  function MarkedReply(c: Settings, wires: nat -> (nat, string) -> Wire, i: nat): (raw: Obj)
    requires c.mode == Marker
    ensures Marked(c, wires, i).out == Returned(raw)
  {
    MarkerReturns(c, wires(i), 0, c.user, "parse", "");
    Marked(c, wires, i).out.obj
  }

  lemma ProductGrows(a: nat, b: nat, n: nat)
    requires a <= b
    ensures a * n <= b * n
  {}

  /** The transport retry around whole calls of a marker-mode request, the server answering each anew: the last reply,
      and at most (transport_retry + 1) * (parse_retry + 1) prompts sent in all. */
  method RetriedCall(c: Settings, wires: nat -> (nat, string) -> Wire, transportRetry: nat)
      returns (raw: Obj, calls: nat, ghost sends: nat)
    requires c.mode == Marker
    ensures 1 <= calls <= transportRetry + 1 && raw == MarkedReply(c, wires, calls - 1)
    ensures forall i: nat | i < calls - 1 :: Transient(MarkedReply(c, wires, i), c.noRetry)
    ensures sends == TotalSends(c, wires, calls) <= (transportRetry + 1) * (c.parseRetry + 1)
  {
    var call := (i: nat) => MarkedReply(c, wires, i);
    raw, calls := RetryTransient(call, transportRetry, c.noRetry);
    forall i: nat | i < calls - 1 ensures Transient(MarkedReply(c, wires, i), c.noRetry) { assert Transient(call(i), c.noRetry); }
    sends := TotalSends(c, wires, calls);
    SendsMultiply(c, wires, calls);
    ProductGrows(calls, transportRetry + 1, c.parseRetry + 1);
  }

  lemma {:induction false} MarkerReturns(c: Settings, wire: (nat, string) -> Wire, attempt: nat, prompt: string, kind: string, detail: string)
    requires c.mode == Marker && attempt <= c.parseRetry
    ensures Attempts(c, wire, attempt, prompt, kind, detail).out.Returned?
    decreases c.parseRetry - attempt
  {
    var reply := wire(attempt, prompt);
    if !OverBudget(c, prompt) && Retriable(c, prompt, reply) && attempt < c.parseRetry {
      var parse := Classify(c, prompt, reply);
      MarkerReturns(c, wire, attempt + 1, Retry(c, parse.detail, reply.text), parse.kind, parse.detail);
    }
  }

  datatype Kind = Answered | FailedAs(kind: string)

  /** How the call ended: with an answer, or as which kind of failure, of the wire or of the reply's parse. */
  function Ending(c: Settings, prompt: string, reply: Wire): Kind {
    if reply.Failed? then FailedAs(reply.kind)
    else match Classify(c, prompt, reply) case Parsed(_) => Answered case Unusable(kind, _) => FailedAs(kind)
  }

  /** A marker-mode call that failed is re-called by the outer loop exactly when its last failure has a kind, of the
      wire or of the parse, that is not a no-retry kind. */
  lemma NoRetryKindsStopBothLoops(c: Settings, wire: (nat, string) -> Wire)
    requires c.mode == Marker
    ensures var t := Attempts(c, wire, 0, c.user, "parse", "");
      && t.out.Returned?
      && (t.sent == [] ==> (Transient(t.out.obj, c.noRetry) <==> "over_budget" !in c.noRetry))
      && (t.sent != [] ==>
            match Ending(c, t.sent[|t.sent| - 1], LastReply(wire, 0, t.sent))
            case Answered => true
            case FailedAs(kind) => Transient(t.out.obj, c.noRetry) <==> kind != "" && kind !in c.noRetry)
  {
    AttemptsKeepProtocol(c, wire, 0, c.user, "parse", "");
    MarkerReturns(c, wire, 0, c.user, "parse", "");
  }
}
