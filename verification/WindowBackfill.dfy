/** layer2/window_backfill.py: the bounded window a card's data is read over, from the AI's own bounds, its
    declared range, or the configured default, anchored to the data's reference now. */
module WindowBackfill {
  import opened Windows

  datatype Option<T> = None | Some(value: T)

  datatype Unit = Week | Day | Hour | Minute

  /** A number and a unit found in lookback prose. */
  datatype Match = Match(amount: real, unit: Unit)

  function Seconds(u: Unit): real {
    match u case Week => 604800.0 case Day => 86400.0 case Hour => 3600.0 case Minute => 60.0
  }

  /** A duration in whole microseconds, halves to even. */
  function Micros(seconds: real): int {
    var x := seconds * 1000000.0;
    var f := x.Floor;
    if x - f as real < 0.5 || (x - f as real == 0.5 && f % 2 == 0) then f else f + 1
  }

  /** The text tools and configuration the resolution reads: the prose pattern, token cleaning, word
      splitting, the preset table and the default range. */
  datatype Vocabulary = Vocabulary(
    find: string -> Option<Match>, clean: string -> string, calendarKey: string -> string, spaced: string -> string, words: string -> set<string>,
    says24h: string -> bool, presets: map<string, string>, defaultRange: string, defaultWindow: string, minSpanDays: int)

  /** The pattern only matches digits. */
  ghost predicate Digits(v: Vocabulary) {
    forall s | v.find(s).Some? :: v.find(s).value.amount >= 0.0
  }

  function LookbackDelta(v: Vocabulary, text: string): Option<int> {
    match v.find(text)
    case None => None
    case Some(m) => Some(Micros(m.amount * Seconds(m.unit)))
  }

  /** Python's truth of a duration or None. */
  predicate Truthy(d: Option<int>) { d.Some? && d.value != 0 }

  function WordDelta(ws: set<string>): Option<int> {
    if "month" in ws then Some(30 * DAY)
    else if "week" in ws then Some(7 * DAY)
    else if "today" in ws || "yesterday" in ws || "day" in ws then Some(DAY)
    else None
  }

  function RangeDelta(v: Vocabulary, token: string): Option<int> {
    var t := v.clean(token);
    if t == "" then None
    else if t in v.presets && Truthy(LookbackDelta(v, v.presets[t])) then LookbackDelta(v, v.presets[t])
    else
      var tt := v.spaced(t);
      if Truthy(LookbackDelta(v, tt)) then LookbackDelta(v, tt)
      else if WordDelta(v.words(tt)).Some? then WordDelta(v.words(tt))
      else if v.says24h(tt) then Some(DAY)
      else None
  }

  /** A parsed lookback is never negative, and positive exactly when the prose names more than half a microsecond. */
  lemma LookbackPositiveExactly(v: Vocabulary, text: string)
    requires Digits(v) && v.find(text).Some?
    ensures LookbackDelta(v, text).Some? && LookbackDelta(v, text).value >= 0
    ensures LookbackDelta(v, text).value > 0 <==> v.find(text).value.amount * Seconds(v.find(text).value.unit) * 1000000.0 > 0.5
  {}

  /** The lookback a match names, to the nearest microsecond, halves to even: weeks of 7 days, days of 24 hours, hours of
      60 minutes, minutes of 60 seconds. */
  lemma LookbackExactly(v: Vocabulary, text: string)
    ensures match v.find(text)
      case None => LookbackDelta(v, text) == None
      case Some(m) =>
        && LookbackDelta(v, text).Some?
        && var exact := m.amount * (match m.unit case Minute => 60000000.0 case Hour => 3600000000.0 case Day => 86400000000.0 case Week => 604800000000.0);
        && var whole := LookbackDelta(v, text).value;
        && -0.5 <= exact - whole as real <= 0.5 && (exact - whole as real == 0.5 || exact - whole as real == -0.5 ==> whole % 2 == 0)
  {
    if v.find(text).Some? { Scaled(v.find(text).value); }
  }

  lemma Scaled(m: Match)
    ensures m.amount * Seconds(m.unit) * 1000000.0 ==
      m.amount * (match m.unit case Minute => 60000000.0 case Hour => 3600000000.0 case Day => 86400000000.0 case Week => 604800000000.0)
  {}

  /** The prose names a lookback other than zero. */
  predicate Names(v: Vocabulary, text: string) {
    LookbackDelta(v, text).Some? && LookbackDelta(v, text).value != 0
  }

  /** The resolution of a range token, first reading first: nothing for an empty token; the lookback its preset names; the
      one its own text names; thirty days for a month, seven for a week, one for a day, today or yesterday as a word;
      one day where it says 24h. */
  lemma RangeDeltaExactly(v: Vocabulary, token: string)
    ensures var t := v.clean(token); var text := v.spaced(t); var words := v.words(text); var r := RangeDelta(v, token);
      && (t == "" ==> r == None)
      && (t != "" && t in v.presets && Names(v, v.presets[t]) ==> r == LookbackDelta(v, v.presets[t]))
      && (t != "" && !(t in v.presets && Names(v, v.presets[t])) ==>
            && (Names(v, text) ==> r == LookbackDelta(v, text))
            && (!Names(v, text) && "month" in words ==> r == Some(2_592_000_000_000))
            && (!Names(v, text) && "month" !in words && "week" in words ==> r == Some(604_800_000_000))
            && (!Names(v, text) && words !! {"month", "week"} && !(words !! {"today", "yesterday", "day"}) ==> r == Some(86_400_000_000))
            && (!Names(v, text) && words !! {"month", "week", "today", "yesterday", "day"} ==>
                  r == if v.says24h(text) then Some(86_400_000_000) else None))
  {}

  /** "0 days" parses, to a zero duration; `Truthy` reads that as nothing parsed. */
  lemma ZeroDaysParses(v: Vocabulary, text: string)
    requires v.find(text) == Some(Match(0.0, Day))
    ensures LookbackDelta(v, text) == Some(0)
  {}

  /** The zero never gets through: every delta a range token resolves to is positive. */
  lemma RangeDeltaPositive(v: Vocabulary, token: string)
    requires Digits(v) && RangeDelta(v, token).Some?
    ensures RangeDelta(v, token).value > 0
  {}

  // ---------------------------------------------------------------- the calendar start

  datatype Kind = ByDay | ByWeek | ByMonth

  /** The calendar tokens, after cleaning. */
  function KindOf(key: string): Option<Kind> {
    if key == "today" || key == "day" then Some(ByDay)
    else if key == "this-week" || key == "week" then Some(ByWeek)
    else if key == "this-month" || key == "month" || key == "monthly" then Some(ByMonth)
    else None
  }

  /** Exactly these tokens name a calendar period. */
  lemma CalendarTokens(key: string)
    ensures KindOf(key) == Some(ByDay) <==> key in {"today", "day"}
    ensures KindOf(key) == Some(ByWeek) <==> key in {"this-week", "week"}
    ensures KindOf(key) == Some(ByMonth) <==> key in {"this-month", "month", "monthly"}
  {}

  /** The first day of the period a site-local day lies in. */
  function PeriodStart(kind: Kind, day: nat): (d: nat)
    ensures d <= day
  {
    match kind
    case ByDay => day
    case ByWeek => day - Weekday(day)
    case ByMonth => day - Civil(day).2
  }

  /** The site's midnight that starts the calendar period of `end`; `offset` is the site's distance from the
      end's own zone. */
  function CalendarStart(kind: Kind, end: int, offset: int): Option<int> {
    var local := end + offset;
    if local < 0 then None else Some(PeriodStart(kind, local / DAY) * DAY - offset)
  }

  /** There is one unless the site's local time lies before year 1. */
  lemma CalendarStartExists(kind: Kind, end: int, offset: int)
    ensures CalendarStart(kind, end, offset).Some? <==> end + offset >= 0
  {}

  /** A calendar start is a site midnight at or before its anchor, less than one, seven or thirty-one days back,
      on a Monday or the 1st where the period says so. */
  lemma CalendarStartBounds(kind: Kind, end: int, offset: int)
    requires CalendarStart(kind, end, offset).Some?
    ensures var start := CalendarStart(kind, end, offset).value;
      && start <= end < start + (match kind case ByDay => 86_400_000_000 case ByWeek => 604_800_000_000 case ByMonth => 2_678_400_000_000)
      && (start + offset) % DAY == 0
      && start + offset >= 0
      && (kind.ByWeek? ==> ((start + offset) / DAY) % 7 == 0)
      && (kind.ByMonth? ==>
            Civil((start + offset) / DAY) == (Civil((end + offset) / DAY).0, Civil((end + offset) / DAY).1, 0))
  {
    var day := (end + offset) / DAY;
    var first := PeriodStart(kind, day);
    assert (first * DAY) / DAY == first && (first * DAY) % DAY == 0;
    if kind.ByMonth? { FirstOfMonth(1, 1, day); }
    if kind.ByWeek? { WeekStart(day); }
  }

  lemma WeekStart(day: nat)
    ensures Weekday(day - Weekday(day)) == 0
  {}

  // ---------------------------------------------------------------- the backfill

  datatype Origin = NonzeroSpanGuard | FetchSpec | FetchSpecNonzeroSpan | DeclaredRange | DefaultRange

  /** The window of the data instructions; an empty text is no text. */
  datatype Window = Window(start: Bound, end: Bound, lookback: string, range: string, origin: Option<Origin>)

  datatype Fetch = Fetch(start: Bound, end: Bound, range: string)

  /** The data's reference now, with or without a zone; `offset` is the site's. */
  datatype Anchor = Anchor(at: int, aware: bool, offset: int)

  predicate Bounded(start: Bound, end: Bound) { !start.Absent? || !end.Absent? }

  /** The one range token every declaring slot agrees on, if it resolves. */
  function Consensus(v: Vocabulary, slots: seq<string>): Option<string> {
    if slots != [] && (forall i | 0 <= i < |slots| :: slots[i] == slots[0]) && RangeDelta(v, slots[0]).Some? then Some(slots[0]) else None
  }

  /** The first declared range: the window's lookback, its range, the fetch spec's, else the slots' consensus. */
  function Declared(v: Vocabulary, w: Window, f: Fetch, slots: seq<string>): Option<string> {
    if w.lookback != "" then Some(w.lookback)
    else if w.range != "" then Some(w.range)
    else if f.range != "" then Some(f.range)
    else Consensus(v, slots)
  }

  function DeclaredDelta(v: Vocabulary, declared: Option<string>): Option<int> {
    if declared.Some? then RangeDelta(v, declared.value) else None
  }

  /** The configured default: its preset's lookback, or 24 hours where that is missing or zero. */
  function DefaultDelta(v: Vocabulary): int {
    var prose := if v.defaultRange in v.presets then v.presets[v.defaultRange]
                 else if v.defaultWindow in v.presets then v.presets[v.defaultWindow] else "";
    if Truthy(LookbackDelta(v, prose)) then LookbackDelta(v, prose).value else DAY
  }

  function CalendarOf(v: Vocabulary, declared: string, a: Anchor): Option<int> {
    match KindOf(v.calendarKey(declared))
    case None => None
    case Some(kind) => CalendarStart(kind, a.at, if a.aware then a.offset else 0)
  }

  /** The start before the guard. */
  function RawStart(v: Vocabulary, declared: Option<string>, a: Anchor): int {
    var delta := DeclaredDelta(v, declared);
    if delta.None? then a.at - DefaultDelta(v)
    else if CalendarOf(v, declared.value, a).Some? then CalendarOf(v, declared.value, a).value
    else a.at - delta.value
  }

  function Backfilled(v: Vocabulary, w: Window, f: Fetch, slots: seq<string>, a: Anchor): Window {
    if Bounded(w.start, w.end) then
      var (s, e) := EnsureNonzeroSpan(w.start, w.end, v.minSpanDays);
      if (s, e) == (w.start, w.end) then w else w.(start := s, end := e, origin := Some(NonzeroSpanGuard))
    else if Bounded(f.start, f.end) then
      var (s, e) := EnsureNonzeroSpan(f.start, f.end, v.minSpanDays);
      w.(start := s, end := e, origin := Some(if (s, e) == (f.start, f.end) then FetchSpec else FetchSpecNonzeroSpan))
    else
      var declared := Declared(v, w, f, slots);
      var (s, e) := EnsureNonzeroSpan(Instant(RawStart(v, declared, a), a.aware), Instant(a.at, a.aware), v.minSpanDays);
      w.(start := s, end := e, origin := Some(if DeclaredDelta(v, declared).Some? then DeclaredRange else DefaultRange))
  }

  /** What was declared, first come first: the window's lookback, its range, the fetch spec's range, else the one token all
      declaring slots agree on, if it resolves. */
  lemma DeclaredExactly(v: Vocabulary, w: Window, f: Fetch, slots: seq<string>)
    ensures var r := Declared(v, w, f, slots);
      && (w.lookback != "" ==> r == Some(w.lookback))
      && (w.lookback == "" && w.range != "" ==> r == Some(w.range))
      && (w.lookback == "" && w.range == "" && f.range != "" ==> r == Some(f.range))
      && (w.lookback == "" && w.range == "" && f.range == "" ==>
            forall tok :: r == Some(tok) <==> tok in slots && (forall s | s in slots :: s == tok) && RangeDelta(v, tok).Some?)
  {
    if slots != [] { assert slots[0] in slots; }
    assert forall i | 0 <= i < |slots| :: slots[i] in slots;
  }

  /** The default span: the lookback the default range's preset names, else the default window's, else 24 hours. */
  lemma DefaultDeltaExactly(v: Vocabulary)
    ensures var preset := if v.defaultRange in v.presets then v.defaultRange else v.defaultWindow;
      DefaultDelta(v) ==
        if preset in v.presets && Names(v, v.presets[preset]) then LookbackDelta(v, v.presets[preset]).value
        else if preset !in v.presets && Names(v, "") then LookbackDelta(v, "").value
        else 86_400_000_000
  {}

  /** Where a declared or default window starts: at the calendar period's start for a calendar token, in the site's own
      time when the anchor has a zone, else the resolved span before the anchor. */
  lemma RawStartExactly(v: Vocabulary, declared: Option<string>, a: Anchor)
    ensures var start := RawStart(v, declared, a);
      if declared.None? || RangeDelta(v, declared.value).None? then start == a.at - DefaultDelta(v)
      else
        var kind, offset := KindOf(v.calendarKey(declared.value)), if a.aware then a.offset else 0;
        if kind.Some? && a.at + offset >= 0 then CalendarStart(kind.value, a.at, offset) == Some(start)
        else start == a.at - RangeDelta(v, declared.value).value
  {}

  /** Which bounds the backfill writes, and that it touches nothing else of the window: authored bounds, present in any
      part, win over the fetch spec's, and those over what is declared; each goes through the span guard once. */
  lemma BackfillExactly(v: Vocabulary, w: Window, f: Fetch, slots: seq<string>, a: Anchor)
    ensures var r := Backfilled(v, w, f, slots, a); var written := (r.start, r.end);
      && r.lookback == w.lookback && r.range == w.range
      && (w.start != Absent || w.end != Absent ==>
            && written == EnsureNonzeroSpan(w.start, w.end, v.minSpanDays)
            && r.origin == if written == (w.start, w.end) then w.origin else Some(NonzeroSpanGuard))
      && (w.start == Absent && w.end == Absent && (f.start != Absent || f.end != Absent) ==>
            && written == EnsureNonzeroSpan(f.start, f.end, v.minSpanDays)
            && r.origin == Some(if written == (f.start, f.end) then FetchSpec else FetchSpecNonzeroSpan))
      && (w.start == Absent && w.end == Absent && f.start == Absent && f.end == Absent ==>
            var declared := Declared(v, w, f, slots);
            && written == EnsureNonzeroSpan(Instant(RawStart(v, declared, a), a.aware), Instant(a.at, a.aware), v.minSpanDays)
            && r.origin == Some(if declared.Some? && RangeDelta(v, declared.value).Some? then DeclaredRange else DefaultRange))
  {}

  /** A raw start is before the anchor, or at it only as the anchor's own calendar midnight. */
  lemma RawStartBefore(v: Vocabulary, declared: Option<string>, a: Anchor)
    requires Digits(v)
    ensures RawStart(v, declared, a) <= a.at
    ensures RawStart(v, declared, a) == a.at ==>
              DeclaredDelta(v, declared).Some? && CalendarOf(v, declared.value, a) == Some(a.at)
  {}

  /** Every window filled from a declared or default range starts strictly before it ends; it ends at the
      anchor, except that a calendar period which begins exactly there gets the minimum span instead. */
  lemma DefaultWindowForward(v: Vocabulary, w: Window, f: Fetch, slots: seq<string>, a: Anchor)
    requires Digits(v) && !Bounded(w.start, w.end) && !Bounded(f.start, f.end)
    ensures var r, start := Backfilled(v, w, f, slots, a), RawStart(v, Declared(v, w, f, slots), a);
      && Forward(r.start, r.end) && r.start == Instant(start, a.aware)
      && r.end == Instant(if start < a.at then a.at else a.at + (if v.minSpanDays >= 1 then v.minSpanDays else 1) * DAY, a.aware)
  {}

  /** Without a calendar token the span is exactly the resolved delta. */
  lemma RollingSpanExact(v: Vocabulary, w: Window, f: Fetch, slots: seq<string>, a: Anchor)
    requires Digits(v) && !Bounded(w.start, w.end) && !Bounded(f.start, f.end)
    requires var d := Declared(v, w, f, slots); DeclaredDelta(v, d).Some? ==> CalendarOf(v, d.value, a).None?
    ensures var r, d := Backfilled(v, w, f, slots, a), DeclaredDelta(v, Declared(v, w, f, slots));
      Moment(r.end) - Moment(r.start) == if d.Some? then d.value else DefaultDelta(v)
  {}

  /** The AI's own bounds win: a forward window stays as it is, forward fetch bounds are promoted as they are,
      and only a start with no later end gets the minimum span. */
  lemma AuthoredBoundsHonoured(v: Vocabulary, w: Window, f: Fetch, slots: seq<string>, a: Anchor)
    ensures var r := Backfilled(v, w, f, slots, a);
      && (Bounded(w.start, w.end) && Forward(w.start, w.end) ==> r == w)
      && (Bounded(w.start, w.end) ==> r.start == w.start)
      && (!Bounded(w.start, w.end) && Bounded(f.start, f.end) ==> r.start == f.start && (Forward(f.start, f.end) ==> r.end == f.end))
      && (Bounded(w.start, w.end) && Parses(w.start) && (Parses(w.end) ==> Comparable(w.start, w.end)) ==> Forward(r.start, r.end))
  {}

  /** A backfilled window is left alone by every later backfill, whatever its anchor. */
  lemma BackfillStable(v: Vocabulary, w: Window, f: Fetch, slots: seq<string>, a: Anchor, later: Anchor)
    requires Digits(v)
    ensures var r := Backfilled(v, w, f, slots, a); Backfilled(v, r, f, slots, later) == r
  {}

  /** The data instructions, whose window the backfill rewrites in place. */
  class Instructions {
    var window: Window
    const fetch: Fetch

    constructor (window: Window, fetch: Fetch)
      ensures this.window == window && this.fetch == fetch
    {
      this.window, this.fetch := window, fetch;
    }

    method Backfill(v: Vocabulary, slots: seq<string>, a: Anchor) returns (note: bool)
      modifies this
      ensures window == Backfilled(v, old(window), fetch, slots, a)
      ensures note <==> window != old(window) || (!Bounded(old(window).start, old(window).end))
    {
      var w := window;
      if Bounded(w.start, w.end) {
        var (s, e) := EnsureNonzeroSpan(w.start, w.end, v.minSpanDays);
        if (s, e) != (w.start, w.end) {
          window := w.(start := s, end := e, origin := Some(NonzeroSpanGuard));
          return true;
        }
        return false;
      }
      if Bounded(fetch.start, fetch.end) {
        var (s, e) := EnsureNonzeroSpan(fetch.start, fetch.end, v.minSpanDays);
        var origin := if (s, e) == (fetch.start, fetch.end) then FetchSpec else FetchSpecNonzeroSpan;
        window := w.(start := s, end := e, origin := Some(origin));
        return true;
      }
      var declared := Declared(v, w, fetch, slots);
      var delta := DeclaredDelta(v, declared);
      var origin := DeclaredRange;
      var start := 0;
      if delta.None? {
        origin := DefaultRange;
        start := a.at - DefaultDelta(v);
      } else {
        var cal := CalendarOf(v, declared.value, a);
        start := if cal.Some? then cal.value else a.at - delta.value;
      }
      var (s, e) := EnsureNonzeroSpan(Instant(start, a.aware), Instant(a.at, a.aware), v.minSpanDays);
      window := w.(start := s, end := e, origin := Some(origin));
      note := true;
    }
  }
}
