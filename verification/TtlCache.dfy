/** lib/ttl_cache.py: a dictionary whose entries read as absent once they are older than the TTL, and whose
    writes opportunistically drop the expired ones. */
module TtlCache {
  datatype Option<T> = None | Some(value: T)

  /** A write and the moment its timestamp was taken. */
  datatype Write<V> = Write(value: V, at: real)

  /** What a plain dictionary of last writes answers when entries of age `ttl` or more count as absent. */
  function Answer<K, V>(log: map<K, Write<V>>, k: K, now: real, ttl: real): Option<V> {
    if k in log && now - log[k].at < ttl then Some(log[k].value) else None
  }

  /** The entries whose timestamp is younger than the TTL. */
  function Live<K, T>(m: map<K, T>, ts: map<K, real>, now: real, ttl: real): map<K, T>
    requires ts.Keys == m.Keys
  {
    map k | k in m && now - ts[k] < ttl :: m[k]
  }

  class Cache<K(==), V> {
    const ttl: real
    var vals: map<K, V>
    var ts: map<K, real>

    /** Every key's last write, purged or not. */
    ghost var log: map<K, Write<V>>
    /** The time of the last purge. */
    ghost var clock: real

    ghost predicate Valid()
      reads this
    {
      && ts.Keys == vals.Keys
      && (forall k | k in vals :: k in log && log[k] == Write(vals[k], ts[k]))
      && (forall k | k in log && k !in vals :: clock - log[k].at >= ttl)
    }

    constructor (ttl: real)
      ensures Valid() && log == map[] && this.ttl == ttl && clock == 0.0
    {
      this.ttl := ttl;
      vals, ts := map[], map[];
      log, clock := map[], 0.0;
    }

    predicate Contains(k: K, now: real)
      requires Valid() && clock <= now
      reads this
      ensures Contains(k, now) <==> Answer(log, k, now, ttl).Some?
    {
      k in vals && now - (if k in ts then ts[k] else 0.0) < ttl
    }

    /** The TTL-aware get answers like the dictionary of last writes. */
    method Get(k: K, default: V, now: real) returns (v: V)
      requires Valid() && clock <= now
      ensures v == match Answer(log, k, now, ttl) case Some(w) => w case None => default
    {
      if Contains(k, now) { v := vals[k]; } else { v := default; }
    }

    /** The value, then its timestamp, then the purge; the two clock readings are `t1` and `t2`. */
    method Set(k: K, v: V, t1: real, t2: real)
      requires Valid() && clock <= t1 <= t2
      modifies this
      ensures Valid() && clock == t2
      ensures log == old(log)[k := Write(v, t1)]
      ensures vals == Live(old(vals)[k := v], old(ts)[k := t1], t2, ttl)
      ensures ts == Live(old(ts)[k := t1], old(ts)[k := t1], t2, ttl)
    {
      vals := vals[k := v];
      ts := ts[k := t1];
      log := log[k := Write(v, t1)];
      Purge(t2);
    }

    method Purge(now: real)
      requires clock <= now && ts.Keys == vals.Keys
      requires forall k | k in vals :: k in log && log[k] == Write(vals[k], ts[k])
      requires forall k | k in log && k !in vals :: clock - log[k].at >= ttl
      modifies this
      ensures Valid() && clock == now && log == old(log)
      ensures vals == Live(old(vals), old(ts), now, ttl) && ts == Live(old(ts), old(ts), now, ttl)
    {
      var dead := set k | k in ts && now - ts[k] >= ttl;
      var todo := dead;
      while todo != {}
        invariant todo <= dead && log == old(log)
        invariant vals == old(vals) - (dead - todo) && ts == old(ts) - (dead - todo)
        decreases todo
      {
        var k :| k in todo;
        todo := todo - {k};
        vals, ts := vals - {k}, ts - {k};
      }
      clock := now;
    }
  }

  // ---------------------------------------------------------------- the purge is never observable

  /** A write takes two clock readings, one for the timestamp and one for the purge. */
  datatype Op<K, V> = Store(k: K, v: V, t1: real, t2: real) | Load(k: K, at: real)

  function Start<K, V>(op: Op<K, V>): real { if op.Store? then op.t1 else op.at }

  function End<K, V>(op: Op<K, V>): real { if op.Store? then op.t2 else op.at }

  /** The clock never runs backwards. */
  predicate Nondecreasing<K, V>(ops: seq<Op<K, V>>) {
    && (forall i | 0 <= i < |ops| :: Start(ops[i]) <= End(ops[i]))
    && (forall i, j | 0 <= i < j < |ops| :: End(ops[i]) <= Start(ops[j]))
  }

  function After<K, V>(s: map<K, Write<V>>, op: Op<K, V>, purge: bool, ttl: real): map<K, Write<V>> {
    match op
    case Load(_, _) => s
    case Store(k, v, t1, t2) =>
      var s' := s[k := Write(v, t1)];
      if purge then map j | j in s' && t2 - s'[j].at < ttl :: s'[j] else s'
  }

  function Run<K, V>(ops: seq<Op<K, V>>, purge: bool, ttl: real): map<K, Write<V>> {
    if ops == [] then map[] else After(Run(ops[..|ops| - 1], purge, ttl), ops[|ops| - 1], purge, ttl)
  }

  /** What the i-th operation, a load, answers. */
  function LoadAnswer<K(==), V>(ops: seq<Op<K, V>>, i: nat, purge: bool, ttl: real): Option<V>
    requires i < |ops| && ops[i].Load?
  {
    Answer(Run(ops[..i], purge, ttl), ops[i].k, ops[i].at, ttl)
  }

  /** The purged dictionary agrees with the full one except for entries already expired at `now`. */
  ghost predicate Shadow<K(!new), V(!new)>(kept: map<K, Write<V>>, all: map<K, Write<V>>, now: real, ttl: real) {
    && (forall k | k in kept :: k in all && all[k] == kept[k])
    && (forall k | k in all && k !in kept :: now - all[k].at >= ttl)
  }

  lemma {:induction false} PurgedAreExpired<K(!new), V(!new)>(ops: seq<Op<K, V>>, now: real, ttl: real)
    requires Nondecreasing(ops) && forall i | 0 <= i < |ops| :: End(ops[i]) <= now
    ensures Shadow(Run(ops, true, ttl), Run(ops, false, ttl), now, ttl)
    decreases |ops|
  {
    if ops != [] {
      var front, last := ops[..|ops| - 1], ops[|ops| - 1];
      assert End(ops[|ops| - 1]) <= now && Start(last) <= End(last);
      forall i | 0 <= i < |front| ensures End(front[i]) <= Start(last) { assert front[i] == ops[i]; }
      PurgedAreExpired(front, Start(last), ttl);
      var kept, all := Run(front, true, ttl), Run(front, false, ttl);
      assert Run(ops, true, ttl) == After(kept, last, true, ttl) && Run(ops, false, ttl) == After(all, last, false, ttl);
    }
  }

  /** Under a clock that never runs backwards every load answers as if nothing were ever purged, whatever
      the TTL. */
  lemma PurgeNeverObservable<K(!new), V(!new)>(ops: seq<Op<K, V>>, i: nat, ttl: real)
    requires Nondecreasing(ops) && i < |ops| && ops[i].Load?
    ensures LoadAnswer(ops, i, true, ttl) == LoadAnswer(ops, i, false, ttl)
  {
    forall j | 0 <= j < i ensures End(ops[..i][j]) <= ops[i].at { assert End(ops[j]) <= Start(ops[i]); }
    PurgedAreExpired(ops[..i], ops[i].at, ttl);
  }

  /** A clock that steps back makes the purge visible: an entry dropped at 20 is missing at 5. */
  lemma BackwardClockObservable()
    ensures var ops: seq<Op<int, int>> := [Store(1, 7, 0.0, 0.0), Store(2, 8, 20.0, 20.0), Load(1, 5.0)];
      LoadAnswer(ops, 2, false, 10.0) == Some(7) && LoadAnswer(ops, 2, true, 10.0) == None
  {}

  /** Purging bounds the memory: right after a write every entry left is younger than the TTL. */
  lemma OnlyLiveEntriesLeft<K(!new), V(!new)>(ops: seq<Op<K, V>>, ttl: real, k: K)
    requires ops != [] && ops[|ops| - 1].Store? && k in Run(ops, true, ttl)
    ensures ops[|ops| - 1].t2 - Run(ops, true, ttl)[k].at < ttl
  {}
}
