/** data/neuract_pool.py and data/db_client.py: one thread's calls on each pool.  The driver answers as it
    likes: a connect may fail, a statement may raise, the `closed` attribute may turn up set. */
module ConnectionPool {
  import opened PoolProtocol

  datatype Option<T> = None | Some(value: T)

  /** What a statement does on a connection: rows, or an exception, which is of a dead connection or not. */
  datatype Outcome<R> = Rows(rows: R) | Raises(dead: bool)

  /** What an attempt to connect comes to; `Unprepared` is a connection that opened, but whose session could not be
      prepared, so that nobody gets it. */
  datatype Opening = Opened | Refused | Unprepared

  /** Every exception class the pools let out; `Driver` is one raised below them. */
  datatype Error = NeuractReadError | RuntimeError | Driver

  datatype Result<R> = Ok(rows: R) | Err(error: Error)

  /** Some idle list offers the connection. */
  predicate Offered(idle: map<Key, seq<Conn>>, c: Conn) {
    exists key | key in idle :: c in idle[key]
  }

  /** Distinct connections in distinct slots, all made by this pool. */
  predicate Slots(idle: map<Key, seq<Conn>>, made: nat) {
    && (forall key, i | key in idle && 0 <= i < |idle[key]| :: idle[key][i] < made)
    && (forall k1, i, k2, j | k1 in idle && k2 in idle && 0 <= i < |idle[k1]| && 0 <= j < |idle[k2]|
          && idle[k1][i] == idle[k2][j] :: k1 == k2 && i == j)
  }

  function Idle(idle: map<Key, seq<Conn>>, key: Key): seq<Conn> {
    if key in idle then idle[key] else []
  }

  /** The pool state both doors share: the idle lists, the connections with the `closed` attribute set, and
      how many were ever opened. */
  class Pool {
    const cap: int
    var idle: map<Key, seq<Conn>>
    var shut: set<Conn>
    var made: nat

    ghost predicate Valid()
      reads this
    {
      Slots(idle, made) && forall c | c in shut :: c < made
    }

    constructor (cap: int)
      ensures Valid() && this.cap == cap && idle == map[] && made == 0 && shut == {}
    {
      this.cap, idle, shut, made := cap, map[], {}, 0;
    }

    /** `_new` and `pg_connect`: a connection never seen before, or a failure, which may leave one open. */
    method Connect(opening: Opening) returns (c: Option<Conn>)
      modifies this`made
      ensures c == if opening.Opened? then Some(old(made)) else None
      ensures made == if opening.Refused? then old(made) else old(made) + 1
    {
      c := if opening.Opened? then Some(made) else None;
      if !opening.Refused? { made := made + 1; }
    }

    method Close(c: Conn)
      modifies this`shut
      ensures shut == old(shut) + {c}
    {
      shut := shut + {c};
    }

    /** The neuract checkout: pops from the end, closing what died while idle, until one is alive. */
    method CheckoutLive(key: Key, opening: Opening) returns (c: Option<Conn>)
      requires Valid()
      modifies this
      ensures Valid() && shut == old(shut)
      ensures var list := Idle(old(idle), key); var n := Kept(list, old(shut));
        if n < |list| then c == Some(list[n]) && idle == old(idle)[key := list[..n]] && made == old(made)
        else Idle(idle, key) == [] && (forall k | k != key :: Idle(idle, k) == Idle(old(idle), k))
             && c == (if opening.Opened? then Some(old(made)) else None)
             && made == (if opening.Refused? then old(made) else old(made) + 1)
      ensures c.Some? ==> !Offered(idle, c.value)
      ensures forall d: Conn | Offered(idle, d) :: Offered(old(idle), d)
    {
      ghost var o, list := idle, Idle(idle, key);
      ghost var m: nat := |list|;
      c := None;
      assert list[..m] == list && (key in o ==> o[key := list] == o);
      while key in idle && idle[key] != [] && c.None?
        invariant m <= |list| && idle == if key in o then o[key := list[..m]] else o
        invariant forall i | m < i < |list| :: list[i] in shut
        invariant if c.Some? then m < |list| && c.value == list[m] && list[m] !in shut else m < |list| ==> list[m] in shut
        invariant shut == old(shut) && made == old(made)
        decreases c.None?, m
      {
        var last := idle[key][|idle[key]| - 1];
        idle := idle[key := idle[key][..|idle[key]| - 1]];
        m := m - 1;
        assert list[..m + 1][..m] == list[..m];
        if last !in shut { c := Some(last); } else { Close(last); }
      }
      ShorterList(o, made, key, m);
      if c.None? { c := Connect(opening); }
    }

    /** Files a healthy connection under the cap; closes the excess; a dead one is simply let go. */
    method Checkin(key: Key, c: Conn)
      requires Valid() && c < made && !Offered(idle, c)
      modifies this`idle, this`shut
      ensures Valid()
      ensures if c in old(shut) then unchanged(this)
              else if |Idle(old(idle), key)| < cap then idle == old(idle)[key := Idle(old(idle), key) + [c]] && shut == old(shut)
              else !Offered(idle, c) && shut == old(shut) + {c} && forall k :: Idle(idle, k) == Idle(old(idle), k)
      ensures c in shut || Offered(idle, c)
      ensures forall d: Conn | d != c && !Offered(old(idle), d) :: !Offered(idle, d)
    {
      if c in shut { return; }
      LongerList(idle, made, key, c);
      if key !in idle { idle := idle[key := []]; }
      if |idle[key]| < cap {
        idle := idle[key := idle[key] + [c]];
        assert idle == old(idle)[key := Idle(old(idle), key) + [c]];
        return;
      }
      Close(c);
    }

    /** Empties the key's idle list and closes what was in it. */
    method Drop(key: Key)
      requires Valid()
      modifies this`idle, this`shut
      ensures Valid() && idle == old(idle) - {key}
      ensures shut == old(shut) + set i | 0 <= i < |Idle(old(idle), key)| :: Idle(old(idle), key)[i]
    {
      var dropped := Idle(idle, key);
      idle := idle - {key};
      for i := 0 to |dropped|
        invariant idle == old(idle) - {key} && shut == old(shut) + set j | 0 <= j < i :: dropped[j]
      {
        Close(dropped[i]);
      }
    }

    /** A read on a pooled connection: rows, or NeuractReadError; the connection of a failed read is closed
        and offered nowhere, the one of a good read is back in the pool or closed.  A connection this call opened
        ends up pooled or closed exactly unless preparing its session raised. */
    method RunRead<R>(key: Key, opening: Opening, read: Outcome<R>, diesAfter: bool)
        returns (result: Result<R>, used: Option<Conn>)
      requires Valid()
      modifies this
      ensures Valid()
      ensures used.Some? <==> Kept(Idle(old(idle), key), old(shut)) < |Idle(old(idle), key)| || opening.Opened?
      ensures result == if used.Some? && read.Rows? then Ok(read.rows) else Err(NeuractReadError)
      ensures used.Some? && read.Raises? ==> used.value in shut && !Offered(idle, used.value)
      ensures used.Some? && read.Rows? ==> used.value in shut || Offered(idle, used.value)
      ensures used.Some? ==> used.value !in old(shut)
      ensures forall c: Conn | old(made) <= c < made :: c in shut || Offered(idle, c) <==> opening.Opened?
    {
      used := CheckoutLive(key, opening);
      if used.None? { return Err(NeuractReadError), used; }
      if read.Raises? {
        Close(used.value);
        return Err(NeuractReadError), used;
      }
      if diesAfter { shut := shut + {used.value}; }
      Checkin(key, used.value);
      result := Ok(read.rows);
    }

    /** The catalog checkout does not look at the connection it pops. */
    method CheckoutAny(key: Key, connects: bool) returns (c: Option<Conn>, wasFresh: bool)
      requires Valid()
      modifies this`idle, this`made
      ensures Valid()
      ensures var list := Idle(old(idle), key);
        if list != [] then c == Some(list[|list| - 1]) && !wasFresh && idle == old(idle)[key := list[..|list| - 1]] && made == old(made)
        else wasFresh && idle == old(idle) && c == (if connects then Some(old(made)) else None)
             && made == (if connects then old(made) + 1 else old(made))
      ensures c.Some? ==> c.value < made && !Offered(idle, c.value)
    {
      if Idle(idle, key) != [] {
        var list := idle[key];
        ShorterList(idle, made, key, |list| - 1);
        c, wasFresh := Some(list[|list| - 1]), false;
        idle := idle[key := list[..|list| - 1]];
      } else {
        wasFresh := true;
        c := Connect(if connects then Opened else Refused);
      }
    }

    /** The catalog door's one retry, on a genuinely fresh connection. */
    method Rerun<R>(key: Key, reconnects: bool, rerun: Outcome<R>) returns (result: Result<R>, second: Option<Conn>)
      requires Valid()
      modifies this
      ensures Valid() && old(shut) <= shut && second == if reconnects then Some(old(made)) else None
      ensures result == if reconnects && rerun.Rows? then Ok(rerun.rows) else Err(RuntimeError)
      ensures second.Some? ==> second.value in shut || Offered(idle, second.value)
      ensures second.Some? && rerun.Raises? ==> second.value in shut && !Offered(idle, second.value)
      ensures forall d: Conn | d < old(made) && !Offered(old(idle), d) :: !Offered(idle, d)
    {
      second := Connect(if reconnects then Opened else Refused);
      if second.None? { return Err(RuntimeError), second; }
      assert !Offered(idle, second.value);
      if rerun.Raises? {
        Close(second.value);
        return Err(RuntimeError), second;
      }
      Checkin(key, second.value);
      result := Ok(rerun.rows);
    }

    /** The catalog read: at most two connections ever run the statement, the second exactly after a pooled one
        raised; each acquired connection is checked in or discarded once, in order; every failure leaves as
        RuntimeError.  The failed connection is closed before its `closed` attribute is read, so what it raised
        does not matter. */
    method Query<R>(key: Key, connects: bool, run: Outcome<R>, reconnects: bool, rerun: Outcome<R>)
        returns (result: Result<R>, acquired: seq<Conn>, released: seq<Conn>)
      requires Valid()
      modifies this
      ensures Valid()
      ensures |acquired| <= 2 && released == acquired && (|acquired| == 2 ==> acquired[0] != acquired[1])
      ensures |acquired| == 2 <==> Idle(old(idle), key) != [] && run.Raises? && reconnects
      ensures |acquired| >= 1 <==> Idle(old(idle), key) != [] || connects
      ensures result == if |acquired| == 1 && run.Rows? then Ok(run.rows)
                        else if |acquired| == 2 && rerun.Rows? then Ok(rerun.rows)
                        else Err(RuntimeError)
      ensures forall i | 0 <= i < |acquired| :: acquired[i] in shut || Offered(idle, acquired[i])
      ensures |acquired| >= 1 && run.Raises? ==> acquired[0] in shut && !Offered(idle, acquired[0])
      ensures |acquired| == 2 && rerun.Raises? ==> acquired[1] in shut && !Offered(idle, acquired[1])
    {
      acquired, released := [], [];
      var c, wasFresh := CheckoutAny(key, connects);
      if c.None? { return Err(RuntimeError), acquired, released; }
      acquired := [c.value];
      if run.Rows? {
        Checkin(key, c.value);
        return Ok(run.rows), acquired, [c.value];
      }
      Close(c.value);
      released := [c.value];
      var dead := run.dead || c.value in shut;
      if wasFresh || !dead { return Err(RuntimeError), acquired, released; }
      var second;
      result, second := Rerun(key, reconnects, rerun);
      if second.Some? { acquired, released := acquired + [second.value], released + [second.value]; }
    }
  }

  /** Popping the end of one list keeps the slots distinct and takes what was popped out of all of them. */
  lemma ShorterList(idle: map<Key, seq<Conn>>, made: nat, key: Key, m: nat)
    requires Slots(idle, made) && m <= |Idle(idle, key)|
    ensures Slots(if key in idle then idle[key := idle[key][..m]] else idle, made)
    ensures forall i | m <= i < |Idle(idle, key)| :: !Offered(idle[key := idle[key][..m]], idle[key][i])
    ensures forall d: Conn | Offered(if key in idle then idle[key := idle[key][..m]] else idle, d) :: Offered(idle, d)
  {}

  /** Appending a connection offered nowhere keeps the slots distinct; an empty list offers nothing. */
  lemma LongerList(idle: map<Key, seq<Conn>>, made: nat, key: Key, c: Conn)
    requires Slots(idle, made) && c < made && !Offered(idle, c)
    ensures var longer := idle[key := Idle(idle, key) + [c]];
      Slots(longer, made) && Offered(longer, c) && forall d: Conn | d != c && !Offered(idle, d) :: !Offered(longer, d)
    ensures key !in idle ==> Slots(idle[key := []], made) && forall d: Conn | !Offered(idle, d) :: !Offered(idle[key := []], d)
  {
    var longer := idle[key := Idle(idle, key) + [c]];
    assert longer[key][|Idle(idle, key)|] == c;
    forall k, i | k in longer && 0 <= i < |longer[k]| && !(k == key && i == |Idle(idle, key)|)
      ensures k in idle && i < |idle[k]| && longer[k][i] == idle[k][i] && longer[k][i] != c
    {
      assert longer[k][i] in idle[k];
    }
    forall d: Conn | d != c && !Offered(idle, d) ensures !Offered(longer, d) {
      forall k | k in longer ensures d !in longer[k] {}
    }
  }
}
