/** llm/response_cache.py: the in-process tier over the database tier.  Every envelope handed out is a deep
    copy, and every envelope kept is one. */
module ResponseCache {
  import opened Json
  import opened TtlCache

  type Body = map<string, Json<string>>

  /** A parsed reply on the heap; callers mutate theirs in place. */
  class Envelope {
    var body: Body

    constructor (body: Body)
      ensures this.body == body
    {
      this.body := body;
    }
  }

  /** Neither empty nor an error marker. */
  predicate Clean(body: Body) {
    body != map[] && "_llm_error" !in body
  }

  const MEM_TTL := 3600.0

  datatype Row = Row(body: Body, createdAt: real)

  /** One accepted `store`: what was stored, for which key, when. */
  datatype Stored = Stored(key: string, body: Body, at: real)

  /** The shared table, written by every process; `stored` is the ghost record of all accepted stores. */
  class Table {
    var rows: map<string, Row>
    ghost var stored: seq<Stored>

    constructor ()
      ensures rows == map[] && stored == []
    {
      rows, stored := map[], [];
    }
  }

  /** Some accepted store put exactly this body under exactly this key, less than `age` seconds ago. */
  predicate StoredWithin(stored: seq<Stored>, key: string, body: Body, now: real, age: real) {
    exists i | 0 <= i < |stored| :: stored[i].key == key && stored[i].body == body && now - stored[i].at < age
  }

  predicate RowsBacked(rows: map<string, Row>, stored: seq<Stored>) {
    forall k | k in rows ::
      Clean(rows[k].body) &&
      exists i | 0 <= i < |stored| :: stored[i].key == k && stored[i].body == rows[k].body && stored[i].at == rows[k].createdAt
  }

  lemma StoredGrows(stored: seq<Stored>, s: Stored, key: string, body: Body, now: real, age: real)
    requires StoredWithin(stored, key, body, now, age)
    ensures StoredWithin(stored + [s], key, body, now, age)
  {
    var i :| 0 <= i < |stored| && stored[i].key == key && stored[i].body == body && now - stored[i].at < age;
    assert (stored + [s])[i] == stored[i];
  }

  lemma RowsStayBacked(rows: map<string, Row>, stored: seq<Stored>, s: Stored)
    requires RowsBacked(rows, stored) && Clean(s.body)
    ensures RowsBacked(rows, stored + [s]) && RowsBacked(rows[s.key := Row(s.body, s.at)], stored + [s])
  {
    var grown := stored + [s];
    assert grown[|stored|] == s;
    forall k | k in rows
      ensures exists i | 0 <= i < |grown| :: grown[i].key == k && grown[i].body == rows[k].body && grown[i].at == rows[k].createdAt
    {
      var i :| 0 <= i < |stored| && stored[i].key == k && stored[i].body == rows[k].body && stored[i].at == rows[k].createdAt;
      assert grown[i] == stored[i];
    }
  }

  /** Ages add up: what was young when it entered memory is bounded while memory serves it. */
  lemma AgesAdd(stored: seq<Stored>, key: string, body: Body, entered: real, now: real, age: real, stay: real)
    requires StoredWithin(stored, key, body, entered, age) && now - entered < stay
    ensures StoredWithin(stored, key, body, now, age + stay)
  {}

  lemma RowStoredWithin(rows: map<string, Row>, stored: seq<Stored>, key: string, now: real, age: real)
    requires RowsBacked(rows, stored) && key in rows && now - rows[key].createdAt < age
    ensures StoredWithin(stored, key, rows[key].body, now, age)
    ensures StoredWithin(stored, key, rows[key].body, now, age + MEM_TTL)
  {}

  /** Each envelope in memory is clean and was stored for its key less than `age` before it entered memory. */
  predicate MemBacked(bodies: map<string, Body>, ts: map<string, real>, stored: seq<Stored>, age: real) {
    ts.Keys == bodies.Keys &&
    forall k | k in bodies :: Clean(bodies[k]) && StoredWithin(stored, k, bodies[k], ts[k], age)
  }

  lemma PrimedBacked(bodies: map<string, Body>, ts: map<string, real>, stored: seq<Stored>, age: real,
                     key: string, body: Body, now: real)
    requires MemBacked(bodies, ts, stored, age) && Clean(body) && StoredWithin(stored, key, body, now, age)
    ensures MemBacked(Live(bodies[key := body], ts[key := now], now, MEM_TTL),
                      Live(ts[key := now], ts[key := now], now, MEM_TTL), stored, age)
  {}

  lemma GrownBacked(bodies: map<string, Body>, ts: map<string, real>, stored: seq<Stored>, age: real, s: Stored)
    requires MemBacked(bodies, ts, stored, age) && Clean(s.body) && 0.0 < age
    ensures MemBacked(bodies, ts, stored + [s], age) && StoredWithin(stored + [s], s.key, s.body, s.at, age)
  {
    assert (stored + [s])[|stored|] == s;
    forall k | k in bodies ensures StoredWithin(stored + [s], k, bodies[k], ts[k], age) {
      StoredGrows(stored, s, k, bodies[k], ts[k], age);
    }
  }

  class TwoTier {
    const mem: Cache<string, Envelope>
    const db: Table
    const dbTtl: real
    var hitMem: nat
    var hitDb: nat
    var misses: nat
    var stores: nat

    /** What memory holds, by value. */
    ghost function Bodies(): map<string, Body>
      reads mem, mem.vals.Values
    {
      map k | k in mem.vals :: mem.vals[k].body
    }

    ghost predicate Valid()
      reads mem, mem.vals.Values, db
    {
      && mem.Valid() && mem.ttl == MEM_TTL && 60.0 <= dbTtl
      && RowsBacked(db.rows, db.stored)
      && MemBacked(Bodies(), mem.ts, db.stored, dbTtl)
    }

    /** The knob's floor is a minute. */
    constructor (db: Table, dbTtl: real)
      requires RowsBacked(db.rows, db.stored) && 60.0 <= dbTtl
      ensures Valid() && this.db == db && this.dbTtl == dbTtl && fresh(mem) && mem.vals == map[] && mem.clock == 0.0
    {
      this.db := db;
      this.dbTtl := dbTtl;
      mem := new Cache(MEM_TTL);
      hitMem, hitDb, misses, stores := 0, 0, 0, 0;
    }

    predicate MemLive(key: string, now: real)
      reads mem
    {
      key in mem.vals && key in mem.ts && now - mem.ts[key] < MEM_TTL
    }

    predicate RowLive(key: string, now: real)
      reads db
    {
      key in db.rows && now - db.rows[key].createdAt < dbTtl
    }

    /** A deep copy of the body enters memory. */
    method Keep(key: string, body: Body, now: real)
      requires mem.Valid() && mem.ttl == MEM_TTL && mem.clock <= now
      modifies mem
      ensures mem.Valid() && mem.clock == now && key in mem.vals && fresh(mem.vals[key]) && mem.vals[key].body == body
      ensures forall e | e in mem.vals.Values :: fresh(e) || e in old(mem.vals.Values)
      ensures Bodies() == Live(old(Bodies())[key := body], old(mem.ts)[key := now], now, MEM_TTL)
      ensures mem.ts == Live(old(mem.ts)[key := now], old(mem.ts)[key := now], now, MEM_TTL)
    {
      var copy := new Envelope(body);
      mem.Set(key, copy, now, now);
    }

    /** Keeping a clean body that was stored for its key keeps the cache valid. */
    method Prime(key: string, body: Body, now: real)
      requires Valid() && mem.clock <= now && Clean(body) && StoredWithin(db.stored, key, body, now, dbTtl)
      modifies mem
      ensures Valid() && mem.clock == now && MemLive(key, now) && fresh(mem.vals[key]) && mem.vals[key].body == body
      ensures forall e | e in mem.vals.Values :: fresh(e) || e in old(mem.vals.Values)
    {
      PrimedBacked(Bodies(), mem.ts, db.stored, dbTtl, key, body, now);
      Keep(key, body, now);
    }

    /** A hit is clean, was stored for that very key less than `dbTtl` + 3600 s ago, and is not the kept object. */
    ghost predicate GoodHit(key: string, hit: Envelope, now: real)
      reads mem, db, hit
    {
      hit !in mem.vals.Values && Clean(hit.body) && StoredWithin(db.stored, key, hit.body, now, dbTtl + MEM_TTL)
    }

    method FromMemory(key: string, now: real) returns (hit: Envelope)
      requires Valid() && MemLive(key, now)
      modifies this`hitMem
      ensures fresh(hit) && GoodHit(key, hit, now) && hit.body == mem.vals[key].body && hitMem == old(hitMem) + 1
    {
      hitMem := hitMem + 1;
      assert Bodies()[key] == mem.vals[key].body;
      AgesAdd(db.stored, key, Bodies()[key], mem.ts[key], now, dbTtl, MEM_TTL);
      hit := new Envelope(mem.vals[key].body);
    }

    method FromTable(key: string, now: real) returns (hit: Envelope)
      requires Valid() && mem.clock <= now && key in db.rows && now - db.rows[key].createdAt < dbTtl
      modifies mem, this`hitDb
      ensures Valid() && mem.clock <= now
      ensures fresh(hit) && GoodHit(key, hit, now) && hit.body == db.rows[key].body && hitDb == old(hitDb) + 1
    {
      var body := db.rows[key].body;
      RowStoredWithin(db.rows, db.stored, key, now, dbTtl);
      hit := new Envelope(body);
      hitDb := hitDb + 1;
      Prime(key, body, now);
    }

    /** Memory first, then the table (`reachable` or not); a table hit re-primes memory at the same instant. */
    method Lookup(key: string, now: real, reachable: bool) returns (hit: Envelope?)
      requires Valid() && mem.clock <= now
      modifies mem, this`hitMem, this`hitDb, this`misses
      ensures Valid() && mem.clock <= now
      ensures hit != null ==> fresh(hit) && GoodHit(key, hit, now)
      ensures if old(key in mem.vals && now - mem.ts[key] < 3600.0) then hit != null && hit.body == old(mem.vals[key].body) && unchanged(mem)
              else if reachable && key in db.rows && now - db.rows[key].createdAt < dbTtl then
                hit != null && hit.body == db.rows[key].body
              else hit == null
      ensures hitMem + hitDb + misses == old(hitMem + hitDb + misses) + 1
    {
      var live := mem.Contains(key, now);
      if live {
        hit := FromMemory(key, now);
      } else if reachable && RowLive(key, now) {
        hit := FromTable(key, now);
      } else {
        misses := misses + 1;
        hit := null;
      }
    }

    /** The accepted store joins the record. */
    ghost method Record(s: Stored)
      requires Valid() && Clean(s.body)
      modifies db`stored
      ensures Valid() && db.stored == old(db.stored) + [s]
      ensures StoredWithin(db.stored, s.key, s.body, s.at, dbTtl) && RowsBacked(db.rows[s.key := Row(s.body, s.at)], db.stored)
    {
      RowsStayBacked(db.rows, db.stored, s);
      GrownBacked(Bodies(), mem.ts, db.stored, dbTtl, s);
      db.stored := db.stored + [s];
    }

    /** The row is written when the table is reachable. */
    method Upsert(key: string, row: Row, reachable: bool)
      requires Valid() && RowsBacked(db.rows[key := row], db.stored)
      modifies db`rows
      ensures Valid() && db.rows == if reachable then old(db.rows)[key := row] else old(db.rows)
    {
      if reachable { db.rows := db.rows[key := row]; }
      assert Bodies() == old(Bodies());
    }

    /** A clean reply is recorded, kept in memory as a copy, and written to the table when that is reachable. */
    method Accept(key: string, body: Body, now: real, reachable: bool)
      requires Valid() && mem.clock <= now && Clean(body)
      modifies mem, db
      ensures Valid() && mem.clock <= now && MemLive(key, now) && mem.vals[key].body == body && fresh(mem.vals[key])
      ensures forall e | e in mem.vals.Values :: fresh(e) || e in old(mem.vals.Values)
      ensures db.stored == old(db.stored) + [Stored(key, body, now)]
      ensures db.rows == if reachable then old(db.rows)[key := Row(body, now)] else old(db.rows)
    {
      Record(Stored(key, body, now));
      Prime(key, body, now);
      Upsert(key, Row(body, now), reachable);
    }

    /** Refuses an empty or marked object; otherwise keeps a deep copy in memory and, when the table is
        reachable, upserts the row. */
    method Store(key: string, obj: Envelope, now: real, reachable: bool)
      requires Valid() && mem.clock <= now && obj !in mem.vals.Values
      modifies mem, db, this`stores
      ensures Valid() && mem.clock <= now && obj !in mem.vals.Values
      ensures !Clean(obj.body) ==> unchanged(this, mem, db)
      ensures Clean(obj.body) ==>
        && db.stored == old(db.stored) + [Stored(key, obj.body, now)]
        && db.rows == (if reachable then old(db.rows)[key := Row(obj.body, now)] else old(db.rows))
        && MemLive(key, now) && mem.vals[key].body == obj.body && fresh(mem.vals[key])
    {
      if obj.body == map[] || "_llm_error" in obj.body { return; }
      Accept(key, obj.body, now, reachable);
      stores := stores + 1;
    }
  }
}
