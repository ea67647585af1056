/** db/apply.py: pending .sql files are applied in order and recorded in a ledger one by one.  A run may die at
    any statement, or between a file's last statement and its ledger row. */
module Migrations {
  /** What the files do: each is a list of statements that commit one by one. */
  datatype Scripts<!D> = Scripts(sha: string -> string, size: string -> nat, statement: (string, nat, D) -> D)

  datatype State<D> = State(db: D, ledger: map<string, string>)

  predicate Distinct(files: seq<string>) {
    forall i, j | 0 <= i < j < |files| :: files[i] != files[j]
  }

  /** The first `k` statements of a file. */
  function Part<D>(s: Scripts<D>, f: string, k: nat, db: D): D {
    if k == 0 then db else s.statement(f, k - 1, Part(s, f, k - 1, db))
  }

  function Effect<D>(s: Scripts<D>, f: string, db: D): D { Part(s, f, s.size(f), db) }

  /** The databases seen while the first statements of a file commit, one after the other. */
  ghost predicate Commits<D>(s: Scripts<D>, f: string, dbs: seq<D>) {
    dbs != [] && forall k: nat | k < |dbs| - 1 :: dbs[k + 1] == s.statement(f, k, dbs[k])
  }

  /** Part of a file is what its first statements, in order, make of the database; the whole file all of them. */
  lemma {:induction false} PartCommits<D>(s: Scripts<D>, f: string, dbs: seq<D>)
    requires Commits(s, f, dbs)
    ensures Part(s, f, |dbs| - 1, dbs[0]) == dbs[|dbs| - 1]
    ensures |dbs| - 1 == s.size(f) ==> Effect(s, f, dbs[0]) == dbs[|dbs| - 1]
  {
    if |dbs| > 1 { PartCommits(s, f, dbs[..|dbs| - 1]); }
  }

  /** Applying the file over any of its own partial applications is applying it once; over a whole one, that it
      is idempotent. */
  ghost predicate Absorbs<D(!new)>(s: Scripts<D>, f: string) {
    forall db, k: nat | k <= s.size(f) :: AbsorbsAt(s, f, db, k)
  }

  ghost predicate AbsorbsAt<D>(s: Scripts<D>, f: string, db: D, k: nat) {
    Effect(s, f, Part(s, f, k, db)) == Effect(s, f, db)
  }

  predicate IsPending<D>(s: Scripts<D>, ledger: map<string, string>, f: string) {
    f !in ledger || ledger[f] != s.sha(f)
  }

  /** The files to apply, in order: never recorded, or recorded with another content. */
  function Pending<D>(s: Scripts<D>, files: seq<string>, ledger: map<string, string>): (p: seq<string>)
    ensures forall f | f in p :: f in files && IsPending(s, ledger, f)
    ensures |p| <= |files|
  {
    if files == [] then []
    else (if IsPending(s, ledger, files[0]) then [files[0]] else []) + Pending(s, files[1..], ledger)
  }

  /** Each file's effect, then its ledger row. */
  function ApplyAll<D>(s: Scripts<D>, pending: seq<string>, at: State<D>): State<D> {
    if pending == [] then at
    else ApplyAll(s, pending[1..], State(Effect(s, pending[0], at.db), at.ledger[pending[0] := s.sha(pending[0])]))
  }

  function CleanRun<D>(s: Scripts<D>, files: seq<string>, at: State<D>): State<D> {
    ApplyAll(s, Pending(s, files, at.ledger), at)
  }

  /** A run that dies with `i` files applied and recorded and `k` statements of the next one done. */
  datatype Crash = Crash(i: nat, k: nat)

  function CrashedRun<D>(s: Scripts<D>, files: seq<string>, at: State<D>, c: Crash): State<D> {
    var pending := Pending(s, files, at.ledger);
    if c.i >= |pending| then ApplyAll(s, pending, at)
    else
      var done := ApplyAll(s, pending[..c.i], at);
      done.(db := Part(s, pending[c.i], if c.k <= s.size(pending[c.i]) then c.k else s.size(pending[c.i]), done.db))
  }

  function Crashes<D>(s: Scripts<D>, files: seq<string>, at: State<D>, crashes: seq<Crash>): State<D>
    decreases |crashes|
  {
    if crashes == [] then at else Crashes(s, files, CrashedRun(s, files, at, crashes[0]), crashes[1..])
  }

  // ---------------------------------------------------------------- the pending list only loses its head

  lemma {:induction false} OtherRecorded<D>(s: Scripts<D>, files: seq<string>, ledger: map<string, string>, f: string)
    requires f !in files
    ensures Pending(s, files, ledger[f := s.sha(f)]) == Pending(s, files, ledger)
  {
    if files != [] { OtherRecorded(s, files[1..], ledger, f); }
  }

  /** Recording the first pending file takes exactly it off the list. */
  lemma {:induction false} FirstRecorded<D>(s: Scripts<D>, files: seq<string>, ledger: map<string, string>)
    requires Distinct(files) && Pending(s, files, ledger) != []
    ensures var p := Pending(s, files, ledger); Pending(s, files, ledger[p[0] := s.sha(p[0])]) == p[1..]
  {
    var f, rest := files[0], files[1..];
    assert f !in rest by { assert forall j | 0 <= j < |rest| :: rest[j] == files[j + 1]; }
    if IsPending(s, ledger, f) {
      OtherRecorded(s, rest, ledger, f);
    } else {
      FirstRecorded(s, rest, ledger);
      assert Pending(s, rest, ledger)[0] in rest;
    }
  }

  lemma {:induction false} RecordedPrefix<D>(s: Scripts<D>, files: seq<string>, at: State<D>, i: nat)
    requires Distinct(files) && i <= |Pending(s, files, at.ledger)|
    ensures var p := Pending(s, files, at.ledger); Pending(s, files, ApplyAll(s, p[..i], at).ledger) == p[i..]
    decreases i
  {
    var p := Pending(s, files, at.ledger);
    if i > 0 {
      FirstRecorded(s, files, at.ledger);
      var next := State(Effect(s, p[0], at.db), at.ledger[p[0] := s.sha(p[0])]);
      RecordedPrefix(s, files, next, i - 1);
      assert p[..i][1..] == p[1..][..i - 1] && p[1..][i - 1..] == p[i..];
    } else {
      assert p[0..] == p;
    }
  }

  /** After a crash the pending list is the suffix of the original one from the file that was under way. */
  lemma PendingIsSuffix<D>(s: Scripts<D>, files: seq<string>, at: State<D>, c: Crash)
    requires Distinct(files)
    ensures var p := Pending(s, files, at.ledger);
      Pending(s, files, CrashedRun(s, files, at, c).ledger) == p[if c.i < |p| then c.i else |p|..]
  {
    var p := Pending(s, files, at.ledger);
    RecordedPrefix(s, files, at, if c.i < |p| then c.i else |p|);
    assert p[..|p|] == p;
  }

  // ---------------------------------------------------------------- crash safety

  lemma {:induction false} ApplySplit<D>(s: Scripts<D>, p: seq<string>, i: nat, at: State<D>)
    requires i <= |p|
    ensures ApplyAll(s, p, at) == ApplyAll(s, p[i..], ApplyAll(s, p[..i], at))
  {
    if i > 0 {
      ApplySplit(s, p[1..], i - 1, State(Effect(s, p[0], at.db), at.ledger[p[0] := s.sha(p[0])]));
      assert p[1..][i - 1..] == p[i..] && p[1..][..i - 1] == p[..i][1..];
    } else {
      assert p[0..] == p;
    }
  }

  lemma OneCrash<D(!new)>(s: Scripts<D>, files: seq<string>, at: State<D>, c: Crash)
    requires Distinct(files) && forall f | f in files :: Absorbs(s, f)
    ensures CleanRun(s, files, CrashedRun(s, files, at, c)) == CleanRun(s, files, at)
  {
    var p := Pending(s, files, at.ledger);
    PendingIsSuffix(s, files, at, c);
    if c.i < |p| {
      var f, done := p[c.i], ApplyAll(s, p[..c.i], at);
      ApplySplit(s, p, c.i, at);
      assert p[c.i] in p && p[c.i..][0] == f && p[c.i..][1..] == p[c.i + 1..];
      var k := if c.k <= s.size(f) then c.k else s.size(f);
      assert AbsorbsAt(s, f, done.db, k);
    } else {
      assert p[|p|..] == [];
    }
  }

  /** Any number of crashed runs followed by a completed one leaves the same database and ledger as one clean
      run. */
  lemma {:induction false} CrashSafe<D(!new)>(s: Scripts<D>, files: seq<string>, at: State<D>, crashes: seq<Crash>)
    requires Distinct(files) && forall f | f in files :: Absorbs(s, f)
    ensures CleanRun(s, files, Crashes(s, files, at, crashes)) == CleanRun(s, files, at)
    decreases |crashes|
  {
    if crashes != [] {
      CrashSafe(s, files, CrashedRun(s, files, at, crashes[0]), crashes[1..]);
      OneCrash(s, files, at, crashes[0]);
    }
  }

  /** A run over this one file that dies after `k` statements, then a completed run, is one clean run. */
  ghost predicate Survives<D>(s: Scripts<D>, f: string, db: D, k: nat) {
    CleanRun(s, [f], CrashedRun(s, [f], State(db, map[]), Crash(0, k))) == CleanRun(s, [f], State(db, map[]))
  }

  /** The requirement on the files is exact: a file survives every single crash on every database if and only
      if it absorbs its own partial application. */
  lemma CrashSafeExactly<D(!new)>(s: Scripts<D>, f: string)
    ensures Absorbs(s, f) <==> forall db: D, k: nat | k <= s.size(f) :: Survives(s, f, db, k)
  {
    forall db: D, k: nat | k <= s.size(f) ensures Survives(s, f, db, k) <==> AbsorbsAt(s, f, db, k) {
      SingleFile(s, f, db, k);
    }
  }

  lemma SingleFile<D>(s: Scripts<D>, f: string, db: D, k: nat)
    requires k <= s.size(f)
    ensures CleanRun(s, [f], CrashedRun(s, [f], State(db, map[]), Crash(0, k))) == State(Effect(s, f, Part(s, f, k, db)), map[f := s.sha(f)])
    ensures CleanRun(s, [f], State(db, map[])) == State(Effect(s, f, db), map[f := s.sha(f)])
  {
    assert Pending(s, [f], map[]) == [f] by { assert [f][1..] == []; }
    assert [f][..0] == [] && [f][1..] == [];
    assert CrashedRun(s, [f], State(db, map[]), Crash(0, k)) == State(Part(s, f, k, db), map[]);
    assert forall d: D :: ApplyAll(s, [f], State(d, map[])) == State(Effect(s, f, d), map[f := s.sha(f)]);
  }

  /** A further run finds nothing pending and changes nothing. */
  lemma RerunIsNoOp<D>(s: Scripts<D>, files: seq<string>, at: State<D>)
    requires Distinct(files)
    ensures Pending(s, files, CleanRun(s, files, at).ledger) == []
    ensures CleanRun(s, files, CleanRun(s, files, at)) == CleanRun(s, files, at)
  {
    var p := Pending(s, files, at.ledger);
    PendingIsSuffix(s, files, at, Crash(|p|, 0));
    assert p[|p|..] == [];
  }

  // ---------------------------------------------------------------- the loop

  class Catalog<!D> {
    const s: Scripts<D>
    var db: D
    var ledger: map<string, string>

    constructor (s: Scripts<D>, db: D, ledger: map<string, string>)
      ensures this.s == s && View() == State(db, ledger)
    {
      this.s, this.db, this.ledger := s, db, ledger;
    }

    ghost function View(): State<D>
      reads this
    {
      State(db, ledger)
    }

    /** The statements of one file, as far as `fuel` lets them run. */
    method ApplyOne(f: string, fuel: nat) returns (left: nat, whole: bool)
      modifies this`db
      ensures whole ==> db == Effect(s, f, old(db))
      ensures !whole ==> exists k: nat | k <= s.size(f) :: db == Part(s, f, k, old(db))
      ensures left <= fuel
    {
      left, whole := fuel, true;
      for k := 0 to s.size(f)
        invariant db == Part(s, f, k, old(db)) && left <= fuel
      {
        if left == 0 { return left, false; }
        left := left - 1;
        db := s.statement(f, k, db);
      }
    }

    /** Applies and records the pending files; the process dies when `fuel` statements and records are spent. */
    method Apply(files: seq<string>, fuel: nat) returns (finished: bool)
      modifies this`db, this`ledger
      ensures finished ==> View() == CleanRun(s, files, old(View()))
      ensures !finished ==> exists c :: View() == CrashedRun(s, files, old(View()), c)
    {
      var pending := Pending(s, files, ledger);
      var left := fuel;
      for i := 0 to |pending|
        invariant View() == ApplyAll(s, pending[..i], old(View()))
      {
        ghost var before := View();
        var whole;
        left, whole := ApplyOne(pending[i], left);
        if !whole || left == 0 {
          ghost var k: nat :| k <= s.size(pending[i]) && db == Part(s, pending[i], k, before.db);
          assert View() == CrashedRun(s, files, old(View()), Crash(i, k));
          return false;
        }
        left := left - 1;
        ledger := ledger[pending[i] := s.sha(pending[i])];
        ApplySplit(s, pending[..i + 1], i, old(View()));
        assert pending[..i + 1][..i] == pending[..i] && pending[..i + 1][i..] == [pending[i]];
      }
      assert pending[..|pending|] == pending;
      finished := true;
    }
  }
}
