/** Forward-only schema migrations (lib/storage/src/storage_sqlite/migrations.rs).

    The DDL of each step is opaque: a step is recorded in the log of committed changes and,
    for step 1, inserts the counter row. Whether a phase of a step's transaction fails is
    decided by SQL the model does not run, so it is a parameter: a set of faults. */
module Migrations {
  import opened Model

  datatype Step =
    | InsertInitialMigrationId
    | CreateTablesWeightFood
    | CreateTableSport
    | CreateTableSportActivity
    | CreateTableUserSettings
    | CreateTableBundle
    | CreateTableJournal

  datatype Migration = Migration(id: int, step: Step)

  /** The phases of one step's transaction, in the order they run. */
  datatype Phase = Begin | Body | UpdateId | Commit

  /** The given phase of the step with the given id fails. */
  datatype Fault = Fault(id: int, phase: Phase)

  /** What the migrations see of the database: the rows of the one-column `system` table and
      the changes committed so far, in commit order. */
  datatype Db = Db(system: seq<int>, log: seq<Step>)

  datatype StepOutcome = Committed(db: Db) | Failed(fault: Fault)

  /** get_all_migrations: the fixed, ordered step list. */
  function GetAllMigrations(): seq<Migration> {
    [ Migration(1, InsertInitialMigrationId),
      Migration(2, CreateTablesWeightFood),
      Migration(3, CreateTableSport),
      Migration(4, CreateTableSportActivity),
      Migration(5, CreateTableUserSettings),
      Migration(6, CreateTableBundle),
      Migration(7, CreateTableJournal) ]
  }

  /** The reading of the counter: the first row of `system`; no row is an error. */
  function LastMigrationId(db: Db): Option<int> {
    if db.system == [] then None else Some(db.system[0])
  }

  /** A step's body. Step 1 is insert_initial_migration_id: it appends a counter row holding 0. */
  function RunStep(db: Db, s: Step): Db {
    var db' := db.(log := db.log + [s]);
    if s == InsertInitialMigrationId then db'.(system := db'.system + [0]) else db'
  }

  /** update_migration_id: an UPDATE without WHERE, so it rewrites every counter row. */
  function UpdateMigrationId(db: Db, id: int): Db {
    db.(system := seq(|db.system|, _ => id))
  }

  /** One step in its own transaction: the body and the counter update commit together, or the
      first failing phase is reported and nothing of the step remains. */
  function ApplyOne(db: Db, m: Migration, faults: set<Fault>): StepOutcome {
    if Fault(m.id, Begin) in faults then Failed(Fault(m.id, Begin))
    else if Fault(m.id, Body) in faults then Failed(Fault(m.id, Body))
    else if Fault(m.id, UpdateId) in faults then Failed(Fault(m.id, UpdateId))
    else if Fault(m.id, Commit) in faults then Failed(Fault(m.id, Commit))
    else Committed(CommitStep(db, m))
  }

  /** What a committed step leaves behind: its body's effect and its id in the counter. */
  function CommitStep(db: Db, m: Migration): Db {
    UpdateMigrationId(RunStep(db, m.step), m.id)
  }

  /** apply, as a function: skip ids not above lastId, run the others in list order, stop at the
      first failure. Returns the committed database and the failure, if any. */
  function ApplyFrom(db: Db, ms: seq<Migration>, lastId: int, faults: set<Fault>): (Db, Option<Fault>)
    decreases |ms|
  {
    if ms == [] then (db, None)
    else if ms[0].id <= lastId then ApplyFrom(db, ms[1..], lastId, faults)
    else match ApplyOne(db, ms[0], faults)
      case Failed(f) => (db, Some(f))
      case Committed(db') => ApplyFrom(db', ms[1..], lastId, faults)
  }

  /** A connection to the database file, as the migrations change it. */
  class Connection {
    var system: seq<int>
    var log: seq<Step>

    function State(): Db
      reads this
    {
      Db(system, log)
    }

    constructor (db: Db)
      ensures State() == db
    {
      system, log := db.system, db.log;
    }

    /** apply: each pending step opens a transaction, runs its body, writes its id into the
        counter and commits; the first failing phase ends the call. */
    method Apply(lastMigrationId: int, faults: set<Fault>) returns (err: Option<Fault>)
      modifies this
      ensures (State(), err) == ApplyFrom(old(State()), GetAllMigrations(), lastMigrationId, faults)
    {
      var all := GetAllMigrations();
      var i := 0;
      while i < |all|
        invariant 0 <= i <= |all|
        invariant ApplyFrom(old(State()), all, lastMigrationId, faults)
               == ApplyFrom(State(), all[i..], lastMigrationId, faults)
      {
        var m := all[i];
        assert all[i..][0] == m && all[i..][1..] == all[i + 1..];
        if m.id <= lastMigrationId {
          i := i + 1;
          continue;
        }
        if Fault(m.id, Begin) in faults {
          return Some(Fault(m.id, Begin));
        }
        var tx := State();
        if Fault(m.id, Body) in faults {
          return Some(Fault(m.id, Body));
        }
        tx := RunStep(tx, m.step);
        if Fault(m.id, UpdateId) in faults {
          return Some(Fault(m.id, UpdateId));
        }
        tx := UpdateMigrationId(tx, m.id);
        if Fault(m.id, Commit) in faults {
          return Some(Fault(m.id, Commit));
        }
        system, log := tx.system, tx.log;
        i := i + 1;
      }
      err := None;
    }
  }

  // ---------------------------------------------------------------- list helpers

  predicate Increasing(ms: seq<Migration>) {
    forall i, j :: 0 <= i < j < |ms| ==> ms[i].id < ms[j].id
  }

  /** The steps a call with this lastId would run: those with a larger id, in list order. */
  function Pending(ms: seq<Migration>, lastId: int): seq<Migration>
    decreases |ms|
  {
    if ms == [] then []
    else (if ms[0].id > lastId then [ms[0]] else []) + Pending(ms[1..], lastId)
  }

  /** The steps of ms whose id is below hi. */
  function Before(ms: seq<Migration>, hi: int): seq<Migration>
    decreases |ms|
  {
    if ms == [] then []
    else (if ms[0].id < hi then [ms[0]] else []) + Before(ms[1..], hi)
  }

  function StepsOf(ms: seq<Migration>): seq<Step>
    decreases |ms|
  {
    if ms == [] then [] else [ms[0].step] + StepsOf(ms[1..])
  }

  /** The database after committing each step of ms in turn. */
  function Replay(db: Db, ms: seq<Migration>): Db
    decreases |ms|
  {
    if ms == [] then db else Replay(CommitStep(db, ms[0]), ms[1..])
  }

  /** No fault names a step of ms. */
  predicate NoFaultAt(faults: set<Fault>, ms: seq<Migration>) {
    forall f, m :: f in faults && m in ms ==> f.id != m.id
  }

  lemma {:induction false} PendingMembers(ms: seq<Migration>, lastId: int)
    ensures forall m :: m in Pending(ms, lastId) <==> m in ms && m.id > lastId
    decreases |ms|
  {
    if ms != [] {
      PendingMembers(ms[1..], lastId);
      assert ms == [ms[0]] + ms[1..];
    }
  }

  lemma {:induction false} PendingIncreasing(ms: seq<Migration>, lastId: int)
    requires Increasing(ms)
    ensures Increasing(Pending(ms, lastId))
    decreases |ms|
  {
    if ms != [] {
      var rest := ms[1..];
      assert Increasing(rest);
      PendingIncreasing(rest, lastId);
      PendingMembers(rest, lastId);
      HeadBelowRest(ms);
      var p := Pending(ms, lastId);
      var pr := Pending(rest, lastId);
      if ms[0].id > lastId {
        assert p == [ms[0]] + pr;
        forall i, j | 0 <= i < j < |p| ensures p[i].id < p[j].id {
          if i == 0 {
            assert p[j] == pr[j - 1] && pr[j - 1] in pr;
          } else {
            assert p[i] == pr[i - 1] && p[j] == pr[j - 1];
          }
        }
      } else {
        assert p == pr;
      }
    }
  }

  lemma HeadBelowRest(ms: seq<Migration>)
    requires Increasing(ms) && ms != []
    ensures forall m :: m in ms[1..] ==> ms[0].id < m.id
  {
    forall m | m in ms[1..] ensures ms[0].id < m.id {
      var j :| 0 <= j < |ms[1..]| && ms[1..][j] == m;
      assert ms[j + 1] == m;
    }
  }

  lemma {:induction false} PendingAll(ms: seq<Migration>, lastId: int)
    requires Increasing(ms) && (ms != [] ==> ms[0].id > lastId)
    ensures Pending(ms, lastId) == ms
    decreases |ms|
  {
    if ms != [] {
      if |ms| > 1 {
        assert ms[1].id > ms[0].id;
      }
      PendingAll(ms[1..], lastId);
      assert ms == [ms[0]] + ms[1..];
    }
  }

  lemma {:induction false} BeforeNone(ms: seq<Migration>, hi: int)
    requires forall m :: m in ms ==> m.id >= hi
    ensures Before(ms, hi) == []
    decreases |ms|
  {
    if ms != [] {
      assert ms[0] in ms;
      forall m | m in ms[1..] ensures m.id >= hi { assert m in ms; }
      BeforeNone(ms[1..], hi);
    }
  }

  lemma BeforeCons(m: Migration, rest: seq<Migration>, hi: int)
    requires m.id < hi
    ensures Before([m] + rest, hi) == [m] + Before(rest, hi)
  {
    assert ([m] + rest)[1..] == rest;
  }

  lemma NoFaultCons(faults: set<Fault>, m: Migration, rest: seq<Migration>)
    ensures NoFaultAt(faults, [m] + rest)
        <==> (forall f :: f in faults ==> f.id != m.id) && NoFaultAt(faults, rest)
  {
    assert m in [m] + rest;
    assert forall x :: x in [m] + rest <==> x == m || x in rest;
  }

  /** A step is refused exactly when some fault names it. */
  lemma ApplyOneFails(db: Db, m: Migration, faults: set<Fault>)
    ensures ApplyOne(db, m, faults).Failed? <==> exists f :: f in faults && f.id == m.id
    ensures ApplyOne(db, m, faults).Failed? ==>
      ApplyOne(db, m, faults).fault in faults && ApplyOne(db, m, faults).fault.id == m.id
  {
    if exists f :: f in faults && f.id == m.id {
      var f :| f in faults && f.id == m.id;
      match f.phase
      case Begin => assert f == Fault(m.id, Begin);
      case Body => assert f == Fault(m.id, Body);
      case UpdateId => assert f == Fault(m.id, UpdateId);
      case Commit => assert f == Fault(m.id, Commit);
    }
  }

  // ---------------------------------------------------------------- properties of apply

  /** Steps with id <= lastId never run; the others run in list order and each commits in full.
      apply succeeds exactly when no fault names a pending step, and then all pending steps are
      committed. Otherwise the reported fault belongs to a pending step, exactly the pending
      steps before it were committed, and none of them was faulty. */
  lemma {:induction false} ApplyOutcome(db: Db, ms: seq<Migration>, lastId: int, faults: set<Fault>)
    requires Increasing(ms)
    ensures var r := ApplyFrom(db, ms, lastId, faults);
      var p := Pending(ms, lastId);
      && (r.1.None? <==> NoFaultAt(faults, p))
      && (r.1.None? ==> r.0 == Replay(db, p))
      && (r.1.Some? ==>
            && r.1.value in faults
            && (exists m :: m in p && m.id == r.1.value.id)
            && NoFaultAt(faults, Before(p, r.1.value.id))
            && r.0 == Replay(db, Before(p, r.1.value.id)))
    decreases |ms|
  {
    if ms == [] {
      return;
    }
    var rest := ms[1..];
    var pr := Pending(rest, lastId);
    assert Increasing(rest);
    if ms[0].id <= lastId {
      ApplyOutcome(db, rest, lastId, faults);
      assert Pending(ms, lastId) == pr;
      assert ApplyFrom(db, ms, lastId, faults) == ApplyFrom(db, rest, lastId, faults);
      return;
    }
    var p := Pending(ms, lastId);
    assert p == [ms[0]] + pr;
    ApplyOneFails(db, ms[0], faults);
    NoFaultCons(faults, ms[0], pr);
    match ApplyOne(db, ms[0], faults)
    case Failed(f) => {
      PendingMembers(rest, lastId);
      HeadBelowRest(ms);
      FailedHere(ms[0], pr, f);
      assert ApplyFrom(db, ms, lastId, faults) == (db, Some(f));
      assert Replay(db, []) == db;
    }
    case Committed(db1) => {
      assert db1 == CommitStep(db, ms[0]);
      ApplyOutcome(db1, rest, lastId, faults);
      var r := ApplyFrom(db1, rest, lastId, faults);
      assert ApplyFrom(db, ms, lastId, faults) == r;
      if r.1.Some? {
        var k := r.1.value.id;
        PendingMembers(rest, lastId);
        HeadBelowRest(ms);
        var w :| w in pr && w.id == k;
        BeforeCons(ms[0], pr, k);
        NoFaultCons(faults, ms[0], Before(pr, k));
        assert w in p;
        ReplayCons(db, ms[0], Before(pr, k));
        assert r.0 == Replay(db, Before(p, k));
      } else {
        ReplayCons(db, ms[0], pr);
        assert r.0 == Replay(db, p);
      }
    }
  }

  lemma ReplayCons(db: Db, m: Migration, rest: seq<Migration>)
    ensures Replay(db, [m] + rest) == Replay(CommitStep(db, m), rest)
  {
    assert ([m] + rest)[0] == m && ([m] + rest)[1..] == rest;
  }

  /** When the first pending step fails, nothing before it was pending. */
  lemma FailedHere(m: Migration, pr: seq<Migration>, f: Fault)
    requires f.id == m.id
    requires forall x :: x in pr ==> m.id < x.id
    ensures Before([m] + pr, f.id) == []
    ensures m in [m] + pr
  {
    BeforeNone([m] + pr, f.id);
  }

  /** Committing steps appends their changes to the log, in order. */
  lemma {:induction false} ReplayLog(db: Db, ms: seq<Migration>)
    ensures Replay(db, ms).log == db.log + StepsOf(ms)
    decreases |ms|
  {
    if ms != [] {
      ReplayLog(CommitStep(db, ms[0]), ms[1..]);
    }
  }

  /** After committing a non-empty run of steps, every counter row holds the last step's id,
      provided a counter row existed or the first step inserts it. */
  lemma {:induction false} ReplayCounter(db: Db, ms: seq<Migration>)
    requires ms != []
    requires db.system != [] || ms[0].step == InsertInitialMigrationId
    ensures var db' := Replay(db, ms);
      db'.system != [] && forall i :: 0 <= i < |db'.system| ==> db'.system[i] == ms[|ms| - 1].id
    decreases |ms|
  {
    var db1 := CommitStep(db, ms[0]);
    assert db1.system != [];
    if |ms| > 1 {
      ReplayCounter(db1, ms[1..]);
    }
  }

  /** Only step 1 adds counter rows. */
  lemma {:induction false} ReplayRowCount(db: Db, ms: seq<Migration>)
    ensures |Replay(db, ms).system| == |db.system| + |InsertsOf(ms)|
    decreases |ms|
  {
    if ms != [] {
      ReplayRowCount(CommitStep(db, ms[0]), ms[1..]);
    }
  }

  /** The steps of ms that insert a counter row. */
  function InsertsOf(ms: seq<Migration>): seq<Migration>
    decreases |ms|
  {
    if ms == [] then []
    else (if ms[0].step == InsertInitialMigrationId then [ms[0]] else []) + InsertsOf(ms[1..])
  }

  /** Whatever lastId the caller passes, the first counter row either keeps its value or ends
      above lastId; `ApplyNeverLowersCounter` ties lastId to the stored reading. */
  lemma {:induction false} ApplyCounterMonotone(db: Db, ms: seq<Migration>, lastId: int, faults: set<Fault>)
    requires db.system != []
    ensures var db' := ApplyFrom(db, ms, lastId, faults).0;
      db'.system != [] && (db'.system[0] == db.system[0] || db'.system[0] > lastId)
    decreases |ms|
  {
    if ms == [] {
      return;
    }
    if ms[0].id <= lastId {
      ApplyCounterMonotone(db, ms[1..], lastId, faults);
      return;
    }
    match ApplyOne(db, ms[0], faults)
    case Failed(f) =>
    case Committed(db1) => {
      assert db1.system != [] && db1.system[0] == ms[0].id;
      ApplyCounterMonotone(db1, ms[1..], lastId, faults);
    }
  }

  /** Called, as the source does, with the value read from the counter, apply never lowers it:
      whether it commits every pending step or stops at a failure, the first row ends at or
      above its starting value. */
  lemma ApplyNeverLowersCounter(db: Db, ms: seq<Migration>, lastId: int, faults: set<Fault>)
    requires LastMigrationId(db) == Some(lastId)
    ensures var db' := ApplyFrom(db, ms, lastId, faults).0;
      LastMigrationId(db').Some? && LastMigrationId(db').value >= lastId
  {
    ApplyCounterMonotone(db, ms, lastId, faults);
  }

  // ---------------------------------------------------------------- the fixed list

  /** The list holds ids 1..7, strictly increasing, step 1 first. */
  lemma AllMigrationsShape()
    ensures var all := GetAllMigrations();
      |all| == 7 && Increasing(all) && all[0].step == InsertInitialMigrationId
      && (forall i :: 0 <= i < 7 ==> all[i].id == i + 1)
      && InsertsOf(all[1..]) == []
  {
    NoInserts(GetAllMigrations()[1..]);
  }

  lemma {:induction false} NoInserts(ms: seq<Migration>)
    requires forall i :: 0 <= i < |ms| ==> ms[i].step != InsertInitialMigrationId
    ensures InsertsOf(ms) == []
    decreases |ms|
  {
    if ms != [] {
      NoInserts(ms[1..]);
    }
  }

  /** A fresh database (no counter row, nothing created) read as version 0 ends, when nothing
      fails, with all seven steps committed in list order and one counter row holding 7. */
  lemma FreshDatabaseReachesLatest()
    ensures var r := ApplyFrom(Db([], []), GetAllMigrations(), 0, {});
      r.1 == None && r.0.system == [7] && r.0.log == StepsOf(GetAllMigrations())
  {
    AllMigrationsShape();
    FreshReachesTop(GetAllMigrations());
  }

  /** The same for any increasing list of positive ids whose only counter insertion comes first. */
  lemma {:induction false} FreshReachesTop(ms: seq<Migration>)
    requires Increasing(ms) && ms != [] && ms[0].id > 0
    requires ms[0].step == InsertInitialMigrationId && InsertsOf(ms[1..]) == []
    ensures var r := ApplyFrom(Db([], []), ms, 0, {});
      r.1 == None && r.0.system == [ms[|ms| - 1].id] && r.0.log == StepsOf(ms)
  {
    PendingAll(ms, 0);
    ApplyOutcome(Db([], []), ms, 0, {});
    var db' := Replay(Db([], []), ms);
    ReplayLog(Db([], []), ms);
    ReplayCounter(Db([], []), ms);
    ReplayRowCount(Db([], []), ms);
    assert InsertsOf(ms) == [ms[0]];
  }

  lemma {:induction false} PendingEmptyRunsNothing(db: Db, ms: seq<Migration>, lastId: int, faults: set<Fault>)
    requires Pending(ms, lastId) == []
    ensures ApplyFrom(db, ms, lastId, faults) == (db, None)
    decreases |ms|
  {
    if ms != [] {
      PendingEmptyRunsNothing(db, ms[1..], lastId, faults);
    }
  }

  /** apply is idempotent: after a successful call from the counter's own value (or from 0 on a
      database without a counter row), the counter is at least 7, exactly 7 when a step ran, and
      a second call from the value it now holds commits nothing, whatever could fail. */
  lemma ApplyIdempotent(db: Db, lastId: int, faults: set<Fault>, faults2: set<Fault>)
    requires LastMigrationId(db) == Some(lastId) || (db.system == [] && lastId == 0)
    requires ApplyFrom(db, GetAllMigrations(), lastId, faults).1 == None
    ensures var db' := ApplyFrom(db, GetAllMigrations(), lastId, faults).0;
      && LastMigrationId(db').Some?
      && LastMigrationId(db').value >= 7
      && (lastId < 7 ==> LastMigrationId(db') == Some(7))
      && ApplyFrom(db', GetAllMigrations(), LastMigrationId(db').value, faults2) == (db', None)
  {
    AllMigrationsShape();
    ReachesTop(db, GetAllMigrations(), lastId, faults, faults2);
  }

  /** The same for any increasing list that starts with the counter insertion. */
  lemma ReachesTop(db: Db, ms: seq<Migration>, lastId: int, faults: set<Fault>, faults2: set<Fault>)
    requires Increasing(ms) && ms != [] && ms[0].step == InsertInitialMigrationId
    requires LastMigrationId(db) == Some(lastId) || (db.system == [] && lastId < ms[0].id)
    requires ApplyFrom(db, ms, lastId, faults).1 == None
    ensures var db' := ApplyFrom(db, ms, lastId, faults).0;
      var top := ms[|ms| - 1].id;
      && LastMigrationId(db').Some?
      && LastMigrationId(db').value >= top
      && (lastId < top ==> LastMigrationId(db') == Some(top))
      && ApplyFrom(db', ms, LastMigrationId(db').value, faults2) == (db', None)
  {
    var top := ms[|ms| - 1].id;
    var p := Pending(ms, lastId);
    ApplyOutcome(db, ms, lastId, faults);
    var db' := ApplyFrom(db, ms, lastId, faults).0;
    if lastId >= top {
      PendingEmptyAbove(ms, lastId);
      assert db' == db;
    } else {
      PendingEndsAtTop(ms, lastId);
      if db.system == [] {
        assert p[0] == ms[0];
      }
      ReplayCounter(db, p);
    }
    var c := LastMigrationId(db').value;
    PendingEmptyAbove(ms, c);
    PendingEmptyRunsNothing(db', ms, c, faults2);
  }

  lemma TopIsMax(ms: seq<Migration>)
    requires Increasing(ms) && ms != []
    ensures forall i :: 0 <= i < |ms| ==> ms[i].id <= ms[|ms| - 1].id
  {
  }

  /** Nothing is pending from the top id up. */
  lemma {:induction false} PendingEmptyAbove(ms: seq<Migration>, c: int)
    requires Increasing(ms) && ms != [] && c >= ms[|ms| - 1].id
    ensures Pending(ms, c) == []
  {
    TopIsMax(ms);
    PendingMembers(ms, c);
    if Pending(ms, c) != [] {
      assert Pending(ms, c)[0] in Pending(ms, c);
    }
  }

  /** Below the top id, the last pending step is the last step of the list. */
  lemma {:induction false} PendingEndsAtTop(ms: seq<Migration>, lastId: int)
    requires Increasing(ms) && ms != [] && lastId < ms[|ms| - 1].id
    ensures var p := Pending(ms, lastId); p != [] && p[|p| - 1] == ms[|ms| - 1]
    decreases |ms|
  {
    if |ms| > 1 {
      assert Increasing(ms[1..]);
      PendingEndsAtTop(ms[1..], lastId);
    }
  }
}
