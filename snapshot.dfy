/** Backup and restore of the whole store (lib/model/src/backup.rs). A backup lists every row of
    every family in natural-key order, whatever user asks for it; a restore merges a snapshot
    into the tables, family by family, overwriting rows with the same key and keeping all
    others. Bundle data and activity sets, JSON text in the snapshot, are modelled decoded. */
module Snapshot {
  import opened Model
  import opened StoreErrors
  import opened Tables
  import opened Ordering

  datatype WeightBackup = WeightBackup(userId: int, timestamp: int, value: real)
  datatype UserSettingsBackup = UserSettingsBackup(userId: int, calLimit: real)
  datatype BundleBackup = BundleBackup(userId: int, key: string, data: map<string, real>)
  datatype JournalBackup = JournalBackup(userId: int, timestamp: int, meal: U8, foodKey: string, foodWeight: real)
  datatype SportActivityBackup = SportActivityBackup(userId: int, sportKey: string, timestamp: int, sets: seq<int>)

  /** Foods and sports are backed up as they are. */
  datatype Backup = Backup(
    timestamp: int,
    weight: seq<WeightBackup>,
    food: seq<Food>,
    userSettings: seq<UserSettingsBackup>,
    bundle: seq<BundleBackup>,
    journal: seq<JournalBackup>,
    sport: seq<Sport>,
    sportActivity: seq<SportActivityBackup>)

  // ---------------------------------------------------------------- merging rows into a table

  /** Upserting rows one after another, in order: a later row overrides an earlier one with the
      same key. */
  function Upsert<K, V>(m: map<K, V>, rows: seq<(K, V)>): map<K, V>
    decreases |rows|
  {
    if rows == [] then m
    else Upsert(m, rows[..|rows| - 1])[rows[|rows| - 1].0 := rows[|rows| - 1].1]
  }

  predicate DistinctKeys<K(==), V>(rows: seq<(K, V)>) {
    forall i, j :: 0 <= i < j < |rows| ==> rows[i].0 != rows[j].0
  }

  /** Upserting into a table is merging the upserted rows over it. */
  lemma {:induction false} UpsertIsMerge<K, V>(m: map<K, V>, rows: seq<(K, V)>)
    ensures Upsert(m, rows) == m + Upsert(map[], rows)
    decreases |rows|
  {
    if rows != [] {
      UpsertIsMerge(m, rows[..|rows| - 1]);
    }
  }

  /** Rows with distinct keys are exactly the entries of the table they build. */
  lemma {:induction false} UpsertEntries<K, V>(rows: seq<(K, V)>)
    requires DistinctKeys(rows)
    ensures forall p :: p in rows <==> p.0 in Upsert(map[], rows) && Upsert(map[], rows)[p.0] == p.1
    ensures forall k :: k in Upsert(map[], rows) ==> (k, Upsert(map[], rows)[k]) in rows
    decreases |rows|
  {
    if rows != [] {
      var init, last := rows[..|rows| - 1], rows[|rows| - 1];
      assert DistinctKeys(init) by {
        forall i, j | 0 <= i < j < |init| ensures init[i].0 != init[j].0 {
          assert init[i] == rows[i] && init[j] == rows[j];
        }
      }
      UpsertEntries(init);
      var ui := Upsert(map[], init);
      var u := Upsert(map[], rows);
      assert u == ui[last.0 := last.1];
      forall k | k in ui ensures k != last.0 {
        var i :| 0 <= i < |init| && init[i] == (k, ui[k]);
        assert rows[i].0 != rows[|rows| - 1].0;
      }
      assert rows == init + [last];
      forall p ensures p in rows <==> p.0 in u && u[p.0] == p.1 {
        if p in init {
          var i :| 0 <= i < |init| && init[i] == p;
          assert rows[i].0 != rows[|rows| - 1].0;
        }
      }
      forall k | k in u ensures (k, u[k]) in rows {
        if k != last.0 {
          assert (k, ui[k]) in init;
        }
      }
    }
  }

  function MapSeq<A, B>(s: seq<A>, f: A -> B): (r: seq<B>)
    ensures |r| == |s| && forall i :: 0 <= i < |s| ==> r[i] == f(s[i])
  {
    seq(|s|, i requires 0 <= i < |s| => f(s[i]))
  }

  /** A strictly sorted listing whose order is a function of the row key has distinct keys. */
  lemma SortedRowsDistinct<A, K, V>(s: seq<A>, f: A -> (K, V), ord: A -> Key)
    requires SortedBy(s, ord)
    requires forall a, b :: a in s && b in s && f(a).0 == f(b).0 ==> ord(a) == ord(b)
    ensures DistinctKeys(MapSeq(s, f))
  {
    forall i, j | 0 <= i < j < |s| ensures f(s[i]).0 != f(s[j]).0 {
      KeyLessIrreflexive(ord(s[i]));
      assert s[i] in s && s[j] in s;
    }
  }

  /** Restoring a listing of exactly the entries of a table, into an empty table, rebuilds it. */
  lemma RestoreListing<A, K, V>(s: seq<A>, f: A -> (K, V), ord: A -> Key, m: map<K, V>)
    requires SortedBy(s, ord)
    requires forall a, b :: a in s && b in s && f(a).0 == f(b).0 ==> ord(a) == ord(b)
    requires forall a :: a in s ==> f(a).0 in m && m[f(a).0] == f(a).1
    requires forall k :: k in m ==> exists a :: a in s && f(a).0 == k
    ensures Upsert(map[], MapSeq(s, f)) == m
  {
    var rows := MapSeq(s, f);
    SortedRowsDistinct(s, f, ord);
    UpsertEntries(rows);
    var u := Upsert(map[], rows);
    forall k | k in m ensures k in u && u[k] == m[k] {
      var a :| a in s && f(a).0 == k;
      var i :| 0 <= i < |s| && s[i] == a;
      assert rows[i] == f(a);
    }
    forall k | k in u ensures k in m {
      var i :| 0 <= i < |rows| && rows[i] == (k, u[k]);
      assert s[i] in s;
    }
  }

  /** Backing up a table that was restored from a sorted listing yields that listing again. */
  lemma BackupListing<A(!new), K, V>(s: seq<A>, r: seq<A>, f: A -> (K, V), ord: A -> Key)
    requires SortedBy(s, ord) && SortedBy(r, ord)
    requires forall a, b :: a in s && b in s && f(a).0 == f(b).0 ==> ord(a) == ord(b)
    requires forall a, b :: a in r && b in s && f(a) == f(b) ==> a == b
    requires forall a :: a in r ==> f(a).0 in Upsert(map[], MapSeq(s, f)) && Upsert(map[], MapSeq(s, f))[f(a).0] == f(a).1
    requires forall a :: a in s && f(a).0 in Upsert(map[], MapSeq(s, f)) && Upsert(map[], MapSeq(s, f))[f(a).0] == f(a).1 ==> a in r
    ensures r == s
  {
    var rows := MapSeq(s, f);
    SortedRowsDistinct(s, f, ord);
    UpsertEntries(rows);
    var u := Upsert(map[], rows);
    forall a ensures a in r <==> a in s {
      if a in s {
        var i :| 0 <= i < |s| && s[i] == a;
        assert rows[i] == f(a) && rows[i] in rows;
        assert f(a).0 in u && u[f(a).0] == f(a).1;
      }
      if a in r {
        assert f(a).0 in u && u[f(a).0] == f(a).1;
        assert f(a) in rows;
        var i :| 0 <= i < |rows| && rows[i] == f(a);
        assert s[i] in s && f(s[i]) == f(a);
      }
    }
    SortedUnique(r, s, ord);
  }

  // ---------------------------------------------------------------- per-family keys and orders

  function WeightRecordOrder(w: WeightBackup): Key { [Num(w.userId), Num(w.timestamp)] }
  function WeightPair(w: WeightBackup): (WeightKey, real) { (WeightKey(w.userId, w.timestamp), w.value) }

  function FoodRecordOrder(f: Food): Key { [Text(f.key)] }
  function FoodPair(f: Food): (string, Food) { (f.key, f) }

  function SettingsRecordOrder(s: UserSettingsBackup): Key { [Num(s.userId)] }
  function SettingsPair(s: UserSettingsBackup): (int, real) { (s.userId, s.calLimit) }

  function BundleRecordOrder(b: BundleBackup): Key { [Num(b.userId), Text(b.key)] }
  function BundlePair(b: BundleBackup): (BundleKey, map<string, real>) { (BundleKey(b.userId, b.key), b.data) }

  function JournalRecordOrder(j: JournalBackup): Key { [Num(j.userId), Num(j.timestamp), Num(j.meal), Text(j.foodKey)] }

  /** The meal a persisted ordinal names; only applied to ordinals that decode. */
  function DecodeMeal(v: U8): Meal {
    match MealFromOrdinal(v)
    case Some(m) => m
    case None => Breakfast
  }

  function JournalPair(j: JournalBackup): (JournalKey, real) {
    (JournalKey(j.userId, j.timestamp, DecodeMeal(j.meal), j.foodKey), j.foodWeight)
  }

  function SportRecordOrder(s: Sport): Key { [Text(s.key)] }
  function SportPair(s: Sport): (string, Sport) { (s.key, s) }

  function ActivityRecordOrder(a: SportActivityBackup): Key { [Num(a.userId), Num(a.timestamp), Text(a.sportKey)] }
  function ActivityPair(a: SportActivityBackup): (ActivityKey, seq<int>) { (ActivityKey(a.userId, a.timestamp, a.sportKey), a.sets) }

  // ---------------------------------------------------------------- backup

  function WeightRows(t: Tables): (r: seq<WeightBackup>)
    ensures SortedBy(r, WeightRecordOrder)
    ensures forall w :: w in r <==> WeightPair(w).0 in t.weights && t.weights[WeightPair(w).0] == WeightPair(w).1
  {
    var s := set k | k in t.weights :: WeightBackup(k.user, k.timestamp, t.weights[k]);
    assert InjectiveOn(s, WeightRecordOrder) by {
      forall x, y | x in s && y in s && WeightRecordOrder(x) == WeightRecordOrder(y) ensures x == y {
        assert WeightRecordOrder(x)[0] == WeightRecordOrder(y)[0] && WeightRecordOrder(x)[1] == WeightRecordOrder(y)[1];
      }
    }
    assert forall w :: w in s <==> WeightPair(w).0 in t.weights && t.weights[WeightPair(w).0] == WeightPair(w).1 by {
      forall w | WeightPair(w).0 in t.weights && t.weights[WeightPair(w).0] == WeightPair(w).1 ensures w in s {
        var k := WeightPair(w).0;
        assert w == WeightBackup(k.user, k.timestamp, t.weights[k]);
      }
    }
    SortBy(s, WeightRecordOrder)
  }

  function FoodRows(t: Tables): (r: seq<Food>)
    requires WellKeyed(t)
    ensures SortedBy(r, FoodRecordOrder)
    ensures forall f :: f in r <==> FoodPair(f).0 in t.foods && t.foods[FoodPair(f).0] == FoodPair(f).1
  {
    var s := t.foods.Values;
    assert InjectiveOn(s, FoodRecordOrder) by {
      forall x, y | x in s && y in s && FoodRecordOrder(x) == FoodRecordOrder(y) ensures x == y {
        assert FoodRecordOrder(x)[0] == FoodRecordOrder(y)[0];
        var kx :| kx in t.foods && t.foods[kx] == x;
        var ky :| ky in t.foods && t.foods[ky] == y;
      }
    }
    assert forall f :: f in s <==> FoodPair(f).0 in t.foods && t.foods[FoodPair(f).0] == FoodPair(f).1 by {
      forall f | f in s ensures FoodPair(f).0 in t.foods && t.foods[FoodPair(f).0] == f {
        var k :| k in t.foods && t.foods[k] == f;
      }
    }
    SortBy(s, FoodRecordOrder)
  }

  function SettingsRows(t: Tables): (r: seq<UserSettingsBackup>)
    ensures SortedBy(r, SettingsRecordOrder)
    ensures forall s :: s in r <==> SettingsPair(s).0 in t.settings && t.settings[SettingsPair(s).0] == SettingsPair(s).1
  {
    var s := set u | u in t.settings :: UserSettingsBackup(u, t.settings[u]);
    assert InjectiveOn(s, SettingsRecordOrder) by {
      forall x, y | x in s && y in s && SettingsRecordOrder(x) == SettingsRecordOrder(y) ensures x == y {
        assert SettingsRecordOrder(x)[0] == SettingsRecordOrder(y)[0];
      }
    }
    assert forall x :: x in s <==> SettingsPair(x).0 in t.settings && t.settings[SettingsPair(x).0] == SettingsPair(x).1 by {
      forall x | SettingsPair(x).0 in t.settings && t.settings[SettingsPair(x).0] == SettingsPair(x).1 ensures x in s {
        assert x == UserSettingsBackup(x.userId, t.settings[x.userId]);
      }
    }
    SortBy(s, SettingsRecordOrder)
  }

  function BundleRows(t: Tables): (r: seq<BundleBackup>)
    ensures SortedBy(r, BundleRecordOrder)
    ensures forall b :: b in r <==> BundlePair(b).0 in t.bundles && t.bundles[BundlePair(b).0] == BundlePair(b).1
  {
    var s := set k | k in t.bundles :: BundleBackup(k.user, k.key, t.bundles[k]);
    assert InjectiveOn(s, BundleRecordOrder) by {
      forall x, y | x in s && y in s && BundleRecordOrder(x) == BundleRecordOrder(y) ensures x == y {
        assert BundleRecordOrder(x)[0] == BundleRecordOrder(y)[0] && BundleRecordOrder(x)[1] == BundleRecordOrder(y)[1];
      }
    }
    assert forall b :: b in s <==> BundlePair(b).0 in t.bundles && t.bundles[BundlePair(b).0] == BundlePair(b).1 by {
      forall b | BundlePair(b).0 in t.bundles && t.bundles[BundlePair(b).0] == BundlePair(b).1 ensures b in s {
        var k := BundlePair(b).0;
        assert b == BundleBackup(k.user, k.key, t.bundles[k]);
      }
    }
    SortBy(s, BundleRecordOrder)
  }

  /** The backup record of a journal row: its meal is written as the slot's ordinal. */
  function JournalRecord(t: Tables, k: JournalKey): JournalBackup
    requires k in t.journal
  {
    JournalBackup(k.user, k.timestamp, MealOrdinal(k.meal), k.food, t.journal[k])
  }

  function JournalRows(t: Tables): (r: seq<JournalBackup>)
    ensures SortedBy(r, JournalRecordOrder)
    ensures forall j :: j in r <==>
      j.meal < 6 && JournalPair(j).0 in t.journal && t.journal[JournalPair(j).0] == JournalPair(j).1
  {
    var s := set k | k in t.journal :: JournalRecord(t, k);
    assert InjectiveOn(s, JournalRecordOrder) by {
      forall x, y | x in s && y in s && JournalRecordOrder(x) == JournalRecordOrder(y) ensures x == y {
        assert JournalRecordOrder(x)[0] == JournalRecordOrder(y)[0] && JournalRecordOrder(x)[1] == JournalRecordOrder(y)[1];
        assert JournalRecordOrder(x)[2] == JournalRecordOrder(y)[2] && JournalRecordOrder(x)[3] == JournalRecordOrder(y)[3];
      }
    }
    JournalRecordsExact(t, s);
    SortBy(s, JournalRecordOrder)
  }

  lemma JournalRecordsExact(t: Tables, s: set<JournalBackup>)
    requires s == set k | k in t.journal :: JournalRecord(t, k)
    ensures forall j :: j in s <==>
      j.meal < 6 && JournalPair(j).0 in t.journal && t.journal[JournalPair(j).0] == JournalPair(j).1
  {
    forall j | j in s ensures j.meal < 6 && JournalPair(j).0 in t.journal && t.journal[JournalPair(j).0] == JournalPair(j).1 {
      var k :| k in t.journal && j == JournalRecord(t, k);
      assert JournalPair(j).0 == k;
    }
    forall j: JournalBackup | j.meal < 6 && JournalPair(j).0 in t.journal && t.journal[JournalPair(j).0] == JournalPair(j).1
      ensures j in s
    {
      var k := JournalPair(j).0;
      MealDecodeExact(j.meal);
      assert j == JournalRecord(t, k);
    }
  }

  function SportRows(t: Tables): (r: seq<Sport>)
    requires WellKeyed(t)
    ensures SortedBy(r, SportRecordOrder)
    ensures forall s :: s in r <==> SportPair(s).0 in t.sports && t.sports[SportPair(s).0] == SportPair(s).1
  {
    var s := t.sports.Values;
    assert InjectiveOn(s, SportRecordOrder) by {
      forall x, y | x in s && y in s && SportRecordOrder(x) == SportRecordOrder(y) ensures x == y {
        assert SportRecordOrder(x)[0] == SportRecordOrder(y)[0];
        var kx :| kx in t.sports && t.sports[kx] == x;
        var ky :| ky in t.sports && t.sports[ky] == y;
      }
    }
    assert forall x :: x in s <==> SportPair(x).0 in t.sports && t.sports[SportPair(x).0] == SportPair(x).1 by {
      forall x | x in s ensures SportPair(x).0 in t.sports && t.sports[SportPair(x).0] == x {
        var k :| k in t.sports && t.sports[k] == x;
      }
    }
    SortBy(s, SportRecordOrder)
  }

  function ActivityRows(t: Tables): (r: seq<SportActivityBackup>)
    ensures SortedBy(r, ActivityRecordOrder)
    ensures forall a :: a in r <==> ActivityPair(a).0 in t.activities && t.activities[ActivityPair(a).0] == ActivityPair(a).1
  {
    var s := set k | k in t.activities :: SportActivityBackup(k.user, k.sport, k.timestamp, t.activities[k]);
    assert InjectiveOn(s, ActivityRecordOrder) by {
      forall x, y | x in s && y in s && ActivityRecordOrder(x) == ActivityRecordOrder(y) ensures x == y {
        assert ActivityRecordOrder(x)[0] == ActivityRecordOrder(y)[0] && ActivityRecordOrder(x)[1] == ActivityRecordOrder(y)[1];
        assert ActivityRecordOrder(x)[2] == ActivityRecordOrder(y)[2];
      }
    }
    assert forall a :: a in s <==> ActivityPair(a).0 in t.activities && t.activities[ActivityPair(a).0] == ActivityPair(a).1 by {
      forall a | ActivityPair(a).0 in t.activities && t.activities[ActivityPair(a).0] == ActivityPair(a).1 ensures a in s {
        var k := ActivityPair(a).0;
        assert a == SportActivityBackup(k.user, k.sport, k.timestamp, t.activities[k]);
      }
    }
    SortBy(s, ActivityRecordOrder)
  }

  /** backup(user): every row of every family, each family in natural-key order. The user is
      not used: the snapshot covers all users. */
  function TakeBackup(t: Tables, user: int, now: int): (b: Backup)
    requires WellKeyed(t)
    ensures b.timestamp == now && Canonical(b)
  {
    var b := Backup(now, WeightRows(t), FoodRows(t), SettingsRows(t), BundleRows(t), JournalRows(t), SportRows(t), ActivityRows(t));
    assert forall i :: 0 <= i < |b.journal| ==> b.journal[i].meal < 6 by {
      forall i | 0 <= i < |b.journal| ensures b.journal[i].meal < 6 {
        assert b.journal[i] in b.journal;
      }
    }
    b
  }

  /** A snapshot as a backup writes it: every family strictly sorted by its natural key, and
      every journal meal a decodable ordinal. */
  predicate Canonical(b: Backup) {
    && SortedBy(b.weight, WeightRecordOrder)
    && SortedBy(b.food, FoodRecordOrder)
    && SortedBy(b.userSettings, SettingsRecordOrder)
    && SortedBy(b.bundle, BundleRecordOrder)
    && SortedBy(b.journal, JournalRecordOrder)
    && SortedBy(b.sport, SportRecordOrder)
    && SortedBy(b.sportActivity, ActivityRecordOrder)
    && (forall i :: 0 <= i < |b.journal| ==> b.journal[i].meal < 6)
  }

  // ---------------------------------------------------------------- restore

  predicate MealsDecode(b: Backup) {
    forall i :: 0 <= i < |b.journal| ==> MealFromOrdinal(b.journal[i].meal).Some?
  }

  /** The tables after merging every family of the snapshot, before any check. */
  function Merged(t: Tables, b: Backup): Tables {
    Tables(
      Upsert(t.foods, MapSeq(b.food, FoodPair)),
      Upsert(t.sports, MapSeq(b.sport, SportPair)),
      Upsert(t.weights, MapSeq(b.weight, WeightPair)),
      Upsert(t.settings, MapSeq(b.userSettings, SettingsPair)),
      Upsert(t.bundles, MapSeq(b.bundle, BundlePair)),
      Upsert(t.journal, MapSeq(b.journal, JournalPair)),
      Upsert(t.activities, MapSeq(b.sportActivity, ActivityPair)))
  }

  /** restore(backup): merge the snapshot into the tables. It fails, changing nothing, when a
      journal meal does not decode or a merged journal row or activity names a missing food or
      sport. Entities are not validated and bundle entries, an opaque blob to the store, are not
      checked. */
  function RestoreTables(t: Tables, b: Backup): (r: Result<Tables>)
    ensures r.Err? ==> r.error == Other
    ensures r.Ok? <==> MealsDecode(b) && ForeignKeysHold(Merged(t, b))
    ensures r.Ok? ==> r.value == Merged(t, b)
  {
    if !MealsDecode(b) then Err(Other)
    else
      var m := Merged(t, b);
      if ForeignKeysHold(m) then Ok(m) else Err(Other)
  }

  /** Restoring merges: every row the snapshot does not mention keeps its value, and each
      family becomes the old table overridden by the snapshot's rows. */
  lemma RestoreIsMerge(t: Tables, b: Backup)
    ensures var m := Merged(t, b);
      && m.weights == t.weights + Upsert(map[], MapSeq(b.weight, WeightPair))
      && m.foods == t.foods + Upsert(map[], MapSeq(b.food, FoodPair))
      && m.settings == t.settings + Upsert(map[], MapSeq(b.userSettings, SettingsPair))
      && m.bundles == t.bundles + Upsert(map[], MapSeq(b.bundle, BundlePair))
      && m.journal == t.journal + Upsert(map[], MapSeq(b.journal, JournalPair))
      && m.sports == t.sports + Upsert(map[], MapSeq(b.sport, SportPair))
      && m.activities == t.activities + Upsert(map[], MapSeq(b.sportActivity, ActivityPair))
  {
    UpsertIsMerge(t.weights, MapSeq(b.weight, WeightPair));
    UpsertIsMerge(t.foods, MapSeq(b.food, FoodPair));
    UpsertIsMerge(t.settings, MapSeq(b.userSettings, SettingsPair));
    UpsertIsMerge(t.bundles, MapSeq(b.bundle, BundlePair));
    UpsertIsMerge(t.journal, MapSeq(b.journal, JournalPair));
    UpsertIsMerge(t.sports, MapSeq(b.sport, SportPair));
    UpsertIsMerge(t.activities, MapSeq(b.sportActivity, ActivityPair));
  }

  /** Restoring the same snapshot twice is restoring it once. */
  lemma RestoreIdempotent(t: Tables, b: Backup)
    requires RestoreTables(t, b).Ok?
    ensures RestoreTables(RestoreTables(t, b).value, b) == RestoreTables(t, b)
  {
    var m := Merged(t, b);
    RestoreIsMerge(t, b);
    RestoreIsMerge(m, b);
    MergeTwice(t.weights, Upsert(map[], MapSeq(b.weight, WeightPair)));
    MergeTwice(t.foods, Upsert(map[], MapSeq(b.food, FoodPair)));
    MergeTwice(t.settings, Upsert(map[], MapSeq(b.userSettings, SettingsPair)));
    MergeTwice(t.bundles, Upsert(map[], MapSeq(b.bundle, BundlePair)));
    MergeTwice(t.journal, Upsert(map[], MapSeq(b.journal, JournalPair)));
    MergeTwice(t.sports, Upsert(map[], MapSeq(b.sport, SportPair)));
    MergeTwice(t.activities, Upsert(map[], MapSeq(b.sportActivity, ActivityPair)));
    assert Merged(m, b) == m;
  }

  lemma MergeTwice<K, V>(a: map<K, V>, u: map<K, V>)
    ensures (a + u) + u == a + u
  {
  }

  /** Restored catalogue rows are stored under their own key. */
  lemma RestoreKeepsWellKeyed(t: Tables, b: Backup)
    requires WellKeyed(t)
    ensures WellKeyed(Merged(t, b))
  {
    UpsertKeyed(t.foods, MapSeq(b.food, FoodPair), (f: Food) => f.key);
    UpsertKeyed(t.sports, MapSeq(b.sport, SportPair), (s: Sport) => s.key);
  }

  /** Upserting rows, each under the key its value carries, keeps every value under its own key. */
  lemma {:induction false} UpsertKeyed<V>(m: map<string, V>, rows: seq<(string, V)>, key: V -> string)
    requires forall k :: k in m ==> key(m[k]) == k
    requires forall i :: 0 <= i < |rows| ==> key(rows[i].1) == rows[i].0
    ensures forall k :: k in Upsert(m, rows) ==> key(Upsert(m, rows)[k]) == k
    decreases |rows|
  {
    if rows != [] {
      UpsertKeyed(m, rows[..|rows| - 1], key);
    }
  }

  /** Restore does not check bundle entries: a snapshot whose bundle names a missing food is
      accepted, and the restored tables no longer resolve. */
  lemma RestoreSkipsBundleChecks()
    ensures var b := Backup(0, [], [], [], [BundleBackup(1, "b", map["f" := 100.0])], [], [], []);
      && RestoreTables(Empty(), b).Ok?
      && !BundlesResolve(RestoreTables(Empty(), b).value)
  {
    var b := Backup(0, [], [], [], [BundleBackup(1, "b", map["f" := 100.0])], [], [], []);
    var rows := MapSeq(b.bundle, BundlePair);
    assert rows == [(BundleKey(1, "b"), map["f" := 100.0])];
    assert rows[..0] == [];
    assert Upsert(Empty().bundles, rows) == Upsert(Empty().bundles, rows[..0])[rows[0].0 := rows[0].1];
    var m := Merged(Empty(), b);
    assert m.bundles == map[BundleKey(1, "b") := map["f" := 100.0]];
    assert MapSeq(b.food, FoodPair) == [] && MapSeq(b.journal, JournalPair) == [];
    assert MapSeq(b.sportActivity, ActivityPair) == [];
    assert m.foods == map[] && m.journal == map[] && m.activities == map[];
    assert RestoreTables(Empty(), b) == Ok(m);
    assert BundleKey(1, "b") in m.bundles && "f" in m.bundles[BundleKey(1, "b")];
    assert !EntryResolves(m, 1, "f", 100.0);
  }

  // ---------------------------------------------------------------- round trips

  /** Restoring a backup of a consistent store into an empty store rebuilds the store. */
  lemma RestoreOfBackup(t: Tables, user: int, now: int)
    requires WellKeyed(t) && RefIntegrity(t)
    ensures RestoreTables(Empty(), TakeBackup(t, user, now)) == Ok(t)
  {
    var b := TakeBackup(t, user, now);
    RestoreWeights(t, b.weight);
    RestoreFoods(t, b.food);
    RestoreSettings(t, b.userSettings);
    RestoreBundles(t, b.bundle);
    RestoreJournal(t, b.journal);
    RestoreSports(t, b.sport);
    RestoreActivities(t, b.sportActivity);
    var m := Merged(Empty(), b);
    assert m == t;
    forall i | 0 <= i < |b.journal| ensures MealFromOrdinal(b.journal[i].meal).Some? {
      assert b.journal[i] in b.journal;
    }
  }

  lemma RestoreWeights(t: Tables, s: seq<WeightBackup>)
    requires s == WeightRows(t)
    ensures Upsert(map[], MapSeq(s, WeightPair)) == t.weights
  {
    forall k | k in t.weights ensures exists a :: a in s && WeightPair(a).0 == k {
      assert WeightPair(WeightBackup(k.user, k.timestamp, t.weights[k])).0 == k;
    }
    RestoreListing(s, WeightPair, WeightRecordOrder, t.weights);
  }

  lemma RestoreFoods(t: Tables, s: seq<Food>)
    requires WellKeyed(t) && s == FoodRows(t)
    ensures Upsert(map[], MapSeq(s, FoodPair)) == t.foods
  {
    forall k | k in t.foods ensures exists a :: a in s && FoodPair(a).0 == k {
      assert FoodPair(t.foods[k]).0 == k;
    }
    RestoreListing(s, FoodPair, FoodRecordOrder, t.foods);
  }

  lemma RestoreSettings(t: Tables, s: seq<UserSettingsBackup>)
    requires s == SettingsRows(t)
    ensures Upsert(map[], MapSeq(s, SettingsPair)) == t.settings
  {
    forall k | k in t.settings ensures exists a :: a in s && SettingsPair(a).0 == k {
      assert SettingsPair(UserSettingsBackup(k, t.settings[k])).0 == k;
    }
    RestoreListing(s, SettingsPair, SettingsRecordOrder, t.settings);
  }

  lemma RestoreBundles(t: Tables, s: seq<BundleBackup>)
    requires s == BundleRows(t)
    ensures Upsert(map[], MapSeq(s, BundlePair)) == t.bundles
  {
    forall k | k in t.bundles ensures exists a :: a in s && BundlePair(a).0 == k {
      assert BundlePair(BundleBackup(k.user, k.key, t.bundles[k])).0 == k;
    }
    RestoreListing(s, BundlePair, BundleRecordOrder, t.bundles);
  }

  lemma RestoreJournal(t: Tables, s: seq<JournalBackup>)
    requires s == JournalRows(t)
    ensures Upsert(map[], MapSeq(s, JournalPair)) == t.journal
  {
    forall k | k in t.journal ensures exists a :: a in s && JournalPair(a).0 == k {
      var a := JournalRecord(t, k);
      assert JournalPair(a).0 == k;
    }
    forall a: JournalBackup, b: JournalBackup | a in s && b in s && JournalPair(a).0 == JournalPair(b).0 ensures JournalRecordOrder(a) == JournalRecordOrder(b) {
      MealDecodeExact(a.meal);
      MealDecodeExact(b.meal);
    }
    RestoreListing(s, JournalPair, JournalRecordOrder, t.journal);
  }

  lemma RestoreSports(t: Tables, s: seq<Sport>)
    requires WellKeyed(t) && s == SportRows(t)
    ensures Upsert(map[], MapSeq(s, SportPair)) == t.sports
  {
    forall k | k in t.sports ensures exists a :: a in s && SportPair(a).0 == k {
      assert SportPair(t.sports[k]).0 == k;
    }
    RestoreListing(s, SportPair, SportRecordOrder, t.sports);
  }

  lemma RestoreActivities(t: Tables, s: seq<SportActivityBackup>)
    requires s == ActivityRows(t)
    ensures Upsert(map[], MapSeq(s, ActivityPair)) == t.activities
  {
    forall k | k in t.activities ensures exists a :: a in s && ActivityPair(a).0 == k {
      assert ActivityPair(SportActivityBackup(k.user, k.sport, k.timestamp, t.activities[k])).0 == k;
    }
    RestoreListing(s, ActivityPair, ActivityRecordOrder, t.activities);
  }

  /** Backing up what a canonical snapshot restored into an empty store gives the snapshot
      back. */
  lemma BackupOfRestore(b: Backup, user: int)
    requires Canonical(b) && RestoreTables(Empty(), b).Ok?
    ensures WellKeyed(RestoreTables(Empty(), b).value)
    ensures TakeBackup(RestoreTables(Empty(), b).value, user, b.timestamp) == b
  {
    var m := Merged(Empty(), b);
    RestoreKeepsWellKeyed(Empty(), b);
    BackupWeights(b, m);
    BackupFoods(b, m);
    BackupSettings(b, m);
    BackupBundles(b, m);
    BackupJournal(b, m);
    BackupSports(b, m);
    BackupActivities(b, m);
  }

  lemma BackupWeights(b: Backup, t: Tables)
    requires SortedBy(b.weight, WeightRecordOrder) && t.weights == Upsert(map[], MapSeq(b.weight, WeightPair))
    ensures WeightRows(t) == b.weight
  {
    BackupListing(b.weight, WeightRows(t), WeightPair, WeightRecordOrder);
  }

  lemma BackupFoods(b: Backup, t: Tables)
    requires WellKeyed(t)
    requires SortedBy(b.food, FoodRecordOrder) && t.foods == Upsert(map[], MapSeq(b.food, FoodPair))
    ensures FoodRows(t) == b.food
  {
    BackupListing(b.food, FoodRows(t), FoodPair, FoodRecordOrder);
  }

  lemma BackupSettings(b: Backup, t: Tables)
    requires SortedBy(b.userSettings, SettingsRecordOrder) && t.settings == Upsert(map[], MapSeq(b.userSettings, SettingsPair))
    ensures SettingsRows(t) == b.userSettings
  {
    BackupListing(b.userSettings, SettingsRows(t), SettingsPair, SettingsRecordOrder);
  }

  lemma BackupBundles(b: Backup, t: Tables)
    requires SortedBy(b.bundle, BundleRecordOrder) && t.bundles == Upsert(map[], MapSeq(b.bundle, BundlePair))
    ensures BundleRows(t) == b.bundle
  {
    BackupListing(b.bundle, BundleRows(t), BundlePair, BundleRecordOrder);
  }

  /** Two journal records with decodable meals and the same table key agree on their order key,
      and on everything when their rows agree too. */
  lemma JournalPairDetermines(x: JournalBackup, y: JournalBackup)
    requires x.meal < 6 && y.meal < 6 && JournalPair(x).0 == JournalPair(y).0
    ensures JournalRecordOrder(x) == JournalRecordOrder(y)
    ensures JournalPair(x) == JournalPair(y) ==> x == y
  {
    MealDecodeExact(x.meal);
    MealDecodeExact(y.meal);
    assert MealOrdinal(DecodeMeal(x.meal)) == x.meal;
    assert MealOrdinal(DecodeMeal(y.meal)) == y.meal;
  }

  lemma BackupJournal(b: Backup, t: Tables)
    requires Canonical(b) && t.journal == Upsert(map[], MapSeq(b.journal, JournalPair))
    ensures JournalRows(t) == b.journal
  {
    var r := JournalRows(t);
    forall x: JournalBackup | x in b.journal ensures x.meal < 6 {
      var i :| 0 <= i < |b.journal| && b.journal[i] == x;
    }
    forall x: JournalBackup, y: JournalBackup | x in r && y in b.journal && JournalPair(x) == JournalPair(y)
      ensures x == y
    {
      JournalPairDetermines(x, y);
    }
    forall x: JournalBackup, y: JournalBackup | x in b.journal && y in b.journal && JournalPair(x).0 == JournalPair(y).0
      ensures JournalRecordOrder(x) == JournalRecordOrder(y)
    {
      JournalPairDetermines(x, y);
    }
    BackupListing(b.journal, r, JournalPair, JournalRecordOrder);
  }

  lemma BackupSports(b: Backup, t: Tables)
    requires WellKeyed(t)
    requires SortedBy(b.sport, SportRecordOrder) && t.sports == Upsert(map[], MapSeq(b.sport, SportPair))
    ensures SportRows(t) == b.sport
  {
    BackupListing(b.sport, SportRows(t), SportPair, SportRecordOrder);
  }

  lemma BackupActivities(b: Backup, t: Tables)
    requires SortedBy(b.sportActivity, ActivityRecordOrder) && t.activities == Upsert(map[], MapSeq(b.sportActivity, ActivityPair))
    ensures ActivityRows(t) == b.sportActivity
  {
    BackupListing(b.sportActivity, ActivityRows(t), ActivityPair, ActivityRecordOrder);
  }
}
