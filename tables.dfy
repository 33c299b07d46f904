/** The tables of the store as values, keyed by each family's natural key
    (lib/storage/src/lib.rs:11-92): foods and sports form a catalogue shared by all users;
    weights, settings, bundles, journal rows and sport activities belong to one user. The
    cross-table references and the checks that keep them resolvable live here too. */
module Tables {
  import opened Model
  import opened StoreErrors

  datatype WeightKey = WeightKey(user: int, timestamp: int)
  datatype BundleKey = BundleKey(user: int, key: string)
  datatype JournalKey = JournalKey(user: int, timestamp: int, meal: Meal, food: string)
  datatype ActivityKey = ActivityKey(user: int, timestamp: int, sport: string)

  datatype Tables = Tables(
    foods: map<string, Food>,
    sports: map<string, Sport>,
    weights: map<WeightKey, real>,
    settings: map<int, real>,
    bundles: map<BundleKey, map<string, real>>,
    journal: map<JournalKey, real>,
    activities: map<ActivityKey, seq<int>>)

  function Empty(): Tables {
    Tables(map[], map[], map[], map[], map[], map[], map[])
  }

  /** Catalogue rows are stored under their own key. */
  predicate WellKeyed(t: Tables) {
    && (forall k :: k in t.foods ==> t.foods[k].key == k)
    && (forall k :: k in t.sports ==> t.sports[k].key == k)
  }

  /** A bundle entry of user u resolves: 0 names a bundle of the same user, a positive value
      names a food. */
  predicate EntryResolves(t: Tables, u: int, k: string, v: real) {
    && (v == 0.0 ==> BundleKey(u, k) in t.bundles)
    && (v > 0.0 ==> k in t.foods)
  }

  predicate BundlesResolve(t: Tables) {
    forall bk, k :: bk in t.bundles && k in t.bundles[bk] ==> EntryResolves(t, bk.user, k, t.bundles[bk][k])
  }

  /** Referential integrity: every bundle entry, journal row and sport activity names a row
      that exists. (Acyclicity of bundle nesting is not part of it.) */
  predicate RefIntegrity(t: Tables) {
    BundlesResolve(t) && ForeignKeysHold(t)
  }

  /** The references the store's foreign keys enforce: journal rows name foods and activities
      name sports. */
  predicate ForeignKeysHold(t: Tables) {
    && (forall jk :: jk in t.journal ==> jk.food in t.foods)
    && (forall ak :: ak in t.activities ==> ak.sport in t.sports)
  }

  /** Some bundle entry (of any user) or journal row refers to the food. */
  predicate FoodUsed(t: Tables, key: string) {
    || (exists bk :: bk in t.bundles && key in t.bundles[bk] && t.bundles[bk][key] > 0.0)
    || (exists jk :: jk in t.journal && jk.food == key)
  }

  /** Some bundle of the same user, the bundle itself included, names the bundle as a nested
      child. */
  predicate BundleUsed(t: Tables, u: int, key: string) {
    exists bk :: bk in t.bundles && bk.user == u && key in t.bundles[bk] && t.bundles[bk][key] == 0.0
  }

  /** Some activity (of any user) refers to the sport. */
  predicate SportUsed(t: Tables, key: string) {
    exists ak :: ak in t.activities && ak.sport == key
  }

  // ---------------------------------------------------------------- bundle dependencies

  /** The dependency error one entry (k, v) of bundle bkey raises when user u writes it. */
  function EntryError(t: Tables, u: int, bkey: string, k: string, v: real): Option<StorageError> {
    if v == 0.0 && k == bkey then Some(BundleDepRecursive)
    else if v == 0.0 && BundleKey(u, k) !in t.bundles then Some(BundleDepBundleNotFound)
    else if v > 0.0 && k !in t.foods then Some(BundleDepFoodNotFound)
    else None
  }

  /** The kinds the entries of b raise. Which of them set_bundle reports depends on the order
      in which it walks the entries, which the source leaves to the hash map. */
  function DepErrors(t: Tables, u: int, b: Bundle): set<StorageError> {
    set k | k in b.data && EntryError(t, u, b.key, k, b.data[k]).Some? :: EntryError(t, u, b.key, k, b.data[k]).value
  }

  /** The dependency pass of set_bundle: walks the entries and stops at the first that raises. */
  method CheckBundleDeps(t: Tables, u: int, b: Bundle) returns (err: Option<StorageError>)
    ensures err.None? <==> DepErrors(t, u, b) == {}
    ensures err.Some? ==> err.value in DepErrors(t, u, b)
  {
    var rest := b.data.Keys;
    while rest != {}
      invariant rest <= b.data.Keys
      invariant forall k :: k in b.data && k !in rest ==> EntryError(t, u, b.key, k, b.data[k]).None?
      decreases rest
    {
      var k :| k in rest;
      var e := EntryError(t, u, b.key, k, b.data[k]);
      if e.Some? {
        assert e.value in DepErrors(t, u, b);
        return e;
      }
      rest := rest - {k};
    }
    err := None;
  }

  /** The three dependency errors and when each is possible. */
  lemma DepErrorCauses(t: Tables, u: int, b: Bundle)
    ensures BundleDepRecursive in DepErrors(t, u, b) <==> b.key in b.data && b.data[b.key] == 0.0
    ensures BundleDepBundleNotFound in DepErrors(t, u, b) <==>
      exists k :: k in b.data && b.data[k] == 0.0 && k != b.key && BundleKey(u, k) !in t.bundles
    ensures BundleDepFoodNotFound in DepErrors(t, u, b) <==>
      exists k :: k in b.data && b.data[k] > 0.0 && k !in t.foods
    ensures DepErrors(t, u, b) <= {BundleDepRecursive, BundleDepBundleNotFound, BundleDepFoodNotFound}
  {
    if b.key in b.data && b.data[b.key] == 0.0 {
      assert EntryError(t, u, b.key, b.key, b.data[b.key]) == Some(BundleDepRecursive);
    }
    if exists k :: k in b.data && b.data[k] == 0.0 && k != b.key && BundleKey(u, k) !in t.bundles {
      var k :| k in b.data && b.data[k] == 0.0 && k != b.key && BundleKey(u, k) !in t.bundles;
      assert EntryError(t, u, b.key, k, b.data[k]) == Some(BundleDepBundleNotFound);
    }
    if exists k :: k in b.data && b.data[k] > 0.0 && k !in t.foods {
      var k :| k in b.data && b.data[k] > 0.0 && k !in t.foods;
      assert EntryError(t, u, b.key, k, b.data[k]) == Some(BundleDepFoodNotFound);
    }
  }

  /** A bundle whose entries raise nothing resolves against the tables it is written into. */
  lemma AcceptedBundleResolves(t: Tables, u: int, b: Bundle)
    requires DepErrors(t, u, b) == {}
    ensures forall k :: k in b.data && b.data[k] >= 0.0 ==>
      EntryResolves(t.(bundles := t.bundles[BundleKey(u, b.key) := b.data]), u, k, b.data[k])
  {
    forall k | k in b.data && b.data[k] >= 0.0
      ensures EntryResolves(t.(bundles := t.bundles[BundleKey(u, b.key) := b.data]), u, k, b.data[k])
    {
      EntryErrorRaises(t, u, b, k);
    }
  }

  /** A bundle with one entry raises exactly that entry's error, if any. */
  lemma SingleEntryDepErrors(t: Tables, u: int, key: string, k: string, v: real)
    ensures var e := EntryError(t, u, key, k, v);
      DepErrors(t, u, Bundle(key, map[k := v])) == if e.Some? then {e.value} else {}
  {
    var b := Bundle(key, map[k := v]);
    assert k in b.data && b.data[k] == v;
    assert forall j :: j in b.data ==> j == k;
  }

  /** A bundle with two entries raises the errors of those two entries. */
  lemma TwoEntryDepErrors(t: Tables, u: int, key: string, k1: string, v1: real, k2: string, v2: real)
    requires k1 != k2
    ensures var e1, e2 := EntryError(t, u, key, k1, v1), EntryError(t, u, key, k2, v2);
      DepErrors(t, u, Bundle(key, map[k1 := v1, k2 := v2])) ==
        (if e1.Some? then {e1.value} else {}) + (if e2.Some? then {e2.value} else {})
  {
    var b := Bundle(key, map[k1 := v1, k2 := v2]);
    assert k1 in b.data && b.data[k1] == v1;
    assert k2 in b.data && b.data[k2] == v2;
    assert forall j :: j in b.data ==> j == k1 || j == k2;
  }

  /** An entry that raises contributes its kind to DepErrors. */
  lemma EntryErrorRaises(t: Tables, u: int, b: Bundle, k: string)
    requires k in b.data
    ensures EntryError(t, u, b.key, k, b.data[k]).Some? ==>
      EntryError(t, u, b.key, k, b.data[k]).value in DepErrors(t, u, b)
  {
  }

  // ---------------------------------------------------------------- reference scans

  /** The delete_food scan over all bundles: does an entry with a positive weight name the food? */
  method ScanBundlesForFood(bundles: map<BundleKey, map<string, real>>, key: string) returns (used: bool)
    ensures used <==> exists bk :: bk in bundles && key in bundles[bk] && bundles[bk][key] > 0.0
  {
    var rest := bundles.Keys;
    while rest != {}
      invariant rest <= bundles.Keys
      invariant forall bk :: bk in bundles && bk !in rest ==> !(key in bundles[bk] && bundles[bk][key] > 0.0)
      decreases rest
    {
      var bk :| bk in rest;
      if key in bundles[bk] && bundles[bk][key] > 0.0 {
        return true;
      }
      rest := rest - {bk};
    }
    return false;
  }

  /** The delete_bundle scan over the user's bundles: does one name the bundle as a child? */
  method ScanBundlesForChild(bundles: map<BundleKey, map<string, real>>, u: int, key: string) returns (used: bool)
    ensures used <==> exists bk :: bk in bundles && bk.user == u && key in bundles[bk] && bundles[bk][key] == 0.0
  {
    var rest := bundles.Keys;
    while rest != {}
      invariant rest <= bundles.Keys
      invariant forall bk :: bk in bundles && bk !in rest ==>
        !(bk.user == u && key in bundles[bk] && bundles[bk][key] == 0.0)
      decreases rest
    {
      var bk :| bk in rest;
      if bk.user == u && key in bundles[bk] && bundles[bk][key] == 0.0 {
        return true;
      }
      rest := rest - {bk};
    }
    return false;
  }

  /** The delete_sport scan over all activities: does one use the sport? */
  method ScanActivitiesForSport(activities: map<ActivityKey, seq<int>>, key: string) returns (used: bool)
    ensures used <==> exists ak :: ak in activities && ak.sport == key
  {
    var rest := activities.Keys;
    while rest != {}
      invariant rest <= activities.Keys
      invariant forall ak :: ak in activities && ak !in rest ==> ak.sport != key
      decreases rest
    {
      var ak :| ak in rest;
      if ak.sport == key {
        return true;
      }
      rest := rest - {ak};
    }
    return false;
  }

  // ---------------------------------------------------------------- writes keep integrity

  /** Upserting a catalogue row, a weight or a setting never breaks a reference. */
  lemma CatalogueUpsertKeepsIntegrity(t: Tables, f: Food, s: Sport, w: WeightKey, wv: real, u: int, limit: real)
    requires RefIntegrity(t)
    ensures RefIntegrity(t.(foods := t.foods[f.key := f]))
    ensures RefIntegrity(t.(sports := t.sports[s.key := s]))
    ensures RefIntegrity(t.(weights := t.weights[w := wv]))
    ensures RefIntegrity(t.(settings := t.settings[u := limit]))
  {
    var t1 := t.(foods := t.foods[f.key := f]);
    assert BundlesResolve(t1) by {
      forall bk, k | bk in t1.bundles && k in t1.bundles[bk]
        ensures EntryResolves(t1, bk.user, k, t1.bundles[bk][k])
      {
        assert EntryResolves(t, bk.user, k, t.bundles[bk][k]);
      }
    }
  }

  /** A bundle accepted by the dependency pass keeps every reference resolvable, including
      those of other bundles naming the one it replaces. */
  lemma BundleUpsertKeepsIntegrity(t: Tables, u: int, b: Bundle)
    requires RefIntegrity(t) && BundleValid(b) && DepErrors(t, u, b) == {}
    ensures RefIntegrity(t.(bundles := t.bundles[BundleKey(u, b.key) := b.data]))
  {
    var bk0 := BundleKey(u, b.key);
    var t1 := t.(bundles := t.bundles[bk0 := b.data]);
    AcceptedBundleResolves(t, u, b);
    forall bk, k | bk in t1.bundles && k in t1.bundles[bk]
      ensures EntryResolves(t1, bk.user, k, t1.bundles[bk][k])
    {
      if bk != bk0 {
        assert EntryResolves(t, bk.user, k, t.bundles[bk][k]);
      }
    }
  }

  /** A journal row or activity naming an existing food or sport keeps integrity. */
  lemma RowInsertKeepsIntegrity(t: Tables, jk: JournalKey, w: real, ak: ActivityKey, sets: seq<int>)
    requires RefIntegrity(t)
    ensures jk.food in t.foods ==> RefIntegrity(t.(journal := t.journal[jk := w]))
    ensures ak.sport in t.sports ==> RefIntegrity(t.(activities := t.activities[ak := sets]))
  {
  }

  /** Inserting several journal rows that all name existing foods keeps integrity. */
  lemma JournalRowsKeepIntegrity(t: Tables, rows: map<JournalKey, real>)
    requires RefIntegrity(t)
    requires forall jk :: jk in rows ==> jk.food in t.foods
    ensures RefIntegrity(t.(journal := t.journal + rows))
  {
  }

  /** Removing journal rows, activities, weights or settings never breaks a reference. */
  lemma RowRemovalKeepsIntegrity(t: Tables, js: set<JournalKey>, as_: set<ActivityKey>, ws: set<WeightKey>)
    requires RefIntegrity(t)
    ensures RefIntegrity(t.(journal := t.journal - js, activities := t.activities - as_, weights := t.weights - ws))
  {
  }

  /** Deleting an unused food, child-free bundle or unused sport keeps integrity. */
  lemma DeleteUnusedKeepsIntegrity(t: Tables, food: string, u: int, bundle: string, sport: string)
    requires RefIntegrity(t)
    ensures !FoodUsed(t, food) ==> RefIntegrity(t.(foods := t.foods - {food}))
    ensures !BundleUsed(t, u, bundle) ==> RefIntegrity(t.(bundles := t.bundles - {BundleKey(u, bundle)}))
    ensures !SportUsed(t, sport) ==> RefIntegrity(t.(sports := t.sports - {sport}))
  {
    if !FoodUsed(t, food) {
      var t1 := t.(foods := t.foods - {food});
      forall bk, k | bk in t1.bundles && k in t1.bundles[bk]
        ensures EntryResolves(t1, bk.user, k, t1.bundles[bk][k])
      {
        assert EntryResolves(t, bk.user, k, t.bundles[bk][k]);
      }
    }
    if !BundleUsed(t, u, bundle) {
      var t1 := t.(bundles := t.bundles - {BundleKey(u, bundle)});
      forall bk, k | bk in t1.bundles && k in t1.bundles[bk]
        ensures EntryResolves(t1, bk.user, k, t1.bundles[bk][k])
      {
        assert EntryResolves(t, bk.user, k, t.bundles[bk][k]);
      }
    }
  }

  /** Conversely, deleting a food, bundle or sport that is still referenced would leave a
      dangling reference: the refusals are necessary, not merely cautious. */
  lemma DeleteUsedBreaksIntegrity(t: Tables, food: string, u: int, bundle: string, sport: string)
    ensures FoodUsed(t, food) ==> !RefIntegrity(t.(foods := t.foods - {food}))
    ensures BundleUsed(t, u, bundle) && BundleKey(u, bundle) in t.bundles &&
      (exists bk :: bk in t.bundles && bk != BundleKey(u, bundle) && bk.user == u &&
         bundle in t.bundles[bk] && t.bundles[bk][bundle] == 0.0)
      ==> !RefIntegrity(t.(bundles := t.bundles - {BundleKey(u, bundle)}))
    ensures SportUsed(t, sport) ==> !RefIntegrity(t.(sports := t.sports - {sport}))
  {
    if FoodUsed(t, food) {
      var t1 := t.(foods := t.foods - {food});
      if exists bk :: bk in t.bundles && food in t.bundles[bk] && t.bundles[bk][food] > 0.0 {
        var bk :| bk in t.bundles && food in t.bundles[bk] && t.bundles[bk][food] > 0.0;
        assert !EntryResolves(t1, bk.user, food, t1.bundles[bk][food]);
      } else {
        var jk :| jk in t.journal && jk.food == food;
        assert jk in t1.journal;
      }
    }
    if BundleUsed(t, u, bundle) && BundleKey(u, bundle) in t.bundles &&
      (exists bk :: bk in t.bundles && bk != BundleKey(u, bundle) && bk.user == u &&
         bundle in t.bundles[bk] && t.bundles[bk][bundle] == 0.0)
    {
      var t1 := t.(bundles := t.bundles - {BundleKey(u, bundle)});
      var bk :| bk in t.bundles && bk != BundleKey(u, bundle) && bk.user == u &&
        bundle in t.bundles[bk] && t.bundles[bk][bundle] == 0.0;
      assert bk in t1.bundles;
      assert !EntryResolves(t1, bk.user, bundle, t1.bundles[bk][bundle]);
    }
  }
}
