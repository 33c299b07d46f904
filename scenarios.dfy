/** Sequences of store calls from lib/storage/src/storage_sqlite/test.rs, replayed against the
    store's contracts: each method drives a fresh store and its ensures state what the test
    expects to observe. */
module Scenarios {
  import opened Model
  import opened StoreErrors
  import opened Tables
  import opened Resolver
  import opened Queries
  import opened Store
  import opened Ordering

  function SampleFood(key: string): Food {
    Food(key, "name", "brand", 1.1, 2.2, 3.3, 4.4, "comment")
  }

  /** set_bundle: the three invalid bundles, then each dependency error in turn. */
  method SetBundleErrors() returns (invalid: seq<Result<()>>, recursive: Result<()>, noBundle: Result<()>, noFood: Result<()>)
    ensures invalid == [Fail(BundleInvalid), Fail(BundleInvalid), Fail(BundleInvalid)]
    ensures recursive == Fail(BundleDepRecursive)
    ensures noBundle == Fail(BundleDepBundleNotFound)
    ensures noFood == Fail(BundleDepFoodNotFound)
  {
    var s := new Store();
    var r1 := s.SetBundle(1, Bundle("", map[]));
    var r2 := s.SetBundle(1, Bundle("key", map[]));
    var bad := Bundle("key", map["food1" := -1.0]);
    assert "food1" in bad.data && !BundleValid(bad);
    var r3 := s.SetBundle(1, bad);
    invalid := [r1, r2, r3];
    assert s.State() == Empty();
    var self := Bundle("bndl_key", map["bndl_key" := 0.0]);
    assert "bndl_key" in self.data && BundleValid(self);
    SingleEntryDepErrors(Empty(), 1, "bndl_key", "bndl_key", 0.0);
    assert DepErrors(Empty(), 1, self) == {BundleDepRecursive};
    recursive := s.SetBundle(1, self);
    assert s.State() == Empty();
    var orphan := Bundle("bndl_key", map["bndl_key2" := 0.0]);
    assert "bndl_key2" in orphan.data && BundleValid(orphan);
    SingleEntryDepErrors(Empty(), 1, "bndl_key", "bndl_key2", 0.0);
    assert DepErrors(Empty(), 1, orphan) == {BundleDepBundleNotFound};
    noBundle := s.SetBundle(1, orphan);
    assert s.State() == Empty();
    var missing := Bundle("bndl_key", map["food_key" := 1.0]);
    assert "food_key" in missing.data && BundleValid(missing);
    SingleEntryDepErrors(Empty(), 1, "bndl_key", "food_key", 1.0);
    assert DepErrors(Empty(), 1, missing) == {BundleDepFoodNotFound};
    noFood := s.SetBundle(1, missing);
  }

  /** The tables the set_journal_bundle test builds: two foods, bndl2 = {food2: 123.123} and
      bndl1 = {food: 456.456, bndl2: 0}, all of user 1. */
  function NestedTables(): Tables {
    Tables(
      map["food" := SampleFood("food"), "food2" := SampleFood("food2")],
      map[], map[], map[],
      map[BundleKey(1, "bndl2") := map["food2" := 123.123],
          BundleKey(1, "bndl1") := map["food" := 456.456, "bndl2" := 0.0]],
      map[], map[])
  }

  method NestedFixture() returns (s: Store)
    ensures fresh(s) && s.State() == NestedTables() && s.Consistent()
  {
    s := new Store();
    var ok := s.SetFood(SampleFood("food"));
    ok := s.SetFood(SampleFood("food2"));
    var foods := NestedTables().foods;
    assert s.State() == Empty().(foods := foods);
    SingleEntryDepErrors(s.State(), 1, "bndl2", "food2", 123.123);
    assert EntryError(s.State(), 1, "bndl2", "food2", 123.123) == None;
    var b2 := Bundle("bndl2", map["food2" := 123.123]);
    assert "food2" in b2.data && BundleValid(b2);
    ok := s.SetBundle(1, b2);
    assert s.State() == Empty().(foods := foods, bundles := map[BundleKey(1, "bndl2") := map["food2" := 123.123]]);
    TwoEntryDepErrors(s.State(), 1, "bndl1", "food", 456.456, "bndl2", 0.0);
    assert EntryError(s.State(), 1, "bndl1", "food", 456.456) == None;
    assert EntryError(s.State(), 1, "bndl1", "bndl2", 0.0) == None;
    var b1 := Bundle("bndl1", map["food" := 456.456, "bndl2" := 0.0]);
    assert "food" in b1.data && BundleValid(b1);
    ok := s.SetBundle(1, b1);
    assert s.State() == NestedTables();
  }

  /** set_journal_bundle: an absent bundle is BundleNotFound; bndl1 writes exactly the rows
      (food, 456.456) and (food2, 123.123) in the slot. */
  method JournalFromBundle() returns (missing: Result<()>, r: Result<()>, rows: map<JournalKey, real>)
    ensures missing == Fail(BundleNotFound)
    ensures r == Ok(())
    ensures rows == map[JournalKey(1, 1, Breakfast, "food") := 456.456, JournalKey(1, 1, Breakfast, "food2") := 123.123]
  {
    var s := NestedFixture();
    ghost var written, visited;
    assert BundleKey(1, "test") !in s.bundles;
    missing, written, visited := s.SetJournalBundle(1, 1, Breakfast, "test");
    assert s.State() == NestedTables() && s.Consistent();
    assert BundleKey(1, "bndl1") in s.bundles;
    r, written, visited := s.SetJournalBundle(1, 1, Breakfast, "bndl1");
    assert r == Ok(());
    assert s.journal == map[] + SlotRows(1, 1, Breakfast, written);
    NestedExpansion(NestedTables(), written, visited);
    NestedRows();
    rows := s.journal;
  }

  lemma NestedRows()
    ensures SlotRows(1, 1, Breakfast, map["food" := 456.456, "food2" := 123.123])
      == map[JournalKey(1, 1, Breakfast, "food") := 456.456, JournalKey(1, 1, Breakfast, "food2") := 123.123]
  {
  }

  /** The expansion of bndl1 in the tables of JournalFromBundle. */
  lemma NestedExpansion(t: Tables, written: map<string, real>, visited: set<string>)
    requires t.bundles == map[BundleKey(1, "bndl2") := map["food2" := 123.123],
                              BundleKey(1, "bndl1") := map["food" := 456.456, "bndl2" := 0.0]]
    requires ExpandsTo(t, 1, "bndl1", written, visited)
    ensures written == map["food" := 456.456, "food2" := 123.123]
  {
    var d1 := map["food" := 456.456, "bndl2" := 0.0];
    var d2 := map["food2" := 123.123];
    assert ZeroChildren(d1) == {"bndl2"} && Positives(d1) == {"food"};
    assert ZeroChildren(d2) == {} && Positives(d2) == {"food2"};
    var all := {"bndl1", "bndl2"};
    assert Closed(t.bundles, 1, all);
    assert visited <= all;
    assert "bndl2" in visited by {
      assert "bndl2" in ZeroChildren(t.bundles[BundleKey(1, "bndl1")]);
    }
    assert visited == all;
    assert Sources(t.bundles, 1, visited, "food") == {"bndl1"};
    assert Sources(t.bundles, 1, visited, "food2") == {"bndl2"};
    assert written.Keys == {"food", "food2"};
  }

  /** delete_food: refused while a bundle lists the food; an unused food is deleted. */
  method DeleteFoodInBundle() returns (used: Result<()>, unused: Result<()>)
    ensures used == Fail(FoodIsUsed)
    ensures unused == Ok(())
  {
    var s := new Store();
    var ok := s.SetFood(SampleFood("key1"));
    ok := s.SetFood(SampleFood("key2"));
    SingleEntryDepErrors(s.State(), 1, "bndl_key", "key1", 123.123);
    var b := Bundle("bndl_key", map["key1" := 123.123]);
    assert "key1" in b.data && BundleValid(b);
    ok := s.SetBundle(1, b);
    assert s.bundles == map[BundleKey(1, "bndl_key") := map["key1" := 123.123]];
    assert s.journal == map[];
    assert "key1" in s.bundles[BundleKey(1, "bndl_key")];
    used := s.DeleteFood("key1");
    unused := s.DeleteFood("key2");
  }

  /** The tables the delete_bundle test builds: bndl_key nests bndl_key_2, both list food_key. */
  function ParentChildTables(): Tables {
    Tables(
      map["food_key" := SampleFood("food_key")],
      map[], map[], map[],
      map[BundleKey(1, "bndl_key_2") := map["food_key" := 123.123],
          BundleKey(1, "bndl_key") := map["food_key" := 123.123, "bndl_key_2" := 0.0]],
      map[], map[])
  }

  method ParentChildFixture() returns (s: Store)
    ensures fresh(s) && s.State() == ParentChildTables()
  {
    s := new Store();
    var ok := s.SetFood(SampleFood("food_key"));
    var foods := ParentChildTables().foods;
    assert s.State() == Empty().(foods := foods);
    SingleEntryDepErrors(s.State(), 1, "bndl_key_2", "food_key", 123.123);
    assert EntryError(s.State(), 1, "bndl_key_2", "food_key", 123.123) == None;
    var child := Bundle("bndl_key_2", map["food_key" := 123.123]);
    assert "food_key" in child.data && BundleValid(child);
    ok := s.SetBundle(1, child);
    assert s.State() == Empty().(foods := foods, bundles := map[BundleKey(1, "bndl_key_2") := map["food_key" := 123.123]]);
    TwoEntryDepErrors(s.State(), 1, "bndl_key", "food_key", 123.123, "bndl_key_2", 0.0);
    assert EntryError(s.State(), 1, "bndl_key", "food_key", 123.123) == None;
    assert EntryError(s.State(), 1, "bndl_key", "bndl_key_2", 0.0) == None;
    var parent := Bundle("bndl_key", map["food_key" := 123.123, "bndl_key_2" := 0.0]);
    assert "food_key" in parent.data && BundleValid(parent);
    ok := s.SetBundle(1, parent);
    assert s.State() == ParentChildTables();
  }

  /** delete_bundle: refused while a bundle nests it; the parent and then the child are
      deleted. */
  method DeleteNestedBundle() returns (used: Result<()>, parent: Result<()>, child: Result<()>, left: map<BundleKey, map<string, real>>)
    ensures used == Fail(BundleIsUsed)
    ensures parent == Ok(()) && child == Ok(())
    ensures left == map[]
  {
    var s := ParentChildFixture();
    assert "bndl_key_2" in s.bundles[BundleKey(1, "bndl_key")];
    used := s.DeleteBundle(1, "bndl_key_2");
    assert !BundleUsed(s.State(), 1, "bndl_key");
    parent := s.DeleteBundle(1, "bndl_key");
    assert s.bundles == map[BundleKey(1, "bndl_key_2") := map["food_key" := 123.123]];
    child := s.DeleteBundle(1, "bndl_key_2");
    left := s.bundles;
  }

  /** delete_sport: refused while an activity uses the sport, allowed once it is deleted. */
  method DeleteSportInUse() returns (used: Result<()>, afterwards: Result<()>)
    ensures used == Fail(SportIsUsedViolation)
    ensures afterwards == Ok(())
  {
    var s := new Store();
    var ok := s.SetSport(Sport("sport1", "Sport 1", ""));
    ok := s.SetSportActivity(1, SportActivity("sport1", 1, [1]));
    assert ActivityKey(1, 1, "sport1") in s.activities;
    used := s.DeleteSport("sport1");
    ok := s.DeleteSportActivity(1, 1, "sport1");
    assert s.activities == map[];
    afterwards := s.DeleteSport("sport1");
  }

  /** set_journal: two invalid rows, a row naming an absent food, then one stored row with
      meal ordinal 0. */
  method SetJournalChecks() returns (invalid: seq<Result<()>>, noFood: Result<()>, stored: Result<()>, rows: map<JournalKey, real>)
    ensures invalid == [Fail(JournalInvalid), Fail(JournalInvalid)]
    ensures noFood == Fail(FoodNotFound)
    ensures stored == Ok(())
    ensures rows == map[JournalKey(1, 1, Breakfast, "food") := 1.0]
    ensures MealOrdinal(Breakfast) == 0
  {
    var s := new Store();
    var r1 := s.SetJournal(1, Journal(1, Breakfast, "", 0.0));
    var r2 := s.SetJournal(1, Journal(1, Breakfast, "food", 0.0));
    invalid := [r1, r2];
    noFood := s.SetJournal(1, Journal(1, Breakfast, "food", 1.0));
    var ok := s.SetFood(Food("food", "name", "brand", 1.1, 2.2, 3.3, 4.4, "comment"));
    stored := s.SetJournal(1, Journal(1, Breakfast, "food", 1.0));
    rows := s.journal;
  }

  /** Two foods and three journal rows: breakfast food, dinner food and dinner food2. */
  function JournalRowsTables(): Tables {
    Tables(
      map["food" := SampleFood("food"), "food2" := SampleFood("food2")],
      map[], map[], map[], map[],
      map[JournalKey(1, 1, Breakfast, "food") := 1.0, JournalKey(1, 1, Dinner, "food") := 1.0,
          JournalKey(1, 1, Dinner, "food2") := 2.0],
      map[])
  }

  method JournalRowsFixture() returns (s: Store)
    ensures fresh(s) && s.State() == JournalRowsTables()
  {
    s := new Store();
    var ok := s.SetFood(SampleFood("food"));
    ok := s.SetFood(SampleFood("food2"));
    assert s.foods == JournalRowsTables().foods;
    ok := s.SetJournal(1, Journal(1, Breakfast, "food", 1.0));
    ok := s.SetJournal(1, Journal(1, Dinner, "food", 1.0));
    ok := s.SetJournal(1, Journal(1, Dinner, "food2", 2.0));
    assert s.journal == JournalRowsTables().journal;
  }

  /** delete_journal removes one row; delete_journal_meal removes the rest of the slot. */
  method DeleteJournalRows() returns (rows: map<JournalKey, real>)
    ensures rows == map[]
  {
    var s := JournalRowsFixture();
    var ok := s.DeleteJournal(1, 1, Breakfast, "food");
    assert s.journal == map[JournalKey(1, 1, Dinner, "food") := 1.0, JournalKey(1, 1, Dinner, "food2") := 2.0];
    ok := s.DeleteJournalMeal(1, 1, Dinner);
    rows := s.journal;
    assert rows.Keys == {};
  }

  /** set_sport_activity: empty sets, then an absent sport (SportInvalid), then a stored
      activity whose second write replaces its sets. */
  method SetSportActivityChecks() returns (invalid: Result<()>, noSport: Result<()>, rows: map<ActivityKey, seq<int>>)
    ensures invalid == Fail(SportActivityInvalid)
    ensures noSport == Fail(SportInvalid)
    ensures rows == map[ActivityKey(1, 1, "test") := [1, 2, 3]]
  {
    var s := new Store();
    invalid := s.SetSportActivity(1, SportActivity("test", 1, []));
    noSport := s.SetSportActivity(1, SportActivity("test", 1, [1, 2, 3]));
    var ok := s.SetSport(Sport("test", "test", ""));
    ok := s.SetSportActivity(1, SportActivity("test", 1, [1]));
    ok := s.SetSportActivity(1, SportActivity("test", 1, [1, 2, 3]));
    rows := s.activities;
  }

  /** set_weight is an upsert on (user, timestamp): a second write replaces the value, and a
      weight of 0 is refused. */
  method WeightUpsert() returns (zero: Result<()>, rows: map<WeightKey, real>, listed: Result<seq<Weight>>)
    ensures zero == Fail(WeightInvalid)
    ensures rows == map[WeightKey(1, 1) := 71.0]
    ensures listed == Ok([Weight(1, 71.0)])
  {
    var s := new Store();
    zero := s.SetWeight(1, Weight(1, 0.0));
    var ok := s.SetWeight(1, Weight(1, 70.5));
    ok := s.SetWeight(1, Weight(1, 71.0));
    rows := s.weights;
    listed := GetWeightList(s.State(), 1, 0, 10);
    SingleWeightListed(s.State(), listed);
  }

  lemma SingleWeightListed(t: Tables, listed: Result<seq<Weight>>)
    requires t.weights == map[WeightKey(1, 1) := 71.0]
    requires listed == GetWeightList(t, 1, 0, 10)
    ensures listed == Ok([Weight(1, 71.0)])
  {
    assert Weight(1, 71.0) in WeightsIn(t, 1, 0, 10);
    var l := listed.value;
    assert forall w :: w in l <==> w in [Weight(1, 71.0)];
    SortedUnique(l, [Weight(1, 71.0)], WeightOrder);
  }

  /** After set_food, get_food returns the food; a second set replaces every field. */
  method FoodRoundTrip(f: Food, g: Food) returns (first: Result<Food>, second: Result<Food>)
    requires FoodValid(f) && FoodValid(g) && f.key == g.key
    ensures first == Ok(f) && second == Ok(g)
  {
    var s := new Store();
    var ok := s.SetFood(f);
    first := GetFood(s.State(), f.key);
    ok := s.SetFood(g);
    second := GetFood(s.State(), f.key);
  }
}
