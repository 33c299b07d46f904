/** The store (lib/storage/src/lib.rs:11-92) as an object whose tables its write operations
    update in place. Read operations are the functions of Queries and Snapshot applied to
    State(); the writes below validate, check references and upsert or delete. A failed write
    leaves every table as it was. */
module Store {
  import opened Model
  import opened StoreErrors
  import opened Tables
  import opened Resolver
  import opened Snapshot

  /** The journal rows set_journal_bundle writes for the expanded food weights m. */
  function SlotRows(u: int, ts: int, meal: Meal, m: map<string, real>): (rows: map<JournalKey, real>)
    ensures forall jk :: jk in rows <==> jk.user == u && jk.timestamp == ts && jk.meal == meal && jk.food in m
    ensures forall jk :: jk in rows ==> rows[jk] == m[jk.food]
  {
    map f | f in m :: JournalKey(u, ts, meal, f) := m[f]
  }

  /** Upserting the rows of one snapshot family, one statement per row. */
  method UpsertRows<K, V>(m: map<K, V>, rows: seq<(K, V)>) returns (r: map<K, V>)
    ensures r == Upsert(m, rows)
  {
    r := m;
    for i := 0 to |rows|
      invariant r == Upsert(m, rows[..i])
    {
      assert rows[..i + 1][..i] == rows[..i];
      r := r[rows[i].0 := rows[i].1];
    }
    assert rows[..|rows|] == rows;
  }

  /** What a successful expansion of bundle key of user u delivered: the food weights of the
      bundles it visited, which are exactly those nested under key, all existing and positive, with the weight of a
      food that only one visited bundle names taken from that bundle. */
  ghost predicate ExpandsTo(t: Tables, u: int, key: string, written: map<string, real>, visited: set<string>) {
    && key in visited && Closed(t.bundles, u, visited) && Reachable(t.bundles, u, key, visited)
    && written.Keys == FoodsOf(t.bundles, u, visited)
    && (forall f :: f in written ==> f in t.foods && written[f] > 0.0)
    && (forall f, c :: f in written && Sources(t.bundles, u, visited, f) == {c} ==>
          written[f] == t.bundles[BundleKey(u, c)][f])
  }

  /** The expansion step of set_journal_bundle: the bundle's foods with their weights, or the
      first missing bundle or food. A store whose bundles all resolve always expands. */
  method ExpandBundle(t: Tables, u: int, key: string)
    returns (r: Result<map<string, real>>, ghost visited: set<string>)
    ensures BundleKey(u, key) !in t.bundles ==> r == Fail(BundleNotFound)
    ensures RefIntegrity(t) && BundleKey(u, key) in t.bundles ==> r.Ok?
    ensures r.Err? ==> r == Fail(BundleNotFound) || r == Fail(FoodNotFound)
    ensures r.Ok? ==> ExpandsTo(t, u, key, r.value, visited)
  {
    r, visited := Resolve(t, u, key);
  }

  /** The loop of set_journal_bundle: one upsert per expanded food, in any order. */
  method WriteSlot(j0: map<JournalKey, real>, u: int, ts: int, meal: Meal, m: map<string, real>)
    returns (acc: map<JournalKey, real>)
    ensures acc == j0 + SlotRows(u, ts, meal, m)
  {
    acc := j0;
    var rest := m.Keys;
    while rest != {}
      invariant rest <= m.Keys
      invariant acc == j0 + SlotRows(u, ts, meal, m - rest)
      decreases rest
    {
      var f :| f in rest;
      SlotRowsGrow(u, ts, meal, m, rest, f);
      MergeUpdate(j0, SlotRows(u, ts, meal, m - rest), JournalKey(u, ts, meal, f), m[f]);
      acc := acc[JournalKey(u, ts, meal, f) := m[f]];
      rest := rest - {f};
    }
    assert m - {} == m;
  }

  lemma MergeUpdate<K, V>(a: map<K, V>, b: map<K, V>, k: K, v: V)
    ensures (a + b)[k := v] == a + b[k := v]
  {
  }

  lemma SlotRowsGrow(u: int, ts: int, meal: Meal, m: map<string, real>, rest: set<string>, f: string)
    requires f in rest && rest <= m.Keys
    ensures SlotRows(u, ts, meal, m - (rest - {f})) == SlotRows(u, ts, meal, m - rest)[JournalKey(u, ts, meal, f) := m[f]]
  {
  }

  /** The work of restore before it commits: decode every journal meal, upsert each family in
      turn, then check the journal's and the activities' foreign keys. */
  method MergeSnapshot(t: Tables, b: Backup) returns (r: Result<Tables>)
    ensures r == RestoreTables(t, b)
  {
    var w := UpsertRows(t.weights, MapSeq(b.weight, WeightPair));
    var f := UpsertRows(t.foods, MapSeq(b.food, FoodPair));
    var s := UpsertRows(t.settings, MapSeq(b.userSettings, SettingsPair));
    var bn := UpsertRows(t.bundles, MapSeq(b.bundle, BundlePair));
    for i := 0 to |b.journal|
      invariant forall k :: 0 <= k < i ==> MealFromOrdinal(b.journal[k].meal).Some?
    {
      if MealFromOrdinal(b.journal[i].meal).None? {
        return Err(Other);
      }
    }
    var j := UpsertRows(t.journal, MapSeq(b.journal, JournalPair));
    var sp := UpsertRows(t.sports, MapSeq(b.sport, SportPair));
    var a := UpsertRows(t.activities, MapSeq(b.sportActivity, ActivityPair));
    var m := Tables(f, sp, w, s, bn, j, a);
    assert m == Merged(t, b);
    if !ForeignKeysHold(m) {
      return Err(Other);
    }
    r := Ok(m);
  }

  class Store {
    var foods: map<string, Food>
    var sports: map<string, Sport>
    var weights: map<WeightKey, real>
    var settings: map<int, real>
    var bundles: map<BundleKey, map<string, real>>
    var journal: map<JournalKey, real>
    var activities: map<ActivityKey, seq<int>>

    function State(): Tables
      reads this
    {
      Tables(foods, sports, weights, settings, bundles, journal, activities)
    }

    /** Catalogue rows sit under their own key; every write keeps this. */
    predicate Valid()
      reads this
    {
      WellKeyed(State())
    }

    /** Every bundle entry, journal row and activity names an existing row. */
    predicate Consistent()
      reads this
    {
      RefIntegrity(State())
    }

    /** A freshly migrated, empty store. */
    constructor ()
      ensures State() == Empty() && Valid() && Consistent()
    {
      foods, sports, weights, settings := map[], map[], map[], map[];
      bundles, journal, activities := map[], map[], map[];
    }

    // ---------------------------------------------------------------- catalogue

    /** set_food: validate, then upsert under the food's key. */
    method SetFood(f: Food) returns (r: Result<()>)
      modifies this
      ensures !FoodValid(f) ==> r == Fail(FoodInvalid) && unchanged(this)
      ensures FoodValid(f) ==> r == Ok(()) && State() == old(State()).(foods := old(foods)[f.key := f])
      ensures old(Valid()) ==> Valid()
      ensures old(Consistent()) ==> Consistent()
    {
      if !FoodValid(f) {
        return Fail(FoodInvalid);
      }
      if Consistent() {
        CatalogueUpsertKeepsIntegrity(State(), f, Sport("", "", ""), WeightKey(0, 0), 0.0, 0, 0.0);
      }
      foods := foods[f.key := f];
      r := Ok(());
    }

    /** delete_food: refused while a bundle entry (of any user) or a journal row names the
        food; deleting an absent food succeeds. */
    method DeleteFood(key: string) returns (r: Result<()>)
      modifies this
      ensures FoodUsed(old(State()), key) ==> r == Fail(FoodIsUsed) && unchanged(this)
      ensures !FoodUsed(old(State()), key) ==> r == Ok(()) && State() == old(State()).(foods := old(foods) - {key})
      ensures old(Valid()) ==> Valid()
      ensures old(Consistent()) ==> Consistent()
    {
      var inBundle := ScanBundlesForFood(bundles, key);
      if inBundle {
        return Fail(FoodIsUsed);
      }
      // The journal's foreign key refuses the delete, and the refusal is reported as the same kind.
      if exists jk :: jk in journal && jk.food == key {
        return Fail(FoodIsUsed);
      }
      if Consistent() {
        DeleteUnusedKeepsIntegrity(State(), key, 0, "", "");
      }
      foods := foods - {key};
      r := Ok(());
    }

    /** set_sport: validate, then upsert under the sport's key. */
    method SetSport(s: Sport) returns (r: Result<()>)
      modifies this
      ensures !SportValid(s) ==> r == Fail(SportInvalid) && unchanged(this)
      ensures SportValid(s) ==> r == Ok(()) && State() == old(State()).(sports := old(sports)[s.key := s])
      ensures old(Valid()) ==> Valid()
      ensures old(Consistent()) ==> Consistent()
    {
      if !SportValid(s) {
        return Fail(SportInvalid);
      }
      if Consistent() {
        CatalogueUpsertKeepsIntegrity(State(), Food("", "", "", 0.0, 0.0, 0.0, 0.0, ""), s, WeightKey(0, 0), 0.0, 0, 0.0);
      }
      sports := sports[s.key := s];
      r := Ok(());
    }

    /** delete_sport: refused while an activity (of any user) names the sport. */
    method DeleteSport(key: string) returns (r: Result<()>)
      modifies this
      ensures SportUsed(old(State()), key) ==> r == Fail(SportIsUsedViolation) && unchanged(this)
      ensures !SportUsed(old(State()), key) ==> r == Ok(()) && State() == old(State()).(sports := old(sports) - {key})
      ensures old(Valid()) ==> Valid()
      ensures old(Consistent()) ==> Consistent()
    {
      var used := ScanActivitiesForSport(activities, key);
      if used {
        return Fail(SportIsUsedViolation);
      }
      if Consistent() {
        DeleteUnusedKeepsIntegrity(State(), "", 0, "", key);
      }
      sports := sports - {key};
      r := Ok(());
    }

    // ---------------------------------------------------------------- per-user rows

    /** set_weight: validate, then upsert the user's weight at that instant. */
    method SetWeight(u: int, w: Weight) returns (r: Result<()>)
      modifies this
      ensures !WeightValid(w) ==> r == Fail(WeightInvalid) && unchanged(this)
      ensures WeightValid(w) ==> (r == Ok(()) &&
        State() == old(State()).(weights := old(weights)[WeightKey(u, w.timestamp) := w.value]))
      ensures old(Valid()) ==> Valid()
      ensures old(Consistent()) ==> Consistent()
    {
      if !WeightValid(w) {
        return Fail(WeightInvalid);
      }
      if Consistent() {
        CatalogueUpsertKeepsIntegrity(State(), Food("", "", "", 0.0, 0.0, 0.0, 0.0, ""), Sport("", "", ""),
          WeightKey(u, w.timestamp), w.value, 0, 0.0);
      }
      weights := weights[WeightKey(u, w.timestamp) := w.value];
      r := Ok(());
    }

    /** delete_weight: removes the user's weight at that instant, if any. */
    method DeleteWeight(u: int, ts: int) returns (r: Result<()>)
      modifies this
      ensures r == Ok(()) && State() == old(State()).(weights := old(weights) - {WeightKey(u, ts)})
      ensures old(Valid()) ==> Valid()
      ensures old(Consistent()) ==> Consistent()
    {
      if Consistent() {
        RowRemovalKeepsIntegrity(State(), {}, {}, {WeightKey(u, ts)});
      }
      weights := weights - {WeightKey(u, ts)};
      r := Ok(());
    }

    /** set_user_settings: validate, then upsert the user's calorie limit. */
    method SetUserSettings(u: int, s: UserSettings) returns (r: Result<()>)
      modifies this
      ensures !UserSettingsValid(s) ==> r == Fail(UserSettingsInvalid) && unchanged(this)
      ensures UserSettingsValid(s) ==> (r == Ok(()) &&
        State() == old(State()).(settings := old(settings)[u := s.calLimit]))
      ensures old(Valid()) ==> Valid()
      ensures old(Consistent()) ==> Consistent()
    {
      if !UserSettingsValid(s) {
        return Fail(UserSettingsInvalid);
      }
      if Consistent() {
        CatalogueUpsertKeepsIntegrity(State(), Food("", "", "", 0.0, 0.0, 0.0, 0.0, ""), Sport("", "", ""),
          WeightKey(0, 0), 0.0, u, s.calLimit);
      }
      settings := settings[u := s.calLimit];
      r := Ok(());
    }

    /** set_bundle: validate, walk the entries for dependency errors (stopping at the first),
        then upsert under (user, key). */
    method SetBundle(u: int, b: Bundle) returns (r: Result<()>)
      modifies this
      ensures !BundleValid(b) ==> r == Fail(BundleInvalid) && unchanged(this)
      ensures BundleValid(b) && DepErrors(old(State()), u, b) != {} ==>
        r.Err? && r.error.Storage? && r.error.kind in DepErrors(old(State()), u, b) && unchanged(this)
      ensures BundleValid(b) && DepErrors(old(State()), u, b) == {} ==>
        r == Ok(()) && State() == old(State()).(bundles := old(bundles)[BundleKey(u, b.key) := b.data])
      ensures old(Valid()) ==> Valid()
      ensures old(Consistent()) ==> Consistent()
    {
      var ok := ValidateBundle(b);
      if !ok {
        return Fail(BundleInvalid);
      }
      var err := CheckBundleDeps(State(), u, b);
      if err.Some? {
        return Fail(err.value);
      }
      if Consistent() {
        BundleUpsertKeepsIntegrity(State(), u, b);
      }
      bundles := bundles[BundleKey(u, b.key) := b.data];
      r := Ok(());
    }

    /** delete_bundle: refused while another bundle of the user nests it; deleting an absent
        bundle succeeds. */
    method DeleteBundle(u: int, key: string) returns (r: Result<()>)
      modifies this
      ensures BundleUsed(old(State()), u, key) ==> r == Fail(BundleIsUsed) && unchanged(this)
      ensures !BundleUsed(old(State()), u, key) ==> (r == Ok(()) &&
        State() == old(State()).(bundles := old(bundles) - {BundleKey(u, key)}))
      ensures old(Valid()) ==> Valid()
      ensures old(Consistent()) ==> Consistent()
    {
      var used := ScanBundlesForChild(bundles, u, key);
      if used {
        return Fail(BundleIsUsed);
      }
      if Consistent() {
        DeleteUnusedKeepsIntegrity(State(), "", u, key, "");
      }
      bundles := bundles - {BundleKey(u, key)};
      r := Ok(());
    }

    /** set_journal: validate, require the food, then upsert the row of that slot and food. */
    method SetJournal(u: int, j: Journal) returns (r: Result<()>)
      modifies this
      ensures !JournalValid(j) ==> r == Fail(JournalInvalid) && unchanged(this)
      ensures JournalValid(j) && j.foodKey !in old(foods) ==> r == Fail(FoodNotFound) && unchanged(this)
      ensures JournalValid(j) && j.foodKey in old(foods) ==> (r == Ok(()) &&
        State() == old(State()).(journal := old(journal)[JournalKey(u, j.timestamp, j.meal, j.foodKey) := j.foodWeight]))
      ensures old(Valid()) ==> Valid()
      ensures old(Consistent()) ==> Consistent()
    {
      if !JournalValid(j) {
        return Fail(JournalInvalid);
      }
      if j.foodKey !in foods {
        return Fail(FoodNotFound);
      }
      var jk := JournalKey(u, j.timestamp, j.meal, j.foodKey);
      if Consistent() {
        RowInsertKeepsIntegrity(State(), jk, j.foodWeight, ActivityKey(0, 0, ""), []);
      }
      journal := journal[jk := j.foodWeight];
      r := Ok(());
    }

    /** set_journal_bundle: expand the bundle into food weights, then write one row per food
        into the slot, all in one transaction. `written` is the expansion and `visited` the
        bundles it went through. */
    method SetJournalBundle(u: int, ts: int, meal: Meal, key: string)
      returns (r: Result<()>, ghost written: map<string, real>, ghost visited: set<string>)
      modifies this
      ensures BundleKey(u, key) !in old(bundles) ==> r == Fail(BundleNotFound)
      ensures old(Consistent()) && BundleKey(u, key) in old(bundles) ==> r == Ok(())
      ensures r.Err? ==> unchanged(this) && (r == Fail(BundleNotFound) || r == Fail(FoodNotFound))
      ensures r.Ok? ==> State() == old(State()).(journal := old(journal) + SlotRows(u, ts, meal, written))
      ensures r.Ok? ==> ExpandsTo(old(State()), u, key, written, visited)
      ensures old(Valid()) ==> Valid()
      ensures old(Consistent()) ==> Consistent()
    {
      var res;
      res, visited := ExpandBundle(State(), u, key);
      if res.Err? {
        return Err(res.error), map[], visited;
      }
      var m := res.value;
      written := m;
      var acc := WriteSlot(journal, u, ts, meal, m);
      if Consistent() {
        JournalRowsKeepIntegrity(State(), SlotRows(u, ts, meal, m));
      }
      journal := acc;
      r := Ok(());
    }

    /** delete_journal: removes the row of that slot and food, if any. */
    method DeleteJournal(u: int, ts: int, meal: Meal, food: string) returns (r: Result<()>)
      modifies this
      ensures r == Ok(()) && State() == old(State()).(journal := old(journal) - {JournalKey(u, ts, meal, food)})
      ensures old(Valid()) ==> Valid()
      ensures old(Consistent()) ==> Consistent()
    {
      if Consistent() {
        RowRemovalKeepsIntegrity(State(), {JournalKey(u, ts, meal, food)}, {}, {});
      }
      journal := journal - {JournalKey(u, ts, meal, food)};
      r := Ok(());
    }

    /** delete_journal_meal: removes every row of the slot, whatever its food; no other row
        changes. */
    method DeleteJournalMeal(u: int, ts: int, meal: Meal) returns (r: Result<()>)
      modifies this
      ensures r == Ok(())
      ensures forall jk :: jk in journal <==> jk in old(journal) && !(jk.user == u && jk.timestamp == ts && jk.meal == meal)
      ensures forall jk :: jk in journal ==> journal[jk] == old(journal)[jk]
      ensures State() == old(State()).(journal := journal)
      ensures old(Valid()) ==> Valid()
      ensures old(Consistent()) ==> Consistent()
    {
      var slot := set jk | jk in journal && jk.user == u && jk.timestamp == ts && jk.meal == meal;
      if Consistent() {
        RowRemovalKeepsIntegrity(State(), slot, {}, {});
      }
      journal := journal - slot;
      r := Ok(());
    }

    /** set_sport_activity: validate, require the sport (reported as SportInvalid), then upsert
        the user's activity of that sport at that instant. */
    method SetSportActivity(u: int, a: SportActivity) returns (r: Result<()>)
      modifies this
      ensures !SportActivityValid(a) ==> r == Fail(SportActivityInvalid) && unchanged(this)
      ensures SportActivityValid(a) && a.sportKey !in old(sports) ==> r == Fail(SportInvalid) && unchanged(this)
      ensures SportActivityValid(a) && a.sportKey in old(sports) ==> (r == Ok(()) &&
        State() == old(State()).(activities := old(activities)[ActivityKey(u, a.timestamp, a.sportKey) := a.sets]))
      ensures old(Valid()) ==> Valid()
      ensures old(Consistent()) ==> Consistent()
    {
      if !SportActivityValid(a) {
        return Fail(SportActivityInvalid);
      }
      if a.sportKey !in sports {
        return Fail(SportInvalid);
      }
      var ak := ActivityKey(u, a.timestamp, a.sportKey);
      if Consistent() {
        RowInsertKeepsIntegrity(State(), JournalKey(0, 0, Breakfast, ""), 0.0, ak, a.sets);
      }
      activities := activities[ak := a.sets];
      r := Ok(());
    }

    /** delete_sport_activity: removes the user's activity of that sport at that instant, if any. */
    method DeleteSportActivity(u: int, ts: int, sport: string) returns (r: Result<()>)
      modifies this
      ensures r == Ok(()) && State() == old(State()).(activities := old(activities) - {ActivityKey(u, ts, sport)})
      ensures old(Valid()) ==> Valid()
      ensures old(Consistent()) ==> Consistent()
    {
      if Consistent() {
        RowRemovalKeepsIntegrity(State(), {}, {ActivityKey(u, ts, sport)}, {});
      }
      activities := activities - {ActivityKey(u, ts, sport)};
      r := Ok(());
    }

    // ---------------------------------------------------------------- restore

    /** restore: upsert the snapshot's families in order (weight, food, user settings, bundle,
        journal, sport, sport activity) inside one transaction; an undecodable meal or a
        dangling journal or activity reference rolls everything back. */
    method Restore(b: Backup) returns (r: Result<()>)
      modifies this
      ensures RestoreTables(old(State()), b).Err? ==> r == Err(Other) && unchanged(this)
      ensures RestoreTables(old(State()), b).Ok? ==> r == Ok(()) && State() == RestoreTables(old(State()), b).value
      ensures old(Valid()) ==> Valid()
    {
      var res := MergeSnapshot(State(), b);
      if res.Err? {
        return Err(Other);
      }
      if Valid() {
        RestoreKeepsWellKeyed(State(), b);
      }
      var t := res.value;
      foods, sports, weights, settings := t.foods, t.sports, t.weights, t.settings;
      bundles, journal, activities := t.bundles, t.journal, t.activities;
      r := Ok(());
    }
  }
}
