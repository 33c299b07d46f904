/** The read side of the store: single-row lookups, ordered listings, the case-insensitive
    food search, and the journal and sport-activity reports over a closed time window
    [from, to]. Every listing is the sorted enumeration of a set of rows; an empty listing is
    the EmptyResult failure. */
module Queries {
  import opened Model
  import opened StoreErrors
  import opened Tables
  import opened Ordering
  import opened Text

  // ---------------------------------------------------------------- lookups

  function GetFood(t: Tables, key: string): (r: Result<Food>)
    requires WellKeyed(t)
    ensures r.Ok? <==> key in t.foods
    ensures r.Ok? ==> r.value == t.foods[key] && r.value.key == key
    ensures r.Err? ==> r == Fail(FoodNotFound)
  {
    if key in t.foods then Ok(t.foods[key]) else Fail(FoodNotFound)
  }

  function GetSport(t: Tables, key: string): (r: Result<Sport>)
    requires WellKeyed(t)
    ensures r.Ok? <==> key in t.sports
    ensures r.Ok? ==> r.value == t.sports[key] && r.value.key == key
    ensures r.Err? ==> r == Fail(SportNotFound)
  {
    if key in t.sports then Ok(t.sports[key]) else Fail(SportNotFound)
  }

  function GetUserSettings(t: Tables, u: int): (r: Result<UserSettings>)
    ensures r.Ok? <==> u in t.settings
    ensures r.Ok? ==> r.value.calLimit == t.settings[u]
    ensures r.Err? ==> r == Fail(UserSettingsNotFound)
  {
    if u in t.settings then Ok(UserSettings(t.settings[u])) else Fail(UserSettingsNotFound)
  }

  function GetBundle(t: Tables, u: int, key: string): (r: Result<Bundle>)
    ensures r.Ok? <==> BundleKey(u, key) in t.bundles
    ensures r.Ok? ==> r.value.key == key && r.value.data == t.bundles[BundleKey(u, key)]
    ensures r.Err? ==> r == Fail(BundleNotFound)
  {
    if BundleKey(u, key) in t.bundles then Ok(Bundle(key, t.bundles[BundleKey(u, key)]))
    else Fail(BundleNotFound)
  }

  // ---------------------------------------------------------------- catalogue listings

  /** Foods are listed by name; the key breaks ties between equal names. */
  function FoodOrder(f: Food): Key {
    [Text(f.name), Text(f.key)]
  }

  function SportOrder(s: Sport): Key {
    [Text(s.name), Text(s.key)]
  }

  /** Foods are stored under their own key, so no two differ in name and key alone. */
  lemma FoodOrderInjective(t: Tables, s: set<Food>)
    requires WellKeyed(t) && s <= t.foods.Values
    ensures InjectiveOn(s, FoodOrder)
  {
    forall x, y | x in s && y in s && FoodOrder(x) == FoodOrder(y) ensures x == y {
      var kx :| kx in t.foods && t.foods[kx] == x;
      var ky :| ky in t.foods && t.foods[ky] == y;
      assert FoodOrder(x)[1] == FoodOrder(y)[1];
    }
  }

  lemma SportOrderInjective(t: Tables)
    requires WellKeyed(t)
    ensures InjectiveOn(t.sports.Values, SportOrder)
  {
    forall x, y | x in t.sports.Values && y in t.sports.Values && SportOrder(x) == SportOrder(y)
      ensures x == y
    {
      var kx :| kx in t.sports && t.sports[kx] == x;
      var ky :| ky in t.sports && t.sports[ky] == y;
      assert SportOrder(x)[1] == SportOrder(y)[1];
    }
  }

  function GetFoodList(t: Tables): (r: Result<seq<Food>>)
    requires WellKeyed(t)
    ensures r.Err? <==> t.foods == map[]
    ensures r.Err? ==> r == Fail(EmptyResult)
    ensures r.Ok? ==> (forall f :: f in r.value <==> f in t.foods.Values) && SortedBy(r.value, FoodOrder)
  {
    if t.foods == map[] then Fail(EmptyResult)
    else
      FoodOrderInjective(t, t.foods.Values);
      Ok(SortBy(t.foods.Values, FoodOrder))
  }

  function GetSportList(t: Tables): (r: Result<seq<Sport>>)
    requires WellKeyed(t)
    ensures r.Err? <==> t.sports == map[]
    ensures r.Err? ==> r == Fail(EmptyResult)
    ensures r.Ok? ==> (forall s :: s in r.value <==> s in t.sports.Values) && SortedBy(r.value, SportOrder)
  {
    if t.sports == map[] then Fail(EmptyResult)
    else
      SportOrderInjective(t);
      Ok(SortBy(t.sports.Values, SportOrder))
  }

  function BundleOrder(b: Bundle): Key {
    [Text(b.key)]
  }

  /** The bundles of user u. */
  function BundlesOf(t: Tables, u: int): set<Bundle> {
    set bk | bk in t.bundles && bk.user == u :: Bundle(bk.key, t.bundles[bk])
  }

  function GetBundleList(t: Tables, u: int): (r: Result<seq<Bundle>>)
    ensures r.Err? <==> BundlesOf(t, u) == {}
    ensures r.Err? ==> r == Fail(EmptyResult)
    ensures r.Ok? ==> SortedBy(r.value, BundleOrder)
    ensures r.Ok? ==> forall b :: b in r.value <==> BundleKey(u, b.key) in t.bundles && b.data == t.bundles[BundleKey(u, b.key)]
  {
    var s := BundlesOf(t, u);
    if s == {} then Fail(EmptyResult)
    else
      assert InjectiveOn(s, BundleOrder) by {
        forall x, y | x in s && y in s && BundleOrder(x) == BundleOrder(y) ensures x == y {
          assert BundleOrder(x)[0] == BundleOrder(y)[0];
        }
      }
      assert forall b :: b in s <==> BundleKey(u, b.key) in t.bundles && b.data == t.bundles[BundleKey(u, b.key)] by {
        forall b: Bundle | BundleKey(u, b.key) in t.bundles && b.data == t.bundles[BundleKey(u, b.key)] ensures b in s {
          assert b == Bundle(BundleKey(u, b.key).key, t.bundles[BundleKey(u, b.key)]);
        }
      }
      Ok(SortBy(s, BundleOrder))
  }

  // ---------------------------------------------------------------- search

  /** A food matches a pattern when the pattern occurs, ignoring case, in its key, name, brand
      or comment. */
  predicate FoodMatches(f: Food, pattern: string) {
    || MatchesIgnoringCase(f.key, pattern)
    || MatchesIgnoringCase(f.name, pattern)
    || MatchesIgnoringCase(f.brand, pattern)
    || MatchesIgnoringCase(f.comment, pattern)
  }

  function FindFood(t: Tables, pattern: string): (r: Result<seq<Food>>)
    requires WellKeyed(t)
    ensures r.Err? <==> forall f :: f in t.foods.Values ==> !FoodMatches(f, pattern)
    ensures r.Err? ==> r == Fail(EmptyResult)
    ensures r.Ok? ==> SortedBy(r.value, FoodOrder)
    ensures r.Ok? ==> forall f :: f in r.value <==> f in t.foods.Values && FoodMatches(f, pattern)
  {
    var s := set f | f in t.foods.Values && FoodMatches(f, pattern);
    assert forall f :: f in s <==> f in t.foods.Values && FoodMatches(f, pattern);
    if s == {} then Fail(EmptyResult)
    else
      FoodOrderInjective(t, s);
      Ok(SortBy(s, FoodOrder))
  }

  /** The search ignores the case of the pattern, and the empty pattern finds every food. */
  lemma FindFoodCaseInsensitive(t: Tables, p: string, q: string)
    requires WellKeyed(t) && Lower(p) == Lower(q)
    ensures FindFood(t, p) == FindFood(t, q)
  {
    forall f: Food ensures FoodMatches(f, p) == FoodMatches(f, q) {
      MatchIgnoresPatternCase(f.key, p, q);
      MatchIgnoresPatternCase(f.name, p, q);
      MatchIgnoresPatternCase(f.brand, p, q);
      MatchIgnoresPatternCase(f.comment, p, q);
    }
    var sp := set f | f in t.foods.Values && FoodMatches(f, p);
    var sq := set f | f in t.foods.Values && FoodMatches(f, q);
    assert sp == sq;
  }

  lemma FindFoodEmptyPatternListsAll(t: Tables)
    requires WellKeyed(t)
    ensures FindFood(t, "") == GetFoodList(t)
  {
    forall f: Food ensures FoodMatches(f, "") {
      MatchBasics(f.key, "");
    }
    var s := set f | f in t.foods.Values && FoodMatches(f, "");
    assert s == t.foods.Values;
    if t.foods != map[] {
      var k :| k in t.foods;
      assert t.foods[k] in s;
    }
  }

  // ---------------------------------------------------------------- weight

  predicate InWindow(ts: int, from: int, to: int) {
    from <= ts <= to
  }

  function WeightOrder(w: Weight): Key {
    [Num(w.timestamp)]
  }

  /** The weight rows of user u inside the window. */
  function WeightsIn(t: Tables, u: int, from: int, to: int): set<Weight> {
    set wk | wk in t.weights && wk.user == u && InWindow(wk.timestamp, from, to) :: Weight(wk.timestamp, t.weights[wk])
  }

  function GetWeightList(t: Tables, u: int, from: int, to: int): (r: Result<seq<Weight>>)
    ensures r.Err? <==> WeightsIn(t, u, from, to) == {}
    ensures r.Err? ==> r == Fail(EmptyResult)
    ensures r.Ok? ==> SortedBy(r.value, WeightOrder)
    ensures r.Ok? ==> forall w :: w in r.value <==>
      WeightKey(u, w.timestamp) in t.weights && InWindow(w.timestamp, from, to) && w.value == t.weights[WeightKey(u, w.timestamp)]
  {
    var s := WeightsIn(t, u, from, to);
    if s == {} then Fail(EmptyResult)
    else
      assert InjectiveOn(s, WeightOrder) by {
        forall x, y | x in s && y in s && WeightOrder(x) == WeightOrder(y) ensures x == y {
          assert WeightOrder(x)[0] == WeightOrder(y)[0];
        }
      }
      assert forall w :: w in s <==>
        WeightKey(u, w.timestamp) in t.weights && InWindow(w.timestamp, from, to) && w.value == t.weights[WeightKey(u, w.timestamp)] by {
        forall w: Weight | WeightKey(u, w.timestamp) in t.weights && InWindow(w.timestamp, from, to) && w.value == t.weights[WeightKey(u, w.timestamp)]
          ensures w in s
        {
          assert w == Weight(WeightKey(u, w.timestamp).timestamp, t.weights[WeightKey(u, w.timestamp)]);
        }
      }
      Ok(SortBy(s, WeightOrder))
  }

  // ---------------------------------------------------------------- journal report

  datatype JournalReport = JournalReport(
    timestamp: int,
    meal: Meal,
    foodKey: string,
    foodName: string,
    foodBrand: string,
    foodWeight: real,
    cal: real,
    prot: real,
    fat: real,
    carb: real)

  /** A journal row joined with its food: each nutrient is the per-100 value scaled by
      weight / 100. */
  function ReportRow(jk: JournalKey, w: real, f: Food): JournalReport {
    JournalReport(jk.timestamp, jk.meal, jk.food, f.name, f.brand, w,
                  w / 100.0 * f.cal100, w / 100.0 * f.prot100, w / 100.0 * f.fat100, w / 100.0 * f.carb100)
  }

  /** Rows are ordered by timestamp, meal slot and food name; the food key breaks ties. */
  function JournalOrder(r: JournalReport): Key {
    [Num(r.timestamp), Num(MealOrdinal(r.meal)), Text(r.foodName), Text(r.foodKey)]
  }

  /** Journal rows of user u in the window whose food exists. */
  function JournalKeysIn(t: Tables, u: int, from: int, to: int): set<JournalKey> {
    set jk | jk in t.journal && jk.user == u && InWindow(jk.timestamp, from, to) && jk.food in t.foods
  }

  function JournalRows(t: Tables, u: int, from: int, to: int): set<JournalReport> {
    set jk | jk in JournalKeysIn(t, u, from, to) :: ReportRow(jk, t.journal[jk], t.foods[jk.food])
  }

  lemma MealOrdinalInjective(a: Meal, b: Meal)
    ensures MealOrdinal(a) == MealOrdinal(b) ==> a == b
  {
  }

  function GetJournalReport(t: Tables, u: int, from: int, to: int): (r: Result<seq<JournalReport>>)
    ensures r.Err? <==> JournalKeysIn(t, u, from, to) == {}
    ensures r.Err? ==> r == Fail(EmptyResult)
    ensures r.Ok? ==> SortedBy(r.value, JournalOrder)
    ensures r.Ok? ==> forall x :: x in r.value <==> x in JournalRows(t, u, from, to)
    ensures r.Ok? ==> |r.value| == |JournalKeysIn(t, u, from, to)|
  {
    var ks := JournalKeysIn(t, u, from, to);
    var s := JournalRows(t, u, from, to);
    if ks == {} then Fail(EmptyResult)
    else
      assert InjectiveOn(s, JournalOrder) by {
        forall x, y | x in s && y in s && JournalOrder(x) == JournalOrder(y) ensures x == y {
          var jx :| jx in ks && x == ReportRow(jx, t.journal[jx], t.foods[jx.food]);
          var jy :| jy in ks && y == ReportRow(jy, t.journal[jy], t.foods[jy.food]);
          assert JournalOrder(x)[0] == JournalOrder(y)[0];
          assert JournalOrder(x)[1] == JournalOrder(y)[1];
          assert JournalOrder(x)[3] == JournalOrder(y)[3];
          MealOrdinalInjective(x.meal, y.meal);
          assert jx == jy;
        }
      }
      RowsCount(t, u, from, to);
      Ok(SortBy(s, JournalOrder))
  }

  /** Each journal row yields its own report row. */
  lemma RowsCount(t: Tables, u: int, from: int, to: int)
    ensures |JournalRows(t, u, from, to)| == |JournalKeysIn(t, u, from, to)|
  {
    var ks := JournalKeysIn(t, u, from, to);
    InjectiveImageSize(ks, t, u);
  }

  lemma {:induction false} InjectiveImageSize(ks: set<JournalKey>, t: Tables, u: int)
    requires forall jk :: jk in ks ==> jk in t.journal && jk.food in t.foods && jk.user == u
    ensures |set jk | jk in ks :: ReportRow(jk, t.journal[jk], t.foods[jk.food])| == |ks|
    decreases |ks|
  {
    if ks != {} {
      var k :| k in ks;
      var rest := ks - {k};
      InjectiveImageSize(rest, t, u);
      var img := set jk | jk in ks :: ReportRow(jk, t.journal[jk], t.foods[jk.food]);
      var imgRest := set jk | jk in rest :: ReportRow(jk, t.journal[jk], t.foods[jk.food]);
      var x := ReportRow(k, t.journal[k], t.foods[k.food]);
      assert img == imgRest + {x};
      forall j | j in rest ensures ReportRow(j, t.journal[j], t.foods[j.food]) != x {
        assert j != k;
      }
      assert x !in imgRest;
    }
  }

  /** A row of 100 grams reports exactly the per-100 values, and scaling is linear in weight. */
  lemma ReportRowScaling(jk: JournalKey, f: Food, w: real)
    ensures ReportRow(jk, 100.0, f).cal == f.cal100 && ReportRow(jk, 100.0, f).prot == f.prot100
    ensures ReportRow(jk, 100.0, f).fat == f.fat100 && ReportRow(jk, 100.0, f).carb == f.carb100
    ensures ReportRow(jk, 2.0 * w, f).cal == 2.0 * ReportRow(jk, w, f).cal
  {
  }

  // ---------------------------------------------------------------- average weight

  /** Journal rows of user u for one food inside the window. */
  function FoodRowsIn(t: Tables, u: int, food: string, from: int, to: int): set<JournalKey> {
    set jk | jk in t.journal && jk.user == u && jk.food == food && InWindow(jk.timestamp, from, to)
  }

  function SlotOrder(jk: JournalKey): Key {
    [Num(jk.timestamp), Num(MealOrdinal(jk.meal))]
  }

  function Sum(ws: seq<real>): real {
    if ws == [] then 0.0 else ws[0] + Sum(ws[1..])
  }

  /** The weights of the matching rows, one per row, in slot order. */
  function FoodWeights(t: Tables, u: int, food: string, from: int, to: int): (ws: seq<real>)
    ensures |ws| == |FoodRowsIn(t, u, food, from, to)|
    ensures forall i :: 0 <= i < |ws| ==> exists jk :: jk in FoodRowsIn(t, u, food, from, to) && ws[i] == t.journal[jk]
  {
    var ks := FoodRowsIn(t, u, food, from, to);
    assert InjectiveOn(ks, SlotOrder) by {
      forall x, y | x in ks && y in ks && SlotOrder(x) == SlotOrder(y) ensures x == y {
        assert SlotOrder(x)[0] == SlotOrder(y)[0] && SlotOrder(x)[1] == SlotOrder(y)[1];
        MealOrdinalInjective(x.meal, y.meal);
      }
    }
    var listing := SortBy(ks, SlotOrder);
    assert forall i :: 0 <= i < |listing| ==> listing[i] in ks by {
      forall i | 0 <= i < |listing| ensures listing[i] in ks {
        assert listing[i] in listing;
      }
    }
    seq(|listing|, i requires 0 <= i < |listing| => t.journal[listing[i]])
  }

  /** The mean weight of the matching rows; 0 when there are none. */
  function GetJournalFoodAvgWeight(t: Tables, u: int, food: string, from: int, to: int): (r: real)
    ensures FoodRowsIn(t, u, food, from, to) == {} ==> r == 0.0
  {
    var ws := FoodWeights(t, u, food, from, to);
    if ws == [] then 0.0 else Sum(ws) / (|ws| as real)
  }

  lemma {:induction false} SumBounds(ws: seq<real>, lo: real, hi: real)
    requires forall i :: 0 <= i < |ws| ==> lo <= ws[i] <= hi
    ensures |ws| as real * lo <= Sum(ws) <= |ws| as real * hi
  {
    if ws != [] {
      SumBounds(ws[1..], lo, hi);
    }
  }

  /** The average lies between the smallest and largest matching weight; in particular, when
      every matching row has the same weight the average is that weight. */
  lemma AvgWeightBounds(t: Tables, u: int, food: string, from: int, to: int, lo: real, hi: real)
    requires FoodRowsIn(t, u, food, from, to) != {}
    requires forall jk :: jk in FoodRowsIn(t, u, food, from, to) ==> lo <= t.journal[jk] <= hi
    ensures lo <= GetJournalFoodAvgWeight(t, u, food, from, to) <= hi
  {
    WeightsWithin(t, u, food, from, to, lo, hi);
    MeanBounds(FoodWeights(t, u, food, from, to), lo, hi);
  }

  lemma MeanBounds(ws: seq<real>, lo: real, hi: real)
    requires |ws| > 0 && forall i :: 0 <= i < |ws| ==> lo <= ws[i] <= hi
    ensures lo <= Sum(ws) / (|ws| as real) <= hi
  {
    SumBounds(ws, lo, hi);
    DivideBounds(Sum(ws), |ws| as real, lo, hi);
  }

  lemma WeightsWithin(t: Tables, u: int, food: string, from: int, to: int, lo: real, hi: real)
    requires FoodRowsIn(t, u, food, from, to) != {}
    requires forall jk :: jk in FoodRowsIn(t, u, food, from, to) ==> lo <= t.journal[jk] <= hi
    ensures |FoodWeights(t, u, food, from, to)| > 0
    ensures var ws := FoodWeights(t, u, food, from, to); forall i :: 0 <= i < |ws| ==> lo <= ws[i] <= hi
  {
    var ws := FoodWeights(t, u, food, from, to);
    forall i | 0 <= i < |ws| ensures lo <= ws[i] <= hi {
      var jk :| jk in FoodRowsIn(t, u, food, from, to) && ws[i] == t.journal[jk];
    }
  }

  lemma DivideBounds(s: real, n: real, lo: real, hi: real)
    requires n > 0.0 && n * lo <= s <= n * hi
    ensures lo <= s / n <= hi
  {
    assert s / n * n == s;
  }

  // ---------------------------------------------------------------- sport-activity report

  datatype SportActivityReport = SportActivityReport(sportName: string, timestamp: int, sets: seq<int>)

  /** Activities of user u in the window whose sport exists. */
  function ActivityKeysIn(t: Tables, u: int, from: int, to: int): set<ActivityKey> {
    set ak | ak in t.activities && ak.user == u && InWindow(ak.timestamp, from, to) && ak.sport in t.sports
  }

  function ActivityRow(t: Tables, ak: ActivityKey): SportActivityReport
    requires ak in t.activities && ak.sport in t.sports
  {
    SportActivityReport(t.sports[ak.sport].name, ak.timestamp, t.activities[ak])
  }

  /** The report rows of the matching activities. Two activities of sports that share a name
      can yield equal rows, so the report counts activities, not distinct rows. */
  function ActivityRows(t: Tables, u: int, from: int, to: int): set<SportActivityReport> {
    set ak | ak in ActivityKeysIn(t, u, from, to) :: ActivityRow(t, ak)
  }

  /** Activities are ordered by timestamp and sport name; the sport key breaks ties. */
  function ActivityOrder(t: Tables, ak: ActivityKey): Key {
    [Num(ak.timestamp), Text(if ak.sport in t.sports then t.sports[ak.sport].name else ""), Text(ak.sport)]
  }

  /** The visible order of report rows: timestamp, then sport name. */
  function ReportOrder(x: SportActivityReport): Key {
    [Num(x.timestamp), Text(x.sportName)]
  }

  /** The matching activities in report order. */
  function ActivityListing(t: Tables, u: int, from: int, to: int): (l: seq<ActivityKey>)
    ensures |l| == |ActivityKeysIn(t, u, from, to)|
    ensures forall ak :: ak in l <==> ak in ActivityKeysIn(t, u, from, to)
    ensures forall i :: 0 <= i < |l| ==> l[i] in ActivityKeysIn(t, u, from, to)
    ensures forall i, j :: 0 <= i < j < |l| ==> KeyLess(ActivityOrder(t, l[i]), ActivityOrder(t, l[j]))
  {
    var ks := ActivityKeysIn(t, u, from, to);
    var order := ak => ActivityOrder(t, ak);
    assert InjectiveOn(ks, order) by {
      forall x, y | x in ks && y in ks && order(x) == order(y) ensures x == y {
        assert order(x)[0] == order(y)[0] && order(x)[2] == order(y)[2];
      }
    }
    SortBy(ks, order)
  }

  function GetSportActivityReport(t: Tables, u: int, from: int, to: int): (r: Result<seq<SportActivityReport>>)
    ensures r.Err? <==> ActivityKeysIn(t, u, from, to) == {}
    ensures r.Err? ==> r == Fail(EmptyResult)
    ensures r.Ok? ==> |r.value| == |ActivityKeysIn(t, u, from, to)|
    ensures r.Ok? ==> forall x :: x in r.value <==> x in ActivityRows(t, u, from, to)
    ensures r.Ok? ==> forall i, j :: 0 <= i < j < |r.value| ==> KeyLessEq(ReportOrder(r.value[i]), ReportOrder(r.value[j]))
    ensures r.Ok? ==> var l := ActivityListing(t, u, from, to);
      |r.value| == |l| && forall i :: 0 <= i < |l| ==> r.value[i] == ActivityRow(t, l[i])
  {
    var ks := ActivityKeysIn(t, u, from, to);
    if ks == {} then Fail(EmptyResult)
    else
      var listing := ActivityListing(t, u, from, to);
      var rows := seq(|listing|, i requires 0 <= i < |listing| => ActivityRow(t, listing[i]));
      ReportRowsComplete(t, u, from, to, listing, rows);
      ReportRowsOrdered(t, listing, rows);
      Ok(rows)
  }

  lemma ReportRowsComplete(t: Tables, u: int, from: int, to: int, listing: seq<ActivityKey>, rows: seq<SportActivityReport>)
    requires forall ak :: ak in listing <==> ak in ActivityKeysIn(t, u, from, to)
    requires |rows| == |listing| && forall i :: 0 <= i < |listing| ==> listing[i] in t.activities && listing[i].sport in t.sports
    requires forall i :: 0 <= i < |listing| ==> rows[i] == ActivityRow(t, listing[i])
    ensures forall x :: x in rows <==> x in ActivityRows(t, u, from, to)
  {
    forall x | x in ActivityRows(t, u, from, to) ensures x in rows {
      var ak :| ak in ActivityKeysIn(t, u, from, to) && x == ActivityRow(t, ak);
      var i :| 0 <= i < |listing| && listing[i] == ak;
      assert rows[i] == x;
    }
    forall x | x in rows ensures x in ActivityRows(t, u, from, to) {
      var i :| 0 <= i < |rows| && rows[i] == x;
      assert listing[i] in listing;
    }
  }

  lemma ReportRowsOrdered(t: Tables, listing: seq<ActivityKey>, rows: seq<SportActivityReport>)
    requires forall i, j :: 0 <= i < j < |listing| ==> KeyLess(ActivityOrder(t, listing[i]), ActivityOrder(t, listing[j]))
    requires |rows| == |listing| && forall i :: 0 <= i < |listing| ==> listing[i] in t.activities && listing[i].sport in t.sports
    requires forall i :: 0 <= i < |listing| ==> rows[i] == ActivityRow(t, listing[i])
    ensures forall i, j :: 0 <= i < j < |rows| ==> KeyLessEq(ReportOrder(rows[i]), ReportOrder(rows[j]))
  {
    forall i, j | 0 <= i < j < |rows| ensures KeyLessEq(ReportOrder(rows[i]), ReportOrder(rows[j])) {
      var a, b := ActivityOrder(t, listing[i]), ActivityOrder(t, listing[j]);
      OrderPrefix(a, b);
      assert a[..2] == ReportOrder(rows[i]) && b[..2] == ReportOrder(rows[j]);
    }
  }

  /** Keys of length three ordered strictly are ordered, weakly, on their first two atoms. */
  lemma OrderPrefix(a: Key, b: Key)
    requires |a| == 3 && |b| == 3 && KeyLess(a, b)
    ensures KeyLessEq(a[..2], b[..2])
  {
    if AtomLess(a[0], b[0]) {
    } else {
      assert a[0] == b[0] && KeyLess(a[1..], b[1..]);
      assert a[..2] == [a[0], a[1]] && b[..2] == [b[0], b[1]];
      if !AtomLess(a[1], b[1]) {
        assert a[1] == b[1];
        assert a[..2] == b[..2];
      }
    }
  }
}
