/** Entities of the nutrition journal and the rules each must satisfy before it is written
    (lib/model/src/lib.rs). Timestamps are Unix milliseconds; floating-point fields are reals. */
module Model {

  datatype Option<T> = None | Some(value: T)

  /** The argument type of the meal decoder: an unsigned byte. */
  type U8 = x: int | 0 <= x < 256

  datatype Food = Food(
    key: string,
    name: string,
    brand: string,
    cal100: real,
    prot100: real,
    fat100: real,
    carb100: real,
    comment: string)

  datatype Weight = Weight(timestamp: int, value: real)

  /** The six daily meal slots, in the order that fixes their persisted ordinal. */
  datatype Meal = Breakfast | FirstSnack | Dinner | SecondSnack | ThirdSnack | Supper

  datatype Journal = Journal(timestamp: int, meal: Meal, foodKey: string, foodWeight: real)

  datatype UserSettings = UserSettings(calLimit: real)

  /** A value of 0 names a nested bundle; a positive value is a food weight. */
  datatype Bundle = Bundle(key: string, data: map<string, real>)

  datatype Sport = Sport(key: string, name: string, comment: string)

  datatype SportActivity = SportActivity(sportKey: string, timestamp: int, sets: seq<int>)

  // ---------------------------------------------------------------- validators

  predicate FoodValid(f: Food) {
    && f.key != ""
    && f.name != ""
    && f.cal100 >= 0.0
    && f.prot100 >= 0.0
    && f.fat100 >= 0.0
    && f.carb100 >= 0.0
  }

  predicate WeightValid(w: Weight) {
    w.value > 0.0
  }

  predicate JournalValid(j: Journal) {
    j.foodKey != "" && j.foodWeight > 0.0
  }

  predicate UserSettingsValid(s: UserSettings) {
    s.calLimit > 0.0
  }

  /** The declarative form of the bundle rule: a key, at least one entry, no negative value. */
  predicate BundleValid(b: Bundle) {
    && b.key != ""
    && b.data != map[]
    && forall k :: k in b.data ==> b.data[k] >= 0.0
  }

  predicate SportValid(s: Sport) {
    s.key != "" && s.name != ""
  }

  predicate SportActivityValid(a: SportActivity) {
    a.sportKey != "" && a.sets != []
  }

  /** The bundle validator as the source runs it: reject an empty key or map, then scan the
      entries and stop at the first negative value. */
  method ValidateBundle(b: Bundle) returns (ok: bool)
    ensures ok == BundleValid(b)
  {
    if b.key == "" || b.data == map[] {
      return false;
    }
    var rest := b.data.Keys;
    while rest != {}
      invariant rest <= b.data.Keys
      invariant forall k :: k in b.data && k !in rest ==> b.data[k] >= 0.0
      decreases rest
    {
      var k :| k in rest;
      if b.data[k] < 0.0 {
        return false;
      }
      rest := rest - {k};
    }
    return true;
  }

  // ---------------------------------------------------------------- meals

  /** Meal::new: decodes a persisted ordinal. */
  function MealFromOrdinal(v: U8): Option<Meal> {
    match v
    case 0 => Some(Breakfast)
    case 1 => Some(FirstSnack)
    case 2 => Some(Dinner)
    case 3 => Some(SecondSnack)
    case 4 => Some(ThirdSnack)
    case 5 => Some(Supper)
    case _ => None
  }

  /** The ordinal a meal is persisted as: its declaration position. */
  function MealOrdinal(m: Meal): (v: U8)
    ensures v < 6
    ensures MealFromOrdinal(v) == Some(m)
  {
    match m
    case Breakfast => 0
    case FirstSnack => 1
    case Dinner => 2
    case SecondSnack => 3
    case ThirdSnack => 4
    case Supper => 5
  }

  /** From<Meal> for String: the display name of a meal slot. */
  function MealName(m: Meal): string {
    match m
    case Breakfast => "Завтрак"
    case FirstSnack => "До обеда"
    case Dinner => "Обед"
    case SecondSnack => "Полдник"
    case ThirdSnack => "До ужина"
    case Supper => "Ужин"
  }

  // ---------------------------------------------------------------- properties

  /** Brand and comment are free text that never decides validity. */
  lemma FoodValidIgnoresFreeText(f: Food, brand: string, comment: string)
    ensures FoodValid(f.(brand := brand, comment := comment)) == FoodValid(f)
  {
  }

  /** A zero weight is rejected, the smallest positive one accepted. */
  lemma WeightBoundary(ts: int, v: real)
    ensures !WeightValid(Weight(ts, 0.0))
    ensures v > 0.0 ==> WeightValid(Weight(ts, v))
    ensures v <= 0.0 ==> !WeightValid(Weight(ts, v))
  {
  }

  /** One negative entry invalidates the whole bundle; a 0 entry (a nested bundle) does not. */
  lemma BundleNegativeEntry(b: Bundle, k: string, v: real)
    ensures v < 0.0 ==> !BundleValid(b.(data := b.data[k := v]))
    ensures BundleValid(b) && v >= 0.0 ==> BundleValid(b.(data := b.data[k := v]))
  {
    assert k in b.data[k := v] && b.data[k := v][k] == v;
  }

  /** The decoder accepts exactly the six ordinals 0..5 and inverts MealOrdinal on them. */
  lemma MealDecodeExact(v: U8)
    ensures MealFromOrdinal(v).Some? <==> v < 6
    ensures MealFromOrdinal(v).Some? ==> MealOrdinal(MealFromOrdinal(v).value) == v
  {
  }

  /** Six pairwise distinct display names, one per slot. */
  lemma MealNamesDistinct(m1: Meal, m2: Meal)
    ensures MealName(m1) == MealName(m2) ==> m1 == m2
  {
  }
}
