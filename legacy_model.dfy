/** The older copy of the entity rules (src/components/storage/model.rs). Its records have the
    same shapes as Model's, so only the rules are restated; the lemmas compare both copies. */
module LegacyModel {
  import opened Model

  predicate LegacyFoodValid(f: Food) {
    && f.key != ""
    && f.name != ""
    && f.cal100 >= 0.0
    && f.prot100 >= 0.0
    && f.fat100 >= 0.0
    && f.carb100 >= 0.0
  }

  /** Unlike the current crate, a weight of exactly 0 passes. */
  predicate LegacyWeightValid(w: Weight) {
    w.value >= 0.0
  }

  predicate LegacyJournalValid(j: Journal) {
    j.foodKey != "" && j.foodWeight > 0.0
  }

  predicate LegacyUserSettingsValid(s: UserSettings) {
    s.calLimit > 0.0
  }

  predicate LegacyBundleValid(b: Bundle) {
    && b.key != ""
    && |b.data| != 0
    && forall k :: k in b.data ==> !(b.data[k] < 0.0)
  }

  function LegacyMealFromOrdinal(v: U8): Option<Meal> {
    match v
    case 0 => Some(Breakfast)
    case 1 => Some(FirstSnack)
    case 2 => Some(Dinner)
    case 3 => Some(SecondSnack)
    case 4 => Some(ThirdSnack)
    case 5 => Some(Supper)
    case _ => None
  }

  function LegacyMealName(m: Meal): string {
    match m
    case Breakfast => "Завтрак"
    case FirstSnack => "До обеда"
    case Dinner => "Обед"
    case SecondSnack => "Полдник"
    case ThirdSnack => "До ужина"
    case Supper => "Ужин"
  }

  /** The two copies agree on every entity except Weight. */
  lemma LegacyRulesAgree(f: Food, j: Journal, s: UserSettings, b: Bundle)
    ensures LegacyFoodValid(f) == FoodValid(f)
    ensures LegacyJournalValid(j) == JournalValid(j)
    ensures LegacyUserSettingsValid(s) == UserSettingsValid(s)
    ensures LegacyBundleValid(b) == BundleValid(b)
  {
    assert |b.data| != 0 <==> b.data != map[];
  }

  /** The Weight rules differ in exactly one value: 0 is legacy-valid and currently invalid. */
  lemma LegacyWeightDiffersOnlyAtZero(w: Weight)
    ensures LegacyWeightValid(w) == (WeightValid(w) || w.value == 0.0)
    ensures LegacyWeightValid(w) && !WeightValid(w) <==> w.value == 0.0
  {
  }

  /** The legacy meal decoder and display names coincide with the current ones. */
  lemma LegacyMealAgrees(v: U8, m: Meal)
    ensures LegacyMealFromOrdinal(v) == MealFromOrdinal(v)
    ensures LegacyMealName(m) == MealName(m)
  {
  }
}
