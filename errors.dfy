/** The closed taxonomy of store failures (lib/storage/src/lib.rs) and the result type every
    store operation returns. */
module StoreErrors {

  datatype StorageError =
    | Unknown
    | EmptyResult
    | WeightInvalid
    | FoodInvalid
    | FoodIsUsed
    | FoodNotFound
    | SportInvalid
    | SportNotFound
    | SportIsUsedViolation
    | SportActivityInvalid
    | UserSettingsInvalid
    | UserSettingsNotFound
    | BundleInvalid
    | BundleDepFoodNotFound
    | BundleDepBundleNotFound
    | BundleDepRecursive
    | BundleIsUsed
    | BundleNotFound
    | JournalInvalid

  /** The kind a default-constructed StorageError has. */
  function DefaultStorageError(): StorageError {
    Unknown
  }

  /** The display text of each kind. */
  function Message(k: StorageError): string {
    match k
    case Unknown => "unknown"
    case EmptyResult => "empty result"
    case WeightInvalid => "weight invalid"
    case FoodInvalid => "food invalid"
    case FoodIsUsed => "food is used"
    case FoodNotFound => "food not found"
    case SportInvalid => "sport invalid"
    case SportNotFound => "sport not found"
    case SportIsUsedViolation => "sport is used in activity"
    case SportActivityInvalid => "sport activity invalid"
    case UserSettingsInvalid => "user settings invalid"
    case UserSettingsNotFound => "user settings not found"
    case BundleInvalid => "bundle invalid"
    case BundleDepFoodNotFound => "dependent food not found"
    case BundleDepBundleNotFound => "dependent bundle not found"
    case BundleDepRecursive => "dependent recursive bundle not allowed"
    case BundleIsUsed => "bundle is used"
    case BundleNotFound => "bundle not found"
    case JournalInvalid => "journal invalid"
  }

  /** A failed call carries either a kind of the taxonomy or an error from outside it (a database
      or decoding failure), which no kind classifies. */
  datatype Error = Storage(kind: StorageError) | Other

  datatype Result<T> = Ok(value: T) | Err(error: Error)

  function Fail<T>(k: StorageError): Result<T> {
    Err(Storage(k))
  }

  /** is_storage_error: callers test a failure against one kind at a time. Only its signature
      is in the source; the exact comparison of kinds is this model's reading of it. */
  predicate IsStorageError(k: StorageError, e: Error) {
    e.Storage? && e.kind == k
  }

  /** The nineteen display texts are pairwise distinct, so a message names its kind. */
  lemma MessagesDistinct(k1: StorageError, k2: StorageError)
    ensures Message(k1) == Message(k2) ==> k1 == k2
  {
  }
}
