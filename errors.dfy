// The crate's error enums (src/tier_error.rs and src/error.rs). Every variant
// that carries the rejected element hands it back to the caller.
module Errors {
  /** Errors a single tier reports. */
  datatype TierError<T> =
    | TierFullInsertionError(elem: T)
    | TierDisconnectedEntryInsertionError(rank: nat, elem: T)
    | TierEmptyError
    | TierRankOutOfBoundsError(rank: nat)

  /** Errors a tiered vector reports. */
  datatype TieredVectorError<T> =
    | TieredVectorOutofBoundsInsertionError(rank: nat, elem: T)
    | TieredVectorEmptyError
    | TieredVectorRankOutOfBoundsError(rank: nat)
}
