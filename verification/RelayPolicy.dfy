/** The constants of the store-and-forward policy and its rule for storing. */
module RelayPolicy {
  import opened SnTracking

  const RELAY_MAX_GAP := 64
  const RELAY_MAX_REPLAY := 64

  /** Every telegram addressed to us is stored, except one already seen. */
  predicate Stores(v: Verdict) {
    v != Duplicate
  }
}
