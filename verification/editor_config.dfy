/** The theme editor's tuning constants. */
module EditorConfig {

  /** Byte size above which custom CSS is kept in local instead of synced
      storage. */
  const SyncStorageLimit: nat := 7000

  /** A quota failure falls back to local storage only while the caller's
      retry count is below this. */
  const MaxRetryAttempts: nat := 3

  /** Number of distinct rainbow-bracket levels (and colours). */
  const BracketNestingLevels: nat := 7
}
