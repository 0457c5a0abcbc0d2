/** Compile-time limits shared by several components. */
module Limits {
  const RETRY_MAX_ATTEMPTS: nat := 5
  const RETRY_BACKOFF_BASE_MS: nat := 1_000
}
