/** The bound shared by the reader of a package's manifest and its installer. */
module Limits {
  /** The largest executable that a package holds. */
  const MAX_SIZE: nat := 256 * 1024 * 1024
}
