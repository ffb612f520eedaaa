/** Bytes, as read from and written to connections and stores. */
module Bytes {
  newtype byte = x: int | 0 <= x < 256
}
