module HashType {
  /** A 256-bit hash; nothing but equality and order is asked of it. */
  type Hash = int
}
