/** Interface byte counters as `getifaddrs` reports them (`ifi_ibytes`,
    `ifi_obytes`: 32-bit, wrapping) and the difference between two samples. */
module ByteCounter {
  import opened BoundedInts

  /** One sample of an interface's input and output byte counters. */
  datatype Counters = Counters(inputBytes: UInt32, outputBytes: UInt32)

  const ZeroCounters: Counters := Counters(0, 0)

  /** `getBytesTransferredDifference` as written: the plain difference when the
      counter did not go down, otherwise `(UInt32.max - past) + now`, which is one
      less than the true distance modulo 2^32. Neither branch leaves UInt32. */
  function Difference(past: UInt32, now: UInt32): (r: UInt32)
    ensures now >= past ==> r == now - past
    ensures now < past ==> r + 1 == (now - past) % UINT32_MODULUS
    ensures now < past ==> r < UINT32_MAX
  {
    if now - past < 0 then (UINT32_MAX - past) + now else now - past
  }

  /** A 32-bit counter at `past` after `k` more bytes. */
  function Advance(past: UInt32, k: nat): UInt32 {
    (past + k) % UINT32_MODULUS
  }

  /** The wrap-around distance the difference is meant to compute: the one
      number of bytes below 2^32 that takes the counter from `past` to `now`. */
  function ModularDifference(past: UInt32, now: UInt32): (r: UInt32)
    ensures Advance(past, r) == now
    ensures forall k: UInt32 :: Advance(past, k) == now ==> k == r
  {
    if now >= past then now - past else UINT32_MODULUS - past + now
  }

  /** On a wrap the as-written difference is exactly one short of the modular
      one; without a wrap they agree. */
  lemma DifferenceVersusModular(past: UInt32, now: UInt32)
    ensures now >= past ==> Difference(past, now) == ModularDifference(past, now)
    ensures now < past ==> Difference(past, now) + 1 == ModularDifference(past, now)
  {
  }

  /** A counter that wraps from UInt32.max to 0 has moved by one byte, but the
      as-written difference reports zero. */
  lemma WrapByOneIsLost()
    ensures Difference(UINT32_MAX, 0) == 0
    ensures ModularDifference(UINT32_MAX, 0) == 1
  {
  }
}
