/** Byte strings and machine integers. */
module Words {
  type Bytes = seq<bv8>

  /** An OCaml integer cut down to a signed 32-bit one. */
  function AsInt32(n: int): (r: int)
    ensures -0x8000_0000 <= r < 0x8000_0000
    ensures -0x8000_0000 <= n < 0x8000_0000 ==> r == n
  {
    (n + 0x8000_0000) % 0x1_0000_0000 - 0x8000_0000
  }
}
