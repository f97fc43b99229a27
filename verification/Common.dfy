/** What several components share: optional values, narrowing to 32 bits, concatenation. */
module Common {

  datatype Option<T> = None | Some(value: T)

  const WORD32: nat := 0x1_0000_0000

  /** A 32-bit word read as a signed number. */
  function Signed32(v: nat): int {
    if v < WORD32 / 2 then v else v - WORD32
  }

  /** An unsigned id stored as a signed 32-bit one. */
  function Narrow32(id: nat): int {
    Signed32(id % WORD32)
  }

  /** It is the signed 32-bit number that differs from the id by whole cycles. */
  lemma NarrowIs(id: nat)
    ensures -0x8000_0000 <= Narrow32(id) < 0x8000_0000 && (Narrow32(id) - id) % 0x1_0000_0000 == 0
  {
    var v := id % WORD32;
    assert v - id == -(id / WORD32) * WORD32;
    assert v - WORD32 - id == -(id / WORD32 + 1) * WORD32;
  }

  lemma ConcatAssociates<T>(a: seq<T>, b: seq<T>, c: seq<T>)
    ensures (a + b) + c == a + (b + c)
  {
  }
}
