/** Machine integers of the target (a 32-bit microcontroller) and small helpers. */
module Words {
  const U32_RANGE: int := 0x1_0000_0000
  const I32_MAX: int := 0x7fff_ffff

  newtype u8 = x: int | 0 <= x < 0x100
  newtype u32 = x: int | 0 <= x < 0x1_0000_0000
  newtype usize = x: int | 0 <= x < 0x1_0000_0000

  datatype Option<T> = None | Some(value: T)

  /** `x as u32` of a non-negative integer: keeps the low 32 bits. */
  function AsU32(x: nat): nat {
    x % U32_RANGE
  }

  /** `usize::wrapping_add` on the target. */
  function WrappingAdd(x: nat, y: nat): nat {
    (x + y) % U32_RANGE
  }

  function Min(x: int, y: int): int {
    if x < y then x else y
  }

  function Max(x: int, y: int): int {
    if x < y then y else x
  }

  function Flatten<T>(chunks: seq<seq<T>>): seq<T> {
    if chunks == [] then [] else chunks[0] + Flatten(chunks[1..])
  }

  lemma AppendNothing<T>(s: seq<T>)
    ensures s + [] == s && [] + s == s
  {
  }

  lemma AppendAssociates<T>(a: seq<T>, b: seq<T>, c: seq<T>)
    ensures a + b + c == a + (b + c)
  {
  }
}
