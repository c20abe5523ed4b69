/** Machine words of the program, as ranges of the integers. Wherever the program
    relies on a fixed width, the wrap-around is written out with one of the
    functions below. */
module Words {
  const TWO16 := 0x1_0000
  const TWO32 := 0x1_0000_0000
  const TWO63 := 0x8000_0000_0000_0000
  const TWO64 := 0x1_0000_0000_0000_0000

  const NS_PER_S := 1_000_000_000

  type u8 = x: int | 0 <= x < 0x100
  type u16 = x: int | 0 <= x < TWO16
  type u32 = x: int | 0 <= x < TWO32
  type u64 = x: int | 0 <= x < TWO64

  /** `x` modulo 2^32 and 2^64, by repeated subtraction. */
  function Wrap32(x: nat): u32 {
    if x < TWO32 then x else Wrap32(x - TWO32)
  }

  function Wrap64(x: nat): u64 {
    if x < TWO64 then x else Wrap64(x - TWO64)
  }

  function Add32(x: nat, y: nat): u32 {
    Wrap32(x + y)
  }

  function Add64(x: nat, y: nat): u64 {
    Wrap64(x + y)
  }

  lemma {:induction false} Wrap32IsMod(x: nat)
    ensures Wrap32(x) == x % TWO32
  {
    if x >= TWO32 {
      Wrap32IsMod(x - TWO32);
    }
  }

  lemma {:induction false} Wrap64IsMod(x: nat)
    ensures Wrap64(x) == x % TWO64
  {
    if x >= TWO64 {
      Wrap64IsMod(x - TWO64);
    }
  }

  /** Adding to a wrapped number and wrapping again loses nothing more. */
  lemma {:induction false} Add64OfWrap(x: nat, y: nat)
    ensures Add64(Wrap64(x), y) == Wrap64(x + y)
  {
    if x >= TWO64 {
      Add64OfWrap(x - TWO64, y);
    }
  }

  lemma {:induction false} Add32OfWrap(x: nat, y: nat)
    ensures Add32(Wrap32(x), y) == Wrap32(x + y)
  {
    if x >= TWO32 {
      Add32OfWrap(x - TWO32, y);
    }
  }

  /** Wrapping only ever lowers a number. */
  lemma {:induction false} Wrap32Lowers(x: nat)
    ensures Wrap32(x) <= x
  {
    if x >= TWO32 {
      Wrap32Lowers(x - TWO32);
    }
  }

  /** Numbers a multiple of the modulus apart wrap to the same word. */
  lemma {:induction false} SameWrap64(x: nat, y: nat, q: nat)
    requires x + TWO64 * q == y
    ensures Wrap64(x) == Wrap64(y)
  {
    if q > 0 {
      SameWrap64(x, y - TWO64, q - 1);
    }
  }
}
