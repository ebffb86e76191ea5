/** Machine words of the daemon and the option type shared by every module. */
module Base {

  datatype Option<+T> = None | Some(value: T)

  const U32_LIMIT: int := 0x1_0000_0000
  const U64_LIMIT: int := 0x1_0000_0000_0000_0000
  const U64_MAX: int := 0xFFFF_FFFF_FFFF_FFFF

  type byte = x: int | 0 <= x < 256
  type u32 = x: int | 0 <= x < 0x1_0000_0000
  type u64 = x: int | 0 <= x < 0x1_0000_0000_0000_0000

  // Release builds of the daemon carry no overflow checks, so `+`, `*` and `sum` wrap.

  /** x modulo 2^32. */
  function WrapU32(x: nat): (r: u32)
    ensures r <= x
    ensures x < U32_LIMIT ==> r == x
  {
    if x < 0x1_0000_0000 then x else WrapU32(x - 0x1_0000_0000)
  }

  /** x modulo 2^64. */
  function WrapU64(x: nat): (r: u64)
    ensures r <= x
    ensures x < U64_LIMIT ==> r == x
  {
    if x < 0x1_0000_0000_0000_0000 then x else WrapU64(x - 0x1_0000_0000_0000_0000)
  }

  lemma {:induction false} WrapU64IsRemainder(x: nat)
    ensures WrapU64(x) == x % 0x1_0000_0000_0000_0000
  {
    if x >= U64_LIMIT {
      WrapU64IsRemainder(x - U64_LIMIT);
    }
  }

  lemma {:induction false} WrapU32IsRemainder(x: nat)
    ensures WrapU32(x) == x % 0x1_0000_0000
  {
    if x >= U32_LIMIT {
      WrapU32IsRemainder(x - U32_LIMIT);
    }
  }

  /** Wrapping early or late makes no difference. */
  lemma {:induction false} WrapAdd(a: nat, b: nat)
    ensures WrapU64(WrapU64(a) + b) == WrapU64(a + b)
  {
    if a >= U64_LIMIT {
      WrapAdd(a - U64_LIMIT, b);
    }
  }

  lemma {:induction false} WrapAdd32(a: nat, b: nat)
    ensures WrapU32(WrapU32(a) + b) == WrapU32(a + b)
  {
    if a >= U32_LIMIT {
      WrapAdd32(a - U32_LIMIT, b);
    }
  }

  /** Equal remainders lie a whole number of turns apart. */
  lemma {:induction false} WrapGap(a: nat, d: nat)
    requires d > 0 && WrapU32(a) == WrapU32(a + d)
    ensures d >= U32_LIMIT
  {
    if a >= U32_LIMIT {
      WrapGap(a - U32_LIMIT, d);
    } else if a + d >= U32_LIMIT {
      assert WrapU32(a + d) <= a + d - U32_LIMIT;
    }
  }

  lemma {:induction false} WrapKeepsEven(x: nat)
    requires x % 2 == 0
    ensures WrapU64(x) % 2 == 0
  {
    if x >= U64_LIMIT {
      WrapKeepsEven(x - U64_LIMIT);
    }
  }

  function SaturatingSub(a: nat, b: nat): (r: nat)
    ensures b <= a ==> r + b == a
    ensures a <= b ==> r == 0
  {
    if a >= b then a - b else 0
  }

  function Max(a: nat, b: nat): (r: nat)
    ensures r >= a && r >= b && (r == a || r == b)
  {
    if a >= b then a else b
  }
}
