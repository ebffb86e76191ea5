/** Little-endian 32-bit words. */
module Endian {
  import opened Base

  type Bytes = seq<byte>

  function Word(n: u32): (b: Bytes)
    ensures |b| == 4
    ensures var b0: int, b1: int, b2: int, b3: int := b[0], b[1], b[2], b[3];
            n == b0 + 0x100 * b1 + 0x1_0000 * b2 + 0x100_0000 * b3
  {
    var q := n / 256;
    var r := q / 256;
    [n % 256, q % 256, r % 256, r / 256]
  }

  function FromWord(b: Bytes): u32
    requires |b| == 4
  {
    var b0: int, b1: int, b2: int, b3: int := b[0], b[1], b[2], b[3];
    b0 + 256 * (b1 + 256 * (b2 + 256 * b3))
  }

  lemma WordRoundTrip(n: u32)
    ensures FromWord(Word(n)) == n
  {
    var q := n / 256;
    var r := q / 256;
    assert n == n % 256 + 256 * q && q == q % 256 + 256 * r && r == r % 256 + 256 * (r / 256);
    assert r / 256 < 256;
  }

  lemma {:induction false} WordBack(b: Bytes)
    requires |b| == 4
    ensures Word(FromWord(b)) == b
  {
    var n := FromWord(b);
    var b0: int, b1: int, b2: int, b3: int := b[0], b[1], b[2], b[3];
    assert n % 256 == b0 && n / 256 == b1 + 256 * (b2 + 256 * b3);
    assert n / 256 / 256 == b2 + 256 * b3;
  }
}
