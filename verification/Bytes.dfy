/** Bytes and the little-endian numbers of the repository's binary formats. */
module Bytes {
  type Byte = b: int | 0 <= b < 256

  function LittleEndian(n: nat): (b: seq<Byte>)
    ensures |b| == 4
  {
    [n % 256, n / 256 % 256, n / 0x1_0000 % 256, n / 0x100_0000 % 256]
  }

  function Assemble(b: seq<Byte>): nat
    requires |b| == 4
  {
    b[0] + 0x100 * (b[1] as int) + 0x1_0000 * (b[2] as int) + 0x100_0000 * (b[3] as int)
  }

  lemma Reassembled(n: nat)
    requires n < 0x1_0000_0000
    ensures Assemble(LittleEndian(n)) == n
  {
    assert n / 0x1_0000 == n / 256 / 256 && n / 0x100_0000 == n / 256 / 256 / 256;
  }

  lemma Disassembled(b: seq<Byte>)
    requires |b| == 4
    ensures Assemble(b) < 0x1_0000_0000 && LittleEndian(Assemble(b)) == b
  {
    var n := Assemble(b);
    assert n / 256 == b[1] + 0x100 * (b[2] as int) + 0x1_0000 * (b[3] as int);
    assert n / 0x1_0000 == b[2] + 0x100 * (b[3] as int);
    assert n / 0x100_0000 == b[3];
  }

  lemma LittleEndianIsInjective(m: nat, n: nat)
    requires m < 0x1_0000_0000 && n < 0x1_0000_0000 && LittleEndian(m) == LittleEndian(n)
    ensures m == n
  {
    Reassembled(m);
    Reassembled(n);
  }
}
