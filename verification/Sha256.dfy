/**
 SHA-256: the streaming context of the launcher against the one-shot definition of FIPS 180-4.

 The functions follow the sections of FIPS 180-4 that they are named after; the class is the
 code, with its block buffer, its bit count of 64 bits and its in-place compression.
 */
module Sha256 {
  import opened Bytes

  type Word = x: int | 0 <= x < 0x1_0000_0000

  const TWO_TO_THE_32: nat := 0x1_0000_0000

  // ----------------------------------------------------------- operations on words (2.2, 3.2)

  function Sum(x: Word, y: Word): Word {
    (x + y) % TWO_TO_THE_32
  }

  function Pow2(n: nat): (p: nat)
    ensures p > 0
  {
    if n == 0 then 1 else 2 * Pow2(n - 1)
  }

  lemma WordBound()
    ensures Pow2(32) == TWO_TO_THE_32 && Pow2(31) == 0x8000_0000
  {
    assert Pow2(8) == 256 && Pow2(16) == 0x1_0000 && Pow2(24) == 0x100_0000;
  }

  /** Exclusive or of the lowest `n` bits, from the lowest bit up. */
  function XorBits(x: nat, y: nat, n: nat): (r: nat)
    ensures r < Pow2(n)
  {
    if n == 0 then 0 else 2 * XorBits(x / 2, y / 2, n - 1) + (x + y) % 2
  }

  function AndBits(x: nat, y: nat, n: nat): (r: nat)
    ensures r < Pow2(n)
  {
    if n == 0 then 0 else 2 * AndBits(x / 2, y / 2, n - 1) + (if x % 2 == 1 && y % 2 == 1 then 1 else 0)
  }

  function Xor(x: Word, y: Word): Word {
    WordBound();
    XorBits(x, y, 32)
  }

  function And(x: Word, y: Word): Word {
    WordBound();
    AndBits(x, y, 32)
  }

  function Not(x: Word): Word { TWO_TO_THE_32 - 1 - x }

  /** Rotation to the right by `n` places, one place at a time. */
  function Rotr(x: Word, n: nat): Word {
    if n == 0 then x else Rotr(x, n - 1) / 2 + (Rotr(x, n - 1) % 2) * 0x8000_0000
  }

  function Shr(x: Word, n: nat): Word {
    if n == 0 then x else Shr(x, n - 1) / 2
  }

  // ------------------------------------------------- functions and constants (4.1.2, 4.2.2)

  function Ch(x: Word, y: Word, z: Word): Word { Xor(And(x, y), And(Not(x), z)) }

  function Maj(x: Word, y: Word, z: Word): Word { Xor(Xor(And(x, y), And(x, z)), And(y, z)) }

  function BigSigma0(x: Word): Word { Xor(Xor(Rotr(x, 2), Rotr(x, 13)), Rotr(x, 22)) }

  function BigSigma1(x: Word): Word { Xor(Xor(Rotr(x, 6), Rotr(x, 11)), Rotr(x, 25)) }

  function SmallSigma0(x: Word): Word { Xor(Xor(Rotr(x, 7), Rotr(x, 18)), Shr(x, 3)) }

  function SmallSigma1(x: Word): Word { Xor(Xor(Rotr(x, 17), Rotr(x, 19)), Shr(x, 10)) }

  function RoundConstant(t: nat): Word
    requires t < 64
  {
    match t
    case 0 => 0x428a2f98 case 1 => 0x71374491 case 2 => 0xb5c0fbcf case 3 => 0xe9b5dba5
    case 4 => 0x3956c25b case 5 => 0x59f111f1 case 6 => 0x923f82a4 case 7 => 0xab1c5ed5
    case 8 => 0xd807aa98 case 9 => 0x12835b01 case 10 => 0x243185be case 11 => 0x550c7dc3
    case 12 => 0x72be5d74 case 13 => 0x80deb1fe case 14 => 0x9bdc06a7 case 15 => 0xc19bf174
    case 16 => 0xe49b69c1 case 17 => 0xefbe4786 case 18 => 0x0fc19dc6 case 19 => 0x240ca1cc
    case 20 => 0x2de92c6f case 21 => 0x4a7484aa case 22 => 0x5cb0a9dc case 23 => 0x76f988da
    case 24 => 0x983e5152 case 25 => 0xa831c66d case 26 => 0xb00327c8 case 27 => 0xbf597fc7
    case 28 => 0xc6e00bf3 case 29 => 0xd5a79147 case 30 => 0x06ca6351 case 31 => 0x14292967
    case 32 => 0x27b70a85 case 33 => 0x2e1b2138 case 34 => 0x4d2c6dfc case 35 => 0x53380d13
    case 36 => 0x650a7354 case 37 => 0x766a0abb case 38 => 0x81c2c92e case 39 => 0x92722c85
    case 40 => 0xa2bfe8a1 case 41 => 0xa81a664b case 42 => 0xc24b8b70 case 43 => 0xc76c51a3
    case 44 => 0xd192e819 case 45 => 0xd6990624 case 46 => 0xf40e3585 case 47 => 0x106aa070
    case 48 => 0x19a4c116 case 49 => 0x1e376c08 case 50 => 0x2748774c case 51 => 0x34b0bcb5
    case 52 => 0x391c0cb3 case 53 => 0x4ed8aa4a case 54 => 0x5b9cca4f case 55 => 0x682e6ff3
    case 56 => 0x748f82ee case 57 => 0x78a5636f case 58 => 0x84c87814 case 59 => 0x8cc70208
    case 60 => 0x90befffa case 61 => 0xa4506ceb case 62 => 0xbef9a3f7 case _ => 0xc67178f2
  }

  /** A hash value, and also the eight working variables. */
  datatype Words = Words(a: Word, b: Word, c: Word, d: Word, e: Word, f: Word, g: Word, h: Word)

  /** The initial hash value (5.3.3). */
  const INITIAL := Words(0x6a09e667, 0xbb67ae85, 0x3c6ef372, 0xa54ff53a, 0x510e527f, 0x9b05688c, 0x1f83d9ab, 0x5be0cd19)

  // --------------------------------------------------------------- one block (6.2.2)

  /** A block is read as sixteen big-endian words (5.2.1). */
  function BigEndian(b0: Byte, b1: Byte, b2: Byte, b3: Byte): Word {
    b0 * 0x100_0000 + b1 * 0x1_0000 + b2 * 0x100 + b3
  }

  /** The message schedule. */
  function Schedule(block: seq<Byte>, t: nat): Word
    requires |block| == 64 && t < 64
  {
    if t < 16 then BigEndian(block[4 * t], block[4 * t + 1], block[4 * t + 2], block[4 * t + 3])
    else
      Sum(Sum(SmallSigma1(Schedule(block, t - 2)), Schedule(block, t - 7)),
          Sum(SmallSigma0(Schedule(block, t - 15)), Schedule(block, t - 16)))
  }

  function Round(v: Words, k: Word, w: Word): Words {
    var t1 := Sum(Sum(Sum(Sum(v.h, BigSigma1(v.e)), Ch(v.e, v.f, v.g)), k), w);
    var t2 := Sum(BigSigma0(v.a), Maj(v.a, v.b, v.c));
    Words(Sum(t1, t2), v.a, v.b, v.c, Sum(v.d, t1), v.e, v.f, v.g)
  }

  /** The working variables after the first `t` rounds. */
  function Rounds(hash: Words, block: seq<Byte>, t: nat): Words
    requires |block| == 64 && t <= 64
  {
    if t == 0 then hash else Round(Rounds(hash, block, t - 1), RoundConstant(t - 1), Schedule(block, t - 1))
  }

  function Plus(x: Words, y: Words): Words {
    Words(Sum(x.a, y.a), Sum(x.b, y.b), Sum(x.c, y.c), Sum(x.d, y.d),
          Sum(x.e, y.e), Sum(x.f, y.f), Sum(x.g, y.g), Sum(x.h, y.h))
  }

  function Compressed(hash: Words, block: seq<Byte>): Words
    requires |block| == 64
  {
    Plus(Rounds(hash, block, 64), hash)
  }

  // ------------------------------------------------------------- a message (5.1.1, 6.2)

  /** The hash value after all blocks of `data`. */
  function Hashed(data: seq<Byte>): Words
    requires |data| % 64 == 0
  {
    if data == [] then INITIAL
    else Compressed(Hashed(data[..|data| - 64]), data[|data| - 64..])
  }

  const TWO_TO_THE_64: nat := 0x1_0000_0000_0000_0000

  function Power256(n: nat): (p: nat)
    ensures p > 0
  {
    if n == 0 then 1 else 256 * Power256(n - 1)
  }

  function LengthByte(bits: nat, index: nat): Byte
    requires index < 8
  {
    (bits / Power256(7 - index)) % 256
  }

  /** The bit count, modulo 2 to the 64, as eight big-endian bytes. */
  function LengthField(size: nat): (field: seq<Byte>)
    ensures |field| == 8
  {
    seq(8, i requires 0 <= i < 8 => LengthByte((8 * size) % TWO_TO_THE_64, i))
  }

  function Zeros(n: nat): (z: seq<Byte>)
    ensures |z| == n
  {
    seq(n, _ => 0)
  }

  /** A one bit, the fewest zero bits that leave room for the length, and the length. */
  lemma PaddingFits(size: nat)
    ensures (size + 1 + (55 - size) % 64 + 8) % 64 == 0
  {
    assert size + (55 - size) % 64 == 55 - 64 * ((55 - size) / 64);
  }

  function Padding(size: nat): (p: seq<Byte>)
    ensures (size + |p|) % 64 == 0
    ensures 9 <= |p| <= 72
  {
    PaddingFits(size);
    [0x80] + Zeros((55 - size) % 64) + LengthField(size)
  }

  function WordBytes(w: Word): seq<Byte> {
    [w / 0x100_0000, (w / 0x1_0000) % 256, (w / 0x100) % 256, w % 256]
  }

  function Digest(message: seq<Byte>): (digest: seq<Byte>)
    ensures |digest| == 32
  {
    var h := Hashed(message + Padding(|message|));
    WordBytes(h.a) + WordBytes(h.b) + WordBytes(h.c) + WordBytes(h.d)
    + WordBytes(h.e) + WordBytes(h.f) + WordBytes(h.g) + WordBytes(h.h)
  }

  // -------------------------------------------------------------- the streaming code

  /** C adds the four terms in another order. */
  lemma SumReorders(a: Word, b: Word, c: Word, d: Word)
    ensures Sum(Sum(Sum(a, b), c), d) == Sum(Sum(d, c), Sum(b, a))
  {
    hide Sum;
    SumOfFour(a, b, c, d);
    SumOfPairs(d, c, b, a);
  }

  lemma SumOfFour(a: Word, b: Word, c: Word, d: Word)
    ensures Sum(Sum(Sum(a, b), c), d) == (a + b + c + d) % TWO_TO_THE_32
  {
    SumIsModular(a + b, c);
    SumIsModular(a + b + c, d);
  }

  lemma SumOfPairs(a: Word, b: Word, c: Word, d: Word)
    ensures Sum(Sum(a, b), Sum(c, d)) == (a + b + c + d) % TWO_TO_THE_32
  {
    SumIsModular(a + b, Sum(c, d));
    SumIsModular(c + d, a + b);
  }

  lemma SumIsModular(x: nat, y: nat)
    ensures (x % TWO_TO_THE_32 + y) % TWO_TO_THE_32 == (x + y) % TWO_TO_THE_32
  {
    assert x == x % TWO_TO_THE_32 + x / TWO_TO_THE_32 * TWO_TO_THE_32;
  }

  method FillSchedule(block: array<Byte>, schedule: array<Word>)
    requires block.Length == 64 && schedule.Length == 64
    modifies schedule
    ensures forall t | 0 <= t < 64 :: schedule[t] == Schedule(block[..], t)
  {
    hide Sum, BigEndian, SmallSigma0, SmallSigma1;
    for index := 0 to 16
      invariant forall t | 0 <= t < index :: schedule[t] == Schedule(block[..], t)
    {
      schedule[index] :=
        BigEndian(block[4 * index], block[4 * index + 1], block[4 * index + 2], block[4 * index + 3]);
    }
    for index := 16 to 64
      invariant forall t | 0 <= t < index :: schedule[t] == Schedule(block[..], t)
    {
      var previous, recent := schedule[index - 15], schedule[index - 2];
      SumReorders(schedule[index - 16], SmallSigma0(previous), schedule[index - 7], SmallSigma1(recent));
      schedule[index] :=
        Sum(Sum(Sum(schedule[index - 16], SmallSigma0(previous)), schedule[index - 7]), SmallSigma1(recent));
    }
  }

  /** The sixty-four rounds, on eight variables that move along by one place in each. */
  method RunRounds(hash: Words, ghost block: seq<Byte>, schedule: array<Word>) returns (result: Words)
    requires |block| == 64 && schedule.Length == 64
    requires forall t | 0 <= t < 64 :: schedule[t] == Schedule(block, t)
    ensures result == Rounds(hash, block, 64)
  {
    var a, b, c, d := hash.a, hash.b, hash.c, hash.d;
    var e, f, g, h := hash.e, hash.f, hash.g, hash.h;
    for index := 0 to 64
      invariant Words(a, b, c, d, e, f, g, h) == Rounds(hash, block, index)
    {
      var temp1 := Sum(Sum(Sum(Sum(h, BigSigma1(e)), Ch(e, f, g)), RoundConstant(index)), schedule[index]);
      var temp2 := Sum(BigSigma0(a), Maj(a, b, c));
      h := g;
      g := f;
      f := e;
      e := Sum(d, temp1);
      d := c;
      c := b;
      b := a;
      a := Sum(temp1, temp2);
    }
    result := Words(a, b, c, d, e, f, g, h);
  }

  /** Adding a block at the end of whole blocks is one compression. */
  lemma HashedAppend(data: seq<Byte>, block: seq<Byte>)
    requires |data| % 64 == 0 && |block| == 64
    ensures Hashed(data + block) == Compressed(Hashed(data), block)
  {
    assert (data + block)[..|data|] == data;
    assert (data + block)[|data|..] == block;
  }

  lemma BitsAdd(m: nat, n: nat)
    ensures ((8 * m) % TWO_TO_THE_64 + 8 * n) % TWO_TO_THE_64 == (8 * (m + n)) % TWO_TO_THE_64
  {
    assert 8 * m == (8 * m) % TWO_TO_THE_64 + 8 * m / TWO_TO_THE_64 * TWO_TO_THE_64;
  }

  class Context {
    var state: Words
    var bits: nat
    const buffer: array<Byte>
    var buffered: nat
    var active: bool
    ghost var message: seq<Byte>  // everything passed to Update since initialisation

    ghost predicate Valid()
      reads this, buffer
    {
      && buffer.Length == 64
      && (active ==>
            && buffered < 64 && bits == (8 * |message|) % TWO_TO_THE_64
            && Absorbed())
    }

    /** All complete blocks are in the hash value; what remains of the message is in the buffer. */
    ghost predicate Absorbed()
      reads `state, `buffered, `message, buffer
    {
      && buffer.Length == 64 && buffered <= 64 && buffered <= |message|
      && (|message| - buffered) % 64 == 0
      && state == Hashed(message[..|message| - buffered])
      && buffer[..buffered] == message[|message| - buffered..]
    }

    constructor ()
      ensures Valid() && fresh(buffer) && active && message == []
    {
      state := INITIAL;
      bits, buffered, active := 0, 0, true;
      message := [];
      buffer := new Byte[64](_ => 0);
    }

    /** Wipes the whole context. */
    method Clear()
      requires buffer.Length == 64
      modifies this, buffer
      ensures !active && bits == 0 && buffered == 0
      ensures buffer[..] == Zeros(64) && state == Words(0, 0, 0, 0, 0, 0, 0, 0)
    {
      state := Words(0, 0, 0, 0, 0, 0, 0, 0);
      bits, buffered, active := 0, 0, false;
      forall i | 0 <= i < 64 { buffer[i] := 0; }
    }

    method Compress()
      requires buffer.Length == 64
      modifies `state
      ensures state == Compressed(old(state), buffer[..])
    {
      hide Rounds, Plus;
      var schedule := new Word[64];
      FillSchedule(buffer, schedule);
      var v := RunRounds(state, buffer[..], schedule);
      state := Plus(v, state);
    }

    /** A full buffer is compressed and emptied. */
    method Drain()
      requires Absorbed() && buffered == 64
      modifies `state, `buffered
      ensures Absorbed() && buffered == 0
    {
      hide Hashed, Compressed;
      ghost var done := message[..|message| - 64];
      HashedAppend(done, buffer[..]);
      assert message == done + buffer[..];
      Compress();
      buffered := 0;
      assert message[..|message|] == message;
    }

    /** Takes as many bytes as the buffer has room for. */
    method Fill(bytes: seq<Byte>)
      requires Absorbed() && buffered + |bytes| <= 64
      modifies `buffered, buffer, `message
      ensures Absorbed() && message == old(message) + bytes && buffered == old(buffered) + |bytes|
    {
      hide Hashed, Compressed;
      ghost var done, rest := message[..|message| - buffered], message[|message| - buffered..];
      forall i | 0 <= i < |bytes| { buffer[buffered + i] := bytes[i]; }
      buffered := buffered + |bytes|;
      message := message + bytes;
      assert message == done + (rest + bytes);
      assert buffer[..buffered] == rest + bytes;
      assert message[..|message| - buffered] == done;
    }

    /** Copies what fits into the buffer and compresses it when it is full. */
    method Take(input: seq<Byte>) returns (chunk: nat)
      requires Absorbed() && buffered < 64 && |input| > 0
      modifies `state, `buffered, buffer, `message
      ensures Absorbed() && buffered < 64
      ensures 0 < chunk <= |input| && message == old(message) + input[..chunk]
    {
      hide Hashed, Compressed;
      var room := 64 - buffered;
      chunk := if |input| < room then |input| else room;
      Fill(input[..chunk]);
      if buffered == 64 { Drain(); }
    }

    method Update(input: seq<Byte>) returns (ok: bool)
      requires Valid()
      modifies this, buffer
      ensures Valid() && active == old(active) && ok == active
      ensures ok ==> message == old(message) + input
    {
      hide Absorbed;
      if !active { return false; }
      BitsAdd(|message|, |input|);
      bits := (bits + 8 * |input|) % TWO_TO_THE_64;
      ghost var total := (8 * (|message| + |input|)) % TWO_TO_THE_64;
      var taken := 0;
      while taken < |input|
        invariant 0 <= taken <= |input| && active && buffered < 64 && bits == total
        invariant Absorbed() && message == old(message) + input[..taken]
      {
        var chunk := Take(input[taken..]);
        assert input[..taken + chunk] == input[..taken] + input[taken..][..chunk];
        taken := taken + chunk;
      }
      assert input[..taken] == input;
      ok := true;
    }

    /** Appends the padding, except that the last block is not yet compressed. */
    method Pad()
      requires Absorbed() && buffered < 64 && bits == (8 * |message|) % TWO_TO_THE_64
      modifies `state, `buffered, buffer, `message
      ensures Absorbed() && buffered == 64
      ensures message == old(message) + Padding(|old(message)|)
    {
      hide Absorbed;
      ghost var size := |message|;
      var length := bits;
      Fill([0x80]);
      PadWithZeros();
      Fill(seq(8, i requires 0 <= i < 8 => LengthByte(length, i)));
      assert (56 - (size + 1)) % 64 == (55 - size) % 64;
      assert message == old(message) + [0x80] + Zeros((55 - size) % 64) + LengthField(size);
    }

    /** Pads, compresses the last one or two blocks and forgets everything. */
    method Final() returns (ok: bool, output: seq<Byte>)
      requires Valid()
      modifies this, buffer
      ensures Valid() && !active && ok == old(active)
      ensures ok ==> output == Digest(old(message))
      ensures buffer[..] == Zeros(64) && state == Words(0, 0, 0, 0, 0, 0, 0, 0) && bits == 0 && buffered == 0
    {
      hide Hashed, Padding;
      if !active {
        Clear();
        return false, [];
      }
      Pad();
      Drain();
      assert message[..|message|] == message;
      output := WordBytes(state.a) + WordBytes(state.b) + WordBytes(state.c) + WordBytes(state.d)
        + WordBytes(state.e) + WordBytes(state.f) + WordBytes(state.g) + WordBytes(state.h);
      Clear();
      ok := true;
    }

    /** Zero bytes up to the length field; without room for it, up to the end of the block first. */
    method PadWithZeros()
      requires Absorbed() && 1 <= buffered <= 64
      modifies `state, `buffered, buffer, `message
      ensures Absorbed() && buffered == 56
      ensures message == old(message) + Zeros((56 - |old(message)|) % 64)
    {
      hide Hashed, Compressed;
      if buffered > 56 {
        Fill(Zeros(64 - buffered));
        Drain();
      }
      Fill(Zeros(56 - buffered));
    }
  }

  // ---------------------------------------------------------------- theorems

  function Joined(pieces: seq<seq<Byte>>): seq<Byte> {
    if pieces == [] then [] else Joined(pieces[..|pieces| - 1]) + pieces[|pieces| - 1]
  }

  /** However a message is cut into updates, the digest is that of the whole message. */
  method HashPieces(pieces: seq<seq<Byte>>) returns (output: seq<Byte>)
    ensures output == Digest(Joined(pieces))
  {
    hide Digest, Context.Absorbed;
    var context := new Context();
    for i := 0 to |pieces|
      invariant fresh(context) && fresh(context.buffer) && context.Valid() && context.active
      invariant context.message == Joined(pieces[..i])
    {
      assert pieces[..i + 1][..i] == pieces[..i];
      var updated := context.Update(pieces[i]);
    }
    assert pieces[..|pieces|] == pieces;
    var ok;
    ok, output := context.Final();
  }

  function Value(bytes: seq<Byte>): nat {
    if bytes == [] then 0 else 256 * Value(bytes[..|bytes| - 1]) + bytes[|bytes| - 1]
  }

  lemma {:induction false} MultiplesAreApart(d: nat, a: nat, b: nat)
    requires a < b
    ensures d * a + d <= d * b
  {
    assert d * b == d * (b - 1) + d;
    if a < b - 1 { MultiplesAreApart(d, a, b - 1); }
  }

  lemma QuotientIsUnique(x: nat, d: nat, q: nat, r: nat)
    requires d > 0 && r < d && x == d * q + r
    ensures x / d == q
  {
    var other := x / d;
    assert x == d * other + x % d;
    if other < q {
      MultiplesAreApart(d, other, q);
    } else if q < other {
      MultiplesAreApart(d, q, other);
    }
  }

  lemma DivideTwice(x: nat, p: nat)
    requires p > 0
    ensures x / (256 * p) == (x / p) / 256
  {
    var q, r := x / p, x % p;
    var high, low := q / 256, q % 256;
    MultiplesAreApart(p, low, 256);
    assert x == (256 * p) * high + (p * low + r) by {
      assert x == p * q + r && q == 256 * high + low;
      assert p * q == p * (256 * high) + p * low;
    }
    QuotientIsUnique(x, 256 * p, high, p * low + r);
  }

  lemma {:induction false} LengthPrefix(size: nat, k: nat)
    requires k <= 8
    ensures Value(LengthField(size)[..k]) == (8 * size) % TWO_TO_THE_64 / Power256(8 - k)
  {
    var bits, field := (8 * size) % TWO_TO_THE_64, LengthField(size);
    if k == 0 {
      assert Power256(8) == 256 * Power256(7) && Power256(7) == 256 * Power256(6) && Power256(4) == 0x1_0000_0000;
    } else {
      LengthPrefix(size, k - 1);
      assert field[..k][..k - 1] == field[..k - 1];
      assert field[k - 1] == LengthByte(bits, k - 1);
      DivideTwice(bits, Power256(8 - k));
    }
  }

  /** The last eight bytes of a padded message are its length in bits, while that fits 64 bits. */
  lemma LengthFieldIsExact(size: nat)
    requires 8 * size < TWO_TO_THE_64
    ensures Value(LengthField(size)) == 8 * size
  {
    hide LengthField;
    LengthPrefix(size, 8);
    assert LengthField(size)[..8] == LengthField(size);
  }

  /** No two messages within the length limit have the same padded form. */
  lemma PaddedIsInjective(m1: seq<Byte>, m2: seq<Byte>)
    requires 8 * |m1| < TWO_TO_THE_64 && 8 * |m2| < TWO_TO_THE_64
    requires m1 + Padding(|m1|) == m2 + Padding(|m2|)
    ensures m1 == m2
  {
    hide LengthField, Zeros;
    var padded := m1 + Padding(|m1|);
    assert padded[|padded| - 8..] == LengthField(|m1|);
    assert padded[|padded| - 8..] == LengthField(|m2|);
    LengthFieldIsExact(|m1|);
    LengthFieldIsExact(|m2|);
    assert padded[..|m1|] == m1 && padded[..|m2|] == m2;
  }

  // --------------------------------------- the operations on words, bit by bit

  predicate Bit(x: nat, i: nat) {
    if i == 0 then x % 2 == 1 else Bit(x / 2, i - 1)
  }

  lemma {:induction false} XorIsBitwise(x: nat, y: nat, n: nat, i: nat)
    requires i < n
    ensures Bit(XorBits(x, y, n), i) <==> (Bit(x, i) <==> !Bit(y, i))
  {
    if i > 0 { XorIsBitwise(x / 2, y / 2, n - 1, i - 1); }
  }

  lemma {:induction false} AndIsBitwise(x: nat, y: nat, n: nat, i: nat)
    requires i < n
    ensures Bit(AndBits(x, y, n), i) <==> Bit(x, i) && Bit(y, i)
  {
    if i > 0 { AndIsBitwise(x / 2, y / 2, n - 1, i - 1); }
  }

  lemma {:induction false} TopBit(y: nat, b: nat, k: nat, i: nat)
    requires y < Pow2(k) && b < 2 && i <= k
    ensures Bit(y + b * Pow2(k), i) <==> if i < k then Bit(y, i) else b == 1
  {
    if k == 0 {
      assert y == 0;
    } else {
      assert (y + b * Pow2(k)) / 2 == y / 2 + b * Pow2(k - 1);
      if i > 0 { TopBit(y / 2, b, k - 1, i - 1); }
    }
  }

  lemma RotateOnce(r: Word, i: nat)
    requires i < 32
    ensures Bit(r / 2 + (r % 2) * 0x8000_0000, i) <==> Bit(r, (i + 1) % 32)
  {
    WordBound();
    TopBit(r / 2, r % 2, 31, i);
  }

  lemma PlacesAdd(i: nat, n: nat)
    requires i < 32 && n > 0
    ensures ((i + 1) % 32 + n - 1) % 32 == (i + n) % 32
  {
  }

  /** Rotation moves every bit down by `n` places and around. */
  lemma {:induction false} RotrIsBitwise(x: Word, n: nat, i: nat)
    requires i < 32
    ensures Bit(Rotr(x, n), i) <==> Bit(x, (i + n) % 32)
  {
    hide Bit;
    if n > 0 {
      RotateOnce(Rotr(x, n - 1), i);
      RotrIsBitwise(x, n - 1, (i + 1) % 32);
      PlacesAdd(i, n);
    }
  }
}
