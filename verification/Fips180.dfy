/** SHA-256 as FIPS 180-4 defines it, and HMAC as RFC 2104 defines it. Nothing here is fast:
    this is the meaning that the two engines of the repository are proved against. */
module Fips180 {
  type byte = bv8
  type word = bv32

  // Section 4.1.2: the six logical functions.

  function Rotr(x: word, n: byte): word
    requires n <= 32
  {
    (x >> n) | (x << (32 - n))
  }

  function Ch(x: word, y: word, z: word): word { (x & y) ^ (!x & z) }

  function Maj(x: word, y: word, z: word): word { (x & y) ^ (x & z) ^ (y & z) }

  function Parity(x: word, y: word, z: word): word { x ^ y ^ z }

  function BigSigma0(x: word): word { Parity(Rotr(x, 2), Rotr(x, 13), Rotr(x, 22)) }

  function BigSigma1(x: word): word { Parity(Rotr(x, 6), Rotr(x, 11), Rotr(x, 25)) }

  function SmallSigma0(x: word): word { Parity(Rotr(x, 7), Rotr(x, 18), x >> 3) }

  function SmallSigma1(x: word): word { Parity(Rotr(x, 17), Rotr(x, 19), x >> 10) }

  // Section 4.2.2: the round constants, in rows of eight.

  function KRow(r: nat): (s: seq<word>)
    requires r < 8
    ensures |s| == 8
  {
    match r
    case 0 => [0x428a2f98, 0x71374491, 0xb5c0fbcf, 0xe9b5dba5, 0x3956c25b, 0x59f111f1, 0x923f82a4, 0xab1c5ed5]
    case 1 => [0xd807aa98, 0x12835b01, 0x243185be, 0x550c7dc3, 0x72be5d74, 0x80deb1fe, 0x9bdc06a7, 0xc19bf174]
    case 2 => [0xe49b69c1, 0xefbe4786, 0x0fc19dc6, 0x240ca1cc, 0x2de92c6f, 0x4a7484aa, 0x5cb0a9dc, 0x76f988da]
    case 3 => [0x983e5152, 0xa831c66d, 0xb00327c8, 0xbf597fc7, 0xc6e00bf3, 0xd5a79147, 0x06ca6351, 0x14292967]
    case 4 => [0x27b70a85, 0x2e1b2138, 0x4d2c6dfc, 0x53380d13, 0x650a7354, 0x766a0abb, 0x81c2c92e, 0x92722c85]
    case 5 => [0xa2bfe8a1, 0xa81a664b, 0xc24b8b70, 0xc76c51a3, 0xd192e819, 0xd6990624, 0xf40e3585, 0x106aa070]
    case 6 => [0x19a4c116, 0x1e376c08, 0x2748774c, 0x34b0bcb5, 0x391c0cb3, 0x4ed8aa4a, 0x5b9cca4f, 0x682e6ff3]
    case _ => [0x748f82ee, 0x78a5636f, 0x84c87814, 0x8cc70208, 0x90befffa, 0xa4506ceb, 0xbef9a3f7, 0xc67178f2]
  }

  function K(t: nat): word
    requires t < 64
  {
    KRow(t / 8)[t % 8]
  }

  /** The eight working variables, and also the eight words of a hash value. */
  datatype Regs = Regs(a: word, b: word, c: word, d: word, e: word, f: word, g: word, h: word)

  // Section 5.3.3: the initial hash value.
  const H0 := Regs(0x6a09e667, 0xbb67ae85, 0x3c6ef372, 0xa54ff53a, 0x510e527f, 0x9b05688c, 0x1f83d9ab, 0x5be0cd19)

  // Section 3.1: words are stored most significant byte first.

  function Word(b0: byte, b1: byte, b2: byte, b3: byte): word {
    (b0 as word << 24) | (b1 as word << 16) | (b2 as word << 8) | b3 as word
  }

  function WordBytes(w: word): seq<byte> {
    [(w >> 24) as byte, ((w >> 16) & 0xff) as byte, ((w >> 8) & 0xff) as byte, (w & 0xff) as byte]
  }

  type Block = b: seq<byte> | |b| == 64 witness seq(64, _ => 0)

  // Sums of words are modulo 2^32.

  function Sum2(x: word, y: word): word { x + y }

  function Sum4(w: word, x: word, y: word, z: word): word { w + x + y + z }

  function Sum5(v: word, w: word, x: word, y: word, z: word): word { v + w + x + y + z }

  // The sums and the parity of named operands. Proofs about code call these and hide the definitions.

  lemma Sum2Of(x: word, y: word)
    ensures Sum2(x, y) == x + y
  {
  }

  lemma Sum4Of(w: word, x: word, y: word, z: word)
    ensures Sum4(w, x, y, z) == w + x + y + z
  {
  }

  lemma Sum5Of(v: word, w: word, x: word, y: word, z: word)
    ensures Sum5(v, w, x, y, z) == v + w + x + y + z
  {
  }

  lemma ParityOf(x: word, y: word, z: word)
    ensures Parity(x, y, z) == x ^ y ^ z
  {
  }

  // Section 6.2.2 step 1: the message schedule.
  function Schedule(m: Block, t: nat): word {
    if t < 16 then Word(m[4 * t], m[4 * t + 1], m[4 * t + 2], m[4 * t + 3])
    else Sum4(SmallSigma1(Schedule(m, t - 2)), Schedule(m, t - 7), SmallSigma0(Schedule(m, t - 15)), Schedule(m, t - 16))
  }

  /** Word t from the four words it depends on, as named operands. */
  lemma ScheduleFrom(m: Block, t: nat, w2: word, w7: word, w15: word, w16: word)
    requires 16 <= t
    requires w2 == Schedule(m, t - 2) && w7 == Schedule(m, t - 7)
    requires w15 == Schedule(m, t - 15) && w16 == Schedule(m, t - 16)
    ensures Schedule(m, t) == Sum4(SmallSigma1(w2), w7, SmallSigma0(w15), w16)
  {
    hide Sum4, SmallSigma0, SmallSigma1;
  }

  // Section 6.2.2 step 3: one round.

  function Step(r: Regs, t1: word, t2: word): Regs {
    Regs(Sum2(t1, t2), r.a, r.b, r.c, Sum2(r.d, t1), r.e, r.f, r.g)
  }

  function Round(r: Regs, k: word, w: word): Regs {
    Step(r, Sum5(r.h, BigSigma1(r.e), Ch(r.e, r.f, r.g), k, w), Sum2(BigSigma0(r.a), Maj(r.a, r.b, r.c)))
  }

  /** The working variables after the first t rounds. */
  function Rounds(hash: Regs, m: Block, t: nat): Regs
    requires t <= 64
  {
    if t == 0 then hash else Round(Rounds(hash, m, t - 1), K(t - 1), Schedule(m, t - 1))
  }

  function AddRegs(x: Regs, y: Regs): Regs {
    Regs(Sum2(x.a, y.a), Sum2(x.b, y.b), Sum2(x.c, y.c), Sum2(x.d, y.d),
         Sum2(x.e, y.e), Sum2(x.f, y.f), Sum2(x.g, y.g), Sum2(x.h, y.h))
  }

  // Section 6.2.2 step 4: the intermediate hash value.
  function Compress(hash: Regs, m: Block): Regs {
    AddRegs(hash, Rounds(hash, m, 64))
  }

  /** A number of whole blocks. */
  predicate Whole(m: seq<byte>) { |m| % 64 == 0 }

  /** The hash value after all blocks of a message of whole blocks, started from h. */
  function HashBlocks(h: Regs, m: seq<byte>): Regs
    requires Whole(m)
  {
    if m == [] then h else Compress(HashBlocks(h, m[..|m| - 64]), m[|m| - 64..])
  }

  // Section 5.1.1: padding.

  function Zeros(n: nat): seq<byte> { seq(n, _ => 0) }

  /** How many zero bytes follow the 0x80 of a message of n bytes. */
  function PadZeros(n: nat): nat { (55 - n) % 64 }

  function Octet(n: nat): byte { (n % 256) as byte }

  lemma OctetIsInjective(x: nat, y: nat)
    requires Octet(x) == Octet(y)
    ensures x % 256 == y % 256
  {
    ByteValue(x % 256);
    ByteValue(y % 256);
  }

  lemma ByteValue(x: nat)
    requires x < 256
    ensures (x as byte) as nat == x
  {
    var b := ByteWith(x);
    ByteRoundTrip(b);
  }

  lemma ByteRoundTrip(b: byte)
    ensures (b as nat) as byte == b
  {
  }

  lemma {:induction false} ByteWith(x: nat) returns (b: byte)
    requires x < 256
    ensures b as nat == x
  {
    if x == 0 {
      b := 0;
    } else {
      b := ByteWith(x - 1);
      ByteSuccessor(b);
      b := b + 1;
    }
  }

  lemma ByteSuccessor(b: byte)
    requires b != 255
    ensures (b + 1) as nat == b as nat + 1
  {
  }

  function HighField(bits: nat): (f: seq<byte>)
    ensures |f| == 4
  {
    [Octet(bits / 0x100_0000_0000_0000), Octet(bits / 0x1_0000_0000_0000),
     Octet(bits / 0x100_0000_0000), Octet(bits / 0x1_0000_0000)]
  }

  function LowField(bits: nat): (f: seq<byte>)
    ensures |f| == 4
  {
    [Octet(bits / 0x100_0000), Octet(bits / 0x1_0000), Octet(bits / 0x100), Octet(bits)]
  }

  /** The low 64 bits of a bit count, most significant byte first. */
  function LengthField(bits: nat): seq<byte> { HighField(bits) + LowField(bits) }

  function PadWith(m: seq<byte>, bits: nat): (p: seq<byte>)
    ensures |p| % 64 == 0
  {
    m + [0x80] + Zeros(PadZeros(|m|)) + LengthField(bits)
  }

  function Digest(r: Regs): (d: seq<byte>)
    ensures |d| == 32
  {
    WordBytes(r.a) + WordBytes(r.b) + WordBytes(r.c) + WordBytes(r.d) +
    WordBytes(r.e) + WordBytes(r.f) + WordBytes(r.g) + WordBytes(r.h)
  }

  function Sha256(m: seq<byte>): (d: seq<byte>)
    ensures |d| == 32
  {
    Digest(HashBlocks(H0, PadWith(m, 8 * |m|)))
  }

  /** Section 5.1.1 asks for the smallest number of zeros that leaves room for exactly the length field. */
  lemma PadZerosIsSmallest(n: nat, k: nat)
    requires (n + 1 + k) % 64 == 56
    ensures (n + 1 + PadZeros(n)) % 64 == 56 && PadZeros(n) <= k
  {
  }

  lemma HashBlocksLast(h: Regs, m: seq<byte>, b: Block)
    requires Whole(m)
    ensures Whole(m + b) && HashBlocks(h, m + b) == Compress(HashBlocks(h, m), b)
  {
    assert (m + b)[..|m + b| - 64] == m && (m + b)[|m + b| - 64..] == b;
    hide Compress;
  }

  lemma WholeAppend(m: seq<byte>, n: seq<byte>)
    requires Whole(m) && Whole(n)
    ensures Whole(m + n)
  {
  }

  lemma WholeLast(n: seq<byte>)
    requires Whole(n) && n != []
    ensures |n| >= 64 && Whole(n[..|n| - 64])
  {
  }

  /** Hashing whole blocks can be split at any block boundary. */
  lemma {:induction false} HashBlocksAppend(h: Regs, m: seq<byte>, n: seq<byte>)
    requires Whole(m) && Whole(n)
    ensures Whole(m + n) && HashBlocks(h, m + n) == HashBlocks(HashBlocks(h, m), n)
    decreases |n|
  {
    WholeAppend(m, n);
    if n == [] {
      assert m + n == m;
    } else {
      WholeLast(n);
      var first, last := n[..|n| - 64], n[|n| - 64..];
      WholeAppend(m, first);
      hide Whole, HashBlocks;
      assert n == first + last && m + n == (m + first) + last;
      HashBlocksAppend(h, m, first);
      HashBlocksLast(h, m + first, last);
      HashBlocksLast(HashBlocks(h, m), first, last);
    }
  }

  // RFC 2104 section 2.

  /** K0: the key, hashed if it is longer than a block, filled up with zeros to a whole block. */
  function BlockKey(key: seq<byte>): (k: Block) {
    var short := if |key| > 64 then Sha256(key) else key;
    short + Zeros(64 - |short|)
  }

  function XorPad(k: Block, pad: byte): (r: Block) {
    seq(64, i requires 0 <= i < 64 => k[i] ^ pad)
  }

  function Hmac(key: seq<byte>, m: seq<byte>): (d: seq<byte>)
    ensures |d| == 32
  {
    var k0 := BlockKey(key);
    Sha256(XorPad(k0, 0x5c) + Sha256(XorPad(k0, 0x36) + m))
  }
}
