/** The byte-at-a-time SHA-256 and HMAC engine. Memory is little-endian, so the buffer is kept as raw bytes
    and read as words, least significant byte first. */
module Cryptosuite {
  import opened Fips180
  import opened HashState

  type uint32 = n: int | 0 <= n < 0x1_0000_0000

  /** A word read from four bytes of little-endian memory. */
  function LittleWord(b0: byte, b1: byte, b2: byte, b3: byte): word { Word(b3, b2, b1, b0) }

  function LittleBytes(w: word): seq<byte> {
    [(w & 0xff) as byte, ((w >> 8) & 0xff) as byte, ((w >> 16) & 0xff) as byte, (w >> 24) as byte]
  }

  function BufferWord(b: seq<byte>, i: nat): word
    requires |b| == 64 && i < 16
  {
    LittleWord(b[4 * i], b[4 * i + 1], b[4 * i + 2], b[4 * i + 3])
  }

  lemma LittleRoundTrip(w: word)
    ensures var b := LittleBytes(w); LittleWord(b[0], b[1], b[2], b[3]) == w
  {
  }

  /** Where byte j of a block is kept: `j ^ 3` mirrors the bytes inside each word. */
  function Lane(j: nat): nat { 4 * (j / 4) + 3 - j % 4 }

  lemma LaneIsXorThree(x: byte)
    requires x < 64
    ensures (x ^ 3) as int == Lane(x as int) && Lane(x as int) < 64
    ensures (x + 1) as int == x as int + 1
  {
  }

  lemma LaneInvolution(j: nat)
    ensures Lane(Lane(j)) == j
  {
  }

  lemma LaneInjective(n: nat)
    ensures forall j: nat :: j != n ==> Lane(j) != Lane(n)
  {
    LaneInvolution(n);
    hide Lane;
    forall j: nat | j != n
      ensures Lane(j) != Lane(n)
    {
      LaneInvolution(j);
    }
  }

  /** The first n bytes of block m are in place in buffer memory b. */
  ghost predicate Holds(b: seq<byte>, m: seq<byte>, n: nat)
    requires |b| == 64
  {
    n <= |m| <= 64 && forall j :: 0 <= j < n ==> Lane(j) < 64 && b[Lane(j)] == m[j]
  }

  lemma HoldsMore(b: seq<byte>, m: seq<byte>, data: byte)
    requires |b| == 64 && |m| < 64 && Holds(b, m, |m|)
    ensures Lane(|m|) < 64 && Holds(b[Lane(|m|) := data], m + [data], |m| + 1)
  {
    LaneInjective(|m|);
    assert Lane(|m|) < 64;
    hide Lane;
  }

  lemma HoldsWords(b: seq<byte>, m: Block)
    requires |b| == 64 && Holds(b, m, 64)
    ensures forall t :: 0 <= t < 16 ==> BufferWord(b, t) == Schedule(m, t)
  {
    forall t | 0 <= t < 16
      ensures BufferWord(b, t) == Schedule(m, t)
    {
      assert Lane(4 * t) == 4 * t + 3;
      assert Lane(4 * t + 1) == 4 * t + 2;
      assert Lane(4 * t + 2) == 4 * t + 1;
      assert Lane(4 * t + 3) == 4 * t;
    }
  }

  /** The words that the table of initial state bytes holds. */
  function InitWord(i: nat): word
    requires i < 8
  {
    match i
    case 0 => LittleWord(0x67, 0xe6, 0x09, 0x6a)
    case 1 => LittleWord(0x85, 0xae, 0x67, 0xbb)
    case 2 => LittleWord(0x72, 0xf3, 0x6e, 0x3c)
    case 3 => LittleWord(0x3a, 0xf5, 0x4f, 0xa5)
    case 4 => LittleWord(0x7f, 0x52, 0x0e, 0x51)
    case 5 => LittleWord(0x8c, 0x68, 0x05, 0x9b)
    case 6 => LittleWord(0xab, 0xd9, 0x83, 0x1f)
    case 7 => LittleWord(0x19, 0xcd, 0xe0, 0x5b)
  }

  lemma InitLowWords()
    ensures InitWord(0) == 0x6a09e667 && InitWord(1) == 0xbb67ae85
    ensures InitWord(2) == 0x3c6ef372 && InitWord(3) == 0xa54ff53a
  {
  }

  lemma InitHighWords()
    ensures InitWord(4) == 0x510e527f && InitWord(5) == 0x9b05688c
    ensures InitWord(6) == 0x1f83d9ab && InitWord(7) == 0x5be0cd19
  {
  }

  function Ror32(number: word, bits: byte): word
    requires bits <= 32
  {
    (number << (32 - bits)) | (number >> bits)
  }

  lemma RorIsRotr(x: word, n: byte)
    requires n <= 32
    ensures Ror32(x, n) == Rotr(x, n)
  {
  }

  lemma ChForm(e: word, f: word, g: word)
    ensures g ^ (e & (g ^ f)) == Ch(e, f, g)
  {
  }

  lemma MajForm(a: word, b: word, c: word)
    ensures (b & c) | (a & (b | c)) == Maj(a, b, c)
  {
  }

  /** The rolling window: before step i it holds the sixteen schedule words that steps i-16 .. i-1 used,
      or the first sixteen before step 16. */
  ghost predicate Window(b: seq<byte>, m: Block, i: nat)
    requires |b| == 64
  {
    var lo := if i < 16 then 0 else i - 16;
    forall t :: lo <= t < lo + 16 ==> BufferWord(b, t % 16) == Schedule(m, t)
  }

  // What the byte count can still say about a message: its length modulo 2^32.

  /** What the engine returns for a message of any length. */
  function EngineDigest(m: seq<byte>): (d: seq<byte>)
    ensures |d| == 32
  {
    Digest(HashBlocks(H0, PadWith(m, 8 * (|m| % 0x1_0000_0000))))
  }

  lemma CountedHighField(c: uint32)
    ensures HighField(8 * c) == [Octet(0), Octet(0), Octet(0), Octet(c / 0x2000_0000)]
  {
    hide Octet;
    assert 8 * c / 0x100_0000_0000 == 0;
    assert 8 * c / 0x1_0000_0000_0000 == 0;
    assert 8 * c / 0x100_0000_0000_0000 == 0;
    assert 8 * c / 0x1_0000_0000 == c / 0x2000_0000;
  }

  lemma CountedLowField(c: uint32)
    ensures LowField(8 * c) == [Octet(c / 0x20_0000), Octet(c / 0x2000), Octet(c / 0x20), Octet(c * 8 % 0x1_0000_0000)]
  {
    OctetOf(c * 8 % 0x1_0000_0000, 8 * c);
    hide Octet;
    assert 8 * c / 0x100_0000 == c / 0x20_0000;
    assert 8 * c / 0x1_0000 == c / 0x2000;
    assert 8 * c / 0x100 == c / 0x20;
  }

  lemma OctetOf(x: nat, y: nat)
    requires x % 256 == y % 256
    ensures Octet(x) == Octet(y)
  {
  }

  /** The engine pads as section 5.1.1 asks exactly when the length fits its 32-bit count. */
  lemma EnginePadsCorrectly(m: seq<byte>)
    requires |m| < 0x2000_0000_0000_0000
    ensures PadWith(m, 8 * (|m| % 0x1_0000_0000)) == PadWith(m, 8 * |m|) <==> |m| < 0x1_0000_0000
  {
    hide HighField, LowField;
    var n := |m|;
    var c := n % 0x1_0000_0000;
    if PadWith(m, 8 * c) == PadWith(m, 8 * n) {
      var p, q := PadWith(m, 8 * c), PadWith(m, 8 * n);
      assert p[|p| - 8..|p| - 4] == HighField(8 * c) && q[|q| - 8..|q| - 4] == HighField(8 * n);
      HighHalfFits(8 * c, 8 * n);
    }
  }

  lemma HighHalfFits(x: nat, y: nat)
    requires x < 0x8_0000_0000 && y < 0x1_0000_0000_0000_0000 && HighField(x) == HighField(y)
    ensures y < 0x8_0000_0000
  {
    hide Octet;
    var f, g := HighField(x), HighField(y);
    assert f[0] == g[0] && f[1] == g[1] && f[2] == g[2] && f[3] == g[3];
    OctetIsInjective(x / 0x100_0000_0000_0000, y / 0x100_0000_0000_0000);
    OctetIsInjective(x / 0x1_0000_0000_0000, y / 0x1_0000_0000_0000);
    OctetIsInjective(x / 0x100_0000_0000, y / 0x100_0000_0000);
    OctetIsInjective(x / 0x1_0000_0000, y / 0x1_0000_0000);
  }

  lemma EngineDigestIsSha256(m: seq<byte>)
    requires |m| < 0x1_0000_0000
    ensures EngineDigest(m) == Sha256(m)
  {
    hide PadWith, Digest, HashBlocks;
  }

  lemma HashOneMore(blocks: seq<byte>, m: Block)
    requires |blocks| % 64 == 0
    ensures HashBlocks(H0, blocks + m) == Compress(HashBlocks(H0, blocks), m)
  {
    assert (blocks + m)[..|blocks + m| - 64] == blocks && (blocks + m)[|blocks + m| - 64..] == m;
    hide Compress;
  }

  lemma CountStep(n: nat)
    ensures (n % 0x1_0000_0000 + 1) % 0x1_0000_0000 == (n + 1) % 0x1_0000_0000
  {
  }

  /** K0 as the engine loads it. */
  function EngineBlockKey(key: seq<byte>): (k: Block) {
    var short := if |key| > 64 then EngineDigest(key) else key;
    short + Zeros(64 - |short|)
  }

  function EngineHmac(key: seq<byte>, m: seq<byte>): (d: seq<byte>)
    ensures |d| == 32
  {
    var k0 := EngineBlockKey(key);
    EngineDigest(XorPad(k0, 0x5c) + EngineDigest(XorPad(k0, 0x36) + m))
  }

  lemma EngineHmacIsHmac(key: seq<byte>, m: seq<byte>)
    requires |key| < 0x1_0000_0000 && 64 + |m| < 0x1_0000_0000
    ensures EngineHmac(key, m) == Hmac(key, m)
  {
    hide EngineDigest, Sha256;
    EngineDigestIsSha256(key);
    var k0 := BlockKey(key);
    var inner := XorPad(k0, 0x36) + m;
    EngineDigestIsSha256(inner);
    EngineDigestIsSha256(XorPad(k0, 0x5c) + Sha256(inner));
  }

  /** How many blocks the message, the 0x80 and the zeros fill, but for the length. */
  function PaddedBlocks(n: nat): int { (n + 1 + PadZeros(n)) / 64 }

  lemma PaddedLength(n: nat)
    ensures n + 1 + PadZeros(n) == 64 * PaddedBlocks(n) + 56
  {
    var q := (55 - n) / 64;
    assert PadZeros(n) == 55 - n - 64 * q;
    assert n + 1 + PadZeros(n) == 56 + 64 * (-q);
    assert (56 + 64 * (-q)) / 64 == -q;
  }

  lemma ZerosBelow(n: nat)
    ensures PadZeros(n) < 64
  {
  }

  /** The buffer offset is the number of bytes fed modulo the block size. */
  lemma OffsetAfter(blocks: nat, tail: nat, n: nat, k: nat)
    requires blocks % 64 == 0 && tail < 64 && blocks + tail == n + 1 + k && k <= PadZeros(n)
    ensures tail == 56 <==> k == PadZeros(n)
  {
    var q := blocks / 64;
    assert blocks == 64 * q;
    hide PadZeros, PaddedBlocks;
    PaddedLength(n);
    ZerosBelow(n);
    assert 64 * (PaddedBlocks(n) - q) == tail - 56 + (PadZeros(n) - k);
  }

  lemma ZerosPlusOne(k: nat)
    ensures Zeros(k) + [0] == Zeros(k + 1)
  {
  }

  function Swapped(a: word): word {
    (a << 24) | ((a << 8) & 0x00ff0000) | ((a >> 8) & 0x0000ff00) | (a >> 24)
  }

  lemma SwappedWordBytes(w: word)
    ensures LittleBytes(Swapped(w)) == WordBytes(w)
  {
  }

  lemma SwappedBytes(r: Regs)
    ensures Digest(r) == LittleBytes(Swapped(r.a)) + LittleBytes(Swapped(r.b)) + LittleBytes(Swapped(r.c)) +
                         LittleBytes(Swapped(r.d)) + LittleBytes(Swapped(r.e)) + LittleBytes(Swapped(r.f)) +
                         LittleBytes(Swapped(r.g)) + LittleBytes(Swapped(r.h))
  {
    hide Swapped, LittleBytes, WordBytes;
    SwappedWordBytes(r.a);
    SwappedWordBytes(r.b);
    SwappedWordBytes(r.c);
    SwappedWordBytes(r.d);
    SwappedWordBytes(r.e);
    SwappedWordBytes(r.f);
    SwappedWordBytes(r.g);
    SwappedWordBytes(r.h);
  }

  class Sha256Class {
    const buffer: array<byte>
    var bufferOffset: byte
    const state: array<word>
    var byteCount: uint32
    const keyBuffer: array<byte>
    ghost var blocks: seq<byte>   // the whole blocks added and hashed since the last init
    ghost var tail: seq<byte>     // the bytes added since, which the buffer holds
    ghost var written: seq<byte>  // the message: those bytes that were counted

    constructor ()
      ensures Shape() && fresh(buffer) && fresh(state) && fresh(keyBuffer)
    {
      buffer := new byte[64];
      state := new word[8];
      keyBuffer := new byte[64];
      bufferOffset := 0;
      byteCount := 0;
    }

    ghost predicate Shape()
    {
      buffer.Length == 64 && state.Length == 8 && keyBuffer.Length == 64 && keyBuffer != buffer
    }

    /** Every byte added since the last init, padding included. */
    ghost function Fed(): seq<byte>
      reads this
    {
      blocks + tail
    }

    ghost predicate Valid()
      reads this, buffer, state
    {
      && Shape()
      && |blocks| % 64 == 0
      && StateRegs(state[..]) == HashBlocks(H0, blocks)
      && |tail| == bufferOffset as int < 64
      && Holds(buffer[..], tail, |tail|)
      && byteCount == |written| % 0x1_0000_0000
    }

    method Init()
      requires Shape()
      modifies this, state
      ensures Valid() && Fed() == written == []
    {
      hide InitWord;
      for i := 0 to 8
        invariant forall k :: 0 <= k < i ==> state[k] == InitWord(k)
      {
        state[i] := InitWord(i);
      }
      InitLowWords();
      InitHighWords();
      byteCount := 0;
      bufferOffset := 0;
      blocks, tail, written := [], [], [];
    }

    method StoreWord(i: nat, w: word)
      requires Shape() && i < 16
      modifies buffer
      ensures BufferWord(buffer[..], i) == w
      ensures forall k :: 0 <= k < 16 && k != i ==> BufferWord(buffer[..], k) == old(BufferWord(buffer[..], k))
    {
      var b := LittleBytes(w);
      buffer[4 * i], buffer[4 * i + 1], buffer[4 * i + 2], buffer[4 * i + 3] := b[0], b[1], b[2], b[3];
      LittleRoundTrip(w);
    }

    method LoadWord(i: nat) returns (w: word)
      requires Shape() && i < 16
      ensures w == BufferWord(buffer[..], i)
    {
      w := LittleWord(buffer[4 * i], buffer[4 * i + 1], buffer[4 * i + 2], buffer[4 * i + 3]);
    }

    method SigmaWord(x: word, p: byte, q: byte, last: word) returns (s: word)
      requires p <= 32 && q <= 32
      ensures s == Parity(Rotr(x, p), Rotr(x, q), last)
    {
      hide Ror32, Rotr, Parity;
      var u, v := Ror32(x, p), Ror32(x, q);
      RorIsRotr(x, p);
      RorIsRotr(x, q);
      s := u ^ v ^ last;
      ParityOf(u, v, last);
    }

    method ScheduleSigma1(t2: word) returns (s: word)
      ensures s == SmallSigma1(t2)
    {
      hide Rotr, Parity;
      s := SigmaWord(t2, 17, 19, t2 >> 10);
    }

    method ScheduleSigma0(t2: word) returns (s: word)
      ensures s == SmallSigma0(t2)
    {
      hide Rotr, Parity;
      s := SigmaWord(t2, 7, 18, t2 >> 3);
    }

    /** The next schedule word, from the four words of the window that it depends on. */
    method NextWord(i: nat, ghost m: Block) returns (t1: word)
      requires Shape() && 16 <= i < 64
      requires Window(buffer[..], m, i)
      ensures t1 == Schedule(m, i)
    {
      hide SmallSigma0, SmallSigma1, Sum4, BufferWord, Schedule;
      var w16 := LoadWord(i % 16);
      var w7 := LoadWord((i - 7) % 16);
      var w2 := LoadWord((i - 2) % 16);
      var w15 := LoadWord((i - 15) % 16);
      var s1 := ScheduleSigma1(w2);
      var s0 := ScheduleSigma0(w15);
      t1 := w16 + w7 + s1 + s0;
      Sum4Of(s1, w7, s0, w16);
      assert (i - 16) % 16 == i % 16;
      ScheduleFrom(m, i, w2, w7, w15, w16);
    }

    /** Step i of the schedule: from step 16 on, the oldest word of the window is replaced by the next one. */
    method ExpandSchedule(i: nat, ghost m: Block)
      requires Shape() && i < 64
      requires Window(buffer[..], m, i)
      modifies buffer
      ensures Window(buffer[..], m, i + 1)
      ensures BufferWord(buffer[..], i % 16) == Schedule(m, i)
    {
      hide BufferWord, Schedule;
      if i >= 16 {
        var t1 := NextWord(i, m);
        StoreWord(i % 16, t1);
        assert forall t :: i - 16 < t < i ==> t % 16 != i % 16;
      }
    }

    method HashBlock(ghost m: Block)
      requires Shape() && Holds(buffer[..], m, 64)
      modifies buffer, state
      ensures StateRegs(state[..]) == Compress(old(StateRegs(state[..])), m)
    {
      hide BigSigma0, BigSigma1, Ch, Maj, Sum2, Sum5, BufferWord, K, Schedule;
      ghost var hash := StateRegs(state[..]);
      HoldsWords(buffer[..], m);
      var a, b, c, d := state[0], state[1], state[2], state[3];
      var e, f, g, h := state[4], state[5], state[6], state[7];
      var i := 0;
      while i < 64
        invariant i <= 64
        invariant Regs(a, b, c, d, e, f, g, h) == Rounds(hash, m, i)
        invariant Window(buffer[..], m, i)
        invariant StateRegs(state[..]) == hash
      {
        ExpandSchedule(i, m);
        var w := LoadWord(i % 16);
        var t1, t2 := RoundTemps(a, b, c, e, f, g, h, K(i), w);
        Sum2Of(t1, t2);
        Sum2Of(d, t1);
        h, g, f, e, d, c, b, a := g, f, e, d + t1, c, b, a, t1 + t2;
        i := i + 1;
      }
      AddToState(state, a, b, c, d, e, f, g, h);
    }

    method RoundTemps(a: word, b: word, c: word, e: word, f: word, g: word, h: word, k: word, w: word)
      returns (t1: word, t2: word)
      ensures t1 == Sum5(h, BigSigma1(e), Ch(e, f, g), k, w)
      ensures t2 == Sum2(BigSigma0(a), Maj(a, b, c))
    {
      hide Ror32, Rotr, Parity, Ch, Maj, Sum2, Sum5;
      var s1 := SigmaWord(e, 6, 11, Ror32(e, 25));
      var ch := g ^ (e & (g ^ f));
      t1 := h + s1 + ch + k + w;
      Sum5Of(h, s1, ch, k, w);
      var s0 := SigmaWord(a, 2, 13, Ror32(a, 22));
      var maj := (b & c) | (a & (b | c));
      t2 := s0 + maj;
      Sum2Of(s0, maj);
      RorIsRotr(e, 25);
      RorIsRotr(a, 22);
      ChForm(e, f, g);
      MajForm(a, b, c);
    }

    method PutByte(data: byte)
      requires Shape() && |tail| == bufferOffset as int < 64 && Holds(buffer[..], tail, |tail|)
      modifies this`bufferOffset, this`tail, buffer
      ensures tail == old(tail) + [data] && |tail| == bufferOffset as int
      ensures Holds(buffer[..], tail, |tail|)
    {
      hide Lane, Holds;
      LaneIsXorThree(bufferOffset);
      HoldsMore(buffer[..], tail, data);
      ghost var was := buffer[..];
      buffer[(bufferOffset ^ 3) as int] := data;
      assert buffer[..] == was[Lane(|tail|) := data];
      bufferOffset := bufferOffset + 1;
      tail := tail + [data];
    }

    /** Hash the full buffer and start a new block. */
    method Flush()
      requires Shape() && |blocks| % 64 == 0 && StateRegs(state[..]) == HashBlocks(H0, blocks)
      requires |tail| == 64 && Holds(buffer[..], tail, 64) && byteCount == |written| % 0x1_0000_0000
      modifies this`bufferOffset, this`blocks, this`tail, buffer, state
      ensures Valid() && blocks == old(Fed()) && tail == []
    {
      hide HashBlocks, Compress, StateRegs, Lane;
      HashBlock(tail);
      HashOneMore(blocks, tail);
      bufferOffset := 0;
      blocks, tail := blocks + tail, [];
    }

    method AddUncounted(data: byte)
      requires Valid()
      modifies this`bufferOffset, this`blocks, this`tail, buffer, state
      ensures Valid() && Fed() == old(Fed()) + [data]
      ensures |tail| == if old(|tail|) == 63 then 0 else old(|tail|) + 1
    {
      hide HashBlocks, StateRegs, Holds;
      PutByte(data);
      if bufferOffset == 64 {
        Flush();
      }
    }

    method Write(data: byte)
      requires Valid()
      modifies this`bufferOffset, this`blocks, this`tail, this`byteCount, this`written, buffer, state
      ensures Valid() && Fed() == old(Fed()) + [data] && written == old(written) + [data]
    {
      CountStep(|written|);
      byteCount := (byteCount + 1) % 0x1_0000_0000;
      written := written + [data];
      AddUncounted(data);
    }

    /** Fill up the last block in place. The loop may first have to wrap around into a new block. */
    method Pad()
      requires Valid() && Fed() == written
      modifies this`bufferOffset, this`blocks, this`tail, buffer, state
      ensures Valid() && tail == [] && blocks == PadWith(written, 8 * byteCount)
    {
      hide HashBlocks, StateRegs, Holds;
      AddUncounted(0x80);
      ghost var k := 0;
      assert Fed() == written + [0x80] + Zeros(0);
      while bufferOffset != 56
        invariant Valid() && k <= PadZeros(|written|)
        invariant Fed() == written + [0x80] + Zeros(k)
        decreases PadZeros(|written|) - k
      {
        OffsetAfter(|blocks|, |tail|, |written|, k);
        AddUncounted(0x00);
        ZerosPlusOne(k);
        assert written + [0x80] + Zeros(k) + [0] == written + [0x80] + (Zeros(k) + [0]);
        k := k + 1;
      }
      OffsetAfter(|blocks|, |tail|, |written|, k);
      AddLength();
    }

    method AddFour(b0: byte, b1: byte, b2: byte, b3: byte)
      requires Valid() && |tail| < 61
      modifies this`bufferOffset, this`blocks, this`tail, buffer, state
      ensures Valid() && Fed() == old(Fed()) + [b0, b1, b2, b3]
      ensures |tail| == if old(|tail|) == 60 then 0 else old(|tail|) + 4
    {
      hide Valid;
      AddUncounted(b0);
      AddUncounted(b1);
      AddUncounted(b2);
      AddUncounted(b3);
    }

    method AddLength()
      requires Valid() && |tail| == 56
      modifies this`bufferOffset, this`blocks, this`tail, buffer, state
      ensures Valid() && tail == [] && blocks == old(Fed()) + LengthField(8 * byteCount)
    {
      hide Octet, Valid, HighField, LowField;
      CountedHighField(byteCount);
      CountedLowField(byteCount);
      AddFour(Octet(0), Octet(0), Octet(0), Octet(byteCount / 0x2000_0000));
      AddFour(Octet(byteCount / 0x20_0000), Octet(byteCount / 0x2000), Octet(byteCount / 0x20),
              Octet(byteCount * 8 % 0x1_0000_0000));
      assert Fed() == old(Fed()) + LengthField(8 * byteCount);
    }

    /** Byte-swap the state words in place. */
    method SwapState()
      requires Shape()
      modifies state
      ensures forall k :: 0 <= k < 8 ==> state[k] == Swapped(old(state[k]))
    {
      hide Swapped;
      for i := 0 to 8
        invariant forall k :: 0 <= k < i ==> state[k] == Swapped(old(state[k]))
        invariant forall k :: i <= k < 8 ==> state[k] == old(state[k])
      {
        state[i] := Swapped(state[i]);
      }
    }

    /** The digest. The state is left byte-swapped: only Init makes the engine usable again. */
    method Result() returns (digest: seq<byte>)
      requires Valid() && Fed() == written
      modifies this`bufferOffset, this`blocks, this`tail, buffer, state
      ensures digest == EngineDigest(written)
    {
      hide HashBlocks, PadWith, Swapped, LittleBytes, WordBytes, Digest;
      Pad();
      SwappedBytes(StateRegs(state[..]));
      SwapState();
      digest := LittleBytes(state[0]) + LittleBytes(state[1]) + LittleBytes(state[2]) + LittleBytes(state[3]) +
                LittleBytes(state[4]) + LittleBytes(state[5]) + LittleBytes(state[6]) + LittleBytes(state[7]);
    }

    method WriteAll(data: seq<byte>)
      requires Valid()
      modifies this`bufferOffset, this`blocks, this`tail, this`byteCount, this`written, buffer, state
      ensures Valid() && Fed() == old(Fed()) + data && written == old(written) + data
    {
      hide Valid, Fed;
      for i := 0 to |data|
        invariant Valid() && Fed() == old(Fed()) + data[..i] && written == old(written) + data[..i]
      {
        Write(data[i]);
        assert data[..i + 1] == data[..i] + [data[i]];
      }
    }

    method PaddedKeyByte(i: nat, pad: byte) returns (data: byte)
      requires Shape() && i < 64
      ensures data == XorPad(keyBuffer[..], pad)[i]
    {
      data := keyBuffer[i] ^ pad;
    }

    /** Write the padded key: each byte of the key buffer, xor pad. */
    method WritePad(pad: byte)
      requires Shape() && Valid()
      modifies this`bufferOffset, this`blocks, this`tail, this`byteCount, this`written, buffer, state
      ensures Valid() && Fed() == old(Fed()) + XorPad(old(keyBuffer[..]), pad)
      ensures written == old(written) + XorPad(old(keyBuffer[..]), pad)
    {
      hide Valid, Fed;
      ghost var p := XorPad(keyBuffer[..], pad);
      hide XorPad;
      for i := 0 to 64
        invariant Valid() && Fed() == old(Fed()) + p[..i] && written == old(written) + p[..i]
        invariant keyBuffer[..] == old(keyBuffer[..])
      {
        var data := PaddedKeyByte(i, pad);
        Write(data);
        assert p[..i + 1] == p[..i] + [p[i]];
      }
    }

    /** Load the key buffer and start the inner hash. The buffer of the engine may hold anything. */
    method InitHmac(key: seq<byte>)
      requires Shape()
      modifies this, buffer, state, keyBuffer
      ensures Valid() && keyBuffer[..] == EngineBlockKey(key)
      ensures Fed() == written == XorPad(keyBuffer[..], 0x36)
    {
      hide Valid, Fed, EngineDigest;
      for i := 0 to 64
        invariant forall k :: 0 <= k < i ==> keyBuffer[k] == 0
      {
        keyBuffer[i] := 0;
      }
      var short := key;
      if |key| > 64 {
        Init();
        WriteAll(key);
        assert [] + key == key;
        short := Result();
      }
      for i := 0 to |short|
        invariant forall k :: 0 <= k < i ==> keyBuffer[k] == short[k]
        invariant forall k :: i <= k < 64 ==> keyBuffer[k] == 0
      {
        keyBuffer[i] := short[i];
      }
      assert keyBuffer[..] == EngineBlockKey(key);
      Init();
      assert keyBuffer[..] == EngineBlockKey(key);
      hide EngineBlockKey;
      WritePad(0x36);
    }

    method ResultHmac() returns (digest: seq<byte>)
      requires Valid() && Fed() == written
      modifies this, buffer, state
      ensures digest == EngineDigest(XorPad(old(keyBuffer[..]), 0x5c) + EngineDigest(old(written)))
    {
      assert Shape();
      hide Valid, Fed, EngineDigest, XorPad;
      ghost var k0 := keyBuffer[..];
      var innerHash := Result();
      assert keyBuffer[..] == k0;
      StartOuter();
      digest := Finish(innerHash);
    }

    method StartOuter()
      requires Shape()
      modifies this, buffer, state
      ensures Shape() && Valid() && Fed() == written == XorPad(old(keyBuffer[..]), 0x5c)
    {
      hide Valid, Fed, XorPad;
      ghost var k0 := keyBuffer[..];
      Init();
      assert keyBuffer[..] == k0;
      WritePad(0x5c);
      assert [] + XorPad(k0, 0x5c) == XorPad(k0, 0x5c);
    }

    method Finish(rest: seq<byte>) returns (digest: seq<byte>)
      requires Valid() && Fed() == written
      modifies this, buffer, state
      ensures digest == EngineDigest(old(written) + rest)
    {
      hide Valid, Fed, EngineDigest;
      WriteAll(rest);
      digest := Result();
    }

    /** One whole digest, on an engine in any state. */
    method DigestSha256(data: seq<byte>) returns (digest: seq<byte>)
      requires Shape()
      modifies this, buffer, state
      ensures digest == EngineDigest(data)
      ensures |data| < 0x1_0000_0000 ==> digest == Fips180.Sha256(data)
    {
      hide Valid, Fed, EngineDigest, Fips180.Sha256;
      Init();
      WriteAll(data);
      assert [] + data == data;
      digest := Result();
      if |data| < 0x1_0000_0000 {
        EngineDigestIsSha256(data);
      }
    }

    /** One whole message authentication code, on an engine in any state. */
    method ComputeHmacWithSha256(key: seq<byte>, data: seq<byte>) returns (digest: seq<byte>)
      requires Shape()
      modifies this, buffer, state, keyBuffer
      ensures digest == EngineHmac(key, data)
      ensures |key| < 0x1_0000_0000 && 64 + |data| < 0x1_0000_0000 ==> digest == Hmac(key, data)
    {
      hide Valid, Fed, EngineDigest, EngineBlockKey, Hmac;
      InitHmac(key);
      WriteAll(data);
      digest := ResultHmac();
      if |key| < 0x1_0000_0000 && 64 + |data| < 0x1_0000_0000 {
        EngineHmacIsHmac(key, data);
      }
    }
  }
}
