/** The SHA-256 block function of OpenSSL in its two forms: a compact loop that shifts all eight registers in
    every round, and an unrolled form whose rounds rename the registers instead. */
module OpenSsl {
  import opened Fips180
  import opened HashState

  /** A left rotation, as the ROTATE macro. */
  function Rotate(x: word, n: byte): word
    requires n <= 32
  {
    (x << n) | (x >> (32 - n))
  }

  lemma RotateIsRotr(x: word, n: byte)
    requires n <= 32
    ensures Rotate(x, n) == Rotr(x, 32 - n)
  {
  }

  /** The three terms of a sigma macro: two left rotations and a last term. */
  method SigmaMacro(x: word, p: byte, q: byte, last: word) returns (s: word)
    requires p <= 32 && q <= 32
    ensures s == Parity(Rotr(x, 32 - p), Rotr(x, 32 - q), last)
  {
    hide Rotate, Rotr, Parity;
    var u, v := Rotate(x, p), Rotate(x, q);
    RotateIsRotr(x, p);
    RotateIsRotr(x, q);
    s := u ^ v ^ last;
    ParityOf(u, v, last);
  }

  method Sigma0(x: word) returns (s: word)
    ensures s == BigSigma0(x)
  {
    hide Rotate, Rotr, Parity;
    RotateIsRotr(x, 10);
    s := SigmaMacro(x, 30, 19, Rotate(x, 10));
  }

  method Sigma1(x: word) returns (s: word)
    ensures s == BigSigma1(x)
  {
    hide Rotate, Rotr, Parity;
    RotateIsRotr(x, 7);
    s := SigmaMacro(x, 26, 21, Rotate(x, 7));
  }

  method LowerSigma0(x: word) returns (s: word)
    ensures s == SmallSigma0(x)
  {
    hide Rotr, Parity;
    s := SigmaMacro(x, 25, 14, x >> 3);
  }

  method LowerSigma1(x: word) returns (s: word)
    ensures s == SmallSigma1(x)
  {
    hide Rotr, Parity;
    s := SigmaMacro(x, 15, 13, x >> 10);
  }

  /** Block number k of the input. */
  function BlockAt(input: seq<byte>, k: nat): Block
    requires 64 * k + 64 <= |input|
  {
    input[64 * k..64 * k + 64]
  }

  method HostWord(input: seq<byte>, at: nat) returns (l: word)
    requires at + 4 <= |input|
    ensures l == Word(input[at], input[at + 1], input[at + 2], input[at + 3])
  {
    l := (input[at] as word << 24) | (input[at + 1] as word << 16) | (input[at + 2] as word << 8)
      | input[at + 3] as word;
  }

  /** A word read from memory directly, on a machine of either byte order. */
  method NativeWord(input: seq<byte>, at: nat, little: bool) returns (l: word)
    requires at + 4 <= |input|
    ensures l == if little then Word(input[at + 3], input[at + 2], input[at + 1], input[at])
                 else Word(input[at], input[at + 1], input[at + 2], input[at + 3])
  {
    if little {
      l := Word(input[at + 3], input[at + 2], input[at + 1], input[at]);
    } else {
      l := Word(input[at], input[at + 1], input[at + 2], input[at + 3]);
    }
  }

  /** The sixteen most recent schedule words before round i. */
  ghost predicate Window(x: seq<word>, m: Block, i: nat)
    requires |x| == 16
  {
    forall t :: i - 16 <= t < i && 0 <= t ==> x[t % 16] == Schedule(m, t)
  }

  /** Extend the schedule in place by word i. */
  method NextWord(X: array<word>, i: nat, ghost m: Block) returns (t1: word)
    requires X.Length == 16 && 16 <= i < 64 && Window(X[..], m, i)
    modifies X
    ensures t1 == Schedule(m, i) && Window(X[..], m, i + 1)
  {
    hide Schedule, Sum4, SmallSigma0, SmallSigma1;
    var x1, x14, x9, x0 := X[(i + 1) % 16], X[(i + 14) % 16], X[(i + 9) % 16], X[i % 16];
    ModShift(i);
    assert x1 == Schedule(m, i - 15) && x14 == Schedule(m, i - 2);
    assert x9 == Schedule(m, i - 7) && x0 == Schedule(m, i - 16);
    var s0 := LowerSigma0(x1);
    var s1 := LowerSigma1(x14);
    t1 := x0 + (s0 + s1 + x9);
    Sum4Of(s1, x9, s0, x0);
    ScheduleFrom(m, i, x14, x9, x1, x0);
    X[i % 16] := t1;
    assert forall t :: i - 16 < t < i ==> t % 16 != i % 16;
  }

  lemma ModShift(i: nat)
    requires 16 <= i
    ensures (i + 1) % 16 == (i - 15) % 16 && (i + 14) % 16 == (i - 2) % 16 && (i + 9) % 16 == (i - 7) % 16
    ensures i % 16 == (i - 16) % 16
  {
  }

  /** The two temporaries of a round: T1 so far holds the schedule word. */
  method RoundTemps(w: word, a: word, b: word, c: word, e: word, f: word, g: word, h: word, i: nat)
    returns (t1: word, t2: word)
    requires i < 64
    ensures t1 == Sum5(h, BigSigma1(e), Ch(e, f, g), K(i), w)
    ensures t2 == Sum2(BigSigma0(a), Maj(a, b, c))
  {
    hide BigSigma0, BigSigma1, Sum2, Sum5, K;
    var s1 := Sigma1(e);
    var ch := (e & f) ^ (!e & g);
    var k := K(i);
    t1 := w + (h + s1 + ch + k);
    Sum5Of(h, s1, ch, k, w);
    var s0 := Sigma0(a);
    var maj := (a & b) ^ (a & c) ^ (b & c);
    t2 := s0 + maj;
    Sum2Of(s0, maj);
  }

  /** The two registers that a round really changes. */
  method RoundPair(w: word, a: word, b: word, c: word, d: word, e: word, f: word, g: word, h: word, i: nat)
    returns (d': word, h': word)
    requires i < 64
    ensures Regs(h', a, b, c, d', e, f, g) == Round(Regs(a, b, c, d, e, f, g, h), K(i), w)
  {
    hide BigSigma0, BigSigma1, Ch, Maj, Sum2, Sum5, K;
    var t1, t2 := RoundTemps(w, a, b, c, e, f, g, h, i);
    d' := d + t1;
    h' := t1 + t2;
    Sum2Of(d, t1);
    Sum2Of(t1, t2);
  }

  /** The hash value after the first n blocks. */
  ghost function HashFirst(start: Regs, input: seq<byte>, n: nat): Regs
    requires 64 * n <= |input|
  {
    HashBlocks(start, input[..64 * n])
  }

  lemma HashNextBlock(start: Regs, input: seq<byte>, n: nat)
    requires 64 * n + 64 <= |input|
    ensures HashFirst(start, input, n + 1) == Compress(HashFirst(start, input, n), BlockAt(input, n))
  {
    assert input[..64 * n + 64] == input[..64 * n] + BlockAt(input, n);
    hide Compress, HashBlocks;
    HashBlocksLast(start, input[..64 * n], BlockAt(input, n));
  }

  lemma HashNoneAndAll(start: Regs, input: seq<byte>, num: nat)
    requires |input| == 64 * num
    ensures HashFirst(start, input, 0) == start && HashFirst(start, input, num) == HashBlocks(start, input)
  {
    assert input[..0] == [] && input[..64 * num] == input;
  }

  /** Round i as the macros run it, on registers that hold the first i rounds. */
  method MacroRound(w: word, a: word, b: word, c: word, d: word, e: word, f: word, g: word, h: word, i: nat,
                    ghost hash: Regs, ghost m: Block)
    returns (d': word, h': word)
    requires i < 64 && w == Schedule(m, i) && Regs(a, b, c, d, e, f, g, h) == Rounds(hash, m, i)
    ensures Regs(h', a, b, c, d', e, f, g) == Rounds(hash, m, i + 1)
  {
    hide Round, K, Schedule;
    d', h' := RoundPair(w, a, b, c, d, e, f, g, h, i);
  }

  /** Input word i of block n, read directly on a big-endian machine or byte by byte. */
  method LoadWord(input: seq<byte>, n: nat, i: nat, little: bool, direct: bool, ghost m: Block) returns (l: word)
    requires direct ==> !little
    requires 64 * n + 64 <= |input| && i < 16 && m == BlockAt(input, n)
    ensures l == Schedule(m, i)
  {
    if direct {
      l := NativeWord(input, 64 * n + 4 * i, little);
    } else {
      l := HostWord(input, 64 * n + 4 * i);
    }
    hide Word;
  }

  method StoreInput(X: array<word>, input: seq<byte>, n: nat, i: nat, little: bool, direct: bool, ghost m: Block)
    returns (l: word)
    requires direct ==> !little
    requires X.Length == 16 && 64 * n + 64 <= |input| && i < 16 && m == BlockAt(input, n) && Window(X[..], m, i)
    modifies X
    ensures l == Schedule(m, i) && Window(X[..], m, i + 1)
  {
    l := LoadWord(input, n, i, little, direct, m);
    hide Schedule;
    X[i] := l;
  }

  lemma BeforeRounds(X: seq<word>, hash: Regs, m: Block)
    requires |X| == 16
    ensures Rounds(hash, m, 0) == hash && Window(X, m, 0)
  {
  }

  /** Eight rounds on input words. Each round renames the registers, and after eight rounds every name is
      back where it was. */
  method EightInputRounds(X: array<word>, input: seq<byte>, n: nat, i: nat, little: bool, direct: bool,
                          a0: word, b0: word, c0: word, d0: word, e0: word, f0: word, g0: word, h0: word,
                          ghost hash: Regs, ghost m: Block)
    returns (a: word, b: word, c: word, d: word, e: word, f: word, g: word, h: word)
    requires direct ==> !little
    requires X.Length == 16 && 64 * n + 64 <= |input| && i <= 8 && m == BlockAt(input, n)
    requires Regs(a0, b0, c0, d0, e0, f0, g0, h0) == Rounds(hash, m, i) && Window(X[..], m, i)
    modifies X
    ensures Regs(a, b, c, d, e, f, g, h) == Rounds(hash, m, i + 8) && Window(X[..], m, i + 8)
  {
    hide Rounds, Schedule, Window;
    a, b, c, d, e, f, g, h := a0, b0, c0, d0, e0, f0, g0, h0;
    var l;
    l := StoreInput(X, input, n, i + 0, little, direct, m);
    d, h := MacroRound(l, a, b, c, d, e, f, g, h, i + 0, hash, m);
    l := StoreInput(X, input, n, i + 1, little, direct, m);
    c, g := MacroRound(l, h, a, b, c, d, e, f, g, i + 1, hash, m);
    l := StoreInput(X, input, n, i + 2, little, direct, m);
    b, f := MacroRound(l, g, h, a, b, c, d, e, f, i + 2, hash, m);
    l := StoreInput(X, input, n, i + 3, little, direct, m);
    a, e := MacroRound(l, f, g, h, a, b, c, d, e, i + 3, hash, m);
    l := StoreInput(X, input, n, i + 4, little, direct, m);
    h, d := MacroRound(l, e, f, g, h, a, b, c, d, i + 4, hash, m);
    l := StoreInput(X, input, n, i + 5, little, direct, m);
    g, c := MacroRound(l, d, e, f, g, h, a, b, c, i + 5, hash, m);
    l := StoreInput(X, input, n, i + 6, little, direct, m);
    f, b := MacroRound(l, c, d, e, f, g, h, a, b, i + 6, hash, m);
    l := StoreInput(X, input, n, i + 7, little, direct, m);
    e, a := MacroRound(l, b, c, d, e, f, g, h, a, i + 7, hash, m);
  }

  /** Eight rounds on words of the extended schedule. */
  method EightScheduleRounds(X: array<word>, i: nat,
                             a0: word, b0: word, c0: word, d0: word, e0: word, f0: word, g0: word, h0: word,
                             ghost hash: Regs, ghost m: Block)
    returns (a: word, b: word, c: word, d: word, e: word, f: word, g: word, h: word)
    requires X.Length == 16 && 16 <= i <= 56
    requires Regs(a0, b0, c0, d0, e0, f0, g0, h0) == Rounds(hash, m, i) && Window(X[..], m, i)
    modifies X
    ensures Regs(a, b, c, d, e, f, g, h) == Rounds(hash, m, i + 8) && Window(X[..], m, i + 8)
  {
    hide Rounds, Schedule, Window;
    a, b, c, d, e, f, g, h := a0, b0, c0, d0, e0, f0, g0, h0;
    var t1;
    t1 := NextWord(X, i + 0, m);
    d, h := MacroRound(t1, a, b, c, d, e, f, g, h, i + 0, hash, m);
    t1 := NextWord(X, i + 1, m);
    c, g := MacroRound(t1, h, a, b, c, d, e, f, g, i + 1, hash, m);
    t1 := NextWord(X, i + 2, m);
    b, f := MacroRound(t1, g, h, a, b, c, d, e, f, i + 2, hash, m);
    t1 := NextWord(X, i + 3, m);
    a, e := MacroRound(t1, f, g, h, a, b, c, d, e, i + 3, hash, m);
    t1 := NextWord(X, i + 4, m);
    h, d := MacroRound(t1, e, f, g, h, a, b, c, d, i + 4, hash, m);
    t1 := NextWord(X, i + 5, m);
    g, c := MacroRound(t1, d, e, f, g, h, a, b, c, i + 5, hash, m);
    t1 := NextWord(X, i + 6, m);
    f, b := MacroRound(t1, c, d, e, f, g, h, a, b, i + 6, hash, m);
    t1 := NextWord(X, i + 7, m);
    e, a := MacroRound(t1, b, c, d, e, f, g, h, a, i + 7, hash, m);
  }

  method CompactRounds(input: seq<byte>, n: nat,
                       a0: word, b0: word, c0: word, d0: word, e0: word, f0: word, g0: word, h0: word)
    returns (a: word, b: word, c: word, d: word, e: word, f: word, g: word, h: word)
    requires 64 * n + 64 <= |input|
    ensures Regs(a, b, c, d, e, f, g, h) == Rounds(Regs(a0, b0, c0, d0, e0, f0, g0, h0), BlockAt(input, n), 64)
  {
    hide Rounds, Schedule, Window;
    ghost var m, hash := BlockAt(input, n), Regs(a0, b0, c0, d0, e0, f0, g0, h0);
    var X := new word[16];
    a, b, c, d, e, f, g, h := a0, b0, c0, d0, e0, f0, g0, h0;
    BeforeRounds(X[..], hash, m);
    var i := 0;
    while i < 16
      invariant i <= 16
      invariant Regs(a, b, c, d, e, f, g, h) == Rounds(hash, m, i)
      invariant Window(X[..], m, i)
    {
      var l := StoreInput(X, input, n, i, true, false, m);
      var e', a' := MacroRound(l, a, b, c, d, e, f, g, h, i, hash, m);
      h, g, f, e, d, c, b, a := g, f, e, e', c, b, a, a';
      i := i + 1;
    }
    while i < 64
      invariant 16 <= i <= 64
      invariant Regs(a, b, c, d, e, f, g, h) == Rounds(hash, m, i)
      invariant Window(X[..], m, i)
    {
      var t1 := NextWord(X, i, m);
      var e', a' := MacroRound(t1, a, b, c, d, e, f, g, h, i, hash, m);
      h, g, f, e, d, c, b, a := g, f, e, e', c, b, a, a';
      i := i + 1;
    }
  }

  method UnrolledRounds(input: seq<byte>, n: nat, little: bool, direct: bool,
                        a0: word, b0: word, c0: word, d0: word, e0: word, f0: word, g0: word, h0: word)
    returns (a: word, b: word, c: word, d: word, e: word, f: word, g: word, h: word)
    requires direct ==> !little
    requires 64 * n + 64 <= |input|
    ensures Regs(a, b, c, d, e, f, g, h) == Rounds(Regs(a0, b0, c0, d0, e0, f0, g0, h0), BlockAt(input, n), 64)
  {
    hide Rounds, Schedule, Window;
    ghost var m, hash := BlockAt(input, n), Regs(a0, b0, c0, d0, e0, f0, g0, h0);
    var X := new word[16];
    BeforeRounds(X[..], hash, m);
    a, b, c, d, e, f, g, h := EightInputRounds(X, input, n, 0, little, direct,
                                               a0, b0, c0, d0, e0, f0, g0, h0, hash, m);
    a, b, c, d, e, f, g, h := EightInputRounds(X, input, n, 8, little, direct, a, b, c, d, e, f, g, h, hash, m);
    var i := 16;
    while i < 64
      invariant 16 <= i <= 64 && i % 8 == 0
      invariant Regs(a, b, c, d, e, f, g, h) == Rounds(hash, m, i)
      invariant Window(X[..], m, i)
    {
      a, b, c, d, e, f, g, h := EightScheduleRounds(X, i, a, b, c, d, e, f, g, h, hash, m);
      i := i + 8;
    }
  }

  class Sha256Ctx {
    const h: array<word>

    constructor ()
      ensures fresh(h) && h.Length == 8
    {
      h := new word[8];
    }

    /** The compact loop. */
    method BlockDataOrder(input: seq<byte>, num: nat)
      requires h.Length == 8 && |input| == 64 * num
      modifies h
      ensures StateRegs(h[..]) == HashBlocks(old(StateRegs(h[..])), input)
    {
      ghost var start := StateRegs(h[..]);
      hide HashBlocks, HashFirst, Compress;
      HashNoneAndAll(start, input, num);
      for n := 0 to num
        invariant StateRegs(h[..]) == HashFirst(start, input, n)
      {
        OneBlock(input, n);
        HashNextBlock(start, input, n);
      }
    }

    method OneBlock(input: seq<byte>, n: nat)
      requires h.Length == 8 && 64 * n + 64 <= |input|
      modifies h
      ensures StateRegs(h[..]) == Compress(old(StateRegs(h[..])), BlockAt(input, n))
    {
      hide Rounds;
      var a, b, c, d, e, f, g, hh := CompactRounds(input, n, h[0], h[1], h[2], h[3], h[4], h[5], h[6], h[7]);
      AddToState(h, a, b, c, d, e, f, g, hh);
    }

    /** The unrolled form. An aligned input is read directly on a big-endian machine. */
    method BlockDataOrderUnrolled(input: seq<byte>, num: nat, little: bool, aligned: bool)
      requires h.Length == 8 && |input| == 64 * num
      modifies h
      ensures StateRegs(h[..]) == HashBlocks(old(StateRegs(h[..])), input)
    {
      ghost var start := StateRegs(h[..]);
      hide HashBlocks, HashFirst, Compress;
      HashNoneAndAll(start, input, num);
      for n := 0 to num
        invariant StateRegs(h[..]) == HashFirst(start, input, n)
      {
        OneBlockUnrolled(input, n, little, !little && aligned);
        HashNextBlock(start, input, n);
      }
    }

    method OneBlockUnrolled(input: seq<byte>, n: nat, little: bool, direct: bool)
      requires direct ==> !little
      requires h.Length == 8 && 64 * n + 64 <= |input|
      modifies h
      ensures StateRegs(h[..]) == Compress(old(StateRegs(h[..])), BlockAt(input, n))
    {
      hide Rounds;
      var a, b, c, d, e, f, g, hh := UnrolledRounds(input, n, little, direct,
                                                    h[0], h[1], h[2], h[3], h[4], h[5], h[6], h[7]);
      AddToState(h, a, b, c, d, e, f, g, hh);
    }
  }
}
