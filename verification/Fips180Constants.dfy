/** The constants of SHA-256 as sections 4.2.2 and 5.3.3 of FIPS 180-4 describe them: the first 32 bits of the fractional
    parts of the cube roots and of the square roots of the first primes. */
module Fips180Constants {
  import opened Fips180

  const TWO_TO_THE_32 := 0x1_0000_0000

  // The first 64 primes.

  function PrimeRow(r: nat): (s: seq<nat>)
    requires r < 8
    ensures |s| == 8 && forall i :: 0 <= i < 8 ==> 2 <= s[i] < 343
  {
    match r
    case 0 => [2, 3, 5, 7, 11, 13, 17, 19]
    case 1 => [23, 29, 31, 37, 41, 43, 47, 53]
    case 2 => [59, 61, 67, 71, 73, 79, 83, 89]
    case 3 => [97, 101, 103, 107, 109, 113, 127, 131]
    case 4 => [137, 139, 149, 151, 157, 163, 167, 173]
    case 5 => [179, 181, 191, 193, 197, 199, 211, 223]
    case 6 => [227, 229, 233, 239, 241, 251, 257, 263]
    case _ => [269, 271, 277, 281, 283, 293, 307, 311]
  }

  function Prime(t: nat): nat
    requires t < 64
  {
    PrimeRow(t / 8)[t % 8]
  }

  /** The whole part of the cube root. */
  function CubeRoot(p: nat): (c: nat)
    requires 1 <= p < 343
    ensures c * c * c <= p < (c + 1) * (c + 1) * (c + 1)
  {
    if p < 8 then 1 else if p < 27 then 2 else if p < 64 then 3
    else if p < 125 then 4 else if p < 216 then 5 else 6
  }

  /** The bits of k follow the whole part of the cube root of p: they are the cube root of p times 2^32, rounded down. */
  ghost predicate CubeRootBits(p: nat, k: nat)
    requires 1 <= p < 343
  {
    var n := CubeRoot(p) * TWO_TO_THE_32 + k;
    k < TWO_TO_THE_32 && n * n * n <= p * 0x1_0000_0000_0000_0000_0000_0000 < (n + 1) * (n + 1) * (n + 1)
  }

  /** The bits of h follow the whole part c of the square root of p. */
  ghost predicate SquareRootBits(p: nat, c: nat, h: nat) {
    var n := c * TWO_TO_THE_32 + h;
    c * c <= p < (c + 1) * (c + 1) && h < TWO_TO_THE_32 && n * n <= p * 0x1_0000_0000_0000_0000 < (n + 1) * (n + 1)
  }

  lemma RoundConstants0()
    ensures forall i :: 0 <= i < 8 ==> CubeRootBits(PrimeRow(0)[i], KRow(0)[i] as nat)
  {
  }

  lemma RoundConstants1()
    ensures forall i :: 0 <= i < 8 ==> CubeRootBits(PrimeRow(1)[i], KRow(1)[i] as nat)
  {
  }

  lemma RoundConstants2()
    ensures forall i :: 0 <= i < 8 ==> CubeRootBits(PrimeRow(2)[i], KRow(2)[i] as nat)
  {
  }

  lemma RoundConstants3()
    ensures forall i :: 0 <= i < 8 ==> CubeRootBits(PrimeRow(3)[i], KRow(3)[i] as nat)
  {
  }

  lemma RoundConstants4()
    ensures forall i :: 0 <= i < 8 ==> CubeRootBits(PrimeRow(4)[i], KRow(4)[i] as nat)
  {
  }

  lemma RoundConstants5()
    ensures forall i :: 0 <= i < 8 ==> CubeRootBits(PrimeRow(5)[i], KRow(5)[i] as nat)
  {
  }

  lemma RoundConstants6()
    ensures forall i :: 0 <= i < 8 ==> CubeRootBits(PrimeRow(6)[i], KRow(6)[i] as nat)
  {
  }

  lemma RoundConstants7()
    ensures forall i :: 0 <= i < 8 ==> CubeRootBits(PrimeRow(7)[i], KRow(7)[i] as nat)
  {
  }

  lemma RowConstants(r: nat, i: nat)
    requires r < 8 && i < 8
    ensures CubeRootBits(PrimeRow(r)[i], KRow(r)[i] as nat)
  {
    hide CubeRootBits, PrimeRow, KRow;
    match r
    case 0 => RoundConstants0();
    case 1 => RoundConstants1();
    case 2 => RoundConstants2();
    case 3 => RoundConstants3();
    case 4 => RoundConstants4();
    case 5 => RoundConstants5();
    case 6 => RoundConstants6();
    case _ =>
      assert r == 7;
      RoundConstants7();
  }

  /** Each round constant is the first 32 bits of the fractional part of the cube root of its prime. */
  lemma RoundConstants(t: nat)
    requires t < 64
    ensures CubeRootBits(Prime(t), K(t) as nat)
  {
    hide CubeRootBits, PrimeRow, KRow;
    RowConstants(t / 8, t % 8);
  }

  /** Each word of the initial hash value is the first 32 bits of the fractional part of the square root of its prime. */
  lemma InitialHash()
    ensures SquareRootBits(2, 1, H0.a as nat) && SquareRootBits(3, 1, H0.b as nat)
    ensures SquareRootBits(5, 2, H0.c as nat) && SquareRootBits(7, 2, H0.d as nat)
    ensures SquareRootBits(11, 3, H0.e as nat) && SquareRootBits(13, 3, H0.f as nat)
    ensures SquareRootBits(17, 4, H0.g as nat) && SquareRootBits(19, 4, H0.h as nat)
  {
  }
}
