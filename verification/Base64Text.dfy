/** Base64 in characters: the alphabet of RFC 4648, and examples of its section 10. */
module Base64Text {
  import opened Base64

  function Text(s: seq<byte>): (t: string)
    ensures |t| == |s| && forall i :: 0 <= i < |s| ==> t[i] == s[i] as int as char
  {
    if s == [] then "" else [s[0] as int as char] + Text(s[1..])
  }

  /** The codes of eight sextets. */
  function CodesRow(r: nat): seq<byte>
    requires r < 8
  {
    match r
    case 0 => [Basis(0), Basis(1), Basis(2), Basis(3), Basis(4), Basis(5), Basis(6), Basis(7)]
    case 1 => [Basis(8), Basis(9), Basis(10), Basis(11), Basis(12), Basis(13), Basis(14), Basis(15)]
    case 2 => [Basis(16), Basis(17), Basis(18), Basis(19), Basis(20), Basis(21), Basis(22), Basis(23)]
    case 3 => [Basis(24), Basis(25), Basis(26), Basis(27), Basis(28), Basis(29), Basis(30), Basis(31)]
    case 4 => [Basis(32), Basis(33), Basis(34), Basis(35), Basis(36), Basis(37), Basis(38), Basis(39)]
    case 5 => [Basis(40), Basis(41), Basis(42), Basis(43), Basis(44), Basis(45), Basis(46), Basis(47)]
    case 6 => [Basis(48), Basis(49), Basis(50), Basis(51), Basis(52), Basis(53), Basis(54), Basis(55)]
    case _ => [Basis(56), Basis(57), Basis(58), Basis(59), Basis(60), Basis(61), Basis(62), Basis(63)]
  }

  /** Table 1 of RFC 4648, in rows of eight. */
  function AlphabetRow(r: nat): string
    requires r < 8
  {
    match r
    case 0 => "ABCDEFGH"
    case 1 => "IJKLMNOP"
    case 2 => "QRSTUVWX"
    case 3 => "YZabcdef"
    case 4 => "ghijklmn"
    case 5 => "opqrstuv"
    case 6 => "wxyz0123"
    case _ => "456789+/"
  }

  lemma Row0()
    ensures Text(CodesRow(0)) == AlphabetRow(0)
  {
    hide Text;
  }

  lemma Row1()
    ensures Text(CodesRow(1)) == AlphabetRow(1)
  {
    hide Text;
  }

  lemma Row2()
    ensures Text(CodesRow(2)) == AlphabetRow(2)
  {
    hide Text;
  }

  lemma Row3()
    ensures Text(CodesRow(3)) == AlphabetRow(3)
  {
    hide Text;
  }

  lemma Row4()
    ensures Text(CodesRow(4)) == AlphabetRow(4)
  {
    hide Text;
  }

  lemma Row5()
    ensures Text(CodesRow(5)) == AlphabetRow(5)
  {
    hide Text;
  }

  lemma Row6()
    ensures Text(CodesRow(6)) == AlphabetRow(6)
  {
    hide Text;
  }

  lemma Row7()
    ensures Text(CodesRow(7)) == AlphabetRow(7)
  {
    hide Text;
  }

  /** The codes of the sextets 0 to 63 are the characters of the alphabet, in its order. */
  lemma Alphabet(r: nat)
    requires r < 8
    ensures Text(CodesRow(r)) == AlphabetRow(r)
  {
    hide Text, CodesRow, AlphabetRow;
    match r
    case 0 => Row0();
    case 1 => Row1();
    case 2 => Row2();
    case 3 => Row3();
    case 4 => Row4();
    case 5 => Row5();
    case 6 => Row6();
    case _ =>
      assert r == 7;
      Row7();
  }

  /** The examples with one, two and three bytes: all three tails. */
  lemma TailExamples()
    ensures Text(Encode([0x66])) == "Zg==" && Text(Encode([0x66, 0x6f])) == "Zm8="
    ensures Text(Encode([0x66, 0x6f, 0x6f])) == "Zm9v"
  {
    assert Encode([0x66]) == [0x5a, 0x67, 0x3d, 0x3d] && Encode([0x66, 0x6f]) == [0x5a, 0x6d, 0x38, 0x3d];
    assert Encode([0x66, 0x6f, 0x6f]) == [0x5a, 0x6d, 0x39, 0x76];
  }
}
