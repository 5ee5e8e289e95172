/** Base64 as section 4 of RFC 4648 defines it, and the encoder and decoder that walk buffers.
    Text is a sequence of ASCII codes. */
module Base64 {
  type byte = bv8

  const PAD: byte := 0x3d
  const NUL: byte := 0

  /** Table 1 of RFC 4648, as the string basis_64 holds it. */
  function Basis(i: byte): byte
    requires i < 64
  {
    if i < 26 then i + 0x41
    else if i < 52 then i - 26 + 0x61
    else if i < 62 then i - 52 + 0x30
    else if i == 62 then 0x2b
    else 0x2f
  }

  /** The table pr2six: the value of a code, or 64. */
  function Pr2Six(c: byte): (v: byte)
    ensures v <= 64
  {
    if 0x41 <= c <= 0x5a then c - 0x41
    else if 0x61 <= c <= 0x7a then c - 0x61 + 26
    else if 0x30 <= c <= 0x39 then c - 0x30 + 52
    else if c == 0x2b then 62
    else if c == 0x2f then 63
    else 64
  }

  predicate IsCode(c: byte) { Pr2Six(c) <= 63 }

  // The two tables are inverse to each other.

  lemma BasisRoundTrip(i: byte)
    requires i < 64
    ensures Pr2Six(Basis(i)) == i && IsCode(Basis(i))
  {
  }

  lemma CodeRoundTrip(c: byte)
    requires IsCode(c)
    ensures Basis(Pr2Six(c)) == c
  {
  }

  // The definition: 24-bit groups, most significant bit first.

  function Group(a: byte, b: byte, c: byte): bv24 { (a as bv24 << 16) | (b as bv24 << 8) | c as bv24 }

  function Sextets(v: bv24): (s: seq<byte>)
    ensures |s| == 4 && forall k :: 0 <= k < 4 ==> s[k] < 64
  {
    [(v >> 18) as byte, ((v >> 12) & 0x3f) as byte, ((v >> 6) & 0x3f) as byte, (v & 0x3f) as byte]
  }

  function CodeGroup(p: byte, q: byte, r: byte, s: byte): bv24
    requires p < 64 && q < 64 && r < 64 && s < 64
  {
    (p as bv24 << 18) | (q as bv24 << 12) | (r as bv24 << 6) | s as bv24
  }

  function Octets(v: bv24): (s: seq<byte>)
    ensures |s| == 3
  {
    [(v >> 16) as byte, ((v >> 8) & 0xff) as byte, (v & 0xff) as byte]
  }

  /** The codes of up to three bytes, missing bytes being zero. */
  function GroupCodes(a: byte, b: byte, c: byte): (t: seq<byte>)
    ensures |t| == 4
  {
    var s := Sextets(Group(a, b, c));
    [Basis(s[0]), Basis(s[1]), Basis(s[2]), Basis(s[3])]
  }

  /** The codes of all bytes. A last group of two or one bytes has three or two codes. */
  function Codes(s: seq<byte>): (t: seq<byte>)
    ensures |t| == (4 * |s| + 2) / 3
  {
    if |s| == 0 then []
    else if |s| == 1 then GroupCodes(s[0], 0, 0)[..2]
    else if |s| == 2 then GroupCodes(s[0], s[1], 0)[..3]
    else GroupCodes(s[0], s[1], s[2]) + Codes(s[3..])
  }

  /** Padding characters fill up the last group of four. */
  function Padding(n: nat): seq<byte> { if n % 3 == 0 then [] else if n % 3 == 1 then [PAD, PAD] else [PAD] }

  lemma EncodedLength(n: nat)
    ensures (4 * n + 2) / 3 + |Padding(n)| == (n + 2) / 3 * 4
  {
    var q, r := n / 3, n % 3;
    assert n == 3 * q + r;
    if r == 0 {
      assert (4 * n + 2) / 3 == 4 * q && (n + 2) / 3 == q;
    } else {
      assert (4 * n + 2) / 3 == 4 * q + r + 1 && (n + 2) / 3 == q + 1;
    }
  }

  function Encode(s: seq<byte>): (t: seq<byte>)
    ensures |t| == (|s| + 2) / 3 * 4
  {
    EncodedLength(|s|);
    Codes(s) + Padding(|s|)
  }

  /** The bytes of four codes. */
  function CodeOctets(p: byte, q: byte, r: byte, s: byte): (t: seq<byte>)
    requires IsCode(p) && IsCode(q) && IsCode(r) && IsCode(s)
    ensures |t| == 3
  {
    Octets(CodeGroup(Pr2Six(p), Pr2Six(q), Pr2Six(r), Pr2Six(s)))
  }

  const ZERO_CODE: byte := 0x41

  lemma ZeroIsCode()
    ensures IsCode(ZERO_CODE)
  {
  }

  predicate AllCodes(t: seq<byte>) { forall i :: 0 <= i < |t| ==> IsCode(t[i]) }

  /** The bytes of a run of codes. A last group of three or two codes has two or one bytes, one of one code has none. */
  function Decode(t: seq<byte>): (s: seq<byte>)
    requires AllCodes(t)
    ensures |s| == |t| / 4 * 3 + (if |t| % 4 == 0 then 0 else |t| % 4 - 1)
  {
    if |t| < 2 then []
    else if |t| == 2 then CodeOctets(t[0], t[1], ZERO_CODE, ZERO_CODE)[..1]
    else if |t| == 3 then CodeOctets(t[0], t[1], t[2], ZERO_CODE)[..2]
    else CodeOctets(t[0], t[1], t[2], t[3]) + Decode(t[4..])
  }

  /** The codes before the first character that is none. */
  function Run(t: seq<byte>): (r: seq<byte>)
    ensures r <= t && AllCodes(r)
    ensures |r| < |t| ==> !IsCode(t[|r|])
  {
    if t != [] && IsCode(t[0]) then [t[0]] + Run(t[1..]) else []
  }

  // Round trip.

  lemma GroupRoundTrip(a: byte, b: byte, c: byte)
    ensures var s := Sextets(Group(a, b, c)); Octets(CodeGroup(s[0], s[1], s[2], s[3])) == [a, b, c]
  {
  }

  lemma CodesRoundTrip(a: byte, b: byte, c: byte)
    ensures var t := GroupCodes(a, b, c); AllCodes(t) && CodeOctets(t[0], t[1], t[2], t[3]) == [a, b, c]
  {
    var s := Sextets(Group(a, b, c));
    hide Sextets, Group, Octets, CodeGroup, Basis, Pr2Six;
    BasisRoundTrip(s[0]);
    BasisRoundTrip(s[1]);
    BasisRoundTrip(s[2]);
    BasisRoundTrip(s[3]);
    GroupRoundTrip(a, b, c);
  }

  /** Missing bytes leave the code of zero. */
  lemma ShortGroups(a: byte, b: byte)
    ensures GroupCodes(a, b, 0)[3] == ZERO_CODE
    ensures GroupCodes(a, 0, 0)[2] == ZERO_CODE
  {
  }

  lemma {:induction false} RunOf(r: seq<byte>, rest: seq<byte>)
    requires AllCodes(r) && (rest == [] || !IsCode(rest[0]))
    ensures Run(r + rest) == r
  {
    if r == [] {
      assert r + rest == rest;
    } else {
      assert (r + rest)[1..] == r[1..] + rest;
      RunOf(r[1..], rest);
    }
  }

  lemma DecodeGroup(g: seq<byte>, rest: seq<byte>)
    requires |g| == 4 && AllCodes(g) && AllCodes(rest)
    ensures AllCodes(g + rest) && Decode(g + rest) == CodeOctets(g[0], g[1], g[2], g[3]) + Decode(rest)
  {
    hide CodeOctets, IsCode;
    assert (g + rest)[4..] == rest;
  }

  lemma DecodeThree(a: byte, b: byte, c: byte, s: seq<byte>)
    requires AllCodes(Codes(s)) && Decode(Codes(s)) == s
    ensures AllCodes(Codes([a, b, c] + s)) && Decode(Codes([a, b, c] + s)) == [a, b, c] + s
  {
    hide GroupCodes, CodeOctets, IsCode, Decode, AllCodes;
    assert ([a, b, c] + s)[3..] == s;
    assert Codes([a, b, c] + s) == GroupCodes(a, b, c) + Codes(s);
    hide Codes;
    CodesRoundTrip(a, b, c);
    DecodeGroup(GroupCodes(a, b, c), Codes(s));
  }

  lemma DecodeTwo(a: byte, b: byte)
    ensures AllCodes(Codes([a, b])) && Decode(Codes([a, b])) == [a, b]
  {
    CodesRoundTrip(a, b, 0);
    ShortGroups(a, b);
    hide GroupCodes, CodeOctets, IsCode;
    assert Codes([a, b]) == GroupCodes(a, b, 0)[..3];
  }

  lemma DecodeOne(a: byte)
    ensures AllCodes(Codes([a])) && Decode(Codes([a])) == [a]
  {
    CodesRoundTrip(a, 0, 0);
    ShortGroups(a, 0);
    hide GroupCodes, CodeOctets, IsCode;
    assert Codes([a]) == GroupCodes(a, 0, 0)[..2];
  }

  lemma {:induction false} DecodeCodes(s: seq<byte>)
    ensures AllCodes(Codes(s)) && Decode(Codes(s)) == s
  {
    if |s| > 2 {
      hide Codes, Decode, AllCodes;
      DecodeCodes(s[3..]);
      DecodeThree(s[0], s[1], s[2], s[3..]);
      assert s == [s[0], s[1], s[2]] + s[3..];
    } else if |s| == 2 {
      DecodeTwo(s[0], s[1]);
      assert s == [s[0], s[1]];
      hide Codes, Decode;
    } else if |s| == 1 {
      DecodeOne(s[0]);
      assert s == [s[0]];
      hide Codes, Decode;
    }
  }

  lemma Regroup(a: seq<byte>, b: seq<byte>, c: seq<byte>)
    ensures a + (b + c) == (a + b) + c
  {
  }

  lemma PaddingIsNoCode(n: nat, behind: seq<byte>)
    ensures !IsCode(((Padding(n) + [NUL]) + behind)[0])
  {
    var first := (Padding(n) + [NUL])[0];
    assert first == PAD || first == NUL;
    assert ((Padding(n) + [NUL]) + behind)[0] == first;
  }

  lemma EncodedWith(s: seq<byte>, behind: seq<byte>)
    ensures (Encode(s) + [NUL]) + behind == Codes(s) + ((Padding(|s|) + [NUL]) + behind)
  {
    hide Codes, Padding;
    var codes, padding := Codes(s), Padding(|s|);
    assert Encode(s) == codes + padding;
    hide Encode;
    Regroup(codes, padding, [NUL]);
    Regroup(codes, padding + [NUL], behind);
  }

  /** Whatever is behind the NUL in a longer buffer, the codes read are those of the encoding. */
  lemma EncodedRun(s: seq<byte>, behind: seq<byte>)
    ensures Run((Encode(s) + [NUL]) + behind) == Codes(s)
  {
    hide Codes, Encode, Run, IsCode, AllCodes, Decode, Padding;
    EncodedWith(s, behind);
    DecodeCodes(s);
    PaddingIsNoCode(|s|, behind);
    RunOf(Codes(s), (Padding(|s|) + [NUL]) + behind);
  }

  /** Decoding undoes encoding, through all three tail cases. */
  lemma DecodeEncode(s: seq<byte>)
    ensures Decode(Run(Encode(s) + [NUL])) == s
  {
    hide Codes, Encode, Run, Decode;
    EncodedRun(s, []);
    assert (Encode(s) + [NUL]) + [] == Encode(s) + [NUL];
    DecodeCodes(s);
  }

  // The buffer-walking code.

  function EncodeLen(len: nat): nat { (len + 2) / 3 * 4 + 1 }

  /** The four codes from shifted and masked bytes. */
  lemma QuadForm(a: byte, b: byte, c: byte)
    ensures GroupCodes(a, b, c) == [Basis((a >> 2) & 0x3f), Basis(((a & 0x3) << 4) | ((b & 0xf0) >> 4)),
                                    Basis(((b & 0xf) << 2) | ((c & 0xc0) >> 6)), Basis(c & 0x3f)]
  {
  }

  // The three bytes that four codes hold, each from the values of two neighbouring codes.

  function First(p: byte, q: byte): byte { (p << 2) | (q >> 4) }

  function Second(q: byte, r: byte): byte { (q << 4) | (r >> 2) }

  function Third(r: byte, s: byte): byte { (r << 6) | s }

  lemma TripleForm(p: byte, q: byte, r: byte, s: byte)
    requires p < 64 && q < 64 && r < 64 && s < 64
    ensures Octets(CodeGroup(p, q, r, s)) == [First(p, q), Second(q, r), Third(r, s)]
  {
  }

  lemma CodeTripleForm(p: byte, q: byte, r: byte, s: byte)
    requires IsCode(p) && IsCode(q) && IsCode(r) && IsCode(s)
    ensures CodeOctets(p, q, r, s) ==
            [First(Pr2Six(p), Pr2Six(q)), Second(Pr2Six(q), Pr2Six(r)), Third(Pr2Six(r), Pr2Six(s))]
  {
    TripleForm(Pr2Six(p), Pr2Six(q), Pr2Six(r), Pr2Six(s));
    hide Pr2Six, Octets, CodeGroup, First, Second, Third;
  }

  lemma CodesFrom(s: seq<byte>, i: nat)
    requires i + 3 <= |s|
    ensures Codes(s[i..]) == GroupCodes(s[i], s[i + 1], s[i + 2]) + Codes(s[i + 3..])
  {
    assert s[i..][3..] == s[i + 3..];
    hide GroupCodes;
  }

  lemma EncodeFrom(s: seq<byte>, i: nat)
    requires i + 3 <= |s|
    ensures Encode(s[i..]) == GroupCodes(s[i], s[i + 1], s[i + 2]) + Encode(s[i + 3..])
  {
    CodesFrom(s, i);
    assert Padding(|s| - i) == Padding(|s| - i - 3);
    hide GroupCodes, Codes, Padding;
    Regroup(GroupCodes(s[i], s[i + 1], s[i + 2]), Codes(s[i + 3..]), Padding(|s| - i));
  }

  lemma DecodeFrom(t: seq<byte>, i: nat)
    requires AllCodes(t) && i + 4 <= |t|
    ensures Decode(t[i..]) == CodeOctets(t[i], t[i + 1], t[i + 2], t[i + 3]) + Decode(t[i + 4..])
  {
    assert t[i..][4..] == t[i + 4..];
    hide CodeOctets;
  }

  /** Put the four codes of a whole group. */
  method PutGroup(encoded: array<byte>, p: nat, a: byte, b: byte, c: byte)
    requires p + 4 <= encoded.Length
    modifies encoded
    ensures encoded[..p + 4] == old(encoded[..p]) + GroupCodes(a, b, c)
    ensures encoded[p + 4..] == old(encoded[p + 4..])
  {
    QuadForm(a, b, c);
    hide Basis, GroupCodes;
    encoded[p] := Basis((a >> 2) & 0x3f);
    encoded[p + 1] := Basis(((a & 0x3) << 4) | ((b & 0xf0) >> 4));
    encoded[p + 2] := Basis(((b & 0xf) << 2) | ((c & 0xc0) >> 6));
    encoded[p + 3] := Basis(c & 0x3f);
  }

  lemma EncodeOne(a: byte)
    ensures Encode([a]) == [Basis((a >> 2) & 0x3f), Basis((a & 0x3) << 4), PAD, PAD]
  {
    QuadForm(a, 0, 0);
    hide Basis, GroupCodes;
    assert (a & 0x3) << 4 == ((a & 0x3) << 4) | ((0 & 0xf0) >> 4);
  }

  lemma EncodeTwo(a: byte, b: byte)
    ensures Encode([a, b])
         == [Basis((a >> 2) & 0x3f), Basis(((a & 0x3) << 4) | ((b & 0xf0) >> 4)), Basis((b & 0xf) << 2), PAD]
  {
    QuadForm(a, b, 0);
    hide Basis, GroupCodes;
    assert (b & 0xf) << 2 == ((b & 0xf) << 2) | ((0 & 0xc0) >> 6);
  }

  /** Put the last group of one or two bytes with its padding. */
  method PutTail(encoded: array<byte>, p: nat, s: seq<byte>, i: nat)
    requires p + 4 <= encoded.Length && |s| - 2 <= i < |s|
    modifies encoded
    ensures encoded[..p + 4] == old(encoded[..p]) + Encode(s[i..])
    ensures encoded[p + 4..] == old(encoded[p + 4..])
  {
    hide Basis, Encode;
    var a := s[i];
    encoded[p] := Basis((a >> 2) & 0x3f);
    if i == |s| - 1 {
      assert s[i..] == [a];
      EncodeOne(a);
      encoded[p + 1] := Basis((a & 0x3) << 4);
      encoded[p + 2] := PAD;
    } else {
      var b := s[i + 1];
      assert s[i..] == [a, b];
      EncodeTwo(a, b);
      encoded[p + 1] := Basis(((a & 0x3) << 4) | ((b & 0xf0) >> 4));
      encoded[p + 2] := Basis((b & 0xf) << 2);
    }
    encoded[p + 3] := PAD;
  }

  /** Encode s and put a terminating null, and nothing more. */
  method EncodeBinary(encoded: array<byte>, s: seq<byte>) returns (n: nat)
    requires EncodeLen(|s|) <= encoded.Length
    modifies encoded
    ensures n == EncodeLen(|s|)
    ensures encoded[..n] == Encode(s) + [0] && encoded[n..] == old(encoded[n..])
  {
    hide Encode;
    var p := 0;
    var i := 0;
    assert s[0..] == s;
    while i < |s| - 2
      invariant 0 <= i <= |s| && 3 * p == 4 * i
      invariant p <= encoded.Length && encoded[..p] + Encode(s[i..]) == Encode(s)
      invariant encoded[p..] == old(encoded[p..])
    {
      EncodeFrom(s, i);
      Regroup(encoded[..p], GroupCodes(s[i], s[i + 1], s[i + 2]), Encode(s[i + 3..]));
      hide GroupCodes;
      PutGroup(encoded, p, s[i], s[i + 1], s[i + 2]);
      p := p + 4;
      i := i + 3;
    }
    if i < |s| {
      PutTail(encoded, p, s, i);
      assert encoded[..p + 4] == Encode(s);
      p := p + 4;
    } else {
      assert s[i..] == [] && Encode([]) == [];
    }
    assert encoded[..p] == Encode(s) && encoded[p..] == old(encoded[p..]);
    n := PutNull(encoded, p);
  }

  method PutNull(encoded: array<byte>, p: nat) returns (n: nat)
    requires p < encoded.Length
    modifies encoded
    ensures n == p + 1
    ensures encoded[..n] == old(encoded[..p]) + [NUL] && encoded[n..] == old(encoded[n..])
  {
    encoded[p] := NUL;
    n := p + 1;
  }

  // Decoding.

  function DecodeLen(t: seq<byte>): nat { (|Run(t)| + 3) / 4 * 3 + 1 }

  lemma {:induction false} RunEnds(t: seq<byte>, i: nat)
    requires i <= |Run(t)| && i < |t| && !IsCode(t[i])
    ensures |Run(t)| == i
  {
    if i > 0 {
      RunEnds(t[1..], i - 1);
    }
  }

  /** The count computed ahead agrees with the bytes written: whole groups, and a last group of up to four codes. */
  lemma CountForm(bufin: nat, bufout: nat, left: nat)
    requires 3 * bufin == 4 * bufout && left <= 4 && (left == 0 ==> bufin == 0)
    ensures (bufin + left + 3) / 4 * 3 - (4 - left) % 4 == bufout + if left == 0 then 0 else left - 1
    ensures (bufin + left + 3) / 4 * 3 - (4 - left) % 4 <= (bufin + left + 3) / 4 * 3
  {
    var groups := bufout / 3;
    assert bufin == 4 * groups && bufout == 3 * groups;
    assert (bufin + left + 3) / 4 == groups + if left == 0 then 0 else 1;
  }

  /** The loop that looks for the end of the codes. A string ends with a character that is no code. */
  method CountCodes(bufcoded: seq<byte>) returns (nprbytes: nat)
    requires |Run(bufcoded)| < |bufcoded|
    ensures nprbytes == |Run(bufcoded)|
  {
    var bufin := 0;
    while Pr2Six(bufcoded[bufin]) <= 63
      invariant 0 <= bufin <= |Run(bufcoded)|
      decreases |bufcoded| - bufin
    {
      bufin := bufin + 1;
    }
    RunEnds(bufcoded, bufin);
    nprbytes := bufin;
  }

  method PutTriple(bufplain: array<byte>, out: nat, p: byte, q: byte, r: byte, s: byte)
    requires out + 3 <= bufplain.Length && IsCode(p) && IsCode(q) && IsCode(r) && IsCode(s)
    modifies bufplain
    ensures bufplain[..] == old(bufplain[..out]) + CodeOctets(p, q, r, s) + old(bufplain[out + 3..])
  {
    CodeTripleForm(p, q, r, s);
    hide CodeOctets, Pr2Six, First, Second, Third;
    bufplain[out] := First(Pr2Six(p), Pr2Six(q));
    bufplain[out + 1] := Second(Pr2Six(q), Pr2Six(r));
    bufplain[out + 2] := Third(Pr2Six(r), Pr2Six(s));
  }

  /** The bytes of the last group of codes. */
  function LastBytes(t: seq<byte>): (s: seq<byte>)
    requires |t| <= 4
    ensures |s| == if |t| == 0 then 0 else |t| - 1
  {
    (if |t| > 1 then [First(Pr2Six(t[0]), Pr2Six(t[1]))] else []) +
    (if |t| > 2 then [Second(Pr2Six(t[1]), Pr2Six(t[2]))] else []) +
    (if |t| > 3 then [Third(Pr2Six(t[2]), Pr2Six(t[3]))] else [])
  }

  lemma LastOctets(t: seq<byte>)
    requires AllCodes(t) && 1 < |t| <= 4
    ensures Decode(t) == CodeOctets(t[0], t[1], if |t| > 2 then t[2] else ZERO_CODE,
                                    if |t| > 3 then t[3] else ZERO_CODE)[..|t| - 1]
  {
    hide CodeOctets;
    if |t| == 4 { assert Decode(t[4..]) == []; }
  }

  lemma LastForm(t: seq<byte>)
    requires AllCodes(t) && |t| <= 4
    ensures Decode(t) == LastBytes(t)
  {
    hide CodeOctets, IsCode, Pr2Six, First, Second, Third;
    if |t| > 1 {
      var r, s := if |t| > 2 then t[2] else ZERO_CODE, if |t| > 3 then t[3] else ZERO_CODE;
      assert IsCode(ZERO_CODE) by { ZeroIsCode(); }
      LastOctets(t);
      CodeTripleForm(t[0], t[1], r, s);
      hide Decode;
      var bytes := CodeOctets(t[0], t[1], r, s);
      assert LastBytes(t) == if |t| == 2 then [bytes[0]] else if |t| == 3 then [bytes[0], bytes[1]] else bytes;
    }
  }

  /** The last group: one byte less than there are codes, none for a single code. */
  method PutLastBytes(bufplain: array<byte>, out: nat, code: seq<byte>, at: nat, nprbytes: nat)
    requires at + nprbytes <= |code| && nprbytes <= 4
    requires out + |LastBytes(code[at..at + nprbytes])| <= bufplain.Length
    modifies bufplain
    ensures var last := LastBytes(code[at..at + nprbytes]);
            && bufplain[..out + |last|] == old(bufplain[..out]) + last
            && bufplain[out + |last|..] == old(bufplain[out + |last|..])
  {
    hide Pr2Six, First, Second, Third;
    var end := out;
    if nprbytes > 1 {
      bufplain[end] := First(Pr2Six(code[at]), Pr2Six(code[at + 1]));
      end := end + 1;
    }
    if nprbytes > 2 {
      bufplain[end] := Second(Pr2Six(code[at + 1]), Pr2Six(code[at + 2]));
      end := end + 1;
    }
    if nprbytes > 3 {
      bufplain[end] := Third(Pr2Six(code[at + 2]), Pr2Six(code[at + 3]));
      end := end + 1;
    }
  }

  /** How far the loop over whole groups is: the bytes of the codes before i are put, and nothing behind them. */
  ghost predicate DecodedTo(was: seq<byte>, now: seq<byte>, out: nat, t: seq<byte>, i: nat)
  {
    && AllCodes(t) && i <= |t| && |now| == |was| && out <= |now|
    && now[..out] + Decode(t[i..]) == Decode(t) && now[out..] == was[out..]
  }

  /** A run of codes whose bytes fit in a buffer. */
  ghost predicate Fits(t: seq<byte>, length: nat) { AllCodes(t) && |Decode(t)| <= length }

  lemma DecodeStart(was: seq<byte>, t: seq<byte>)
    requires AllCodes(t)
    ensures DecodedTo(was, was, 0, t, 0)
  {
    hide Decode;
    assert t[0..] == t && was[..0] == [];
    assert [] + Decode(t) == Decode(t);
  }

  /** There is room for the next group, and putting it is progress. */
  lemma DecodeNext(was: seq<byte>, now: seq<byte>, out: nat, t: seq<byte>, i: nat)
    requires i + 4 <= |t| && DecodedTo(was, now, out, t, i) && Fits(t, |now|)
    ensures IsCode(t[i]) && IsCode(t[i + 1]) && IsCode(t[i + 2]) && IsCode(t[i + 3]) && out + 3 <= |now|
    ensures var next := now[..out] + CodeOctets(t[i], t[i + 1], t[i + 2], t[i + 3]) + now[out + 3..];
      DecodedTo(was, next, out + 3, t, i + 4)
  {
    hide IsCode, Decode, CodeOctets;
    var octets := CodeOctets(t[i], t[i + 1], t[i + 2], t[i + 3]);
    DecodeFrom(t, i);
    Regroup(now[..out], octets, Decode(t[i + 4..]));
    assert out + 3 <= |now| by { assert |Decode(t)| == out + |octets + Decode(t[i + 4..])|; }
    var next := now[..out] + octets + now[out + 3..];
    assert next[..out + 3] == now[..out] + octets;
    assert next[out + 3..] == now[out..][3..] == was[out..][3..] == was[out + 3..];
  }

  method PutNext(bufplain: array<byte>, bufout: nat, bufcoded: seq<byte>, bufin: nat, ghost was: seq<byte>,
                 ghost t: seq<byte>)
    requires t <= bufcoded && bufin + 4 <= |t| && Fits(t, bufplain.Length)
    requires DecodedTo(was, bufplain[..], bufout, t, bufin)
    modifies bufplain
    ensures DecodedTo(was, bufplain[..], bufout + 3, t, bufin + 4)
  {
    hide Decode, DecodedTo, AllCodes, IsCode, CodeOctets;
    DecodeNext(was, bufplain[..], bufout, t, bufin);
    assert bufplain[..][..bufout] == bufplain[..bufout] && bufplain[..][bufout + 3..] == bufplain[bufout + 3..];
    PutTriple(bufplain, bufout, bufcoded[bufin], bufcoded[bufin + 1], bufcoded[bufin + 2], bufcoded[bufin + 3]);
  }

  /** The loop over whole groups. It leaves one to four codes, if there are any. */
  method PutGroups(bufplain: array<byte>, bufcoded: seq<byte>, count: nat, ghost t: seq<byte>)
    returns (bufin: nat, bufout: nat, nprbytes: nat)
    requires t <= bufcoded && |t| == count && Fits(t, bufplain.Length)
    modifies bufplain
    ensures bufin + nprbytes == count && nprbytes <= 4 && 3 * bufin == 4 * bufout && (nprbytes == 0 ==> bufin == 0)
    ensures DecodedTo(old(bufplain[..]), bufplain[..], bufout, t, bufin)
  {
    bufin, bufout, nprbytes := 0, 0, count;
    assert AllCodes(t);
    hide Decode, AllCodes, DecodedTo, Fits;
    ghost var was := bufplain[..];
    DecodeStart(was, t);
    while nprbytes > 4
      invariant bufin + nprbytes == count && 3 * bufin == 4 * bufout && (nprbytes == 0 ==> bufin == 0)
      invariant DecodedTo(was, bufplain[..], bufout, t, bufin)
    {
      PutNext(bufplain, bufout, bufcoded, bufin, was, t);
      bufin := bufin + 4;
      bufout := bufout + 3;
      nprbytes := nprbytes - 4;
    }
  }

  /** Whole groups, then the last group. */
  method PutAll(bufplain: array<byte>, bufcoded: seq<byte>, count: nat, ghost t: seq<byte>)
    returns (nprbytes: nat, ghost bufin: nat, ghost bufout: nat)
    requires t <= bufcoded && |t| == count && Fits(t, bufplain.Length)
    modifies bufplain
    ensures bufin + nprbytes == count && nprbytes <= 4 && 3 * bufin == 4 * bufout && (nprbytes == 0 ==> bufin == 0)
    ensures |Decode(t)| == bufout + if nprbytes == 0 then 0 else nprbytes - 1
    ensures bufplain[..|Decode(t)|] == Decode(t) && bufplain[|Decode(t)|..] == old(bufplain[|Decode(t)|..])
  {
    hide Decode, LastBytes;
    var at, out;
    at, out, nprbytes := PutGroups(bufplain, bufcoded, count, t);
    bufin, bufout := at, out;
    assert t[at..] == bufcoded[at..at + nprbytes];
    LastForm(t[at..]);
    assert |Decode(t)| == out + |LastBytes(t[at..])|;
    PutLastBytes(bufplain, out, bufcoded, at, nprbytes);
  }

  /** Decode the leading codes, whatever they are. The count returned is the number of bytes written, and nothing
      else is written. */
  method DecodeBinary(bufplain: array<byte>, bufcoded: seq<byte>) returns (n: nat)
    requires |Run(bufcoded)| < |bufcoded| && DecodeLen(bufcoded) <= bufplain.Length + 1
    modifies bufplain
    ensures n == |Decode(Run(bufcoded))| <= DecodeLen(bufcoded) - 1
    ensures bufplain[..n] == Decode(Run(bufcoded)) && bufplain[n..] == old(bufplain[n..])
  {
    ghost var t := Run(bufcoded);
    var count := CountCodes(bufcoded);
    var nbytesdecoded := (count + 3) / 4 * 3;
    DecodedFits(t);
    hide Decode, Run;
    var nprbytes;
    ghost var bufin, bufout;
    nprbytes, bufin, bufout := PutAll(bufplain, bufcoded, count, t);
    CountForm(bufin, bufout, nprbytes);
    n := nbytesdecoded - (4 - nprbytes) % 4;
  }

  /** Encode into a buffer, which may be longer than needed, and decode what is in it: the bytes come back. */
  method EncodeThenDecode(s: seq<byte>, encoded: array<byte>, decoded: array<byte>) returns (n: nat)
    requires EncodeLen(|s|) <= encoded.Length && encoded != decoded && (|s| + 2) / 3 * 3 <= decoded.Length
    modifies encoded, decoded
    ensures n == |s| && decoded[..n] == s && decoded[n..] == old(decoded[n..])
  {
    var m := EncodeBinary(encoded, s);
    ghost var behind := encoded[m..];
    assert encoded[..] == encoded[..m] + behind;
    hide Run, Encode, Decode, DecodeLen, AllCodes;
    EncodedText(s, behind);
    n := DecodeBinary(decoded, encoded[..]);
  }

  lemma EncodedText(s: seq<byte>, behind: seq<byte>)
    ensures var t := (Encode(s) + [NUL]) + behind;
      |Run(t)| < |t| && Decode(Run(t)) == s && DecodeLen(t) == (|s| + 2) / 3 * 3 + 1
  {
    hide Run, Encode, Decode, Codes, AllCodes;
    EncodedRun(s, behind);
    DecodeCodes(s);
    CodesLength(|s|);
  }

  lemma CodesLength(n: nat)
    ensures ((4 * n + 2) / 3 + 3) / 4 * 3 == (n + 2) / 3 * 3
  {
    var q, r := n / 3, n % 3;
    assert n == 3 * q + r;
    if r == 0 {
      assert (4 * n + 2) / 3 == 4 * q && (n + 2) / 3 == q;
    } else {
      assert (4 * n + 2) / 3 == 4 * q + r + 1 && (n + 2) / 3 == q + 1;
    }
  }

  lemma DecodedFits(t: seq<byte>)
    requires AllCodes(t)
    ensures |Decode(t)| <= (|t| + 3) / 4 * 3
  {
  }

  // Encoding undoes decoding on canonical text only.

  /** No single code is left over, and the bits of the last code that no byte holds are zero. */
  predicate Canonical(t: seq<byte>) {
    && |t| % 4 != 1
    && (|t| % 4 == 2 ==> Pr2Six(t[|t| - 1]) & 0xf == 0)
    && (|t| % 4 == 3 ==> Pr2Six(t[|t| - 1]) & 0x3 == 0)
  }

  /** The codes of the bytes of four codes are those codes. */
  lemma CodeGroupRoundTrip(p: byte, q: byte, r: byte, s: byte)
    requires IsCode(p) && IsCode(q) && IsCode(r) && IsCode(s)
    ensures var t := CodeOctets(p, q, r, s); GroupCodes(t[0], t[1], t[2]) == [p, q, r, s]
  {
    SextetsOfGroup(Pr2Six(p), Pr2Six(q), Pr2Six(r), Pr2Six(s));
    hide Sextets, Group, Octets, CodeGroup, Basis, Pr2Six;
    CodeRoundTrip(p);
    CodeRoundTrip(q);
    CodeRoundTrip(r);
    CodeRoundTrip(s);
  }

  lemma SextetsOfGroup(p: byte, q: byte, r: byte, s: byte)
    requires p < 64 && q < 64 && r < 64 && s < 64
    ensures var t := Octets(CodeGroup(p, q, r, s)); Sextets(Group(t[0], t[1], t[2])) == [p, q, r, s]
  {
  }

  // The bits of a last code that the bytes of its group hold, in a group of two codes and in one of three.

  function KeptOfTwo(q: byte): (m: byte)
    requires q < 64
    ensures m < 64
  {
    q & 0x30
  }

  function KeptOfThree(r: byte): (m: byte)
    requires r < 64
    ensures m < 64
  {
    r & 0x3c
  }

  lemma ShortGroupCodes(p: byte, q: byte, r: byte)
    requires p < 64 && q < 64 && r < 64
    ensures var g := GroupCodes(First(p, q), 0, 0); g[0] == Basis(p) && g[1] == Basis(KeptOfTwo(q))
    ensures var g := GroupCodes(First(p, q), Second(q, r), 0);
      g[0] == Basis(p) && g[1] == Basis(q) && g[2] == Basis(KeptOfThree(r))
  {
  }

  lemma BasisIsInjective(i: byte, j: byte)
    requires i < 64 && j < 64 && Basis(i) == Basis(j)
    ensures i == j
  {
    BasisRoundTrip(i);
    BasisRoundTrip(j);
    hide Basis, Pr2Six;
  }

  lemma LowBits(q: byte)
    requires q < 64
    ensures (KeptOfTwo(q) == q <==> q & 0xf == 0) && (KeptOfThree(q) == q <==> q & 0x3 == 0)
  {
  }

  /** Only the last code can differ, and it does if its kept bits m are not all of it. */
  lemma OnlyLastCode(t: seq<byte>, u: seq<byte>, m: byte)
    requires |t| > 0 && |u| == |t| && m < 64 && IsCode(t[|t| - 1])
    requires u[..|t| - 1] == t[..|t| - 1] && u[|t| - 1] == Basis(m)
    ensures u == t <==> m == Pr2Six(t[|t| - 1])
  {
    var last := |t| - 1;
    CodeRoundTrip(t[last]);
    hide Basis, Pr2Six;
    if Basis(m) == t[last] {
      BasisIsInjective(m, Pr2Six(t[last]));
    }
    assert t == t[..last] + [t[last]] && u == u[..last] + [u[last]];
  }

  lemma TwoCodes(t: seq<byte>)
    requires AllCodes(t) && |t| == 2
    ensures Codes(Decode(t)) == t <==> Canonical(t)
  {
    var p, q := Pr2Six(t[0]), Pr2Six(t[1]);
    LastForm(t);
    ShortGroupCodes(p, q, 0);
    CodeRoundTrip(t[0]);
    LowBits(q);
    hide GroupCodes, Basis, Pr2Six, First, Decode, KeptOfTwo;
    OnlyLastCode(t, Codes(Decode(t)), KeptOfTwo(q));
  }

  lemma CodesOfTwoBytes(a: byte, b: byte)
    ensures var g := GroupCodes(a, b, 0); Codes([a, b]) == [g[0], g[1], g[2]]
  {
    hide GroupCodes;
  }

  lemma CodesOfThree(t: seq<byte>)
    requires AllCodes(t) && |t| == 3
    ensures Codes(Decode(t)) == [t[0], t[1], Basis(KeptOfThree(Pr2Six(t[2])))]
  {
    hide GroupCodes, Basis, Pr2Six, First, Second, Decode, Codes, KeptOfThree, KeptOfTwo;
    var p, q, r := Pr2Six(t[0]), Pr2Six(t[1]), Pr2Six(t[2]);
    LastForm(t);
    assert Decode(t) == [First(p, q), Second(q, r)];
    CodeRoundTrip(t[0]);
    CodeRoundTrip(t[1]);
    ShortGroupCodes(p, q, r);
    CodesOfTwoBytes(First(p, q), Second(q, r));
  }

  lemma ThreeCodes(t: seq<byte>)
    requires AllCodes(t) && |t| == 3
    ensures Codes(Decode(t)) == t <==> Canonical(t)
  {
    CodesOfThree(t);
    LowBits(Pr2Six(t[2]));
    hide Codes, Decode, Basis, Pr2Six, KeptOfThree;
    OnlyLastCode(t, Codes(Decode(t)), KeptOfThree(Pr2Six(t[2])));
  }

  lemma CodesOfGroup(g: seq<byte>, s: seq<byte>)
    requires |g| == 3
    ensures Codes(g + s) == GroupCodes(g[0], g[1], g[2]) + Codes(s)
  {
    assert (g + s)[3..] == s;
    hide GroupCodes;
  }

  lemma FirstFour(t: seq<byte>)
    requires AllCodes(t) && |t| >= 4
    ensures IsCode(t[0]) && IsCode(t[1]) && IsCode(t[2]) && IsCode(t[3]) && AllCodes(t[4..])
    ensures t[..4] == [t[0], t[1], t[2], t[3]]
    ensures Decode(t) == CodeOctets(t[0], t[1], t[2], t[3]) + Decode(t[4..])
  {
    hide CodeOctets, IsCode;
  }

  lemma CodesOfFour(t: seq<byte>)
    requires AllCodes(t) && |t| >= 4
    ensures Codes(Decode(t)) == t[..4] + Codes(Decode(t[4..]))
  {
    hide CodeOctets, GroupCodes, Codes, IsCode, AllCodes, Decode;
    FirstFour(t);
    CodeGroupRoundTrip(t[0], t[1], t[2], t[3]);
    CodesOfGroup(CodeOctets(t[0], t[1], t[2], t[3]), Decode(t[4..]));
  }

  lemma HeadAndRest(t: seq<byte>, u: seq<byte>, n: nat)
    requires n <= |t|
    ensures t[..n] + u == t <==> u == t[n..]
  {
    assert (t[..n] + u)[n..] == u && t == t[..n] + t[n..];
  }

  lemma CanonicalRest(t: seq<byte>)
    requires |t| >= 4
    ensures Canonical(t) == Canonical(t[4..])
  {
    hide Pr2Six;
  }

  /** Encoding the decoded bytes gives back a run of codes exactly if it is canonical. */
  lemma {:induction false} EncodeDecode(t: seq<byte>)
    requires AllCodes(t)
    ensures Codes(Decode(t)) == t <==> Canonical(t)
  {
    if |t| == 2 {
      TwoCodes(t);
    } else if |t| == 3 {
      ThreeCodes(t);
    } else if |t| > 3 {
      CodesOfFour(t);
      CanonicalRest(t);
      hide Canonical, Codes, Decode;
      EncodeDecode(t[4..]);
      HeadAndRest(t, Codes(Decode(t[4..])), 4);
    }
  }
}
