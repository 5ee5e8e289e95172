/** The loops that print and parse names, over a stream whose flags they change. */
module NameStream {
  import opened NameOrder
  import opened NameUri

  class OutStream {
    var buffer: text
    var hex: bool
    var upper: bool

    constructor ()
      ensures buffer == [] && !hex && !upper
    {
      buffer, hex, upper := [], false, false;
    }

    method Put(s: text)
      modifies this`buffer
      ensures buffer == old(buffer) + s
    {
      buffer := buffer + s;
    }

    method PutNumber(n: nat)
      modifies this`buffer
      ensures buffer == old(buffer) + NumberText(n, hex, upper)
    {
      buffer := buffer + NumberText(n, hex, upper);
    }

    /** A byte in hex, with a leading zero if it needs one. */
    method PutHexByte(x: octet)
      requires hex
      modifies this`buffer
      ensures buffer == old(buffer) + [HexChar(x / 16, upper), HexChar(x % 16, upper)]
    {
      if x < 16 {
        Put([0x30]);
      } else {
        assert NumberText(x / 16, true, upper) == [HexChar(x / 16, upper)];
      }
      PutNumber(x);
    }
  }

  /** Appending the text of one element extends the text of a prefix. */
  lemma {:induction false} EscapeAllSnoc(v: text, x: octet)
    ensures EscapeAll(v + [x]) == EscapeAll(v) + Escape(x)
  {
    hide Escape;
    if v == [] {
      assert EscapeAll([x]) == Escape(x) + EscapeAll([x][1..]);
    } else {
      EscapeAllSnoc(v[1..], x);
      assert (v + [x])[1..] == v[1..] + [x];
    }
  }

  lemma {:induction false} ToHexSnoc(v: text, x: octet)
    ensures ToHex(v + [x]) == ToHex(v) + [HexChar(x / 16, false), HexChar(x % 16, false)]
  {
    if v != [] {
      ToHexSnoc(v[1..], x);
      assert (v + [x])[1..] == v[1..] + [x];
    }
  }

  /** Hex output sets the flags to hex and leaves them so. */
  method PutHex(v: text, result: OutStream)
    modifies result
    ensures result.buffer == old(result.buffer) + ToHex(v)
    ensures result.hex == (old(result.hex) || v != []) && result.upper == (old(result.upper) && v == [])
  {
    if |v| == 0 {
      return;
    }
    result.hex, result.upper := true, false;
    for i := 0 to |v|
      invariant result.hex && !result.upper
      invariant result.buffer == old(result.buffer) + ToHex(v[..i])
    {
      result.PutHexByte(v[i]);
      ToHexSnoc(v[..i], v[i]);
      assert v[..i] + [v[i]] == v[..i + 1];
    }
    assert v[..|v|] == v;
  }

  /** Escaped output saves the flags and restores them. */
  method PutEscaped(v: text, result: OutStream)
    modifies result
    ensures result.buffer == old(result.buffer) + EscapeValue(v)
    ensures result.hex == old(result.hex) && result.upper == old(result.upper)
  {
    var gotNonDot := false;
    for i := 0 to |v|
      invariant !gotNonDot ==> AllDots(v[..i])
      invariant gotNonDot ==> !AllDots(v)
    {
      if v[i] != DOT {
        gotNonDot := true;
        break;
      }
    }
    if !gotNonDot {
      assert v[..|v|] == v;
      result.Put([DOT, DOT, DOT]);
      for i := 0 to |v|
        invariant result.buffer == old(result.buffer) + [DOT, DOT, DOT] + v[..i]
        invariant result.hex == old(result.hex) && result.upper == old(result.upper)
      {
        result.Put([DOT]);
        assert v[..i + 1] == v[..i] + [DOT];
      }
    } else {
      PutEscapes(v, result);
    }
  }

  /** A character as it is, or a percent sign and its code in hex. */
  method PutEscape(x: octet, result: OutStream)
    requires result.hex && result.upper
    modifies result`buffer
    ensures result.buffer == old(result.buffer) + Escape(x)
  {
    if Unescaped(x) {
      result.Put([x]);
    } else {
      result.Put([PERCENT]);
      result.PutHexByte(x);
    }
  }

  method PutEscapes(v: text, result: OutStream)
    modifies result
    ensures result.buffer == old(result.buffer) + EscapeAll(v)
    ensures result.hex == old(result.hex) && result.upper == old(result.upper)
  {
    var saveHex, saveUpper := result.hex, result.upper;
    result.hex, result.upper := true, true;
    for i := 0 to |v|
      invariant result.hex && result.upper
      invariant result.buffer == old(result.buffer) + EscapeAll(v[..i])
    {
      hide Escape, EscapeAll;
      PutEscape(v[i], result);
      EscapeAllSnoc(v[..i], v[i]);
      assert v[..i] + [v[i]] == v[..i + 1];
    }
    assert v[..|v|] == v;
    result.hex, result.upper := saveHex, saveUpper;
  }

  /** A component as a stream in either case prints it; only a type code shows the case. */
  function PrintedOn(c: Component, hex: bool, upper: bool): text {
    if c.kind.OtherCode? then NumberText(c.kind.code, hex, upper) + [EQUALS] + EscapeValue(c.value)
    else PrintComponent(c, hex)
  }

  lemma DigitsOnly(n: nat, hex: bool)
    ensures NumberText(n, hex, false) == Digits(n, hex)
  {
  }

  method PutComponent(c: Component, result: OutStream)
    modifies result
    ensures result.buffer == old(result.buffer) + PrintedOn(c, old(result.hex), old(result.upper))
    ensures old(!result.upper) ==> PrintedOn(c, old(result.hex), false) == PrintComponent(c, old(result.hex))
    ensures result.hex == HexAfter(c, old(result.hex))
    ensures result.upper == (old(result.upper) && !(IsDigest(c) && c.value != []))
  {
    hide ToHex, EscapeValue, NumberText;
    if c.kind.ImplicitSha256Digest? {
      result.Put(SHA256_DIGEST_PREFIX);
      PutHex(c.value, result);
      return;
    }
    if c.kind.ParametersSha256Digest? {
      result.Put(PARAMS_SHA256_PREFIX);
      PutHex(c.value, result);
      return;
    }
    if c.kind.OtherCode? {
      DigitsOnly(c.kind.code, result.hex);
      result.PutNumber(c.kind.code);
      result.Put([EQUALS]);
    }
    PutEscaped(c.value, result);
  }

  method PutUri(n: Name, includeScheme: bool) returns (uri: text)
    ensures uri == ToUri(n, includeScheme)
  {
    if |n| == 0 {
      return if includeScheme then NDN_SCHEME + [SLASH] else [SLASH];
    }
    var result := new OutStream();
    if includeScheme {
      result.Put(NDN_SCHEME);
    }
    ghost var scheme := result.buffer;
    for i := 0 to |n|
      invariant !result.upper
      invariant result.buffer + PrintComponents(n[i..], result.hex) == scheme + PrintComponents(n, false)
    {
      PrintedFrom(n, i, result.hex);
      hide PrintComponents, PrintComponent, HexAfter;
      ghost var before, rest := result.buffer, PrintComponents(n[i + 1..], HexAfter(n[i], result.hex));
      ghost var c := PrintComponent(n[i], result.hex);
      result.Put([SLASH]);
      PutComponent(n[i], result);
      Regroup4(before, [SLASH], c, rest);
    }
    assert PrintComponents(n[|n|..], result.hex) == [];
    assert result.buffer + [] == result.buffer;
    return result.buffer;
  }

  lemma Regroup(a: text, b: text, c: text)
    ensures a + (b + c) == (a + b) + c
  {
  }

  lemma Regroup4(a: text, b: text, c: text, d: text)
    ensures a + (b + c + d) == ((a + b) + c) + d
  {
  }

  lemma PrintedFrom(n: Name, i: nat, hex: bool)
    requires i < |n|
    ensures PrintComponents(n[i..], hex) ==
            [SLASH] + PrintComponent(n[i], hex) + PrintComponents(n[i + 1..], HexAfter(n[i], hex))
  {
    assert n[i..][1..] == n[i + 1..];
    hide PrintComponent, HexAfter;
  }

  // Parsing loops.

  /** Erase whitespace on both sides. */
  method NdnTrim(s: text) returns (r: text)
    ensures r == Trim(s)
  {
    var found := 0;
    while found < |s| && Whitespace(s[found])
      invariant found <= |s| && TrimLeft(s) == TrimLeft(s[found..])
    {
      assert s[found..][1..] == s[found + 1..];
      found := found + 1;
    }
    r := s[found..];
    var end := |r|;
    assert r[..end] == r;
    while end > 0 && Whitespace(r[end - 1])
      invariant 0 <= end <= |r| && TrimRight(r) == TrimRight(r[..end])
    {
      assert r[..end][..end - 1] == r[..end - 1];
      end := end - 1;
    }
    r := r[..end];
  }

  lemma UnescapeFrom(s: text, i: nat)
    requires i < |s|
    ensures Unescape(s[i..]) ==
            if s[i] == PERCENT && i + 2 < |s| then
              var hi, lo := FromHexChar(s[i + 1]), FromHexChar(s[i + 2]);
              (if hi < 0 || lo < 0 then [s[i], s[i + 1], s[i + 2]] else [16 * hi + lo]) + Unescape(s[i + 3..])
            else [s[i]] + Unescape(s[i + 1..])
  {
    var t := s[i..];
    if s[i] == PERCENT && i + 2 < |s| {
      assert t[3..] == s[i + 3..] && t[..3] == [s[i], s[i + 1], s[i + 2]];
    } else {
      assert t[1..] == s[i + 1..];
    }
    hide FromHexChar;
  }

  /** The text that an escape stands for. */
  method ReadEscape(s: text, i: nat) returns (t: text)
    requires i + 2 < |s| && s[i] == PERCENT
    ensures Unescape(s[i..]) == t + Unescape(s[i + 3..])
  {
    UnescapeFrom(s, i);
    hide Unescape, FromHexChar;
    var hi, lo := FromHexChar(s[i + 1]), FromHexChar(s[i + 2]);
    t := if hi < 0 || lo < 0 then [s[i], s[i + 1], s[i + 2]] else [16 * hi + lo];
  }

  method UnescapeLoop(s: text) returns (r: text)
    ensures r == Unescape(s)
  {
    r := [];
    var i := 0;
    while i < |s|
      invariant i <= |s| && r + Unescape(s[i..]) == Unescape(s)
    {
      if s[i] == PERCENT && i + 2 < |s| {
        hide Unescape;
        var t := ReadEscape(s, i);
        Regroup(r, t, Unescape(s[i + 3..]));
        r := r + t;
        i := i + 3;
      } else {
        UnescapeFrom(s, i);
        hide Unescape;
        Regroup(r, [s[i]], Unescape(s[i + 1..]));
        r := r + [s[i]];
        i := i + 1;
      }
    }
  }

  method FromHexLoop(s: text) returns (r: Blob)
    ensures r == FromHex(s)
  {
    var result: text := [];
    var i := 0;
    while i < |s|
      invariant i <= |s|
      invariant FromHex(s) == match FromHex(s[i..]) case Null => Null case Bytes(rest) => Bytes(result + rest)
    {
      if s[i] == 0x20 {
        assert s[i..][1..] == s[i + 1..];
        i := i + 1;
        continue;
      }
      if i + 1 >= |s| {
        break;
      }
      var hi, lo := FromHexChar(s[i]), FromHexChar(s[i + 1]);
      if hi < 0 || lo < 0 {
        return Null;
      }
      assert s[i..][2..] == s[i + 2..];
      var x: octet := 16 * hi + lo;
      result := result + [x];
      i := i + 2;
    }
    return Bytes(result);
  }
}
