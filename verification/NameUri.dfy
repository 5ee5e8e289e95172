/** The URI form of names: printing, parsing, and exactly when parsing undoes printing. */
module NameUri {
  import opened NameOrder

  type text = seq<octet>

  const PERCENT: octet := 0x25
  const DOT: octet := 0x2e
  const SLASH: octet := 0x2f
  const COLON: octet := 0x3a
  const EQUALS: octet := 0x3d

  // "sha256digest=" and "params-sha256="
  const SHA256_DIGEST_PREFIX: text := [0x73, 0x68, 0x61, 0x32, 0x35, 0x36, 0x64, 0x69, 0x67, 0x65, 0x73, 0x74, EQUALS]
  const PARAMS_SHA256_PREFIX: text :=
    [0x70, 0x61, 0x72, 0x61, 0x6d, 0x73, 0x2d, 0x73, 0x68, 0x61, 0x32, 0x35, 0x36, EQUALS]

  // Characters.

  predicate Whitespace(x: octet) { x == 0x20 || x == 0x09 || x == 0x0a || x == 0x0d }

  predicate Digit(x: octet) { 0x30 <= x <= 0x39 }

  /** The characters that are printed as they are. */
  predicate Unescaped(x: octet) {
    Digit(x) || 0x41 <= x <= 0x5a || 0x61 <= x <= 0x7a || x == 0x2b || x == 0x2d || x == 0x2e || x == 0x5f
  }

  /** The characters of a printed component. */
  predicate Printed(x: octet) { Unescaped(x) || x == PERCENT || x == EQUALS }

  function FromHexChar(c: octet): (d: int)
    ensures -1 <= d < 16
  {
    if Digit(c) then c - 0x30
    else if 0x41 <= c <= 0x46 then c - 0x41 + 10
    else if 0x61 <= c <= 0x66 then c - 0x61 + 10
    else -1
  }

  function HexChar(d: nat, upper: bool): octet
    requires d < 16
  {
    if d < 10 then 0x30 + d else if upper then 0x41 + (d - 10) else 0x61 + (d - 10)
  }

  lemma HexCharRoundTrip(d: nat, upper: bool)
    requires d < 16
    ensures FromHexChar(HexChar(d, upper)) == d && Unescaped(HexChar(d, upper))
  {
  }

  // Printing.

  predicate AllDots(v: text) { forall i :: 0 <= i < |v| ==> v[i] == DOT }

  function Escape(x: octet): text {
    if Unescaped(x) then [x] else [PERCENT, HexChar(x / 16, true), HexChar(x % 16, true)]
  }

  function EscapeAll(v: text): text {
    if v == [] then [] else Escape(v[0]) + EscapeAll(v[1..])
  }

  /** A value in escaped form: a value of dots only, the empty one included, gets three more. */
  function EscapeValue(v: text): text {
    if AllDots(v) then [DOT, DOT, DOT] + v else EscapeAll(v)
  }

  /** Two lower-case hex characters for each byte. */
  function ToHex(v: text): text {
    if v == [] then [] else [HexChar(v[0] / 16, false), HexChar(v[0] % 16, false)] + ToHex(v[1..])
  }

  /** A number as a stream prints it, in base 10 or, in hex mode, in base 16. */
  function NumberText(n: nat, hex: bool, upper: bool): text {
    var base := if hex then 16 else 10;
    if n < base then [HexChar(n, upper)] else NumberText(n / base, hex, upper) + [HexChar(n % base, upper)]
  }

  function Digits(n: nat, hex: bool): text { NumberText(n, hex, false) }

  predicate IsDigest(c: Component) { c.kind.ImplicitSha256Digest? || c.kind.ParametersSha256Digest? }

  /** Printing the hex of a digest leaves the stream in hex mode. */
  predicate HexAfter(c: Component, hex: bool) { hex || (IsDigest(c) && c.value != []) }

  function PrintComponent(c: Component, hex: bool): text {
    match c.kind
    case ImplicitSha256Digest => SHA256_DIGEST_PREFIX + ToHex(c.value)
    case ParametersSha256Digest => PARAMS_SHA256_PREFIX + ToHex(c.value)
    case Generic => EscapeValue(c.value)
    case OtherCode(code) => Digits(code, hex) + [EQUALS] + EscapeValue(c.value)
  }

  function PrintComponents(n: Name, hex: bool): text {
    if n == [] then [] else [SLASH] + PrintComponent(n[0], hex) + PrintComponents(n[1..], HexAfter(n[0], hex))
  }

  const NDN_SCHEME: text := [0x6e, 0x64, 0x6e, COLON]  // "ndn:"

  function ToUri(n: Name, includeScheme: bool): text {
    (if includeScheme then NDN_SCHEME else []) + if n == [] then [SLASH] else PrintComponents(n, false)
  }

  // Parsing.

  function TrimLeft(s: text): text {
    if s != [] && Whitespace(s[0]) then TrimLeft(s[1..]) else s
  }

  function TrimRight(s: text): text {
    if s != [] && Whitespace(s[|s| - 1]) then TrimRight(s[..|s| - 1]) else s
  }

  function Trim(s: text): text { TrimRight(TrimLeft(s)) }

  /** The first index of c at or after from, or the length of s if there is none. */
  function Find(s: text, c: octet, from: nat): (i: nat)
    requires from <= |s|
    ensures from <= i <= |s|
    ensures forall k :: from <= k < i ==> s[k] != c
    ensures i < |s| ==> s[i] == c
    decreases |s| - from
  {
    if from == |s| || s[from] == c then from else Find(s, c, from + 1)
  }

  /** Replace each escape by its byte. An escape that is not hex stays as it is. */
  function Unescape(s: text): text {
    if s == [] then []
    else if s[0] == PERCENT && 2 < |s| then
      var hi, lo := FromHexChar(s[1]), FromHexChar(s[2]);
      (if hi < 0 || lo < 0 then s[..3] else [16 * hi + lo]) + Unescape(s[3..])
    else [s[0]] + Unescape(s[1..])
  }

  datatype Blob = Null | Bytes(bytes: text)

  function FromHex(s: text): Blob {
    if s == [] then Bytes([])
    else if s[0] == 0x20 then FromHex(s[1..])
    else if |s| == 1 then Bytes([])
    else
      var hi, lo := FromHexChar(s[0]), FromHexChar(s[1]);
      if hi < 0 || lo < 0 then Null
      else
        match FromHex(s[2..])
        case Null => Null
        case Bytes(rest) => Bytes([16 * hi + lo] + rest)
  }

  /** A null value stands for an illegal component. */
  function FromEscapedString(s: text): Blob {
    var value := Unescape(Trim(s));
    if AllDots(value) then (if |value| <= 2 then Null else Bytes(value[3..])) else Bytes(value)
  }

  function DecimalPrefix(s: text, value: nat): nat
    decreases |s|
  {
    if s != [] && Digit(s[0]) then DecimalPrefix(s[1..], 10 * value + (s[0] - 0x30)) else value
  }

  function SkipSpace(s: text): text {
    if s != [] && (s[0] == 0x20 || 0x09 <= s[0] <= 0x0d) then SkipSpace(s[1..]) else s
  }

  /** atoi: spaces, a sign, and as many digits as there are. */
  function Atoi(s: text): int {
    var t := SkipSpace(s);
    if t != [] && t[0] == 0x2d then 0 - DecimalPrefix(t[1..], 0)
    else if t != [] && t[0] == 0x2b then DecimalPrefix(t[1..], 0)
    else DecimalPrefix(t, 0)
  }

  datatype ParsedComponent = Illegal | Parsed(component: Component) | Error

  function DigestOf(kind: ComponentType, digest: Blob): ParsedComponent {
    if digest.Bytes? && |digest.bytes| == 32 then Parsed(Component(kind, digest.bytes)) else Error
  }

  /** The type that a decimal code stands for. */
  function KindOf(code: nat): ComponentType {
    if code == 8 then Generic
    else if code == 1 then ImplicitSha256Digest
    else if code == 2 then ParametersSha256Digest
    else OtherCode(code)
  }

  function ParseTyped(typeString: text, value: text): ParsedComponent {
    var code := if typeString == [0x30] then 0 else Atoi(typeString);
    if typeString != [0x30] && code == 0 then Error
    else if code < 0 then Error
    else match FromEscapedString(value)
         case Null => Illegal
         case Bytes(v) => Parsed(Component(KindOf(code), v))
  }

  /** One component of a URI, which has no slash. */
  function ParseComponent(s: text): ParsedComponent {
    if SHA256_DIGEST_PREFIX <= s then DigestOf(ImplicitSha256Digest, FromHex(s[|SHA256_DIGEST_PREFIX|..]))
    else if PARAMS_SHA256_PREFIX <= s then DigestOf(ParametersSha256Digest, FromHex(s[|PARAMS_SHA256_PREFIX|..]))
    else
      var e := Find(s, EQUALS, 0);
      if e < |s| then ParseTyped(s[..e], s[e + 1..])
      else match FromEscapedString(s)
           case Null => Illegal
           case Bytes(v) => Parsed(Component(Generic, v))
  }

  /** The components set so far, and whether an exception ended the parse. */
  datatype Outcome = Outcome(name: Name, ok: bool)

  function ParseComponents(uri: text): Outcome
    decreases |uri|
  {
    if uri == [] then Outcome([], true)
    else
      var end := Find(uri, SLASH, 0);
      var c := ParseComponent(uri[..end]);
      if c.Error? then Outcome([], false)
      else
        var rest := if end < |uri| then ParseComponents(uri[end + 1..]) else Outcome([], true);
        if c.Parsed? then rest.(name := [c.component] + rest.name) else rest
  }

  /** A URI without its scheme. */
  function StripScheme(uri: text): text {
    var colon := Find(uri, COLON, 0);
    if colon < |uri| && colon < Find(uri, SLASH, 0) then Trim(uri[colon + 1..]) else uri
  }

  /** The path of a URI, without the leading slash and the authority. */
  function StripAuthority(uri: text): text {
    if uri != [] && uri[0] == SLASH then
      if |uri| >= 2 && uri[1] == SLASH then
        var after := Find(uri, SLASH, 2);
        if after == |uri| then [] else Trim(uri[after + 1..])
      else Trim(uri[1..])
    else uri
  }

  function Parse(uri: text): Outcome { ParseComponents(StripAuthority(StripScheme(Trim(uri)))) }

  // Printed components.

  ghost predicate AllPrinted(s: text) { forall i :: 0 <= i < |s| ==> Printed(s[i]) }

  ghost predicate NoEquals(s: text) { forall i :: 0 <= i < |s| ==> s[i] != EQUALS }

  lemma {:induction false} EscapeAllPrints(v: text)
    ensures AllPrinted(EscapeAll(v)) && NoEquals(EscapeAll(v))
    ensures |EscapeAll(v)| >= |v|
  {
    if v != [] {
      EscapeAllPrints(v[1..]);
      HexCharRoundTrip(v[0] / 16, true);
      HexCharRoundTrip(v[0] % 16, true);
    }
  }

  lemma {:induction false} ToHexPrints(v: text)
    ensures AllPrinted(ToHex(v))
  {
    if v != [] {
      ToHexPrints(v[1..]);
      HexCharRoundTrip(v[0] / 16, false);
      HexCharRoundTrip(v[0] % 16, false);
    }
  }

  lemma {:induction false} DigitsPrint(n: nat, hex: bool)
    ensures AllPrinted(Digits(n, hex)) && NoEquals(Digits(n, hex)) && Digits(n, hex) != []
    ensures var d := Digits(n, hex)[0]; Digit(d) || 0x61 <= d <= 0x66
  {
    var base := if hex then 16 else 10;
    if n >= base {
      DigitsPrint(n / base, hex);
    }
  }

  /** A printed component is not empty, and has no slash, no colon and no whitespace. */
  lemma PrintedComponent(c: Component, hex: bool)
    ensures PrintComponent(c, hex) != [] && AllPrinted(PrintComponent(c, hex))
  {
    EscapeAllPrints(c.value);
    ToHexPrints(c.value);
    if c.kind.OtherCode? {
      DigitsPrint(c.kind.code, hex);
    }
    hide EscapeAll, ToHex, Digits;
  }

  // Parsing undoes printing, piece by piece.

  lemma TrimPrinted(s: text)
    requires s == [] || (!Whitespace(s[0]) && !Whitespace(s[|s| - 1]))
    ensures Trim(s) == s
  {
  }

  lemma {:induction false} UnescapeEscapeAll(v: text)
    ensures Unescape(EscapeAll(v)) == v
  {
    if v != [] {
      UnescapeEscapeAll(v[1..]);
      HexCharRoundTrip(v[0] / 16, true);
      HexCharRoundTrip(v[0] % 16, true);
      var s := EscapeAll(v);
      assert s[|Escape(v[0])|..] == EscapeAll(v[1..]);
    }
  }

  lemma {:induction false} UnescapeDots(v: text)
    requires AllDots(v)
    ensures Unescape(v) == v
  {
    if v != [] {
      UnescapeDots(v[1..]);
    }
  }

  lemma ValueRoundTrip(v: text)
    ensures FromEscapedString(EscapeValue(v)) == Bytes(v)
  {
    var s := EscapeValue(v);
    EscapeAllPrints(v);
    assert s != [] && Printed(s[0]) && Printed(s[|s| - 1]);
    TrimPrinted(s);
    if AllDots(v) {
      UnescapeDots(s);
    } else {
      UnescapeEscapeAll(v);
    }
  }

  lemma {:induction false} HexRoundTrip(v: text)
    ensures FromHex(ToHex(v)) == Bytes(v)
  {
    if v != [] {
      HexRoundTrip(v[1..]);
      HexCharRoundTrip(v[0] / 16, false);
      HexCharRoundTrip(v[0] % 16, false);
      assert ToHex(v)[2..] == ToHex(v[1..]);
    }
  }

  ghost predicate AllDigits(s: text) { forall i :: 0 <= i < |s| ==> Digit(s[i]) }

  /** atoi stops at the first character that is not a digit. */
  lemma {:induction false} DecimalPrefixSnoc(s: text, d: octet, value: nat)
    ensures DecimalPrefix(s + [d], value) ==
            if AllDigits(s) && Digit(d) then 10 * DecimalPrefix(s, value) + (d - 0x30) else DecimalPrefix(s, value)
  {
    if s == [] {
      assert [d][1..] == [];
    } else {
      assert (s + [d])[1..] == s[1..] + [d];
      if Digit(s[0]) {
        DecimalPrefixSnoc(s[1..], d, 10 * value + (s[0] - 0x30));
        assert AllDigits(s) == AllDigits(s[1..]) by {
          if AllDigits(s[1..]) {
            assert forall i :: 1 <= i < |s| ==> s[i] == s[1..][i - 1];
          }
        }
      }
    }
  }

  /** A decimal number reads back. A number in hex mode reads back only if it has one decimal digit; otherwise
      what is read is less. */
  lemma {:induction false} DigitsReadBack(n: nat, hex: bool)
    ensures !hex || n < 10 ==> AllDigits(Digits(n, hex)) && DecimalPrefix(Digits(n, hex), 0) == n
    ensures hex && n >= 10 ==> DecimalPrefix(Digits(n, hex), 0) < n
  {
    var base := if hex then 16 else 10;
    if n < base {
      DecimalPrefixSnoc([], HexChar(n, false), 0);
      assert [] + [HexChar(n, false)] == Digits(n, hex);
    } else {
      DigitsReadBack(n / base, hex);
      DecimalPrefixSnoc(Digits(n / base, hex), HexChar(n % base, false), 0);
    }
  }

  lemma AtoiDigits(n: nat, hex: bool)
    ensures !hex || n < 10 ==> Atoi(Digits(n, hex)) == n
    ensures hex && n >= 10 ==> 0 <= Atoi(Digits(n, hex)) < n
    ensures Digits(n, hex) == [0x30] <==> n == 0
  {
    DigitsPrint(n, hex);
    DigitsReadBack(n, hex);
    assert SkipSpace(Digits(n, hex)) == Digits(n, hex);
    if n >= 10 {
      DigitsLength(n, hex);
    }
  }

  lemma DigitsLength(n: nat, hex: bool)
    requires n >= 10
    ensures Digits(n, hex) != [0x30]
  {
    DigitsReadBack(n, hex);
    if n >= 16 || !hex {
      DigitsPrint(n / (if hex then 16 else 10), hex);
    }
  }

  // The round trip.

  /** What a component needs to be read back, in the stream mode it is printed in. */
  predicate Readable(c: Component, hex: bool) {
    match c.kind
    case Generic => true
    case OtherCode(code) => !hex || code < 10
    case _ => |c.value| == 32
  }

  /** What a name needs: 32 bytes in each digest, and no type code of ten or more after a digest. */
  predicate ReadableName(n: Name, hex: bool) {
    n == [] || (Readable(n[0], hex) && ReadableName(n[1..], HexAfter(n[0], hex)))
  }

  ghost predicate ReadsBack(p: ParsedComponent, c: Component) { p.Parsed? && SameComponent(p.component, c) }

  lemma FindInConcat(a: text, c: octet, b: text)
    requires forall i :: 0 <= i < |a| ==> a[i] != c
    requires b == [] || b[0] == c
    ensures Find(a + b, c, 0) == |a|
  {
    assert forall k :: 0 <= k < |a| ==> (a + b)[k] == a[k];
    assert b != [] ==> (a + b)[|a|] == b[0];
  }

  lemma ParsePrintedDigest(c: Component, hex: bool)
    requires IsDigest(c)
    ensures var p := ParseComponent(PrintComponent(c, hex));
            !p.Illegal? && (ReadsBack(p, c) <==> Readable(c, hex))
  {
    var prefix := if c.kind.ImplicitSha256Digest? then SHA256_DIGEST_PREFIX else PARAMS_SHA256_PREFIX;
    var s := prefix + ToHex(c.value);
    assert s[|prefix|..] == ToHex(c.value);
    assert s[0] == prefix[0];
    HexRoundTrip(c.value);
  }

  lemma NotADigestPrefix(s: text)
    requires s == [] || NoEquals(s) || (s[0] != 0x73 && s[0] != 0x70)
    ensures !(SHA256_DIGEST_PREFIX <= s) && !(PARAMS_SHA256_PREFIX <= s)
  {
    assert SHA256_DIGEST_PREFIX[0] == 0x73 && SHA256_DIGEST_PREFIX[12] == EQUALS;
    assert PARAMS_SHA256_PREFIX[0] == 0x70 && PARAMS_SHA256_PREFIX[13] == EQUALS;
  }

  lemma ParsePrintedGeneric(c: Component, hex: bool)
    requires c.kind.Generic?
    ensures ParseComponent(PrintComponent(c, hex)) == Parsed(c)
  {
    var s := EscapeValue(c.value);
    EscapeAllPrints(c.value);
    assert NoEquals(s);
    NotADigestPrefix(s);
    assert Find(s, EQUALS, 0) == |s|;
    ValueRoundTrip(c.value);
  }

  lemma ParsePrintedOther(c: Component, hex: bool)
    requires c.kind.OtherCode?
    ensures var p := ParseComponent(PrintComponent(c, hex));
            !p.Illegal? && (ReadsBack(p, c) <==> Readable(c, hex))
  {
    var d, v := Digits(c.kind.code, hex), EscapeValue(c.value);
    var s := d + [EQUALS] + v;
    DigitsPrint(c.kind.code, hex);
    assert s[0] == d[0];
    NotADigestPrefix(s);
    assert s == d + ([EQUALS] + v);
    FindInConcat(d, EQUALS, [EQUALS] + v);
    assert s[..|d|] == d && s[|d| + 1..] == v;
    ValueRoundTrip(c.value);
    AtoiDigits(c.kind.code, hex);
    hide Digits, EscapeValue, Atoi, FromEscapedString, Find;
    assert ParseComponent(s) == ParseTyped(d, v);
  }

  lemma ParsePrintedComponent(c: Component, hex: bool)
    ensures var p := ParseComponent(PrintComponent(c, hex));
            !p.Illegal? && (ReadsBack(p, c) <==> Readable(c, hex))
  {
    match c.kind
    case Generic => ParsePrintedGeneric(c, hex);
    case OtherCode(_) => ParsePrintedOther(c, hex);
    case _ => ParsePrintedDigest(c, hex);
  }

  lemma DropSlash(a: text, b: text)
    ensures ([SLASH] + a + b)[1..] == a + b && ([SLASH] + a + b)[0] == SLASH
  {
  }

  lemma PrintedTail(n: Name, hex: bool)
    requires n != []
    ensures PrintComponents(n, hex) != []
    ensures PrintComponents(n, hex)[0] == SLASH
    ensures PrintComponents(n, hex)[1..] == PrintComponent(n[0], hex) + PrintComponents(n[1..], HexAfter(n[0], hex))
  {
    var a, b := PrintComponent(n[0], hex), PrintComponents(n[1..], HexAfter(n[0], hex));
    assert PrintComponents(n, hex) == [SLASH] + a + b;
    hide PrintComponent, PrintComponents, HexAfter;
    DropSlash(a, b);
  }

  /** The printed form splits at its first slash into the first component and the printed rest. */
  lemma SplitPrinted(n: Name, hex: bool)
    requires n != []
    ensures var s, first := PrintComponents(n, hex)[1..], PrintComponent(n[0], hex);
            var rest := PrintComponents(n[1..], HexAfter(n[0], hex));
            && first != []
            && s == first + rest
            && Find(s, SLASH, 0) == |first|
            && s[..|first|] == first
            && (n[1..] == [] ==> rest == [])
            && (n[1..] != [] ==> |first| < |s| && s[|first| + 1..] == rest[1..])
  {
    PrintedComponent(n[0], hex);
    PrintedTail(n, hex);
    var first, rest := PrintComponent(n[0], hex), PrintComponents(n[1..], HexAfter(n[0], hex));
    if n[1..] != [] {
      PrintedTail(n[1..], HexAfter(n[0], hex));
    } else {
      assert rest == [];
    }
    hide PrintComponent, PrintComponents, HexAfter;
    FindInConcat(first, SLASH, rest);
  }

  lemma {:induction false} ParsePrintedComponents(n: Name, hex: bool)
    requires n != []
    ensures var o := ParseComponents(PrintComponents(n, hex)[1..]);
            o.ok && Compare(o.name, n) == 0 <==> ReadableName(n, hex)
  {
    hide PrintComponent, PrintComponents, ParseComponent, Readable, CompareComponents, Find, HexAfter;
    SplitPrinted(n, hex);
    ParsePrintedComponent(n[0], hex);
    PrintedTail(n, hex);
    var p := ParseComponent(PrintComponent(n[0], hex));
    if p.Parsed? {
      ComponentsOrder(p.component, n[0]);
    }
    if n[1..] != [] {
      ParsePrintedComponents(n[1..], HexAfter(n[0], hex));
    }
  }

  lemma {:induction false} PrintComponentsShape(n: Name, hex: bool)
    requires n != []
    ensures var s := PrintComponents(n, hex);
            && |s| >= 2 && s[0] == SLASH && Printed(s[1]) && Printed(s[|s| - 1])
            && (forall i :: 0 <= i < |s| ==> Printed(s[i]) || s[i] == SLASH)
            && forall i :: 0 <= i < |s| - 1 ==> s[i] != SLASH || s[i + 1] != SLASH
  {
    PrintedComponent(n[0], hex);
    PrintedTail(n, hex);
    var first, rest := PrintComponent(n[0], hex), PrintComponents(n[1..], HexAfter(n[0], hex));
    if n[1..] != [] {
      PrintComponentsShape(n[1..], HexAfter(n[0], hex));
    } else {
      assert rest == [];
    }
    var s := PrintComponents(n, hex);
    assert s == ([SLASH] + first) + rest;
    hide PrintComponent, PrintComponents, HexAfter;
    PrintedShape(first, rest);
  }

  /** One printed component before a text of that shape, or before nothing. */
  lemma PrintedShape(first: text, rest: text)
    requires first != [] && AllPrinted(first)
    requires rest == [] || (rest[0] == SLASH && Printed(rest[|rest| - 1]))
    requires forall i :: 0 <= i < |rest| ==> Printed(rest[i]) || rest[i] == SLASH
    requires forall i :: 0 <= i < |rest| - 1 ==> rest[i] != SLASH || rest[i + 1] != SLASH
    ensures var s := ([SLASH] + first) + rest;
            && Printed(s[1]) && Printed(s[|s| - 1])
            && (forall i :: 0 <= i < |s| ==> Printed(s[i]) || s[i] == SLASH)
            && forall i :: 0 <= i < |s| - 1 ==> s[i] != SLASH || s[i + 1] != SLASH
  {
    var s, k := ([SLASH] + first) + rest, 1 + |first|;
    assert !Printed(SLASH);
    assert forall i :: 0 <= i < |first| ==> s[i + 1] == first[i];
    forall i | 0 <= i < |s| - 1 ensures s[i] != SLASH || s[i + 1] != SLASH {
      if i >= k {
        assert s[i] == rest[i - k] && s[i + 1] == rest[i - k + 1];
      } else if i > 0 {
        assert s[i] == first[i - 1];
      } else {
        assert s[1] == first[0];
      }
    }
  }

  /** The scheme is stripped, and a path that starts with a slash has none to strip. */
  lemma StripSchemeOf(p: text, includeScheme: bool)
    requires p != [] && p[0] == SLASH && !Whitespace(p[|p| - 1])
    ensures StripScheme(Trim((if includeScheme then NDN_SCHEME else []) + p)) == p
  {
    TrimPrinted(p);
    if includeScheme {
      var uri := NDN_SCHEME + p;
      assert uri[|uri| - 1] == p[|p| - 1];
      TrimPrinted(uri);
      var ndn := NDN_SCHEME[..3];
      FindInConcat(ndn, COLON, [COLON] + p);
      assert uri == ndn + ([COLON] + p);
      FindInConcat(NDN_SCHEME, SLASH, p);
      hide Trim, Find;
      assert uri[4..] == p;
    } else {
      assert [] + p == p;
      FindInConcat([], SLASH, p);
    }
  }

  lemma StripSlash(p: text)
    requires |p| >= 2 && p[0] == SLASH && Printed(p[1]) && !Whitespace(p[|p| - 1])
    ensures StripAuthority(p) == p[1..]
  {
    TrimPrinted(p[1..]);
  }

  /** The URI of a name has no whitespace, no colon outside the scheme, and no leading double slash, so it is
      parsed as the components after its first slash. */
  lemma ParseOfPrinted(n: Name, includeScheme: bool)
    requires n != []
    ensures Parse(ToUri(n, includeScheme)) == ParseComponents(PrintComponents(n, false)[1..])
  {
    var p := PrintComponents(n, false);
    PrintComponentsShape(n, false);
    StripSlash(p);
    hide PrintComponents, ParseComponents, StripScheme, StripAuthority, Trim;
    StripSchemeOf(p, includeScheme);
  }

  /** Parsing the URI of a name gives the same name exactly when the name is readable: every digest has 32 bytes,
      and no type code of ten or more follows a digest. */
  lemma UriRoundTrip(n: Name, includeScheme: bool)
    ensures var o := Parse(ToUri(n, includeScheme));
            o.ok && Compare(o.name, n) == 0 <==> ReadableName(n, false)
  {
    if n == [] {
      EmptyUri(includeScheme);
    } else {
      ParseOfPrinted(n, includeScheme);
      ParsePrintedComponents(n, false);
    }
  }

  lemma EmptyUri(includeScheme: bool)
    ensures Parse(ToUri([], includeScheme)) == Outcome([], true)
  {
    StripSchemeOf([SLASH], includeScheme);
    hide StripScheme;
    TrimPrinted([]);
    assert [SLASH][1..] == [];
  }

  /** The hex mode that a digest leaves behind changes type codes: sixteen is read back as ten. */
  lemma TypeCodeAfterDigest()
    ensures var n := [ZeroDigest(), Component(OtherCode(16), [0x61])];
            var o := Parse(ToUri(n, false));
            !(o.ok && Compare(o.name, n) == 0)
  {
    UriRoundTrip([ZeroDigest(), Component(OtherCode(16), [0x61])], false);
  }
}
