/** The URI form of names in characters: what is printed as it is, what is escaped, and the fixed texts. */
module NameText {
  import opened NameOrder
  import opened NameUri

  function Chars(s: text): (t: string)
    ensures |t| == |s| && forall i :: 0 <= i < |s| ==> t[i] == s[i] as char
  {
    if s == [] then "" else [s[0] as char] + Chars(s[1..])
  }

  lemma CharsAppend(a: text, b: text)
    ensures Chars(a + b) == Chars(a) + Chars(b)
  {
    hide Chars;
  }

  // The 66 characters that need no escape.

  const DIGITS: set<char> := {'0', '1', '2', '3', '4', '5', '6', '7', '8', '9'}

  const CAPITALS: set<char> := {
    'A', 'B', 'C', 'D', 'E', 'F', 'G', 'H', 'I', 'J', 'K', 'L', 'M', 'N', 'O', 'P', 'Q', 'R', 'S', 'T', 'U', 'V', 'W',
    'X', 'Y', 'Z'
  }

  const SMALL: set<char> := {
    'a', 'b', 'c', 'd', 'e', 'f', 'g', 'h', 'i', 'j', 'k', 'l', 'm', 'n', 'o', 'p', 'q', 'r', 's', 't', 'u', 'v', 'w',
    'x', 'y', 'z'
  }

  const PLAIN: set<char> := DIGITS + CAPITALS + SMALL + {'+', '-', '.', '_'}

  lemma Digits10(x: octet)
    ensures 0x30 <= x <= 0x39 <==> x as char in DIGITS
  {
    assert 0x30 <= x <= 0x39 ==> x in {0x30, 0x31, 0x32, 0x33, 0x34, 0x35, 0x36, 0x37, 0x38, 0x39};
  }

  lemma Capitals26(x: octet)
    ensures 0x41 <= x <= 0x5a <==> x as char in CAPITALS
  {
    assert 0x41 <= x <= 0x5a ==>
      x in {0x41, 0x42, 0x43, 0x44, 0x45, 0x46, 0x47, 0x48, 0x49, 0x4a, 0x4b, 0x4c, 0x4d, 0x4e, 0x4f, 0x50, 0x51, 0x52,
            0x53, 0x54, 0x55, 0x56, 0x57, 0x58, 0x59, 0x5a};
  }

  lemma Small26(x: octet)
    ensures 0x61 <= x <= 0x7a <==> x as char in SMALL
  {
    assert 0x61 <= x <= 0x7a ==>
      x in {0x61, 0x62, 0x63, 0x64, 0x65, 0x66, 0x67, 0x68, 0x69, 0x6a, 0x6b, 0x6c, 0x6d, 0x6e, 0x6f, 0x70, 0x71, 0x72,
            0x73, 0x74, 0x75, 0x76, 0x77, 0x78, 0x79, 0x7a};
  }

  lemma PlainCharacters(x: octet)
    ensures Unescaped(x) <==> x as char in PLAIN
  {
    hide DIGITS, CAPITALS, SMALL;
    Digits10(x);
    Capitals26(x);
    Small26(x);
  }

  function UpperHex(d: nat): char
    requires d < 16
  {
    if d < 8 then "01234567"[d] else "89ABCDEF"[d - 8]
  }

  function LowerHex(d: nat): char
    requires d < 16
  {
    if d < 8 then "01234567"[d] else "89abcdef"[d - 8]
  }

  lemma HexCharacters(d: nat)
    requires d < 16
    ensures HexChar(d, true) as char == UpperHex(d) && HexChar(d, false) as char == LowerHex(d)
  {
    assert d in {0, 1, 2, 3, 4, 5, 6, 7, 8, 9, 10, 11, 12, 13, 14, 15};
  }

  // Printing.

  /** A byte as it is, or as a percent sign and two hex digits. */
  function PrintedByte(x: octet): string {
    if x as char in PLAIN then [x as char] else ['%', UpperHex(x / 16), UpperHex(x % 16)]
  }

  function PrintedBytes(v: text): string { if v == [] then "" else PrintedByte(v[0]) + PrintedBytes(v[1..]) }

  ghost predicate OnlyDots(v: text) { forall i :: 0 <= i < |v| ==> v[i] as char == '.' }

  /** A value of dots only gets three more. */
  ghost function PrintedValue(v: text): string { if OnlyDots(v) then "..." + Chars(v) else PrintedBytes(v) }

  function PrintedHex(v: text): string {
    if v == [] then "" else [LowerHex(v[0] / 16), LowerHex(v[0] % 16)] + PrintedHex(v[1..])
  }

  function Decimal(n: nat): string {
    if n < 10 then [UpperHex(n)] else Decimal(n / 10) + [UpperHex(n % 10)]
  }

  lemma EscapedByte(x: octet)
    ensures Chars(Escape(x)) == PrintedByte(x)
  {
    PlainCharacters(x);
    HexCharacters(x / 16);
    HexCharacters(x % 16);
    hide Unescaped, HexChar, UpperHex, Chars;
  }

  lemma {:induction false} EscapedBytes(v: text)
    ensures Chars(EscapeAll(v)) == PrintedBytes(v)
  {
    if v != [] {
      EscapedByte(v[0]);
      EscapedBytes(v[1..]);
      hide Escape, PrintedByte, Chars;
      CharsAppend(Escape(v[0]), EscapeAll(v[1..]));
    }
  }

  lemma EscapedValue(v: text)
    ensures Chars(EscapeValue(v)) == PrintedValue(v)
  {
    EscapedBytes(v);
    hide EscapeAll, PrintedBytes, Chars;
  }

  lemma {:induction false} HexBytes(v: text)
    ensures Chars(ToHex(v)) == PrintedHex(v)
  {
    if v != [] {
      HexBytes(v[1..]);
      HexCharacters(v[0] / 16);
      HexCharacters(v[0] % 16);
      hide HexChar, LowerHex, Chars;
      CharsAppend([HexChar(v[0] / 16, false), HexChar(v[0] % 16, false)], ToHex(v[1..]));
    }
  }

  lemma {:induction false} DecimalDigits(n: nat)
    ensures Chars(Digits(n, false)) == Decimal(n)
  {
    HexCharacters(n % 10);
    if n >= 10 {
      DecimalDigits(n / 10);
      hide HexChar, UpperHex, LowerHex, Chars;
      CharsAppend(Digits(n / 10, false), [HexChar(n % 10, false)]);
      DecimalIsHex(n % 10);
    } else {
      DecimalIsHex(n);
      hide HexChar, UpperHex, LowerHex;
    }
  }

  lemma DecimalIsHex(d: nat)
    requires d < 10
    ensures UpperHex(d) == LowerHex(d)
  {
  }

  lemma OneComponent(c: Component)
    ensures Chars(ToUri([c], false)) == "/" + Chars(PrintComponent(c, false))
  {
    OneText(c);
    hide PrintComponent, Chars, ToUri;
  }

  /** What the URI of a component is, of each type. */
  lemma ComponentUri(v: text, code: nat)
    ensures Chars(ToUri([Component(Generic, v)], false)) == "/" + PrintedValue(v)
    ensures Chars(ToUri([Component(ImplicitSha256Digest, v)], false)) == "/sha256digest=" + PrintedHex(v)
    ensures Chars(ToUri([Component(ParametersSha256Digest, v)], false)) == "/params-sha256=" + PrintedHex(v)
    ensures Chars(ToUri([Component(OtherCode(code), v)], false)) == "/" + (Decimal(code) + "=" + PrintedValue(v))
  {
    EscapedValue(v);
    HexBytes(v);
    DecimalDigits(code);
    FixedTexts();
    hide EscapeValue, ToHex, Digits, Chars, ToUri, PrintedValue, PrintedHex, Decimal;
    OneComponent(Component(Generic, v));
    OneComponent(Component(ImplicitSha256Digest, v));
    OneComponent(Component(ParametersSha256Digest, v));
    OneComponent(Component(OtherCode(code), v));
    CharsAppend(SHA256_DIGEST_PREFIX, ToHex(v));
    CharsAppend(PARAMS_SHA256_PREFIX, ToHex(v));
    CharsAppend(Digits(code, false) + [EQUALS], EscapeValue(v));
    CharsAppend(Digits(code, false), [EQUALS]);
  }

  lemma FixedTexts()
    ensures Chars(SHA256_DIGEST_PREFIX) == "sha256digest=" && Chars(PARAMS_SHA256_PREFIX) == "params-sha256="
    ensures Chars(NDN_SCHEME) == "ndn:" && Chars([EQUALS]) == "="
  {
    hide Chars;
  }

  lemma SchemeUri(n: Name)
    ensures Chars(ToUri(n, true)) == "ndn:" + Chars(ToUri(n, false))
    ensures Chars(ToUri([], false)) == "/"
  {
    FixedTexts();
    CharsAppend(NDN_SCHEME, ToUri(n, false));
    hide Chars, PrintComponents;
  }

  /** A value of plain characters that are not all dots is printed as it is, and its text reads back. */
  lemma PlainUri(v: text)
    requires (forall i :: 0 <= i < |v| ==> v[i] as char in PLAIN) && !OnlyDots(v)
    ensures var n := [Component(Generic, v)];
      ToUri(n, false) == ['/' as int] + v && Parse(['/' as int] + v) == Outcome(n, true)
  {
    PlainValue(v);
    assert EscapeValue(v) == v;
    hide EscapeAll, PLAIN, Parse, ToUri;
    GenericUri(v);
  }

  lemma GenericUri(v: text)
    ensures var n := [Component(Generic, v)];
      ToUri(n, false) == ['/' as int] + EscapeValue(v) && Parse(ToUri(n, false)) == Outcome(n, true)
  {
    var c := Component(Generic, v);
    assert [c][1..] == [] && PrintComponents([], HexAfter(c, false)) == [];
    assert PrintComponents([c], false) == [SLASH] + EscapeValue(v);
    hide Parse, EscapeValue, PrintComponents;
    ParseOfPrinted([c], false);
    PrintedComponent(c, false);
    ParsePrintedGeneric(c, false);
    OneParsed(EscapeValue(v), c);
    assert ([SLASH] + EscapeValue(v))[1..] == EscapeValue(v);
  }

  lemma OneParsed(s: text, c: Component)
    requires s != [] && AllPrinted(s) && ParseComponent(s) == Parsed(c)
    ensures ParseComponents(s) == Outcome([c], true)
  {
    hide ParseComponent;
    assert Find(s, SLASH, 0) == |s| && s[..|s|] == s;
  }

  lemma {:induction false} PlainValue(v: text)
    requires forall i :: 0 <= i < |v| ==> v[i] as char in PLAIN
    ensures EscapeAll(v) == v
  {
    if v != [] {
      PlainCharacters(v[0]);
      hide PLAIN, Unescaped;
      PlainValue(v[1..]);
    }
  }

  // Parsing.

  lemma WhitespaceCharacters(x: octet)
    ensures Whitespace(x) <==> x as char in {' ', '\t', '\n', '\r'}
  {
  }

  /** Hex digits are read in either case, and nothing else is one. */
  lemma HexValues(c: octet, d: nat)
    requires d < 16
    ensures FromHexChar(c) == d <==> c as char == UpperHex(d) || c as char == LowerHex(d)
  {
    assert d in {0, 1, 2, 3, 4, 5, 6, 7, 8, 9, 10, 11, 12, 13, 14, 15};
  }

  /** The number that decimal digits stand for. */
  function DecimalValue(s: string): nat {
    if s == "" then 0
    else
      var d := s[|s| - 1];
      10 * DecimalValue(s[..|s| - 1]) + if '0' <= d <= '9' then d as nat - '0' as nat else 0
  }

  ghost predicate Decimals(s: text) { forall i :: 0 <= i < |s| ==> '0' <= s[i] as char <= '9' }

  lemma {:induction false} DecimalPrefixReads(s: text)
    requires Decimals(s)
    ensures DecimalPrefix(s, 0) == DecimalValue(Chars(s))
  {
    if s != [] {
      var init, last := s[..|s| - 1], s[|s| - 1];
      DecimalPrefixReads(init);
      DecimalPrefixSnoc(init, last, 0);
      DecimalValueLast(init, last);
      hide Chars, DecimalPrefix, DecimalValue;
      assert s == init + [last];
    }
  }

  lemma DecimalValueLast(init: text, last: octet)
    requires '0' <= last as char <= '9'
    ensures DecimalValue(Chars(init + [last])) == 10 * DecimalValue(Chars(init)) + (last - 0x30)
  {
    var c := Chars(init + [last]);
    hide Chars;
    assert c[|init|] == last as char;
    assert c[..|init|] == Chars(init);
  }

  /** The digits end at the first character that is none. */
  lemma {:induction false} DecimalPrefixEnds(s: text, rest: text, value: nat)
    requires Decimals(s) && (rest == [] || !('0' <= rest[0] as char <= '9'))
    ensures DecimalPrefix(s + rest, value) == DecimalPrefix(s, value)
  {
    if s == [] {
      assert s + rest == rest;
    } else {
      assert (s + rest)[1..] == s[1..] + rest;
      DecimalPrefixEnds(s[1..], rest, 10 * value + (s[0] - 0x30));
    }
  }

  ghost predicate Spaces(s: text) {
    forall i :: 0 <= i < |s| ==> s[i] as char in {' ', '\t', '\n', '\U{0B}', '\U{0C}', '\r'}
  }

  lemma {:induction false} SpacesSkipped(s: text, rest: text)
    requires Spaces(s) && (rest == [] || !Spaces([rest[0]]))
    ensures SkipSpace(s + rest) == rest
  {
    if s == [] {
      assert s + rest == rest;
      if rest != [] { SpaceCharacters(rest[0]); }
    } else {
      SpaceCharacters(s[0]);
      assert (s + rest)[1..] == s[1..] + rest;
      SpacesSkipped(s[1..], rest);
    }
  }

  lemma SpaceCharacters(x: octet)
    ensures x == 0x20 || 0x09 <= x <= 0x0d <==> x as char in {' ', '\t', '\n', '\U{0B}', '\U{0C}', '\r'}
    ensures Spaces([x]) <==> x as char in {' ', '\t', '\n', '\U{0B}', '\U{0C}', '\r'}
  {
    assert 0x09 <= x <= 0x0d ==> x in {0x09, 0x0a, 0x0b, 0x0c, 0x0d};
    assert (x as char) as int == x && [x][0] == x;
  }

  /** atoi reads spaces, a sign if there is one, and digits, and ignores what is behind them. */
  lemma AtoiReads(spaces: text, sign: text, digits: text, rest: text)
    requires Spaces(spaces) && Decimals(digits) && (rest == [] || !('0' <= rest[0] as char <= '9'))
    requires sign == [] || sign == ['-' as int] || sign == ['+' as int]
    requires sign == [] && digits == [] && rest != [] ==> rest[0] as char !in {'-', '+'} && !Spaces([rest[0]])
    ensures var v: int := DecimalValue(Chars(digits));
      Atoi(spaces + (sign + (digits + rest))) == if sign == ['-' as int] then -v else v
  {
    var number := sign + (digits + rest);
    if number != [] { NoSpaceFirst(sign, digits, rest); }
    SpacesSkipped(spaces, number);
    DecimalPrefixEnds(digits, rest, 0);
    DecimalPrefixReads(digits);
    hide Spaces, SkipSpace, DecimalPrefix, DecimalValue, Chars;
    if sign == [] {
      assert number == digits + rest;
      if number != [] { assert number[0] == if digits != [] then digits[0] else rest[0]; }
    } else {
      assert number[1..] == digits + rest;
    }
  }

  lemma NoSpaceFirst(sign: text, digits: text, rest: text)
    requires Decimals(digits) && (sign == [] || sign == ['-' as int] || sign == ['+' as int])
    requires sign == [] && digits == [] && rest != [] ==> !Spaces([rest[0]])
    requires sign + (digits + rest) != []
    ensures !Spaces([(sign + (digits + rest))[0]])
  {
    var first := (sign + (digits + rest))[0];
    SpaceCharacters(first);
    if sign != [] {
      assert first == sign[0];
    } else if digits != [] {
      assert first == digits[0];
    } else {
      assert first == rest[0];
    }
  }

  /** The only escaped values that are illegal are those of no character, one dot and two dots. */
  lemma IllegalValues(s: text)
    ensures FromEscapedString(s) == Null <==> Chars(Unescape(Trim(s))) in {"", ".", ".."}
  {
    var v := Unescape(Trim(s));
    hide Unescape, Trim;
    if AllDots(v) && |v| == 1 { assert Chars(v) == "."; }
    if AllDots(v) && |v| == 2 { assert Chars(v) == ".."; }
    if Chars(v) == "." { assert v[0] == DOT; }
    if Chars(v) == ".." { assert v[0] == DOT && v[1] == DOT; }
  }

  /** A component with a type: an illegal value makes it one to leave out, and a type that is neither 0 nor a positive
      number is an error. */
  lemma TypedComponent(typeString: text, value: text)
    requires NoEquals(typeString)
    ensures var s := typeString + (['=' as int] + value); var code := Atoi(typeString);
      var digest := SHA256_DIGEST_PREFIX <= s || PARAMS_SHA256_PREFIX <= s;
      !digest ==>
        var p := ParseComponent(s);
        && (p == Error <==> Chars(typeString) != "0" && code <= 0)
        && (p == Illegal <==> (Chars(typeString) == "0" || code > 0) && FromEscapedString(value) == Null)
        && (p.Parsed? ==> TypeCode(p.component.kind) == (if Chars(typeString) == "0" then 0 else code)
                          && FromEscapedString(value) == Bytes(p.component.value))
  {
    TypedParse(typeString, value);
    ParseTypedMeans(typeString, value);
    hide Atoi, FromEscapedString, Chars, ParseComponent, ParseTyped, NoEquals, TypeCode;
  }

  lemma ParseTypedMeans(typeString: text, value: text)
    ensures var p, code := ParseTyped(typeString, value), Atoi(typeString);
      && (p == Error <==> Chars(typeString) != "0" && code <= 0)
      && (p == Illegal <==> (Chars(typeString) == "0" || code > 0) && FromEscapedString(value) == Null)
      && (p.Parsed? ==> TypeCode(p.component.kind) == (if Chars(typeString) == "0" then 0 else code)
                        && FromEscapedString(value) == Bytes(p.component.value))
  {
    ZeroText(typeString);
    hide Atoi, FromEscapedString, Chars;
  }

  lemma ZeroText(s: text)
    ensures Chars(s) == "0" <==> s == [0x30]
  {
    if Chars(s) == "0" { assert s[0] as char == '0'; }
  }

  lemma TypedParse(typeString: text, value: text)
    requires NoEquals(typeString)
    ensures var s := typeString + (['=' as int] + value);
      !(SHA256_DIGEST_PREFIX <= s || PARAMS_SHA256_PREFIX <= s) ==> ParseComponent(s) == ParseTyped(typeString, value)
  {
    var s := typeString + (['=' as int] + value);
    FindInConcat(typeString, EQUALS, ['=' as int] + value);
    assert s[..|typeString|] == typeString && s[|typeString| + 1..] == value;
    hide ParseTyped, FromHex, Find;
  }

  /** Spaces between the pairs of a hex digest are skipped. */
  lemma HexSpaces(s: text)
    ensures FromHex([' ' as int] + s) == FromHex(s)
  {
    assert ([' ' as int] + s)[1..] == s;
  }

  function WithScheme(scheme: text, path: text): text { scheme + ([':' as int] + path) }

  function WithAuthority(host: text, path: text): text { ['/' as int, '/' as int] + (host + path) }

  /** Any scheme before the path of a name, and any authority, are left out. */
  lemma SchemeAndAuthority(scheme: text, host: text, n: Name)
    requires n != [] && scheme != [] && !Whitespace(scheme[0])
    requires forall i :: 0 <= i < |scheme| ==> scheme[i] as char != '/' && scheme[i] as char != ':'
    requires forall i :: 0 <= i < |host| ==> host[i] as char != '/'
    ensures Parse(WithScheme(scheme, ToUri(n, false))) == Parse(ToUri(n, false))
    ensures Parse(WithScheme(scheme, WithAuthority(host, ToUri(n, false)))) == Parse(ToUri(n, false))
  {
    hide PrintComponents, ParseComponents, Trim, StripScheme, StripAuthority, ToUri, Find, Parse, WithScheme;
    var p := ToUri(n, false);
    assert p == PrintComponents(n, false) by { UriIsComponents(n); }
    PrintComponentsShape(n, false);
    ParseOfPrinted(n, false);
    StripSlash(p);
    SchemeStripped(scheme, p);
    ParseInSteps(WithScheme(scheme, p));
    var q := WithAuthority(host, p);
    assert q[0] == SLASH && q[|q| - 1] == p[|p| - 1];
    hide WithAuthority;
    SchemeStripped(scheme, q);
    AuthorityStripped(host, p);
    ParseInSteps(WithScheme(scheme, q));
  }

  lemma UriIsComponents(n: Name)
    requires n != []
    ensures ToUri(n, false) == PrintComponents(n, false)
  {
    hide PrintComponents;
  }

  lemma ParseInSteps(uri: text)
    ensures Parse(uri) == ParseComponents(StripAuthority(StripScheme(Trim(uri))))
  {
    hide ParseComponents, StripAuthority, StripScheme, Trim;
  }

  lemma SchemeStripped(scheme: text, path: text)
    requires scheme != [] && !Whitespace(scheme[0])
    requires forall i :: 0 <= i < |scheme| ==> scheme[i] as char != '/' && scheme[i] as char != ':'
    requires path != [] && path[0] as char == '/' && !Whitespace(path[|path| - 1])
    ensures StripScheme(Trim(WithScheme(scheme, path))) == path
  {
    var rest := [':' as int] + path;
    var uri := scheme + rest;
    assert path[0] == SLASH && forall i :: 0 <= i < |scheme| ==> scheme[i] != SLASH && scheme[i] != COLON;
    assert uri[0] == scheme[0] && uri[|uri| - 1] == path[|path| - 1];
    TrimPrinted(uri);
    FindInConcat(scheme, COLON, rest);
    assert uri == (scheme + [COLON]) + path;
    FindInConcat(scheme + [COLON], SLASH, path);
    TrimPrinted(path);
    hide Trim, Find;
    assert uri[|scheme| + 1..] == path;
  }

  lemma AuthorityStripped(host: text, path: text)
    requires forall i :: 0 <= i < |host| ==> host[i] as char != '/'
    requires |path| >= 2 && path[0] as char == '/' && !Whitespace(path[1]) && !Whitespace(path[|path| - 1])
    ensures StripAuthority(WithAuthority(host, path)) == path[1..]
  {
    var q := WithAuthority(host, path);
    assert path[0] == SLASH && q[0] == SLASH && q[1] == SLASH;
    assert forall k :: 2 <= k < 2 + |host| ==> q[k] == host[k - 2] && q[k] != SLASH;
    assert q[2 + |host|] == path[0];
    assert Find(q, SLASH, 2) == 2 + |host|;
    TrimPrinted(path[1..]);
    hide Trim, Find;
    assert q[2 + |host| + 1..] == path[1..];
  }

  /** Until a digest that is not empty has been printed, type codes are in decimal, as in each component's own URI. */
  lemma {:induction false} DecimalUntilDigest(n: Name)
    requires forall i :: 0 <= i < |n| ==> !IsDigest(n[i]) || n[i].value == []
    ensures PrintComponents(n, false) == Joined(n)
  {
    if n != [] {
      OneText(n[0]);
      DecimalUntilDigest(n[1..]);
      hide PrintComponent, ToUri;
    }
  }

  lemma OneText(c: Component)
    ensures ToUri([c], false) == [SLASH] + PrintComponent(c, false)
  {
    assert PrintComponents([c][1..], HexAfter(c, false)) == [];
    hide PrintComponent;
  }

  function Joined(n: Name): text {
    if n == [] then [] else ToUri([n[0]], false) + Joined(n[1..])
  }
}
