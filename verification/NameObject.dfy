/** The Name object: a component list with a change count and a memoized hash code. */
module NameObject {
  import opened NameOrder
  import opened NameUri
  import opened NameStream

  const TWO_TO_32 := 0x1_0000_0000
  const TWO_TO_64 := 0x1_0000_0000_0000_0000

  // Hash codes. The hash of a value is a parameter.

  /** An int, which wraps. */
  function WrapInt(x: int): int { (x + TWO_TO_32 / 2) % TWO_TO_32 - TWO_TO_32 / 2 }

  function ComponentHash(valueHash: seq<octet> -> nat, c: Component): nat {
    (37 * TypeCode(c.kind) + valueHash(c.value)) % TWO_TO_64
  }

  function FoldHash(valueHash: seq<octet> -> nat, n: Name): int {
    if n == [] then 0
    else WrapInt(37 * FoldHash(valueHash, n[..|n| - 1]) + ComponentHash(valueHash, n[|n| - 1]))
  }

  /** The hash code as a size_t: a negative int is sign-extended. */
  function NameHash(valueHash: seq<octet> -> nat, n: Name): nat { FoldHash(valueHash, n) % TWO_TO_64 }

  /** Names that the canonical order cannot tell apart hash alike. */
  lemma {:induction false} EqualNamesHashAlike(valueHash: seq<octet> -> nat, x: Name, y: Name)
    requires Compare(x, y) == 0
    ensures NameHash(valueHash, x) == NameHash(valueHash, y)
  {
    CompareOrder(x, y);
    SameNamesFoldAlike(valueHash, x, y);
  }

  lemma {:induction false} SameNamesFoldAlike(valueHash: seq<octet> -> nat, x: Name, y: Name)
    requires SameName(x, y)
    ensures FoldHash(valueHash, x) == FoldHash(valueHash, y)
  {
    if x != [] {
      SameNamesFoldAlike(valueHash, x[..|x| - 1], y[..|y| - 1]);
    }
  }

  /** The hash before any wrapping: a polynomial in 37 of the type codes and the hashes of the values. */
  function Polynomial(valueHash: seq<octet> -> nat, n: Name): nat {
    if n == [] then 0
    else
      var last := n[|n| - 1];
      37 * Polynomial(valueHash, n[..|n| - 1]) + 37 * TypeCode(last.kind) + valueHash(last.value)
  }

  /** The hash is this number in 32 bits, and as a size_t it has the sign extended. */
  lemma {:induction false} HashIsPolynomial(valueHash: seq<octet> -> nat, n: Name)
    ensures var h := FoldHash(valueHash, n);
      && -0x8000_0000 <= h < 0x8000_0000
      && h % 0x1_0000_0000 == Polynomial(valueHash, n) % 0x1_0000_0000
      && NameHash(valueHash, n) == if h >= 0 then h else 0x1_0000_0000_0000_0000 + h
  {
    if n != [] {
      var init, last := n[..|n| - 1], n[|n| - 1];
      HashIsPolynomial(valueHash, init);
      WrapSum(FoldHash(valueHash, init), Polynomial(valueHash, init), 37 * TypeCode(last.kind) + valueHash(last.value));
    }
  }

  lemma WrapSum(h: int, p: nat, c: nat)
    requires h % 0x1_0000_0000 == p % 0x1_0000_0000
    ensures var x := WrapInt(37 * h + c % 0x1_0000_0000_0000_0000);
      -0x8000_0000 <= x < 0x8000_0000 && x % 0x1_0000_0000 == (37 * p + c) % 0x1_0000_0000
  {
    var q, k, w := h / 0x1_0000_0000, p / 0x1_0000_0000, c / 0x1_0000_0000_0000_0000;
    var y := 37 * h + c % 0x1_0000_0000_0000_0000;
    assert 37 * p + c == y + 0x1_0000_0000 * (37 * (k - q) + 0x1_0000_0000 * w);
    SameRemainder(y, 37 * (k - q) + 0x1_0000_0000 * w);
    WrapKeeps(y);
  }

  lemma SameRemainder(x: int, k: int)
    ensures (x + 0x1_0000_0000 * k) % 0x1_0000_0000 == x % 0x1_0000_0000
  {
  }

  lemma WrapKeeps(x: int)
    ensures -0x8000_0000 <= WrapInt(x) < 0x8000_0000 && WrapInt(x) % 0x1_0000_0000 == x % 0x1_0000_0000
  {
    var y := x + 0x8000_0000;
    var q := y / 0x1_0000_0000;
    assert WrapInt(x) == x + 0x1_0000_0000 * (-q);
    SameRemainder(x, -q);
  }

  // Parsing one component in place.

  /** Looking for c from the start of a component finds it there exactly when the component has it. */
  lemma FindInComponent(uri: text, start: nat, end: nat, c: octet)
    requires start <= end <= |uri|
    ensures var i, j := Find(uri, c, start), Find(uri[start..end], c, 0);
            if i < end then i == start + j && j < end - start else j == end - start
  {
    var i, j := Find(uri, c, start), Find(uri[start..end], c, 0);
    assert forall k :: 0 <= k < end - start ==> uri[start..end][k] == uri[start + k];
    assert j < end - start ==> uri[start + j] == c;
    assert i < end ==> uri[start..end][i - start] == c;
  }

  /** A prefix without a slash that the rest of the URI starts with is part of the component. */
  lemma PrefixOfComponent(uri: text, start: nat, end: nat, prefix: text)
    requires start <= |uri| && end == Find(uri, SLASH, start)
    requires forall i :: 0 <= i < |prefix| ==> prefix[i] != SLASH
    ensures start + |prefix| <= |uri| && uri[start..start + |prefix|] == prefix <==> prefix <= uri[start..end]
    ensures prefix <= uri[start..end] ==> uri[start..end][|prefix|..] == uri[start + |prefix|..end]
  {
    if start + |prefix| <= |uri| && uri[start..start + |prefix|] == prefix {
      assert forall k :: 0 <= k < |prefix| ==> uri[start + k] == prefix[k];
      assert uri[start..end][..|prefix|] == prefix;
    }
    if prefix <= uri[start..end] {
      assert uri[start..start + |prefix|] == uri[start..end][..|prefix|] == prefix;
    }
  }

  method FromEscaped(s: text) returns (r: Blob)
    ensures r == FromEscapedString(s)
  {
    var trimmed := NdnTrim(s);
    var value := UnescapeLoop(trimmed);
    var i := 0;
    while i < |value| && value[i] == DOT
      invariant i <= |value| && AllDots(value[..i])
    {
      i := i + 1;
    }
    if i == |value| {
      assert value[..i] == value;
      if |value| <= 2 {
        return Null;
      } else {
        return Bytes(value[3..]);
      }
    }
    return Bytes(value);
  }

  method ReadDigest(kind: ComponentType, hex: text) returns (p: ParsedComponent)
    ensures p == DigestOf(kind, FromHex(hex))
  {
    var digest := FromHexLoop(hex);
    if digest.Null? || |digest.bytes| != 32 {
      return Error;
    }
    return Parsed(Component(kind, digest.bytes));
  }

  method ReadComponent(uri: text, start: nat, end: nat) returns (p: ParsedComponent)
    requires start <= end <= |uri| && end == Find(uri, SLASH, start)
    ensures p == ParseComponent(uri[start..end])
  {
    var sha, params := |SHA256_DIGEST_PREFIX|, |PARAMS_SHA256_PREFIX|;
    PrefixOfComponent(uri, start, end, SHA256_DIGEST_PREFIX);
    PrefixOfComponent(uri, start, end, PARAMS_SHA256_PREFIX);
    hide FromHex, FromEscapedString, DigestOf, Atoi;
    if start + sha <= |uri| && uri[start..start + sha] == SHA256_DIGEST_PREFIX {
      p := ReadDigest(ImplicitSha256Digest, uri[start + sha..end]);
      return;
    }
    if start + params <= |uri| && uri[start..start + params] == PARAMS_SHA256_PREFIX {
      p := ReadDigest(ParametersSha256Digest, uri[start + params..end]);
      return;
    }
    p := ReadValue(uri, start, end);
  }

  method ReadValue(uri: text, start: nat, end: nat) returns (p: ParsedComponent)
    requires start <= end <= |uri|
    requires !(SHA256_DIGEST_PREFIX <= uri[start..end]) && !(PARAMS_SHA256_PREFIX <= uri[start..end])
    ensures p == ParseComponent(uri[start..end])
  {
    hide FromHex, FromEscapedString, DigestOf, Atoi;
    var kind, code := Generic, -1;
    var valueStart := start;
    var iTypeCodeEnd := Find(uri, EQUALS, start);
    FindInComponent(uri, start, end, EQUALS);
    if iTypeCodeEnd < end {
      var typeString := uri[start..iTypeCodeEnd];
      assert typeString == uri[start..end][..iTypeCodeEnd - start];
      assert uri[iTypeCodeEnd + 1..end] == uri[start..end][iTypeCodeEnd - start + 1..];
      if typeString == [0x30] {
        code := 0;
      } else {
        code := Atoi(typeString);
        if code == 0 {
          return Error;
        }
      }
      if code < 0 {
        return Error;
      }
      kind := KindOf(code);
      valueStart := iTypeCodeEnd + 1;
    }
    var value := FromEscaped(uri[valueStart..end]);
    if value.Null? {
      return Illegal;
    }
    return Parsed(Component(kind, value.bytes));
  }

  function ParseFrom(uri: text, start: nat): Outcome {
    if start < |uri| then ParseComponents(uri[start..]) else Outcome([], true)
  }

  lemma ParseFromStart(uri: text)
    ensures ParseFrom(uri, 0) == ParseComponents(uri)
  {
    if uri != [] {
      assert uri[0..] == uri;
    }
  }

  /** The parse from a component on: the component up to the next slash, and the parse of what follows. */
  lemma ParseOneMore(uri: text, start: nat)
    requires start < |uri|
    ensures var end := Find(uri, SLASH, start);
            var c, rest := ParseComponent(uri[start..end]), ParseFrom(uri, end + 1);
            ParseFrom(uri, start) == if c.Error? then Outcome([], false)
                                     else if c.Parsed? then rest.(name := [c.component] + rest.name)
                                     else rest
  {
    hide ParseComponent, Find, ParseComponents;
    TailSlices(uri, start);
    assert uri[start..] != [];
    ParseStep(uri[start..]);
    var end := Find(uri, SLASH, start);
    if end < |uri| { RestFrom(uri, end + 1); }
  }

  lemma ParseStep(tail: text)
    requires tail != []
    ensures var end := Find(tail, SLASH, 0);
            var c := ParseComponent(tail[..end]);
            var rest := if end < |tail| then ParseComponents(tail[end + 1..]) else Outcome([], true);
            ParseComponents(tail) == if c.Error? then Outcome([], false)
                                     else if c.Parsed? then rest.(name := [c.component] + rest.name)
                                     else rest
  {
    hide ParseComponent, Find;
  }

  lemma RestFrom(uri: text, start: nat)
    requires start <= |uri|
    ensures ParseFrom(uri, start) == ParseComponents(uri[start..])
  {
    if start == |uri| { assert uri[start..] == []; }
  }

  /** The same, with the components read before. */
  lemma NextOutcome(uri: text, start: nat, before: Name)
    requires start < |uri|
    ensures var end := Find(uri, SLASH, start);
            var c, all, rest := ParseComponent(uri[start..end]), ParseFrom(uri, start), ParseFrom(uri, end + 1);
            if c.Error? then all == Outcome([], false)
            else all.ok == rest.ok
                 && before + all.name == (if c.Parsed? then before + [c.component] else before) + rest.name
  {
    ParseOneMore(uri, start);
    var end := Find(uri, SLASH, start);
    var c, rest := ParseComponent(uri[start..end]), ParseFrom(uri, end + 1);
    hide ParseComponent, ParseFrom, Find;
    if c.Parsed? { RegroupName(before, c.component, rest.name); }
  }

  lemma TailSlices(uri: text, start: nat)
    requires start < |uri|
    ensures var end, tail := Find(uri, SLASH, start), uri[start..];
            && Find(tail, SLASH, 0) == end - start
            && tail[..end - start] == uri[start..end]
            && (end < |uri| ==> tail[end - start + 1..] == uri[end + 1..])
  {
    FindInComponent(uri, start, |uri|, SLASH);
    assert uri[start..] == uri[start..|uri|];
  }

  lemma NothingToParse()
    ensures ParseComponents(StripAuthority(StripScheme([]))) == Outcome([], true)
  {
  }

  lemma RegroupName(a: Name, c: Component, b: Name)
    ensures a + ([c] + b) == (a + [c]) + b
  {
  }

  /** Omit a leading protocol. */
  method OmitScheme(uri: text) returns (r: text)
    ensures r == StripScheme(uri)
  {
    var iColon := Find(uri, COLON, 0);
    if iColon < |uri| {
      var iFirstSlash := Find(uri, SLASH, 0);
      if iFirstSlash == |uri| || iColon < iFirstSlash {
        r := NdnTrim(uri[iColon + 1..]);
        return;
      }
    }
    r := uri;
  }

  /** Trim the leading slash and possibly the authority. There may be nothing but an authority. */
  method OmitAuthority(uri: text) returns (r: text)
    ensures r == StripAuthority(uri)
  {
    if |uri| > 0 && uri[0] == SLASH {
      if |uri| >= 2 && uri[1] == SLASH {
        var iAfterAuthority := Find(uri, SLASH, 2);
        if iAfterAuthority == |uri| {
          return [];
        }
        r := NdnTrim(uri[iAfterAuthority + 1..]);
      } else {
        r := NdnTrim(uri[1..]);
      }
    } else {
      r := uri;
    }
  }

  class NameRecord {
    var components: Name
    var changeCount: nat
    var hashCode: nat
    var hashCodeChangeCount: nat
    const valueHash: seq<octet> -> nat

    /** A memo that is in use is the hash of the current components. */
    ghost predicate Valid()
      reads this
    {
      && hashCodeChangeCount <= changeCount
      && (hashCodeChangeCount == changeCount && hashCode != 0 ==> hashCode == NameHash(valueHash, components))
    }

    constructor (valueHash: seq<octet> -> nat, components: Name)
      ensures Valid() && this.components == components && this.valueHash == valueHash
    {
      this.valueHash := valueHash;
      this.components := components;
      changeCount, hashCode, hashCodeChangeCount := 0, 0, 0;
    }

    /** The implicit copy: every field, the memo included. */
    constructor Copy(other: NameRecord)
      requires other.Valid()
      ensures Valid() && components == other.components && valueHash == other.valueHash
    {
      valueHash := other.valueHash;
      components := other.components;
      changeCount, hashCode, hashCodeChangeCount := other.changeCount, other.hashCode, other.hashCodeChangeCount;
    }

    method Append(c: Component)
      requires Valid()
      modifies this
      ensures Valid() && components == old(components) + [c] && changeCount == old(changeCount) + 1
    {
      components := components + [c];
      changeCount := changeCount + 1;
    }

    method AppendName(name: NameRecord)
      requires Valid()
      modifies this
      ensures Valid() && components == old(components) + old(name.components)
      ensures changeCount == old(changeCount) + |old(name.components)|
    {
      var copy := name.components;
      for i := 0 to |copy|
        invariant Valid() && components == old(components) + copy[..i] && changeCount == old(changeCount) + i
      {
        Append(copy[i]);
        assert copy[..i + 1] == copy[..i] + [copy[i]];
      }
    }

    method Clear()
      requires Valid()
      modifies this
      ensures Valid() && components == [] && changeCount == old(changeCount) + 1
    {
      components := [];
      changeCount := changeCount + 1;
    }

    /** The hash code, from the memo if the components have not changed since it was computed. */
    method Hash() returns (h: nat)
      requires Valid()
      modifies `hashCode, `hashCodeChangeCount
      ensures Valid() && h == NameHash(valueHash, components)
    {
      if hashCodeChangeCount != changeCount {
        hashCode := 0;
        hashCodeChangeCount := changeCount;
      }
      if hashCode == 0 {
        var code := 0;
        for i := 0 to |components|
          invariant code == FoldHash(valueHash, components[..i])
        {
          code := WrapInt(37 * code + ComponentHash(valueHash, components[i]));
          assert components[..i + 1][..i] == components[..i];
        }
        assert components[..|components|] == components;
        hashCode := code % TWO_TO_64;
      }
      return hashCode;
    }

    /** Parse a URI into this name. An exception leaves the components that were set before it. */
    method Set(uri_cstr: text) returns (ok: bool)
      requires Valid()
      modifies this
      ensures Valid() && Outcome(components, ok) == Parse(uri_cstr) && changeCount > old(changeCount)
    {
      Clear();
      var uri := NdnTrim(uri_cstr);
      if |uri| == 0 {
        NothingToParse();
        return true;
      }
      hide ParseComponents, StripAuthority, StripScheme;
      uri := OmitScheme(uri);
      uri := OmitAuthority(uri);
      ok := AppendComponents(uri);
    }

    /** Read one component and append it unless it is illegal. */
    method AppendNext(uri: text, iComponentStart: nat) returns (next: nat, ok: bool)
      requires Valid() && iComponentStart < |uri|
      modifies this
      ensures Valid() && changeCount >= old(changeCount) && iComponentStart < next
      ensures !ok ==> components == old(components) && ParseFrom(uri, iComponentStart) == Outcome([], false)
      ensures ok ==> ParseFrom(uri, iComponentStart).ok == ParseFrom(uri, next).ok
      ensures ok ==> old(components) + ParseFrom(uri, iComponentStart).name == components + ParseFrom(uri, next).name
    {
      var iComponentEnd := Find(uri, SLASH, iComponentStart);
      hide ParseComponent, ParseFrom, Valid, Find;
      NextOutcome(uri, iComponentStart, components);
      var p := ReadComponent(uri, iComponentStart, iComponentEnd);
      next := iComponentEnd + 1;
      ok := !p.Error?;
      if p.Parsed? {
        Append(p.component);
      }
    }

    method AppendComponents(uri: text) returns (ok: bool)
      requires Valid() && components == []
      modifies this
      ensures Valid() && Outcome(components, ok) == ParseComponents(uri) && changeCount >= old(changeCount)
    {
      var iComponentStart := 0;
      ParseFromStart(uri);
      ghost var all := ParseComponents(uri);
      while iComponentStart < |uri|
        invariant Valid() && changeCount >= old(changeCount)
        invariant all.name == components + ParseFrom(uri, iComponentStart).name
        invariant all.ok == ParseFrom(uri, iComponentStart).ok
        decreases |uri| - iComponentStart
      {
        hide Valid, ParseFrom, ParseComponents;
        iComponentStart, ok := AppendNext(uri, iComponentStart);
        if !ok {
          assert all.name == components;
          return;
        }
      }
      assert ParseFrom(uri, iComponentStart) == Outcome([], true);
      return true;
    }
  }
}
