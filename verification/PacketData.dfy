/** The change counters and the Data packet object, updated in place, against the specification of the cache. */
module PacketData {
  import opened EncodingCache

  /** A ChangeCounter with its child. The child of a SharedPointerChangeCounter may be missing. */
  class ChangeCounter<V> {
    var target: Target<V>
    var changeCount: nat

    function View(): Counter<V>
      reads this
    {
      Counter(target, changeCount)
    }

    constructor (target: Target<V>)
      ensures View() == Holding(target)
    {
      this.target := target;
      changeCount := if target.Target? then target.count else 0;
    }

    /** The member-wise copy of a counter. */
    constructor Copy(other: ChangeCounter<V>)
      ensures View() == other.View()
    {
      target, changeCount := other.target, other.changeCount;
    }

    method Set(target: Target<V>)
      modifies this
      ensures View() == Holding(target)
    {
      this.target := target;
      changeCount := if target.Target? then target.count else 0;
    }

    /** A counted method of the child changes it. */
    method Edit(value: V)
      requires target.Target?
      modifies this
      ensures View() == Counter(Target(value, old(target.count) + 1), old(changeCount))
    {
      target := Target(value, target.count + 1);
    }

    method CheckChanged() returns (changed: bool)
      modifies this
      ensures changed == Unseen(old(View())) && View() == See(old(View()))
    {
      if target.NoTarget? {
        return false;
      }
      if changeCount != target.count {
        changeCount := target.count;
        return true;
      }
      changed := false;
    }
  }

  // The full name.

  /** A Data packet with its cached full name. */
  datatype Named<V, P, E, N> = Named(cached: Cached<V, P, E>, fullName: Option<N>)

  /** getFullName: make builds the name from the fields and the digest of the encoding. */
  function FullName<V, P, E, N>(s: Named<V, P, E, N>, codecs: nat -> Codec<Fields<V, P>, E>, format: nat, default: nat,
                                make: (Fields<V, P>, E) -> N): (Named<V, P, E, N>, N)
  {
    var r := Refreshed(s.cached);
    if r.encoding.Some? && s.fullName.Some? && r.format == format then (s.(cached := r), s.fullName.value)
    else
      var (t, e) := Encoded(r, codecs, format, default);
      var n := make(FieldsOf(r), e);
      (Named(t, if format == default then Some(n) else s.fullName), n)
  }

  /** After the full name has been asked for, changing the content and encoding again leaves the old full name: it is
      returned whatever the new content is. */
  lemma StaleFullName<V(!new), P(!new), E, N>(s: Named<V, P, E, N>, plain: P, codecs: nat -> Codec<Fields<V, P>, E>,
                                              default: nat, make: (Fields<V, P>, E) -> N)
    requires RoundTrips(codecs) && Coherent(s.cached, codecs)
    ensures var (first, name) := FullName(s, codecs, default, default, make);
      var encoded := Encoded(WithPlain(first.cached, plain), codecs, default, default).0;
      && FieldsOf(encoded).plain == plain
      && FullName(first.(cached := encoded), codecs, default, default, make).1 == name
  {
    RefreshedIsCurrent(s.cached, codecs);
    RefreshedTwice(s.cached);
    EncodedIsCurrent(Refreshed(s.cached), codecs, default, default);
    var (first, name) := FullName(s, codecs, default, default, make);
    SetterCoherent(first.cached, 0, NoTarget, plain, codecs);
    var changed := WithPlain(first.cached, plain);
    EncodedIsCurrent(changed, codecs, default, default);
    RefreshedIsCurrent(Encoded(changed, codecs, default, default).0, codecs);
  }

  /** A copy of a Data packet before its encoding is set. */
  function CopiedFields<V, P, E>(s: Cached<V, P, E>): Cached<V, P, E>
    requires |s.counters| == 3
  {
    Cached([Holding(s.counters[0].target), s.counters[1], s.counters[2]], s.plain,
           if s.counters[0].target.Target? then 1 else 0, None, 0, 0)
  }

  /** A Data packet after the fields have been assigned from another, before the encoding is. */
  function AssignedFields<V, P, E>(s: Cached<V, P, E>, other: Cached<V, P, E>): (t: Cached<V, P, E>)
    requires |other.counters| == 3
    ensures s.changeCount < t.changeCount && |t.counters| == 3
    ensures forall i :: 0 <= i < 3 ==> !Unseen(t.counters[i])
  {
    s.(counters := [Holding(other.counters[0].target), Holding(other.counters[1].target),
                    Holding(other.counters[2].target)],
       plain := other.plain, changeCount := s.changeCount + 3)
  }

  /** A Data packet after its fields have been set from a decoded packet, with a new signature object. */
  function SetFields<V, P, E>(s: Cached<V, P, E>, signature: V, name: V, metaInfo: V, content: P): (t: Cached<V, P, E>)
    requires |s.counters| == 3 && s.counters[1].target.Target? && s.counters[2].target.Target?
    ensures s.changeCount < t.changeCount && |t.counters| == 3
    ensures InOrder(s.counters) ==> forall i :: 0 <= i < 3 ==> Unseen(t.counters[i])
  {
    var n, m := s.counters[1], s.counters[2];
    s.(counters := [Counter(Target(signature, 1), 0), n.(target := Target(name, n.target.count + 1)),
                    m.(target := Target(metaInfo, m.target.count + 1))],
       plain := content, changeCount := s.changeCount + 1)
  }

  /** The copy of a coherent packet is coherent and has its fields. */
  lemma CopyCoherent<V, P, E>(s: Cached<V, P, E>, codecs: nat -> Codec<Fields<V, P>, E>)
    requires Coherent(s, codecs) && |s.counters| == 3
    ensures var r := Refreshed(s); var t := Stored(CopiedFields(s), r.encoding, r.format);
      Coherent(t, codecs) && FieldsOf(t) == FieldsOf(s)
  {
    var c := CopiedFields(s);
    ThreeValues(c.counters);
    ThreeValues(s.counters);
    CheckedCopy(s, c, codecs);
    StoredCoherent(c, Refreshed(s).encoding, Refreshed(s).format, codecs);
  }

  /** The assignment copies the raw cached encoding. The result is coherent exactly when that encoding, current or not,
      decodes to the fields of the other packet. */
  lemma AssignCoherentIff<V, P, E>(s: Cached<V, P, E>, other: Cached<V, P, E>, codecs: nat -> Codec<Fields<V, P>, E>)
    requires Coherent(s, codecs) && Coherent(other, codecs) && |other.counters| == 3
    ensures var t := Stored(AssignedFields(s, other), other.encoding, other.format);
      && FieldsOf(t) == FieldsOf(other)
      && (Coherent(t, codecs)
          <==> other.encoding.None? || codecs(other.format).decode(other.encoding.value) == FieldsOf(other))
      && (Fresh(other) ==> Coherent(t, codecs))
  {
    var c := AssignedFields(s, other);
    ThreeValues(c.counters);
    ThreeValues(other.counters);
    UncheckedCopy(other, c, codecs);
    StoredCoherent(c, other.encoding, other.format, codecs);
  }

  /** Encode a packet, change its content and assign it to another: what that one then returns as its encoding is an
      encoding of the old content. */
  lemma AssignedStaleEncoding<V(!new), P(!new), E>(s: Cached<V, P, E>, other: Cached<V, P, E>, plain: P,
                                                   codecs: nat -> Codec<Fields<V, P>, E>, default: nat)
    requires RoundTrips(codecs) && Coherent(other, codecs) && |other.counters| == 3
    ensures var changed := WithPlain(Encoded(other, codecs, default, default).0, plain);
      && |changed.counters| == 3
      && var r := Refreshed(Stored(AssignedFields(s, changed), changed.encoding, changed.format));
      && FieldsOf(r).plain == plain
      && r.encoding.Some? && codecs(r.format).decode(r.encoding.value).plain == other.plain
  {
    EncodedIsCurrent(other, codecs, default, default);
    EncodedForDefault(other, codecs, default);
    var encoded := Encoded(other, codecs, default, default).0;
    SeeAllSame(other.counters);
    SeeAllSame(Refreshed(other).counters);
    assert |encoded.counters| == 3;
    var c := AssignedFields(s, WithPlain(encoded, plain));
    StoredIsReturned(c, encoded.encoding, encoded.format);
    SeeAllSame(c.counters);
  }

  /** An object encoded in the default format has an encoding, and in that format if it had none in another. */
  lemma EncodedForDefault<V(!new), P(!new), E>(s: Cached<V, P, E>, codecs: nat -> Codec<Fields<V, P>, E>, default: nat)
    requires RoundTrips(codecs) && Coherent(s, codecs)
    ensures var t := Encoded(s, codecs, default, default).0;
      t.encoding.Some? && t.format == default && codecs(default).decode(t.encoding.value) == FieldsOf(s)
  {
    EncodedIsCurrent(s, codecs, default, default);
    RefreshedIsCurrent(s, codecs);
  }

  lemma SetFieldsCoherent<V, P, E>(s: Cached<V, P, E>, signature: V, name: V, metaInfo: V, content: P, input: E,
                                   format: nat, default: nat, codecs: nat -> Codec<Fields<V, P>, E>)
    requires Coherent(s, codecs) && |s.counters| == 3 && s.counters[1].target.Target? && s.counters[2].target.Target?
    requires codecs(format).decode(input) == Fields([Some(signature), Some(name), Some(metaInfo)], content)
    ensures var t := DecodeStored(SetFields(s, signature, name, metaInfo, content), input, format, default);
      Coherent(t, codecs) && FieldsOf(t) == codecs(format).decode(input)
  {
    var c := SetFields(s, signature, name, metaInfo, content);
    ThreeValues(c.counters);
    DecodedCoherent(c, input, format, default, codecs);
  }

  lemma ThreeValues<V>(counters: seq<Counter<V>>)
    requires |counters| == 3
    ensures Values(counters) == [ValueOf(counters[0]), ValueOf(counters[1]), ValueOf(counters[2])]
  {
    assert counters == [counters[0], counters[1], counters[2]];
    ThreeCounters(counters[0], counters[1], counters[2]);
  }

  class Data<V, P, E, N> {
    const signature: ChangeCounter<V>
    const name: ChangeCounter<V>
    const metaInfo: ChangeCounter<V>
    var content: P
    var changeCount: nat
    var defaultWireEncoding: Option<E>
    var defaultWireEncodingFormat: nat
    var getDefaultWireEncodingChangeCount: nat
    var defaultFullName: Option<N>

    function View(): Cached<V, P, E>
      reads this, signature, name, metaInfo
    {
      Cached([signature.View(), name.View(), metaInfo.View()], content, changeCount,
             defaultWireEncoding, defaultWireEncodingFormat, getDefaultWireEncodingChangeCount)
    }

    /** The children are objects of their own, and a cached encoding is that of the fields. */
    ghost predicate Valid(codecs: nat -> Codec<Fields<V, P>, E>)
      reads this, signature, name, metaInfo
    {
      Apart() && Coherent(View(), codecs)
    }

    predicate Apart() { signature != name && name != metaInfo && metaInfo != signature }

    constructor (signature: Target<V>, name: Target<V>, metaInfo: Target<V>, content: P)
      ensures Apart() && fresh(this.signature) && fresh(this.name) && fresh(this.metaInfo)
      ensures View() == Cached([Holding(signature), Holding(name), Holding(metaInfo)], content, 0, None, 0, 0)
      ensures defaultFullName == None
    {
      this.signature := new ChangeCounter(signature);
      this.name := new ChangeCounter(name);
      this.metaInfo := new ChangeCounter(metaInfo);
      this.content := content;
      changeCount, defaultWireEncoding := 0, None;
      defaultWireEncodingFormat, getDefaultWireEncodingChangeCount, defaultFullName := 0, 0, None;
    }

    /** The copy: member by member, the full name too, a clone of the signature, and the other's encoding if it is still
        current. */
    constructor Copy(other: Data<V, P, E, N>)
      requires other.Apart()
      modifies other, other.signature, other.name, other.metaInfo
      ensures Apart() && fresh(signature) && fresh(name) && fresh(metaInfo)
      ensures other.View() == Refreshed(old(other.View()))
      ensures View() == Stored(CopiedFields(old(other.View())), other.defaultWireEncoding,
                               other.defaultWireEncodingFormat)
      ensures defaultFullName == other.defaultFullName == old(other.defaultFullName)
    {
      signature := new ChangeCounter(NoTarget);
      name := new ChangeCounter<V>.Copy(other.name);
      metaInfo := new ChangeCounter<V>.Copy(other.metaInfo);
      content, changeCount, defaultFullName := other.content, 0, other.defaultFullName;
      defaultWireEncoding, defaultWireEncodingFormat, getDefaultWireEncodingChangeCount := None, 0, 0;
      new;
      hide Refreshed, Stored;
      CopySignature(other);
      TakeEncoding(other);
    }

    method CopySignature(other: Data<V, P, E, N>)
      requires Apart() && other.Apart() && this != other && signature != other.signature
      requires name.View() == other.name.View() && metaInfo.View() == other.metaInfo.View() && content == other.content
      requires signature.View() == Holding(NoTarget) && changeCount == 0
      requires defaultWireEncoding == None && defaultWireEncodingFormat == 0 && getDefaultWireEncodingChangeCount == 0
      modifies signature, this`changeCount
      ensures View() == CopiedFields(old(other.View()))
    {
      if other.signature.target.Target? {
        signature.Set(other.signature.target);
        changeCount := changeCount + 1;
      }
    }

    /** Take the other's encoding if it is still current. */
    method TakeEncoding(other: Data<V, P, E, N>)
      requires Apart() && other.Apart() && this != other
      requires {signature, name, metaInfo} !! {other.signature, other.name, other.metaInfo}
      modifies this, signature, name, metaInfo, other, other.signature, other.name, other.metaInfo
      ensures defaultFullName == old(defaultFullName) && other.defaultFullName == old(other.defaultFullName)
      ensures other.View() == Refreshed(old(other.View()))
      ensures View() == Stored(old(View()), other.defaultWireEncoding, other.defaultWireEncodingFormat)
    {
      hide Refreshed, Stored;
      var encoding := other.GetDefaultWireEncoding();
      SetDefaultWireEncoding(encoding, other.defaultWireEncodingFormat);
    }

    method GetChangeCount() returns (count: nat)
      requires Apart()
      modifies this`changeCount, signature, name, metaInfo
      ensures View() == Checked(old(View())) && count == changeCount
    {
      ghost var counters := [signature.View(), name.View(), metaInfo.View()];
      ThreeCounters(counters[0], counters[1], counters[2]);
      var changed := signature.CheckChanged();
      var changedName := name.CheckChanged();
      changed := changedName || changed;
      var changedMetaInfo := metaInfo.CheckChanged();
      changed := changedMetaInfo || changed;
      if changed {
        changeCount := changeCount + 1;
      }
      count := changeCount;
    }

    method GetDefaultWireEncoding() returns (encoding: Option<E>)
      requires Apart()
      modifies this`changeCount, this`defaultWireEncoding, this`defaultWireEncodingFormat,
               this`getDefaultWireEncodingChangeCount, signature, name, metaInfo
      ensures View() == Refreshed(old(View())) && encoding == defaultWireEncoding
    {
      var count := GetChangeCount();
      if getDefaultWireEncodingChangeCount != count {
        defaultWireEncoding, defaultWireEncodingFormat := None, 0;
        CheckedTwice(old(View()));
        count := GetChangeCount();
        getDefaultWireEncodingChangeCount := count;
      }
      encoding := defaultWireEncoding;
    }

    method SetDefaultWireEncoding(encoding: Option<E>, format: nat)
      requires Apart()
      modifies this`changeCount, this`defaultWireEncoding, this`defaultWireEncodingFormat,
               this`getDefaultWireEncodingChangeCount, signature, name, metaInfo
      ensures View() == Stored(old(View()), encoding, format)
    {
      defaultWireEncoding, defaultWireEncodingFormat := encoding, format;
      var count := GetChangeCount();
      getDefaultWireEncodingChangeCount := count;
    }

    method SetSignature(clone: Target<V>)
      requires Apart()
      modifies this`changeCount, signature
      ensures View() == WithChild(old(View()), 0, clone)
    {
      signature.Set(clone);
      changeCount := changeCount + 1;
    }

    method SetName(target: Target<V>)
      requires Apart()
      modifies this`changeCount, name
      ensures View() == WithChild(old(View()), 1, target)
    {
      name.Set(target);
      changeCount := changeCount + 1;
    }

    method SetMetaInfo(target: Target<V>)
      requires Apart()
      modifies this`changeCount, metaInfo
      ensures View() == WithChild(old(View()), 2, target)
    {
      metaInfo.Set(target);
      changeCount := changeCount + 1;
    }

    method SetContent(content: P)
      modifies this`changeCount, this`content
      ensures View() == WithPlain(old(View()), content)
    {
      this.content := content;
      changeCount := changeCount + 1;
    }

    method WireEncode(codecs: nat -> Codec<Fields<V, P>, E>, format: nat, default: nat) returns (encoding: E)
      requires Apart()
      modifies this`changeCount, this`defaultWireEncoding, this`defaultWireEncodingFormat,
               this`getDefaultWireEncodingChangeCount, signature, name, metaInfo
      ensures (View(), encoding) == Encoded(old(View()), codecs, format, default)
    {
      var cached := GetDefaultWireEncoding();
      if cached.Some? && defaultWireEncodingFormat == format {
        RefreshedTwice(old(View()));
        cached := GetDefaultWireEncoding();
        return cached.value;
      }
      encoding := codecs(format).encode(FieldsOf(View()));
      if format == default {
        SetDefaultWireEncoding(Some(encoding), default);
      }
    }

    method GetFullName(codecs: nat -> Codec<Fields<V, P>, E>, format: nat, default: nat, make: (Fields<V, P>, E) -> N)
      returns (name: N)
      requires Apart()
      modifies this, signature, this.name, metaInfo
      ensures (Named(View(), defaultFullName), name)
           == FullName(old(Named(View(), defaultFullName)), codecs, format, default, make)
    {
      var cached := GetDefaultWireEncoding();
      if cached.Some? && defaultFullName.Some? && defaultWireEncodingFormat == format {
        return defaultFullName.value;
      }
      var fields := FieldsOf(View());
      var encoding := WireEncode(codecs, format, default);
      name := make(fields, encoding);
      if format == default {
        defaultFullName := Some(name);
      }
    }

    /** operator=, which does not check the other's encoding, and leaves the full name cached before. */
    method Assign(other: Data<V, P, E, N>)
      requires Apart() && {this.signature, this.name, this.metaInfo} !! {other.signature, other.name, other.metaInfo}
      requires this != other
      modifies this, signature, name, metaInfo
      ensures View() == Stored(AssignedFields(old(View()), other.View()), other.defaultWireEncoding,
                               other.defaultWireEncodingFormat)
      ensures defaultFullName == old(defaultFullName)
    {
      signature.Set(other.signature.target);
      SetName(other.name.target);
      SetMetaInfo(other.metaInfo.target);
      SetContent(other.content);
      assert View() == AssignedFields(old(View()), other.View());
      SetDefaultWireEncoding(other.defaultWireEncoding, other.defaultWireEncodingFormat);
    }

    /** Set the fields from a decoded packet: a new signature object, and the other children in place. */
    method SetDecoded(signature: V, name: V, metaInfo: V, content: P)
      requires Apart() && this.name.target.Target? && this.metaInfo.target.Target?
      modifies this, this.signature, this.name, this.metaInfo
      ensures View() == SetFields(old(View()), signature, name, metaInfo, content)
      ensures defaultFullName == old(defaultFullName)
    {
      this.signature.Set(Target(signature, 0));
      this.signature.Edit(signature);
      this.name.Edit(name);
      this.metaInfo.Edit(metaInfo);
      SetContent(content);
    }

    /** Decode the input, which fails and changes nothing if it is not a Data packet. */
    method WireDecode(input: E, codecs: nat -> Codec<Fields<V, P>, E>, format: nat, default: nat) returns (ok: bool)
      requires Valid(codecs) && name.target.Target? && metaInfo.target.Target?
      modifies this, signature, name, metaInfo
      ensures Valid(codecs) && defaultFullName == old(defaultFullName)
      ensures FieldsOf(View()) == if ok then codecs(format).decode(input) else old(FieldsOf(View()))
      ensures ok <==> exists s, n, m, c :: codecs(format).decode(input) == Fields([Some(s), Some(n), Some(m)], c)
    {
      var f := codecs(format).decode(input);
      if |f.children| != 3 || f.children[0].None? || f.children[1].None? || f.children[2].None? {
        forall s, n, m, c ensures f != Fields([Some(s), Some(n), Some(m)], c) {
          assert Fields([Some(s), Some(n), Some(m)], c).children == [Some(s), Some(n), Some(m)];
        }
        return false;
      }
      var s, n, m := f.children[0].value, f.children[1].value, f.children[2].value;
      assert f.children == [Some(s), Some(n), Some(m)];
      assert codecs(format).decode(input) == Fields([Some(s), Some(n), Some(m)], f.plain);
      SetFieldsCoherent(View(), s, n, m, f.plain, input, format, default, codecs);
      SetDecoded(s, n, m, f.plain);
      if format == default {
        SetDefaultWireEncoding(Some(input), default);
      } else {
        SetDefaultWireEncoding(None, 0);
      }
      ok := true;
    }
  }

  lemma ThreeCounters<V>(a: Counter<V>, b: Counter<V>, c: Counter<V>)
    ensures AnyUnseen([a, b, c]) <==> Unseen(a) || Unseen(b) || Unseen(c)
    ensures SeeAll([a, b, c]) == [See(a), See(b), See(c)]
    ensures Values([a, b, c]) == [ValueOf(a), ValueOf(b), ValueOf(c)]
    ensures !(Unseen(a) || Unseen(b) || Unseen(c)) ==> See(a) == a && See(b) == b && See(c) == c
  {
    assert [a, b, c][1..] == [b, c] && [b, c][1..] == [c] && [c][1..] == [];
    assert AnyUnseen([c]) == Unseen(c) && AnyUnseen([b, c]) == (Unseen(b) || AnyUnseen([c]));
    assert SeeAll([c]) == [See(c)] && SeeAll([b, c]) == [See(b)] + SeeAll([c]);
    assert Values([c]) == [ValueOf(c)] && Values([b, c]) == [ValueOf(b)] + Values([c]);
  }

  /** A check right after a check changes nothing. */
  lemma CheckedTwice<V, P, E>(s: Cached<V, P, E>)
    ensures !AnyUnseen(Checked(s).counters)
    ensures Checked(Checked(s)) == Checked(s)
  {
    SeeAllSame(s.counters);
  }
}
