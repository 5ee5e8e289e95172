/** The Interest object's cached encoding and its nonce, updated in place, against the specification of the cache. */
module PacketInterest {
  import opened EncodingCache
  import opened PacketData

  /** The fields without a change count of their own: those set one by one, the application parameters, the nonce. */
  datatype Plain<S, A> = Plain(selectors: S, applicationParameters: A, nonce: Option<A>)

  datatype State<V, S, A, E> = State(cached: Cached<V, Plain<S, A>, E>, nonceCount: nat)

  /** getNonce, which drops the nonce if anything has changed since it was set, and counts no change of its own. */
  function NonceChecked<V, S, A, E>(s: State<V, S, A, E>): State<V, S, A, E> {
    var c := Checked(s.cached);
    if s.nonceCount != c.changeCount then State(c.(plain := c.plain.(nonce := None)), c.changeCount) else s.(cached := c)
  }

  function NonceSet<V, S, A, E>(s: State<V, S, A, E>, nonce: Option<A>): State<V, S, A, E> {
    var c := Checked(WithPlain(s.cached, s.cached.plain.(nonce := nonce)));
    State(c, c.changeCount)
  }

  /** getNonce keeps a coherent object coherent exactly when the nonce is not dropped, or there was none, or no encoding
      is cached: a dropped nonce stays in the cached encoding. */
  lemma NonceCoherentIff<V, S, A, E>(s: State<V, S, A, E>, codecs: nat -> Codec<Fields<V, Plain<S, A>>, E>)
    requires Coherent(s.cached, codecs)
    ensures Coherent(NonceChecked(s).cached, codecs)
       <==> s.nonceCount == Checked(s.cached).changeCount || s.cached.plain.nonce.None? || !Fresh(s.cached)
  {
    CheckedKeeps(s.cached, codecs);
    SeeAllSame(s.cached.counters);
    SeeAllSame(Checked(s.cached).counters);
  }

  /** Set the nonce, change a selector, encode and read the nonce: the encoding still has the nonce that was dropped. */
  lemma DroppedNonceStaysEncoded<V(!new), S(!new), A(!new), E>(s: State<V, S, A, E>, nonce: A, selectors: S,
      codecs: nat -> Codec<Fields<V, Plain<S, A>>, E>, default: nat)
    requires RoundTrips(codecs) && Coherent(s.cached, codecs)
    ensures var withNonce := NonceSet(s, Some(nonce));
      var changed := WithPlain(withNonce.cached, withNonce.cached.plain.(selectors := selectors));
      var encoded := Encoded(changed, codecs, default, default).0;
      var read := NonceChecked(withNonce.(cached := encoded)).cached;
      var r := Refreshed(read);
      && FieldsOf(read).plain.nonce.None?
      && r.encoding.Some? && codecs(r.format).decode(r.encoding.value).plain.nonce == Some(nonce)
  {
    var p := s.cached.plain.(nonce := Some(nonce));
    SetterCoherent(s.cached, 0, NoTarget, p, codecs);
    CheckedKeeps(WithPlain(s.cached, p), codecs);
    var withNonce := NonceSet(s, Some(nonce));
    var q := withNonce.cached.plain.(selectors := selectors);
    SetterCoherent(withNonce.cached, 0, NoTarget, q, codecs);
    var changed := WithPlain(withNonce.cached, q);
    EncodedIsCurrent(changed, codecs, default, default);
    var encoded := Encoded(changed, codecs, default, default).0;
    NoUnseenChecked(encoded);
    EncodedCount(changed, codecs, default);
    NoUnseenChecked(NonceChecked(withNonce.(cached := encoded)).cached);
  }

  lemma NoUnseenChecked<V, P, E>(s: Cached<V, P, E>)
    ensures !AnyUnseen(s.counters) ==> Checked(s) == s
  {
  }

  /** Encoding does not make the change count smaller. */
  lemma EncodedCount<V, P, E>(s: Cached<V, P, E>, codecs: nat -> Codec<Fields<V, P>, E>, default: nat)
    ensures s.changeCount <= Encoded(s, codecs, default, default).0.changeCount
  {
  }

  lemma FiveCounters<V>(a: Counter<V>, b: Counter<V>, c: Counter<V>, d: Counter<V>, e: Counter<V>)
    ensures AnyUnseen([a, b, c, d, e]) <==> Unseen(a) || Unseen(b) || Unseen(c) || Unseen(d) || Unseen(e)
    ensures SeeAll([a, b, c, d, e]) == [See(a), See(b), See(c), See(d), See(e)]
    ensures Values([a, b, c, d, e]) == [ValueOf(a), ValueOf(b), ValueOf(c), ValueOf(d), ValueOf(e)]
  {
    ThreeCounters(c, d, e);
    assert [a, b, c, d, e][1..] == [b, c, d, e] && [b, c, d, e][1..] == [c, d, e];
    assert AnyUnseen([b, c, d, e]) == (Unseen(b) || AnyUnseen([c, d, e]));
    assert SeeAll([b, c, d, e]) == [See(b)] + SeeAll([c, d, e]);
    assert Values([b, c, d, e]) == [ValueOf(b)] + Values([c, d, e]);
  }

  lemma FiveValues<V>(counters: seq<Counter<V>>)
    requires |counters| == 5
    ensures Values(counters)
         == [ValueOf(counters[0]), ValueOf(counters[1]), ValueOf(counters[2]), ValueOf(counters[3]),
             ValueOf(counters[4])]
  {
    assert counters == [counters[0], counters[1], counters[2], counters[3], counters[4]];
    FiveCounters(counters[0], counters[1], counters[2], counters[3], counters[4]);
  }

  /** An Interest whose fields up to the nonce have been assigned from another. The children are the name, the key
      locator, the exclude, the forwarding hint and the link. The forwarding hint and the application parameters are not
      assigned. */
  function AssignedToNonce<V, S, A, E>(s: Cached<V, Plain<S, A>, E>, other: Cached<V, Plain<S, A>, E>)
    : Cached<V, Plain<S, A>, E>
    requires |s.counters| == 5 && |other.counters| == 5
  {
    Checked(s.(counters := [Holding(other.counters[0].target), Holding(other.counters[1].target),
                            Holding(other.counters[2].target), s.counters[3], s.counters[4]],
               plain := other.plain.(applicationParameters := s.plain.applicationParameters),
               changeCount := s.changeCount + 8))
  }

  /** And then the link, if there is one, and the selected delegation. */
  function InterestAssigned<V, S, A, E>(s: Cached<V, Plain<S, A>, E>, other: Cached<V, Plain<S, A>, E>)
    : Cached<V, Plain<S, A>, E>
    requires |s.counters| == 5 && |other.counters| == 5
  {
    var t := AssignedToNonce(s, other);
    var link := if other.counters[4].target.Target? then Holding(other.counters[4].target) else t.counters[4];
    t.(counters := t.counters[4 := link], changeCount := t.changeCount + 1)
  }

  lemma AssignedValues<V, S, A, E>(s: Cached<V, Plain<S, A>, E>, other: Cached<V, Plain<S, A>, E>,
                                   codecs: nat -> Codec<Fields<V, Plain<S, A>>, E>)
    requires Coherent(s, codecs) && |s.counters| == 5 && |other.counters| == 5
    ensures var c := InterestAssigned(s, other);
      && Coherent(c.(encoding := None), codecs)
      && c.plain == other.plain.(applicationParameters := s.plain.applicationParameters)
      && Values(c.counters)
         == [ValueOf(other.counters[0]), ValueOf(other.counters[1]), ValueOf(other.counters[2]), ValueOf(s.counters[3]),
             if other.counters[4].target.Target? then ValueOf(other.counters[4]) else ValueOf(s.counters[4])]
  {
    var c := InterestAssigned(s, other);
    var before := [Holding(other.counters[0].target), Holding(other.counters[1].target),
                   Holding(other.counters[2].target), s.counters[3], s.counters[4]];
    SeeAllSame(before);
    FiveValues(c.counters);
    forall i | 0 <= i < 5 ensures AssignedToNonce(s, other).counters[i] == See(before[i])
      || AssignedToNonce(s, other).counters[i] == before[i] {}
  }

  /** The assignment of an Interest takes over the other's current encoding, but not all of its fields. The result is
      coherent exactly when there is no such encoding, or the fields not assigned are the same in both. */
  lemma InterestAssignIff<V, S, A, E>(s: Cached<V, Plain<S, A>, E>, other: Cached<V, Plain<S, A>, E>,
                                      codecs: nat -> Codec<Fields<V, Plain<S, A>>, E>)
    requires Coherent(s, codecs) && Coherent(other, codecs) && |s.counters| == 5 && |other.counters| == 5
    ensures var r := Refreshed(other);
      Coherent(Stored(InterestAssigned(s, other), r.encoding, r.format), codecs)
      <==> !Fresh(other)
           || (ValueOf(s.counters[3]) == ValueOf(other.counters[3])
               && (other.counters[4].target.NoTarget? ==> s.counters[4].target.NoTarget?)
               && s.plain.applicationParameters == other.plain.applicationParameters)
  {
    RefreshedIsCurrent(other, codecs);
    var r := Refreshed(other);
    var c := InterestAssigned(s, other);
    AssignedValues(s, other, codecs);
    FiveValues(other.counters);
    hide InterestAssigned;
    StoredCoherent(c, r.encoding, r.format, codecs);
  }

  /** Encode an Interest and assign it to another with its own forwarding hint: the encoding that one then returns has
      the hint of the first. */
  lemma AssignedWithoutHint<V(!new), S(!new), A(!new), E>(s: Cached<V, Plain<S, A>, E>,
      other: Cached<V, Plain<S, A>, E>, codecs: nat -> Codec<Fields<V, Plain<S, A>>, E>, default: nat)
    requires RoundTrips(codecs) && Coherent(s, codecs) && Coherent(other, codecs)
    requires |s.counters| == 5 && |other.counters| == 5
    ensures var encoded := Encoded(other, codecs, default, default).0;
      && |encoded.counters| == 5
      && var r := Refreshed(Stored(InterestAssigned(s, encoded), encoded.encoding, encoded.format));
      && FieldsOf(r).children[3] == ValueOf(s.counters[3])
      && r.encoding.Some?
      && codecs(r.format).decode(r.encoding.value).children == FieldsOf(other).children
      && FieldsOf(other).children[3] == ValueOf(other.counters[3])
  {
    EncodedForDefault(other, codecs, default);
    var encoded := Encoded(other, codecs, default, default).0;
    EncodedChildren(other, codecs, default);
    FiveValues(other.counters);
    hide Encoded, Refreshed, Stored, Coherent, RoundTrips, Fresh, InterestAssigned;
    AssignedValues(s, encoded, codecs);
    StoredIsReturned(InterestAssigned(s, encoded), encoded.encoding, encoded.format);
  }

  lemma EncodedChildren<V, P, E>(s: Cached<V, P, E>, codecs: nat -> Codec<Fields<V, P>, E>, default: nat)
    ensures |Encoded(s, codecs, default, default).0.counters| == |s.counters|
  {
    SeeAllSame(s.counters);
  }

  /** A nonce set before the last change counted is dropped, also when an encoding is stored in between. */
  lemma LaterChangeDropsNonce<V, S, A, E>(s: State<V, S, A, E>, encoding: Option<E>, format: nat)
    requires s.nonceCount < s.cached.changeCount
    ensures NonceChecked(s.(cached := Stored(s.cached, encoding, format))).cached.plain.nonce == None
  {
  }

  /** Encode an Interest with a nonce and assign it to another: the encoding that one then returns has the nonce, and the
      object, whose count of the nonce is behind, has none. */
  lemma AssignedNonceStaysEncoded<V(!new), S(!new), A(!new), E>(s: Cached<V, Plain<S, A>, E>,
      other: Cached<V, Plain<S, A>, E>, nonceCount: nat, codecs: nat -> Codec<Fields<V, Plain<S, A>>, E>, default: nat)
    requires RoundTrips(codecs) && Coherent(s, codecs) && Coherent(other, codecs)
    requires |s.counters| == 5 && |other.counters| == 5 && other.plain.nonce.Some?
    ensures var encoded := Encoded(other, codecs, default, default).0;
      && |encoded.counters| == 5
      && var after := InterestAssigned(s, encoded);
      nonceCount < after.changeCount ==>
        var read := NonceChecked(State(Stored(after, encoded.encoding, encoded.format), nonceCount)).cached;
        var r := Refreshed(read);
        && r.plain.nonce == None
        && r.encoding.Some? && codecs(r.format).decode(r.encoding.value).plain.nonce == other.plain.nonce
  {
    EncodedForDefault(other, codecs, default);
    var encoded := Encoded(other, codecs, default, default).0;
    EncodedChildren(other, codecs, default);
    var after := InterestAssigned(s, encoded);
    if nonceCount < after.changeCount {
      hide Encoded, Coherent, RoundTrips, InterestAssigned;
      LaterChangeDropsNonce(State(after, nonceCount), encoded.encoding, encoded.format);
      ReadKeepsEncoding(after, encoded.encoding, encoded.format, nonceCount);
    }
  }

  lemma ReadKeepsEncoding<V, S, A, E>(s: Cached<V, Plain<S, A>, E>, encoding: Option<E>, format: nat, nonceCount: nat)
    ensures var read := NonceChecked(State(Stored(s, encoding, format), nonceCount)).cached;
      Refreshed(read) == read && read.encoding == encoding && read.format == format
  {
    SeeAllSame(s.counters);
    var t := Stored(s, encoding, format);
    NoUnseenChecked(t);
    NoUnseenChecked(NonceChecked(State(t, nonceCount)).cached);
  }

  /** A copy of an Interest before its encoding is set: member by member, with a copy of the link. */
  function InterestCopied<V, S, A, E>(s: Cached<V, Plain<S, A>, E>): Cached<V, Plain<S, A>, E>
    requires |s.counters| == 5
  {
    Cached(s.counters[4 := Holding(s.counters[4].target)], s.plain, 0, None, 0, 0)
  }

  /** The copy of a coherent Interest is coherent and has its fields; a nonce that the original would drop is kept by the
      copy, unless a child has an unseen change. */
  lemma InterestCopyCoherent<V, S, A, E>(s: State<V, S, A, E>, codecs: nat -> Codec<Fields<V, Plain<S, A>>, E>)
    requires Coherent(s.cached, codecs) && |s.cached.counters| == 5
    ensures var r := Refreshed(s.cached); var t := Stored(InterestCopied(s.cached), r.encoding, r.format);
      && Coherent(t, codecs) && FieldsOf(t) == FieldsOf(s.cached)
      && (!AnyUnseen(s.cached.counters) ==> NonceChecked(State(t, 0)).cached.plain.nonce == s.cached.plain.nonce)
  {
    var c := InterestCopied(s.cached);
    FiveValues(c.counters);
    FiveValues(s.cached.counters);
    CheckedCopy(s.cached, c, codecs);
    StoredCoherent(c, Refreshed(s.cached).encoding, Refreshed(s.cached).format, codecs);
    AnyUnseenAt(s.cached.counters);
    AnyUnseenAt(c.counters);
  }

  class Interest<V, S, A(==), E> {
    const name: ChangeCounter<V>
    const keyLocator: ChangeCounter<V>
    const exclude: ChangeCounter<V>
    const forwardingHint: ChangeCounter<V>
    const link: ChangeCounter<V>
    var selectors: S
    var applicationParameters: A
    var nonce: Option<A>
    var getNonceChangeCount: nat
    var changeCount: nat
    var defaultWireEncoding: Option<E>
    var defaultWireEncodingFormat: nat
    var getDefaultWireEncodingChangeCount: nat

    function View(): State<V, S, A, E>
      reads this, name, keyLocator, exclude, forwardingHint, link
    {
      State(Cached([name.View(), keyLocator.View(), exclude.View(), forwardingHint.View(), link.View()],
                   Plain(selectors, applicationParameters, nonce), changeCount,
                   defaultWireEncoding, defaultWireEncodingFormat, getDefaultWireEncodingChangeCount),
            getNonceChangeCount)
    }

    function Children(): set<ChangeCounter<V>> { {name, keyLocator, exclude, forwardingHint, link} }

    predicate Apart() {
      && name !in {keyLocator, exclude, forwardingHint, link} && keyLocator !in {exclude, forwardingHint, link}
      && exclude !in {forwardingHint, link} && forwardingHint != link
    }

    constructor (name: Target<V>, keyLocator: Target<V>, exclude: Target<V>, forwardingHint: Target<V>, selectors: S,
                 applicationParameters: A)
      ensures Apart() && fresh(Children())
      ensures View() == State(Cached([Holding(name), Holding(keyLocator), Holding(exclude), Holding(forwardingHint),
                                      Holding(NoTarget)],
                                     Plain(selectors, applicationParameters, None), 0, None, 0, 0), 0)
    {
      this.name := new ChangeCounter(name);
      this.keyLocator := new ChangeCounter(keyLocator);
      this.exclude := new ChangeCounter(exclude);
      this.forwardingHint := new ChangeCounter(forwardingHint);
      this.link := new ChangeCounter(NoTarget);
      this.selectors, this.applicationParameters, nonce := selectors, applicationParameters, None;
      getNonceChangeCount, changeCount, defaultWireEncoding := 0, 0, None;
      defaultWireEncodingFormat, getDefaultWireEncodingChangeCount := 0, 0;
    }

    /** The copy constructor, up to the encoding. */
    constructor CopyFields(other: Interest<V, S, A, E>)
      ensures Apart() && fresh(Children())
      ensures View() == State(InterestCopied(other.View().cached), 0)
    {
      name := new ChangeCounter<V>.Copy(other.name);
      keyLocator := new ChangeCounter<V>.Copy(other.keyLocator);
      exclude := new ChangeCounter<V>.Copy(other.exclude);
      forwardingHint := new ChangeCounter<V>.Copy(other.forwardingHint);
      link := new ChangeCounter(other.link.target);
      selectors, applicationParameters, nonce := other.selectors, other.applicationParameters, other.nonce;
      getNonceChangeCount, changeCount, defaultWireEncoding := 0, 0, None;
      defaultWireEncodingFormat, getDefaultWireEncodingChangeCount := 0, 0;
    }

    /** The copy constructor. */
    static method Copy(other: Interest<V, S, A, E>) returns (copy: Interest<V, S, A, E>)
      requires other.Apart()
      modifies other`changeCount, other`defaultWireEncoding, other`defaultWireEncodingFormat,
               other`getDefaultWireEncodingChangeCount, other.Children()
      ensures fresh(copy) && fresh(copy.Children()) && copy.Apart()
      ensures var r := Refreshed(old(other.View().cached));
        && other.View().cached == r
        && copy.View() == State(Stored(InterestCopied(old(other.View().cached)), r.encoding, r.format), 0)
    {
      hide InterestCopied, Refreshed, Stored;
      copy := new Interest.CopyFields(other);
      copy.TakeEncoding(other);
    }

    /** Take over the other's encoding if it is still current. */
    method TakeEncoding(other: Interest<V, S, A, E>)
      requires Apart() && other.Apart() && this != other && Children() !! other.Children()
      modifies this`changeCount, this`defaultWireEncoding, this`defaultWireEncodingFormat,
               this`getDefaultWireEncodingChangeCount, Children()
      modifies other`changeCount, other`defaultWireEncoding, other`defaultWireEncodingFormat,
               other`getDefaultWireEncodingChangeCount, other.Children()
      ensures var r := Refreshed(old(other.View().cached));
        && other.View().cached == r
        && View() == old(View()).(cached := Stored(old(View().cached), r.encoding, r.format))
    {
      hide Refreshed, Stored;
      var encoding := other.GetDefaultWireEncoding();
      SetDefaultWireEncoding(encoding, other.defaultWireEncodingFormat);
    }

    method GetChangeCount() returns (count: nat)
      requires Apart()
      modifies this`changeCount, Children()
      ensures View() == old(View()).(cached := Checked(old(View().cached))) && count == changeCount
    {
      FiveCounters(name.View(), keyLocator.View(), exclude.View(), forwardingHint.View(), link.View());
      var changed := name.CheckChanged();
      var changedKeyLocator := keyLocator.CheckChanged();
      changed := changedKeyLocator || changed;
      var changedExclude := exclude.CheckChanged();
      changed := changedExclude || changed;
      var changedHint := forwardingHint.CheckChanged();
      changed := changedHint || changed;
      var changedLink := link.CheckChanged();
      changed := changedLink || changed;
      if changed {
        changeCount := changeCount + 1;
      }
      count := changeCount;
    }

    method GetDefaultWireEncoding() returns (encoding: Option<E>)
      requires Apart()
      modifies this`changeCount, this`defaultWireEncoding, this`defaultWireEncodingFormat,
               this`getDefaultWireEncodingChangeCount, Children()
      ensures View() == old(View()).(cached := Refreshed(old(View().cached))) && encoding == defaultWireEncoding
    {
      var count := GetChangeCount();
      if getDefaultWireEncodingChangeCount != count {
        defaultWireEncoding, defaultWireEncodingFormat := None, 0;
        CheckedTwice(old(View().cached));
        count := GetChangeCount();
        getDefaultWireEncodingChangeCount := count;
      }
      encoding := defaultWireEncoding;
    }

    method SetDefaultWireEncoding(encoding: Option<E>, format: nat)
      requires Apart()
      modifies this`changeCount, this`defaultWireEncoding, this`defaultWireEncodingFormat,
               this`getDefaultWireEncodingChangeCount, Children()
      ensures View() == old(View()).(cached := Stored(old(View().cached), encoding, format))
    {
      defaultWireEncoding, defaultWireEncodingFormat := encoding, format;
      var count := GetChangeCount();
      getDefaultWireEncodingChangeCount := count;
    }

    /** The nonce, dropped if anything has changed since it was set. */
    method GetNonce() returns (r: Option<A>)
      requires Apart()
      modifies this`changeCount, this`nonce, this`getNonceChangeCount, Children()
      ensures View() == NonceChecked(old(View())) && r == nonce
    {
      var count := GetChangeCount();
      if getNonceChangeCount != count {
        nonce := None;
        CheckedTwice(old(View().cached));
        count := GetChangeCount();
        getNonceChangeCount := count;
      }
      r := nonce;
    }

    method SetNonce(nonce: Option<A>)
      requires Apart()
      modifies this`changeCount, this`nonce, this`getNonceChangeCount, Children()
      ensures View() == NonceSet(old(View()), nonce)
    {
      this.nonce := nonce;
      changeCount := changeCount + 1;
      var count := GetChangeCount();
      getNonceChangeCount := count;
    }

    /** Replace the nonce, if there is one that has not been dropped, by the first random bytes that are different.
        The random numbers are a sequence of draws, of which one is known to be different. */
    method RefreshNonce(random: nat -> A, ghost last: nat)
      requires Apart() && Some(random(last)) != nonce
      modifies this`changeCount, this`nonce, this`getNonceChangeCount, Children()
      ensures var s := NonceChecked(old(View()));
        if s.cached.plain.nonce.None? then View() == s
        else
          && nonce.Some? && nonce != s.cached.plain.nonce && View() == NonceSet(s, nonce)
          && exists k :: 0 <= k <= last && nonce == Some(random(k))
                         && forall i :: 0 <= i < k ==> Some(random(i)) == s.cached.plain.nonce
    {
      var current := GetNonce();
      if current.None? {
        return;
      }
      var draw := 0;
      while random(draw) == current.value
        invariant draw <= last && forall i :: 0 <= i < draw ==> random(i) == current.value
        decreases last - draw
      {
        draw := draw + 1;
      }
      SetNonce(Some(random(draw)));
    }

    method SetName(target: Target<V>)
      requires Apart()
      modifies this`changeCount, name
      ensures View() == old(View()).(cached := WithChild(old(View().cached), 0, target))
    {
      name.Set(target);
      changeCount := changeCount + 1;
    }

    method SetForwardingHint(target: Target<V>)
      requires Apart()
      modifies this`changeCount, forwardingHint
      ensures View() == old(View()).(cached := WithChild(old(View().cached), 3, target))
    {
      forwardingHint.Set(target);
      changeCount := changeCount + 1;
    }

    /** Set the suffix limits, the selectors or the lifetime. */
    method SetSelectors(selectors: S)
      modifies this`changeCount, this`selectors
      ensures View() == old(View()).(cached := WithPlain(old(View().cached),
                                                         old(View().cached.plain).(selectors := selectors)))
    {
      this.selectors := selectors;
      changeCount := changeCount + 1;
    }

    method SetApplicationParameters(parameters: A)
      modifies this`changeCount, this`applicationParameters
      ensures View() == old(View()).(cached := WithPlain(old(View().cached),
                                                         old(View().cached.plain).(applicationParameters := parameters)))
    {
      applicationParameters := parameters;
      changeCount := changeCount + 1;
    }

    method WireEncode(codecs: nat -> Codec<Fields<V, Plain<S, A>>, E>, format: nat, default: nat) returns (encoding: E)
      requires Apart()
      modifies this`changeCount, this`defaultWireEncoding, this`defaultWireEncodingFormat,
               this`getDefaultWireEncodingChangeCount, Children()
      ensures (View().cached, encoding) == Encoded(old(View().cached), codecs, format, default)
      ensures getNonceChangeCount == old(getNonceChangeCount)
    {
      var cached := GetDefaultWireEncoding();
      if cached.Some? && defaultWireEncodingFormat == format {
        RefreshedTwice(old(View().cached));
        cached := GetDefaultWireEncoding();
        return cached.value;
      }
      encoding := codecs(format).encode(FieldsOf(View().cached));
      if format == default {
        SetDefaultWireEncoding(Some(encoding), default);
      }
    }

    /** operator=, up to the nonce. */
    method AssignToNonce(other: Interest<V, S, A, E>)
      requires Apart() && this != other && Children() !! other.Children()
      modifies this`changeCount, this`selectors, this`nonce, this`getNonceChangeCount, Children()
      ensures View().cached == AssignedToNonce(old(View().cached), other.View().cached)
      ensures link.target == old(link.target) && getNonceChangeCount == changeCount
    {
      SetName(other.name.target);
      assert name.View() == Holding(other.name.target) by { assert View().cached.counters[0] == name.View(); }
      keyLocator.Set(other.keyLocator.target);
      exclude.Set(other.exclude.target);
      selectors := other.selectors;
      changeCount := changeCount + 6;
      assert View().cached.counters == [Holding(other.name.target), Holding(other.keyLocator.target),
                                        Holding(other.exclude.target), old(forwardingHint.View()), old(link.View())];
      FiveCounters(name.View(), keyLocator.View(), exclude.View(), forwardingHint.View(), link.View());
      SetNonce(other.nonce);
    }

    /** operator=, up to the encoding. */
    method AssignFields(other: Interest<V, S, A, E>)
      requires Apart() && this != other && Children() !! other.Children()
      modifies this`changeCount, this`selectors, this`nonce, this`getNonceChangeCount, Children()
      ensures View().cached == InterestAssigned(old(View().cached), other.View().cached)
      ensures getNonceChangeCount < changeCount
    {
      AssignToNonce(other);
      hide AssignedToNonce;
      ghost var before := View().cached;
      if other.link.target.Target? {
        link.Set(other.link.target);
      }
      changeCount := changeCount + 1;
      assert View().cached.counters == before.counters[4 := link.View()];
    }

    /** operator=, which takes over the other's current encoding. The change counted after the nonce makes the next
        getNonce drop it. */
    method Assign(other: Interest<V, S, A, E>)
      requires Apart() && other.Apart() && this != other && Children() !! other.Children()
      modifies this`changeCount, this`selectors, this`nonce, this`getNonceChangeCount, Children()
      modifies this`defaultWireEncoding, this`defaultWireEncodingFormat, this`getDefaultWireEncodingChangeCount
      modifies other`changeCount, other`defaultWireEncoding, other`defaultWireEncodingFormat,
               other`getDefaultWireEncodingChangeCount, other.Children()
      ensures var r := Refreshed(old(other.View().cached));
        && other.View().cached == r
        && View().cached == Stored(InterestAssigned(old(View().cached), old(other.View().cached)), r.encoding, r.format)
      ensures NonceChecked(View()).cached.plain.nonce == None
    {
      hide InterestAssigned, Refreshed, Stored;
      AssignFields(other);
      ghost var after, r := View(), Refreshed(old(other.View().cached));
      TakeEncoding(other);
      LaterChangeDropsNonce(after, r.encoding, r.format);
    }
  }
}