/** Whether a Data packet satisfies an Interest: the staged checks, which compute the digest of the packet only when they
    need it, against one check of the full name. */
module InterestMatch {
  import DelegationSet
  import Exclude
  import opened NameOrder

  datatype KeyLocator<K> = NoKeyLocator | KeyLocator(key: K)

  /** Negative suffix limits are not set. */
  datatype Interest<K> = Interest(name: Name, minSuffixComponents: int, maxSuffixComponents: int,
                                  exclude: seq<Exclude.Entry>, keyLocator: KeyLocator<K>)

  /** The key locator is that of the signature, if it can have one. */
  datatype Data<K> = Data(name: Name, encoding: seq<octet>, keyLocator: KeyLocator<K>)

  type Digest = seq<octet> -> seq<octet>

  function FullName<K>(data: Data<K>, sha256: Digest): Name {
    data.name + [Component(ImplicitSha256Digest, sha256(data.encoding))]
  }

  /** Name::match, and isPrefixOf: component values from the last to the first. */
  method Match(x: Name, y: Name) returns (r: bool)
    ensures r == PrefixByValue(x, y)
  {
    if |x| > |y| {
      return false;
    }
    var i := |x| - 1;
    while i >= 0
      invariant -1 <= i < |x| && forall k :: i < k < |x| ==> x[k].value == y[k].value
    {
      if x[i].value != y[i].value {
        return false;
      }
      i := i - 1;
    }
    r := true;
  }

  ghost predicate PrefixByValue(x: Name, y: Name) {
    |x| <= |y| && forall i :: 0 <= i < |x| ==> x[i].value == y[i].value
  }

  // What the checks mean.

  ghost predicate WithinLimits<K>(interest: Interest<K>, suffix: int) {
    && (interest.minSuffixComponents >= 0 ==> suffix >= interest.minSuffixComponents)
    && (interest.maxSuffixComponents >= 0 ==> suffix <= interest.maxSuffixComponents)
  }

  ghost predicate KeyAgrees<K>(interest: Interest<K>, data: Data<K>) {
    interest.keyLocator.KeyLocator? ==> data.keyLocator == interest.keyLocator
  }

  /** The Interest accepts the full name: its name is a prefix, by value, and a digest if it is all of it; the number of
      components after the prefix is within the limits; and the first of them is not excluded. */
  ghost predicate AcceptsFullName<K>(interest: Interest<K>, full: Name) {
    var n := |interest.name|;
    && PrefixByValue(interest.name, full)
    && (n == |full| > 0 ==> interest.name[n - 1].kind == ImplicitSha256Digest)
    && WithinLimits(interest, |full| - n)
    && (n < |full| ==> !Exclude.Excludes(interest.exclude, full[n]))
  }

  /** matchesName: the name stands for a packet's name without its digest. */
  ghost predicate AcceptsName<K>(interest: Interest<K>, name: Name) {
    var n := |interest.name|;
    && PrefixByValue(interest.name, name)
    && WithinLimits(interest, |name| + 1 - n)
    && (n < |name| ==> !Exclude.Excludes(interest.exclude, name[n]))
  }

  method MatchesName<K>(interest: Interest<K>, name: Name) returns (r: bool)
    ensures r == AcceptsName(interest, name)
  {
    var isMatch := Match(interest.name, name);
    if !isMatch {
      return false;
    }
    if interest.minSuffixComponents >= 0 && !(|name| + 1 - |interest.name| >= interest.minSuffixComponents) {
      return false;
    }
    if interest.maxSuffixComponents >= 0 && !(|name| + 1 - |interest.name| <= interest.maxSuffixComponents) {
      return false;
    }
    if |interest.exclude| > 0 && |name| > |interest.name| {
      var excluded := Exclude.Matches(interest.exclude, name[|interest.name|]);
      return !excluded;
    }
    NothingExcluded(interest.exclude);
    r := true;
  }

  method MatchesData<K(==)>(interest: Interest<K>, data: Data<K>, sha256: Digest) returns (r: bool)
    ensures r == (AcceptsFullName(interest, FullName(data, sha256)) && KeyAgrees(interest, data))
  {
    var interestNameLength := |interest.name|;
    var fullNameLength := |data.name| + 1;
    NothingExcluded(interest.exclude);

    var minSuffixComponents := if interest.minSuffixComponents >= 0 then interest.minSuffixComponents else 0;
    if !(interestNameLength + minSuffixComponents <= fullNameLength) {
      return false;
    }
    if interest.maxSuffixComponents >= 0 && !(interestNameLength + interest.maxSuffixComponents >= fullNameLength) {
      return false;
    }

    if interestNameLength == fullNameLength {
      if interest.name[interestNameLength - 1].kind.ImplicitSha256Digest? {
        var equal := DelegationSet.Equals(interest.name, FullName(data, sha256));
        EqualByValue(interest.name, FullName(data, sha256));
        if !equal {
          return false;
        }
      } else {
        return false;
      }
    } else {
      var isPrefix := Match(interest.name, data.name);
      PrefixOfFull(interest.name, data, sha256);
      if !isPrefix {
        return false;
      }
    }

    if |interest.exclude| > 0 && fullNameLength > interestNameLength {
      var excluded;
      if interestNameLength == fullNameLength - 1 {
        excluded := Exclude.Matches(interest.exclude, FullName(data, sha256)[interestNameLength]);
      } else {
        excluded := Exclude.Matches(interest.exclude, data.name[interestNameLength]);
      }
      if excluded {
        return false;
      }
    }

    if interest.keyLocator.KeyLocator? {
      if data.keyLocator.NoKeyLocator? {
        return false;
      }
      if interest.keyLocator != data.keyLocator {
        return false;
      }
    }
    r := true;
  }

  lemma NothingExcluded(entries: seq<Exclude.Entry>)
    ensures entries == [] ==> forall c :: !Exclude.Excludes(entries, c)
  {
  }

  lemma EqualByValue(x: Name, y: Name)
    requires |x| == |y|
    ensures DelegationSet.NameValues(x) == DelegationSet.NameValues(y) <==> PrefixByValue(x, y)
  {
    if DelegationSet.NameValues(x) == DelegationSet.NameValues(y) {
      forall i | 0 <= i < |x| ensures x[i].value == y[i].value {
        assert DelegationSet.NameValues(x)[i] == DelegationSet.NameValues(y)[i];
      }
    }
    if PrefixByValue(x, y) {
      assert forall i :: 0 <= i < |x| ==> DelegationSet.NameValues(x)[i] == DelegationSet.NameValues(y)[i];
    }
  }

  lemma PrefixOfFull<K>(x: Name, data: Data<K>, sha256: Digest)
    requires |x| != |FullName(data, sha256)|
    ensures PrefixByValue(x, FullName(data, sha256)) <==> PrefixByValue(x, data.name)
  {
  }

  /** Without a key locator, the two checks agree on a name longer than the Interest's. For a name of the same length
      matchesData also checks that the digest is not excluded, and only it accepts an Interest that has the digest. */
  lemma NameAndDataChecks<K>(interest: Interest<K>, data: Data<K>, sha256: Digest)
    requires interest.keyLocator.NoKeyLocator?
    ensures var full := FullName(data, sha256); var n := |interest.name|;
      var matchesData := AcceptsFullName(interest, full) && KeyAgrees(interest, data);
      if n < |data.name| then matchesData <==> AcceptsName(interest, data.name)
      else if n == |data.name| then
        matchesData <==> AcceptsName(interest, data.name) && !Exclude.Excludes(interest.exclude, full[n])
      else
        && !AcceptsName(interest, data.name)
        && (matchesData <==> DelegationSet.NameValues(interest.name) == DelegationSet.NameValues(full)
                             && interest.name[n - 1].kind == ImplicitSha256Digest && interest.minSuffixComponents <= 0)
  {
    var full := FullName(data, sha256);
    if |interest.name| == |full| {
      EqualByValue(interest.name, full);
    } else {
      PrefixOfFull(interest.name, data, sha256);
      assert |DelegationSet.NameValues(interest.name)| != |DelegationSet.NameValues(full)|;
    }
  }

  /** The digest matters only to an Interest name at least as long as the packet's name. */
  lemma DigestNotNeeded<K>(interest: Interest<K>, data: Data<K>, sha256: Digest, other: Digest)
    requires |interest.name| < |data.name|
    ensures AcceptsFullName(interest, FullName(data, sha256)) <==> AcceptsFullName(interest, FullName(data, other))
  {
    PrefixOfFull(interest.name, data, sha256);
    PrefixOfFull(interest.name, data, other);
    assert FullName(data, sha256)[|interest.name|] == FullName(data, other)[|interest.name|];
  }

  /** An Interest for the name and the implicit digest of a packet is satisfied by that packet, unless its suffix limits
      or its key locator are against it, and by no packet with another digest. */
  lemma ExactDigest<K>(interest: Interest<K>, data: Data<K>, sha256: Digest, digest: seq<octet>)
    requires interest.name == data.name + [Component(ImplicitSha256Digest, digest)]
    ensures AcceptsFullName(interest, FullName(data, sha256)) && KeyAgrees(interest, data)
       <==> digest == sha256(data.encoding) && interest.minSuffixComponents <= 0
            && (interest.keyLocator == NoKeyLocator || interest.keyLocator == data.keyLocator)
  {
    var full, n := FullName(data, sha256), |data.name|;
    assert interest.name[n].value == digest && full[n].value == sha256(data.encoding);
    assert forall i :: 0 <= i < n ==> interest.name[i] == full[i];
  }

  /** An Interest for the name of a packet that excludes the packet's implicit digest is not satisfied by it. */
  lemma DigestExcluded<K>(interest: Interest<K>, data: Data<K>, sha256: Digest)
    requires interest.name == data.name
    requires interest.exclude == [Exclude.Excluded(Component(ImplicitSha256Digest, sha256(data.encoding)))]
    ensures !AcceptsFullName(interest, FullName(data, sha256))
  {
    var full, n := FullName(data, sha256), |data.name|;
    var c := Component(ImplicitSha256Digest, sha256(data.encoding));
    ComponentsOrder(c, c);
    assert Exclude.CoveredAt(interest.exclude, c, 0);
    assert full[n] == c;
  }

  /** With both suffix limits k, exactly k components follow, the digest among them; without limits any number does. */
  lemma SuffixLimits<K>(interest: Interest<K>, name: Name, k: int)
    requires interest.exclude == [] && PrefixByValue(interest.name, name)
    ensures interest.minSuffixComponents == k == interest.maxSuffixComponents && k >= 0 ==>
      (AcceptsName(interest, name) <==> |name| == |interest.name| + k - 1)
    ensures interest.minSuffixComponents == 0 && interest.maxSuffixComponents == k >= 0 ==>
      (AcceptsName(interest, name) <==> |name| < |interest.name| + k)
    ensures interest.minSuffixComponents == k >= 0 && interest.maxSuffixComponents < 0 ==>
      (AcceptsName(interest, name) <==> |name| >= |interest.name| + k - 1)
    ensures interest.minSuffixComponents < 0 && interest.maxSuffixComponents < 0 ==> AcceptsName(interest, name)
  {
    NothingExcluded(interest.exclude);
  }
}
