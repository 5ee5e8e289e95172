/** When the full name that a Data packet returns is that of its current fields, over runs that also ask for it, assign
    other packets to it or other objects to its children, and copy it. */
module PacketFullName {
  import opened EncodingCache
  import opened PacketData

  /** The fields and the encoding that a name is made from. */
  datatype Made<V, P, E> = Made(fields: Fields<V, P>, encoding: E)

  /** A Data packet with its cached full name, and what this was made from. */
  datatype Tracked<V, P, E, N> = Tracked(named: Named<V, P, E, N>, made: Option<Made<V, P, E>>)

  /** An operation on the packet, asking for its full name, assigning another packet to it or another object to one of
      its children, or going on with a copy. */
  datatype NamedOp<V, P, E> =
    | Change(op: Op<V, P, E>)
    | AskFullName(format: nat)
    | AssignFrom(other: Cached<V, P, E>)
    | AssignChild(i: nat, value: V, count: nat)
    | GoOnWithCopy

  /** Whether getFullName returns the cached name. */
  predicate FromCache<V, P, E, N>(s: Named<V, P, E, N>, format: nat) {
    Fresh(s.cached) && s.fullName.Some? && s.cached.format == format
  }

  /** operator=, with the raw encoding of the other packet. */
  function Assigned<V, P, E>(s: Cached<V, P, E>, other: Cached<V, P, E>): Cached<V, P, E>
    requires |other.counters| == 3
  {
    Stored(AssignedFields(s, other), other.encoding, other.format)
  }

  function Copied<V, P, E>(s: Cached<V, P, E>): Cached<V, P, E>
    requires |s.counters| == 3
  {
    Stored(CopiedFields(s), Refreshed(s).encoding, Refreshed(s).format)
  }

  /** One operation. A Data packet has three children. The assignment leaves the cached name, and the copy takes it. */
  function ApplyNamed<V, P, E, N>(t: Tracked<V, P, E, N>, op: NamedOp<V, P, E>, codecs: nat -> Codec<Fields<V, P>, E>,
                                  default: nat, make: (Fields<V, P>, E) -> N): Tracked<V, P, E, N>
  {
    var s := t.named.cached;
    match op
    case Change(change) => t.(named := t.named.(cached := ApplyOp(s, change, codecs, default)))
    case AskFullName(format) =>
      var asked := FullName(t.named, codecs, format, default, make).0;
      if FromCache(t.named, format) || format != default then t.(named := asked)
      else Tracked(asked, Some(Made(FieldsOf(s), Encoded(s, codecs, default, default).1)))
    case AssignFrom(other) => if |other.counters| == 3 then t.(named := t.named.(cached := Assigned(s, other))) else t
    case AssignChild(i, value, count) =>
      if i < |s.counters| && s.counters[i].target.Target?
      then t.(named := t.named.(cached := WithAssigned(s, i, value, count))) else t
    case GoOnWithCopy => if |s.counters| == 3 then t.(named := t.named.(cached := Copied(s))) else t
  }

  function RunNamed<V, P, E, N>(t: Tracked<V, P, E, N>, ops: seq<NamedOp<V, P, E>>,
                                codecs: nat -> Codec<Fields<V, P>, E>, default: nat, make: (Fields<V, P>, E) -> N)
    : Tracked<V, P, E, N>
    decreases |ops|
  {
    if |ops| == 0 then t else RunNamed(ApplyNamed(t, ops[0], codecs, default, make), ops[1..], codecs, default, make)
  }

  // What the operations leave in the cache, whatever the formats do and whatever is assigned.

  /** The count of the encoding is not ahead. */
  predicate Counted<V, P, E>(s: Cached<V, P, E>) { s.encodingCount <= s.changeCount }

  /** The current fields with the encoding that is returned for them, if one is cached. */
  function InCache<V, P, E>(s: Cached<V, P, E>): Option<Made<V, P, E>> {
    if Fresh(s) then Some(Made(FieldsOf(s), s.encoding.value)) else None
  }

  lemma RefreshedCache<V, P, E>(s: Cached<V, P, E>)
    requires Counted(s)
    ensures var r := Refreshed(s);
      && Counted(r) && FieldsOf(r) == FieldsOf(s) && InCache(r) == InCache(s) && Refreshed(r) == r
      && (r.encoding.Some? <==> Fresh(s)) && (Fresh(s) ==> r == s)
  {
    SeeAllSame(s.counters);
    RefreshedTwice(s);
  }

  lemma StoredCache<V, P, E>(s: Cached<V, P, E>, encoding: Option<E>, format: nat)
    ensures var t := Stored(s, encoding, format);
      && Counted(t) && FieldsOf(t) == FieldsOf(s) && t.format == format
      && InCache(t) == if encoding.Some? then Some(Made(FieldsOf(s), encoding.value)) else None
  {
    SeeAllSame(s.counters);
  }

  lemma EncodedCache<V, P, E>(s: Cached<V, P, E>, codecs: nat -> Codec<Fields<V, P>, E>, format: nat, default: nat)
    requires Counted(s)
    ensures var (t, e) := Encoded(s, codecs, format, default);
      var kept := Fresh(s) && s.format == format;
      && Counted(t) && FieldsOf(t) == FieldsOf(s) && Encoded(Refreshed(s), codecs, format, default) == (t, e)
      && e == (if kept then s.encoding.value else codecs(format).encode(FieldsOf(s)))
      && InCache(t) == if !kept && format == default then Some(Made(FieldsOf(s), e)) else InCache(s)
  {
    RefreshedCache(s);
    var r := Refreshed(s);
    hide Refreshed, Counted, InCache, FieldsOf;
    if !(Fresh(s) && s.format == format) {
      StoredCache(r, Some(codecs(format).encode(FieldsOf(r))), default);
    }
  }

  lemma DecodedCache<V, P, E>(s: Cached<V, P, E>, input: E, codecs: nat -> Codec<Fields<V, P>, E>, format: nat,
                              default: nat)
    requires Counted(s) && |codecs(format).decode(input).children| == |s.counters|
    ensures var f := codecs(format).decode(input); var t := DecodeStored(WithFields(s, f), input, format, default);
      Counted(t) && InCache(t) == if format == default then Some(Made(f, input)) else None
  {
    var f := codecs(format).decode(input);
    OverwrittenValues(s.counters, f.children);
    StoredCache(WithFields(s, f), Some(input), default);
    StoredCache(WithFields(s, f), None, 0);
  }

  lemma PlainCache<V, P, E>(s: Cached<V, P, E>, plain: P)
    requires Counted(s)
    ensures Counted(WithPlain(s, plain)) && InCache(WithPlain(s, plain)) == None
  {
  }

  lemma ChildCache<V, P, E>(s: Cached<V, P, E>, i: nat, target: Target<V>)
    requires Counted(s) && i < |s.counters|
    ensures Counted(WithChild(s, i, target)) && InCache(WithChild(s, i, target)) == None
  {
  }

  /** Changes of a child in place leave something in the cache only if every count is then the one last seen. A counted
      edit does so only after an assignment has set the count of the child back. */
  lemma InPlaceCache<V, P, E>(s: Cached<V, P, E>, i: nat, value: V, count: nat)
    requires i < |s.counters| && s.counters[i].target.Target?
    ensures var c := s.counters[i];
      && (InCache(WithEdit(s, i, value)).Some? ==> c.seen == c.target.count + 1)
      && (InCache(WithAssigned(s, i, value, count)).Some? ==> c.seen == count)
  {
    var c := s.counters[i];
    var edited, written := WithEdit(s, i, value), WithAssigned(s, i, value, count);
    AnyUnseenAt(edited.counters);
    AnyUnseenAt(written.counters);
    assert Unseen(edited.counters[i]) <==> c.seen != c.target.count + 1;
    assert Unseen(written.counters[i]) <==> c.seen != count;
  }

  lemma AssignedCache<V, P, E>(s: Cached<V, P, E>, other: Cached<V, P, E>)
    requires |other.counters| == 3
    ensures var t := Assigned(s, other);
      && Counted(t) && FieldsOf(t) == FieldsOf(other) && t.format == other.format
      && InCache(t) == if other.encoding.Some? then Some(Made(FieldsOf(other), other.encoding.value)) else None
  {
    var c := AssignedFields(s, other);
    ThreeValues(c.counters);
    ThreeValues(other.counters);
    StoredCache(c, other.encoding, other.format);
  }

  lemma CopiedCache<V, P, E>(s: Cached<V, P, E>)
    requires Counted(s) && |s.counters| == 3
    ensures var t := Copied(s);
      && Counted(t) && FieldsOf(t) == FieldsOf(s) && InCache(t) == InCache(s) && (Fresh(s) ==> t.format == s.format)
  {
    var c := CopiedFields(s);
    ThreeValues(c.counters);
    ThreeValues(s.counters);
    RefreshedCache(s);
    StoredCache(c, Refreshed(s).encoding, Refreshed(s).format);
  }

  /** What an operation other than getFullName puts into the cache: an encoding, and the fields it is then returned for.
      A change of a child in place puts nothing there unless every count is then the one last seen. */
  function Storing<V, P, E>(s: Cached<V, P, E>, op: NamedOp<V, P, E>, codecs: nat -> Codec<Fields<V, P>, E>,
                            default: nat): Option<Made<V, P, E>>
  {
    match op
    case Change(Encode(format)) =>
      if format == default && !(Fresh(s) && s.format == default)
      then Some(Made(FieldsOf(s), Encoded(s, codecs, default, default).1)) else None
    case Change(Decode(input, format)) =>
      var f := codecs(format).decode(input);
      if format == default && |f.children| == |s.counters| then Some(Made(f, input)) else None
    case Change(EditChild(i, value)) =>
      if i < |s.counters| && s.counters[i].target.Target? then InCache(WithEdit(s, i, value)) else None
    case AssignChild(i, value, count) =>
      if i < |s.counters| && s.counters[i].target.Target? then InCache(WithAssigned(s, i, value, count)) else None
    case AssignFrom(other) =>
      if |other.counters| == 3 && other.encoding.Some? then Some(Made(FieldsOf(other), other.encoding.value)) else None
    case _ => None
  }

  /** The cache then has what the operation stored, or what it had, or nothing. */
  lemma OpCache<V, P, E, N>(t: Tracked<V, P, E, N>, op: NamedOp<V, P, E>, codecs: nat -> Codec<Fields<V, P>, E>,
                            default: nat, make: (Fields<V, P>, E) -> N)
    requires Counted(t.named.cached) && !op.AskFullName?
    ensures var s, u := t.named.cached, ApplyNamed(t, op, codecs, default, make);
      && Counted(u.named.cached) && u.named.fullName == t.named.fullName && u.made == t.made
      && var stored, now := Storing(s, op, codecs, default), InCache(u.named.cached);
      if stored.Some? then now == stored else now == None || now == InCache(s)
  {
    var s := t.named.cached;
    hide InCache, Fresh, FieldsOf, Refreshed, Encoded, DecodeStored, WithFields, WithPlain, WithChild, Assigned, Copied;
    match op
    case Change(SetChild(i, target)) => if i < |s.counters| { ChildCache(s, i, target); }
    case Change(SetPlain(plain)) => PlainCache(s, plain);
    case Change(EditChild(i, value)) =>
    case Change(GetEncoding) => RefreshedCache(s);
    case Change(Encode(format)) => EncodedCache(s, codecs, format, default);
    case Change(Decode(input, format)) =>
      if |codecs(format).decode(input).children| == |s.counters| { DecodedCache(s, input, codecs, format, default); }
    case AssignFrom(other) => if |other.counters| == 3 { AssignedCache(s, other); }
    case AssignChild(i, value, count) =>
    case GoOnWithCopy => if |s.counters| == 3 { CopiedCache(s); }
  }

  // What the cached name is, over every run.

  /** The cached name is the one made from what is remembered of it. */
  ghost predicate NameKept<V, P, E, N>(t: Tracked<V, P, E, N>, make: (Fields<V, P>, E) -> N) {
    && Counted(t.named.cached)
    && t.named.fullName == match t.made
       case None => None
       case Some(m) => Some(make(m.fields, m.encoding))
  }

  /** What getFullName returns: the cached name, or one made from the current fields and their encoding. */
  lemma FullNameNow<V, P, E, N>(t: Tracked<V, P, E, N>, format: nat, codecs: nat -> Codec<Fields<V, P>, E>,
                                default: nat, make: (Fields<V, P>, E) -> N)
    requires NameKept(t, make)
    ensures var s := t.named.cached; var (u, name) := FullName(t.named, codecs, format, default, make);
      var e := Encoded(s, codecs, format, default).1;
      if FromCache(t.named, format) then
        && t.made.Some? && e == s.encoding.value && name == make(t.made.value.fields, t.made.value.encoding)
        && u == t.named
      else
        && name == make(FieldsOf(s), e) && u.cached == Encoded(s, codecs, format, default).0
        && u.fullName == if format == default then Some(name) else t.named.fullName
  {
    RefreshedCache(t.named.cached);
    EncodedCache(t.named.cached, codecs, format, default);
    hide Encoded, Counted, Checked, FieldsOf, InCache;
  }

  lemma AskKeepsName<V, P, E, N>(t: Tracked<V, P, E, N>, format: nat, codecs: nat -> Codec<Fields<V, P>, E>,
                                 default: nat, make: (Fields<V, P>, E) -> N)
    requires NameKept(t, make)
    ensures NameKept(ApplyNamed(t, AskFullName(format), codecs, default, make), make)
  {
    FullNameNow(t, format, codecs, default, make);
    EncodedCache(t.named.cached, codecs, format, default);
    hide Counted, FullName, Encoded, FieldsOf, InCache;
  }

  /** Over every run, the cached name is the one made from the fields and the encoding that it was last made from. */
  lemma {:induction false} RunKeepsName<V, P, E, N>(t: Tracked<V, P, E, N>, ops: seq<NamedOp<V, P, E>>,
      codecs: nat -> Codec<Fields<V, P>, E>, default: nat, make: (Fields<V, P>, E) -> N)
    requires NameKept(t, make)
    ensures NameKept(RunNamed(t, ops, codecs, default, make), make)
    decreases |ops|
  {
    if |ops| > 0 {
      StepKeepsName(t, ops[0], codecs, default, make);
      hide NameKept, ApplyNamed;
      RunKeepsName(ApplyNamed(t, ops[0], codecs, default, make), ops[1..], codecs, default, make);
    }
  }

  lemma StepKeepsName<V, P, E, N>(t: Tracked<V, P, E, N>, op: NamedOp<V, P, E>, codecs: nat -> Codec<Fields<V, P>, E>,
                                  default: nat, make: (Fields<V, P>, E) -> N)
    requires NameKept(t, make)
    ensures NameKept(ApplyNamed(t, op, codecs, default, make), make)
  {
    if op.AskFullName? {
      AskKeepsName(t, op.format, codecs, default, make);
    } else {
      OpCache(t, op, codecs, default, make);
      hide Counted, ApplyNamed;
    }
  }

  // When the name returned is current.

  /** The full name that belongs to the current fields and their encoding. */
  function CurrentName<V, P, E, N>(s: Cached<V, P, E>, codecs: nat -> Codec<Fields<V, P>, E>, format: nat, default: nat,
                                   make: (Fields<V, P>, E) -> N): N
  {
    make(FieldsOf(s), Encoded(s, codecs, format, default).1)
  }

  /** A full name depends on nothing but the name among the fields, and the encoding. */
  ghost predicate OfName<F(!new), E(!new), N, M>(make: (F, E) -> N, nameOf: F -> M) {
    forall f, g, e :: nameOf(f) == nameOf(g) ==> make(f, e) == make(g, e)
  }

  /** Names made for different encodings are different, as they are when the digest tells the encodings apart. */
  ghost predicate DistinguishesEncodings<F(!new), E(!new), N>(make: (F, E) -> N) {
    forall f, g, d, e :: make(f, d) == make(g, e) ==> d == e
  }

  /** And so are those made from different names. */
  ghost predicate Distinguishes<F(!new), E(!new), N, M>(make: (F, E) -> N, nameOf: F -> M) {
    forall f, g, d, e :: make(f, d) == make(g, e) ==> nameOf(f) == nameOf(g) && d == e
  }

  /** After any run, whatever was assigned in it, the full name returned is current if it is not taken from the cache or
      was made for the cached encoding and from the current name; and only then, if the digest tells encodings apart. */
  lemma FullNameIsCurrent<V(!new), P(!new), E(!new), N, M>(t0: Tracked<V, P, E, N>, ops: seq<NamedOp<V, P, E>>,
      format: nat, codecs: nat -> Codec<Fields<V, P>, E>, default: nat, make: (Fields<V, P>, E) -> N,
      nameOf: Fields<V, P> -> M)
    requires NameKept(t0, make) && OfName(make, nameOf)
    ensures var t := RunNamed(t0, ops, codecs, default, make); var s := t.named.cached;
      var current := FullName(t.named, codecs, format, default, make).1 == CurrentName(s, codecs, format, default, make);
      && (FromCache(t.named, format) ==> t.made.Some?)
      && var right := FromCache(t.named, format) ==>
           t.made.value.encoding == s.encoding.value && nameOf(t.made.value.fields) == nameOf(FieldsOf(s));
      && (right ==> current)
      && (Distinguishes(make, nameOf) ==> (current <==> right))
  {
    RunKeepsName(t0, ops, codecs, default, make);
    var t := RunNamed(t0, ops, codecs, default, make);
    hide RunNamed, NameKept, FullName, Encoded, FieldsOf;
    FullNameNow(t, format, codecs, default, make);
  }

  /** The packet assigned has no encoding, or one of its own fields, and nothing is assigned to a child. */
  ghost predicate Sound<V, P, E>(op: NamedOp<V, P, E>, codecs: nat -> Codec<Fields<V, P>, E>, default: nat) {
    && !op.AssignChild?
    && (op.AssignFrom? && op.other.encoding.Some? ==>
          op.other.format == default && codecs(default).decode(op.other.encoding.value) == FieldsOf(op.other))
  }

  ghost predicate AllSound<V, P, E>(ops: seq<NamedOp<V, P, E>>, codecs: nat -> Codec<Fields<V, P>, E>, default: nat) {
    forall i :: 0 <= i < |ops| ==> Sound(ops[i], codecs, default)
  }

  /** What is cached, and what the name was made from, are fields with an encoding of them. */
  ghost predicate Truthful<V, P, E, N>(t: Tracked<V, P, E, N>, codecs: nat -> Codec<Fields<V, P>, E>, default: nat) {
    && Coherent(t.named.cached, codecs)
    && (t.named.cached.encoding.Some? ==> t.named.cached.format == default)
    && (t.made.Some? ==> codecs(default).decode(t.made.value.encoding) == t.made.value.fields)
  }

  lemma OpFormat<V, P, E>(s: Cached<V, P, E>, op: Op<V, P, E>, codecs: nat -> Codec<Fields<V, P>, E>, default: nat)
    requires s.encoding.Some? ==> s.format == default
    ensures var t := ApplyOp(s, op, codecs, default); t.encoding.Some? ==> t.format == default
  {
  }

  lemma AskTruthful<V(!new), P(!new), E, N>(t: Tracked<V, P, E, N>, format: nat, codecs: nat -> Codec<Fields<V, P>, E>,
                                            default: nat, make: (Fields<V, P>, E) -> N)
    requires RoundTrips(codecs) && Truthful(t, codecs, default) && NameKept(t, make)
    ensures Truthful(ApplyNamed(t, AskFullName(format), codecs, default, make), codecs, default)
  {
    var s := t.named.cached;
    FullNameNow(t, format, codecs, default, make);
    EncodedIsCurrent(s, codecs, format, default);
    OpFormat(s, Encode(format), codecs, default);
    hide RoundTrips, Coherent, FullName, Encoded, FieldsOf, NameKept;
  }

  lemma AssignTruthful<V, P, E>(s: Cached<V, P, E>, other: Cached<V, P, E>, codecs: nat -> Codec<Fields<V, P>, E>,
                                default: nat)
    requires Coherent(s, codecs) && |other.counters| == 3 && Sound(AssignFrom(other), codecs, default)
    ensures Coherent(Assigned(s, other), codecs)
    ensures Assigned(s, other).encoding.Some? ==> Assigned(s, other).format == default
  {
    var c := AssignedFields(s, other);
    ThreeValues(c.counters);
    ThreeValues(other.counters);
    StoredCoherent(c, other.encoding, other.format, codecs);
  }

  lemma CopyTruthful<V, P, E>(s: Cached<V, P, E>, codecs: nat -> Codec<Fields<V, P>, E>, default: nat)
    requires Coherent(s, codecs) && (s.encoding.Some? ==> s.format == default) && |s.counters| == 3
    ensures Coherent(Copied(s), codecs) && (Copied(s).encoding.Some? ==> Copied(s).format == default)
  {
    CopyCoherent(s, codecs);
  }

  lemma StepTruthful<V(!new), P(!new), E, N>(t: Tracked<V, P, E, N>, op: NamedOp<V, P, E>,
      codecs: nat -> Codec<Fields<V, P>, E>, default: nat, make: (Fields<V, P>, E) -> N)
    requires RoundTrips(codecs) && Truthful(t, codecs, default) && NameKept(t, make) && Sound(op, codecs, default)
    ensures Truthful(ApplyNamed(t, op, codecs, default, make), codecs, default)
  {
    var s := t.named.cached;
    assert !op.AssignChild?;
    hide RoundTrips, Coherent, Assigned, Copied, ApplyOp, NameKept, Sound;
    match op
    case Change(change) =>
      OpCoherent(s, change, codecs, default);
      OpFormat(s, change, codecs, default);
    case AskFullName(format) => AskTruthful(t, format, codecs, default, make);
    case AssignFrom(other) => if |other.counters| == 3 { AssignTruthful(s, other, codecs, default); }
    case GoOnWithCopy => if |s.counters| == 3 { CopyTruthful(s, codecs, default); }
  }

  lemma {:induction false} RunTruthful<V(!new), P(!new), E, N>(t: Tracked<V, P, E, N>, ops: seq<NamedOp<V, P, E>>,
      codecs: nat -> Codec<Fields<V, P>, E>, default: nat, make: (Fields<V, P>, E) -> N)
    requires RoundTrips(codecs) && Truthful(t, codecs, default) && NameKept(t, make) && AllSound(ops, codecs, default)
    ensures Truthful(RunNamed(t, ops, codecs, default, make), codecs, default)
    decreases |ops|
  {
    if |ops| > 0 {
      StepTruthful(t, ops[0], codecs, default, make);
      StepKeepsName(t, ops[0], codecs, default, make);
      hide RoundTrips, Truthful, NameKept, ApplyNamed, Sound;
      RunTruthful(ApplyNamed(t, ops[0], codecs, default, make), ops[1..], codecs, default, make);
    }
  }

  /** When the assignments of the run are sound, the encoding alone decides: the full name returned is
      current if it is not taken from the cache or was made for the cached encoding, and only then, if the digest tells
      encodings apart. */
  lemma FullNameByEncoding<V(!new), P(!new), E(!new), N>(t0: Tracked<V, P, E, N>, ops: seq<NamedOp<V, P, E>>,
      format: nat, codecs: nat -> Codec<Fields<V, P>, E>, default: nat, make: (Fields<V, P>, E) -> N)
    requires RoundTrips(codecs) && Truthful(t0, codecs, default) && NameKept(t0, make) && AllSound(ops, codecs, default)
    ensures var t := RunNamed(t0, ops, codecs, default, make); var s := t.named.cached;
      var current := FullName(t.named, codecs, format, default, make).1 == CurrentName(s, codecs, format, default, make);
      && (FromCache(t.named, format) ==> t.made.Some?)
      && var right := FromCache(t.named, format) ==> t.made.value.encoding == s.encoding.value;
      && (right ==> current)
      && (DistinguishesEncodings(make) ==> (current <==> right))
  {
    RunKeepsName(t0, ops, codecs, default, make);
    RunTruthful(t0, ops, codecs, default, make);
    var t := RunNamed(t0, ops, codecs, default, make);
    hide RunNamed, NameKept, FullName, Encoded, FieldsOf, RoundTrips, AllSound;
    FullNameNow(t, format, codecs, default, make);
  }

  // When that holds, as a caller sees it.

  /** The operation stores an encoding that is not the one the name was made for, or leaves it for other fields. */
  ghost predicate StoresOther<V, P, E, N>(t: Tracked<V, P, E, N>, op: NamedOp<V, P, E>,
                                          codecs: nat -> Codec<Fields<V, P>, E>, default: nat)
  {
    var stored := Storing(t.named.cached, op, codecs, default);
    stored.Some? && stored != t.made
  }

  /** No operation of the run does so while there is a cached name. */
  ghost predicate StoresNoOther<V, P, E, N>(t: Tracked<V, P, E, N>, ops: seq<NamedOp<V, P, E>>,
      codecs: nat -> Codec<Fields<V, P>, E>, default: nat, make: (Fields<V, P>, E) -> N)
    decreases |ops|
  {
    |ops| == 0
    || ((t.made.Some? ==> !StoresOther(t, ops[0], codecs, default))
        && StoresNoOther(ApplyNamed(t, ops[0], codecs, default, make), ops[1..], codecs, default, make))
  }

  /** The cached name, if there is one, was made from what is in the cache, if anything is. */
  ghost predicate MadeFromCache<V, P, E, N>(t: Tracked<V, P, E, N>) {
    InCache(t.named.cached).Some? && t.made.Some? ==> InCache(t.named.cached) == t.made
  }

  /** Whenever getFullName makes a name, in the default format, it is made from what is then in the cache. */
  lemma MadeForThis<V, P, E, N>(t: Tracked<V, P, E, N>, codecs: nat -> Codec<Fields<V, P>, E>, default: nat,
                                make: (Fields<V, P>, E) -> N)
    requires NameKept(t, make) && !FromCache(t.named, default)
    ensures var u := ApplyNamed(t, AskFullName(default), codecs, default, make);
      u.made.Some? && u.made == InCache(u.named.cached)
  {
    FullNameNow(t, default, codecs, default, make);
    EncodedCache(t.named.cached, codecs, default, default);
    hide NameKept, FullName, Encoded, FieldsOf;
  }

  lemma AskMadeFromCache<V, P, E, N>(t: Tracked<V, P, E, N>, format: nat, codecs: nat -> Codec<Fields<V, P>, E>,
                                     default: nat, make: (Fields<V, P>, E) -> N)
    requires NameKept(t, make) && MadeFromCache(t)
    ensures MadeFromCache(ApplyNamed(t, AskFullName(format), codecs, default, make))
  {
    FullNameNow(t, format, codecs, default, make);
    EncodedCache(t.named.cached, codecs, format, default);
    if format == default && !FromCache(t.named, default) { MadeForThis(t, codecs, default, make); }
    hide NameKept, FullName, Encoded, FieldsOf, InCache;
  }

  lemma StepMadeFromCache<V, P, E, N>(t: Tracked<V, P, E, N>, op: NamedOp<V, P, E>,
      codecs: nat -> Codec<Fields<V, P>, E>, default: nat, make: (Fields<V, P>, E) -> N)
    requires NameKept(t, make) && MadeFromCache(t) && (t.made.Some? ==> !StoresOther(t, op, codecs, default))
    ensures MadeFromCache(ApplyNamed(t, op, codecs, default, make))
  {
    if op.AskFullName? {
      AskMadeFromCache(t, op.format, codecs, default, make);
    } else {
      OpCache(t, op, codecs, default, make);
      hide ApplyNamed, Counted, Storing, InCache;
    }
  }

  /** The full name is current after every run in which no encode, decode or assignment has stored an encoding other than
      the one the cached name was made for, or left it for other fields. Nothing is asked of the digest. */
  lemma {:induction false} CurrentUnlessStored<V, P, E, N>(t: Tracked<V, P, E, N>, ops: seq<NamedOp<V, P, E>>,
      format: nat, codecs: nat -> Codec<Fields<V, P>, E>, default: nat, make: (Fields<V, P>, E) -> N)
    requires NameKept(t, make) && MadeFromCache(t) && StoresNoOther(t, ops, codecs, default, make)
    ensures var u := RunNamed(t, ops, codecs, default, make);
      && MadeFromCache(u)
      && FullName(u.named, codecs, format, default, make).1
         == CurrentName(u.named.cached, codecs, format, default, make)
    decreases |ops|
  {
    if |ops| == 0 {
      FullNameNow(t, format, codecs, default, make);
      hide NameKept, FullName, Encoded, FieldsOf;
    } else {
      StepKeepsName(t, ops[0], codecs, default, make);
      StepMadeFromCache(t, ops[0], codecs, default, make);
      hide NameKept, ApplyNamed, MadeFromCache, StoresOther, FullName, CurrentName;
      CurrentUnlessStored(ApplyNamed(t, ops[0], codecs, default, make), ops[1..], format, codecs, default, make);
    }
  }

  /** When the operation is sound, that is to store an encoding other than the one the name was made for. */
  lemma StoresOtherEncoding<V(!new), P(!new), E, N>(t: Tracked<V, P, E, N>, op: NamedOp<V, P, E>,
      codecs: nat -> Codec<Fields<V, P>, E>, default: nat)
    requires RoundTrips(codecs) && Truthful(t, codecs, default) && Sound(op, codecs, default) && t.made.Some?
    ensures var stored := Storing(t.named.cached, op, codecs, default);
      StoresOther(t, op, codecs, default) <==> stored.Some? && stored.value.encoding != t.made.value.encoding
  {
    var s := t.named.cached;
    EncodedIsCurrent(s, codecs, default, default);
    if op.Change? && op.op.EditChild? && op.op.i < |s.counters| && s.counters[op.op.i].target.Target? {
      EditIsUnseen(s, op.op.i, op.op.value);
    }
    hide RoundTrips, InOrder, FieldsOf, Encoded;
  }

  /** An encode, decode or assignment that stores another encoding makes the very next full name a wrong one. */
  lemma StoredMakesStale<V(!new), P(!new), E(!new), N>(t: Tracked<V, P, E, N>, op: NamedOp<V, P, E>,
      codecs: nat -> Codec<Fields<V, P>, E>, default: nat, make: (Fields<V, P>, E) -> N)
    requires DistinguishesEncodings(make) && NameKept(t, make) && t.made.Some?
    requires var stored := Storing(t.named.cached, op, codecs, default);
      stored.Some? && stored.value.encoding != t.made.value.encoding
    ensures var u := ApplyNamed(t, op, codecs, default, make).named; var format := u.cached.format;
      FullName(u, codecs, format, default, make).1 != CurrentName(u.cached, codecs, format, default, make)
  {
    var u := ApplyNamed(t, op, codecs, default, make);
    StepKeepsName(t, op, codecs, default, make);
    OpCache(t, op, codecs, default, make);
    hide ApplyNamed, Storing, Encoded, FullName, FieldsOf;
    FullNameNow(u, u.named.cached.format, codecs, default, make);
  }

  /** Ask for the full name, and assign a packet that has been encoded: the assignment is sound, and the full name that
      is then returned is the old one, whatever the packet assigned. */
  lemma AssignedKeepsName<V(!new), P(!new), E, N>(s: Named<V, P, E, N>, other: Cached<V, P, E>,
      codecs: nat -> Codec<Fields<V, P>, E>, default: nat, make: (Fields<V, P>, E) -> N)
    requires RoundTrips(codecs) && Coherent(s.cached, codecs) && Coherent(other, codecs) && |other.counters| == 3
    ensures var (first, name) := FullName(s, codecs, default, default, make);
      var encoded := Encoded(other, codecs, default, default).0;
      && |encoded.counters| == 3 && Fresh(encoded) && Coherent(encoded, codecs)
      && var got := Assigned(first.cached, encoded);
      && Coherent(got, codecs) && FieldsOf(got) == FieldsOf(other)
      && FullName(first.(cached := got), codecs, default, default, make).1 == name
  {
    var encoded := Encoded(other, codecs, default, default).0;
    EncodedIsCurrent(other, codecs, default, default);
    EncodedForDefault(other, codecs, default);
    SameNumber(other, codecs, default);
    var (first, name) := FullName(s, codecs, default, default, make);
    AskedCoherent(s, codecs, default, make);
    hide FullName, Encoded, FieldsOf, RoundTrips;
    AssignTruthful(first.cached, encoded, codecs, default);
    AssignedCache(first.cached, encoded);
    CachedNameReturned(first.(cached := Assigned(first.cached, encoded)), codecs, default, make);
  }

  lemma SameNumber<V, P, E>(s: Cached<V, P, E>, codecs: nat -> Codec<Fields<V, P>, E>, default: nat)
    ensures |Encoded(s, codecs, default, default).0.counters| == |s.counters|
  {
    SeeAllSame(s.counters);
  }

  lemma AskedCoherent<V(!new), P(!new), E, N>(s: Named<V, P, E, N>, codecs: nat -> Codec<Fields<V, P>, E>,
                                              default: nat, make: (Fields<V, P>, E) -> N)
    requires RoundTrips(codecs) && Coherent(s.cached, codecs)
    ensures var (first, name) := FullName(s, codecs, default, default, make);
      Coherent(first.cached, codecs) && first.fullName == Some(name)
  {
    RefreshedIsCurrent(s.cached, codecs);
    EncodedIsCurrent(Refreshed(s.cached), codecs, default, default);
    hide RoundTrips, Coherent, Refreshed, Encoded;
  }

  lemma CachedNameReturned<V, P, E, N>(s: Named<V, P, E, N>, codecs: nat -> Codec<Fields<V, P>, E>, format: nat,
                                       make: (Fields<V, P>, E) -> N)
    requires FromCache(s, format)
    ensures FullName(s, codecs, format, format, make).1 == s.fullName.value
  {
    hide Encoded, FieldsOf;
  }
}
