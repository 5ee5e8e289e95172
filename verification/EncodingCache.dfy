/** The encoding that a packet object caches under change counts: what each operation does, and when the cached encoding
    is that of the current fields. */
module EncodingCache {
  datatype Option<T> = None | Some(value: T)

  /** A child object and the count of its changes; a shared pointer may have no target. */
  datatype Target<V> = NoTarget | Target(value: V, count: nat)

  /** A ChangeCounter: the child and the count last seen. */
  datatype Counter<V> = Counter(target: Target<V>, seen: nat)

  /** A counter set to a target. */
  function Holding<V>(target: Target<V>): Counter<V> { Counter(target, if target.Target? then target.count else 0) }

  predicate Unseen<V>(c: Counter<V>) { c.target.Target? && c.target.count != c.seen }

  function See<V>(c: Counter<V>): Counter<V> { if c.target.Target? then c.(seen := c.target.count) else c }

  function ValueOf<V>(c: Counter<V>): Option<V> { if c.target.Target? then Some(c.target.value) else None }

  /** A wire format. It is identified by a number, since objects compare formats by address. */
  datatype Codec<!F, !E> = Codec(encode: F -> E, decode: E -> F)

  datatype Fields<V, P> = Fields(children: seq<Option<V>>, plain: P)

  /** An object with its counted children, its other fields, its change count and its cached encoding. */
  datatype Cached<V, P, E> = Cached(
    counters: seq<Counter<V>>, plain: P, changeCount: nat,
    encoding: Option<E>, format: nat, encodingCount: nat)

  function Values<V>(counters: seq<Counter<V>>): (r: seq<Option<V>>)
    ensures |r| == |counters|
  {
    if counters == [] then [] else [ValueOf(counters[0])] + Values(counters[1..])
  }

  function FieldsOf<V, P, E>(s: Cached<V, P, E>): Fields<V, P> { Fields(Values(s.counters), s.plain) }

  /** checkChanged on every child: none is skipped. */
  function SeeAll<V>(counters: seq<Counter<V>>): (r: seq<Counter<V>>)
    ensures |r| == |counters|
  {
    if counters == [] then [] else [See(counters[0])] + SeeAll(counters[1..])
  }

  predicate AnyUnseen<V>(counters: seq<Counter<V>>) {
    counters != [] && (Unseen(counters[0]) || AnyUnseen(counters[1..]))
  }

  /** getChangeCount, which counts the changes of the children as one. */
  function Checked<V, P, E>(s: Cached<V, P, E>): Cached<V, P, E> {
    if AnyUnseen(s.counters) then s.(counters := SeeAll(s.counters), changeCount := s.changeCount + 1) else s
  }

  /** getDefaultWireEncoding, which drops the encoding if anything has changed. */
  function Refreshed<V, P, E>(s: Cached<V, P, E>): Cached<V, P, E> {
    var c := Checked(s);
    if c.encodingCount != c.changeCount then c.(encoding := None, format := 0, encodingCount := c.changeCount) else c
  }

  /** setDefaultWireEncoding */
  function Stored<V, P, E>(s: Cached<V, P, E>, encoding: Option<E>, format: nat): Cached<V, P, E> {
    var c := Checked(s.(encoding := encoding, format := format));
    c.(encodingCount := c.changeCount)
  }

  function WithChild<V, P, E>(s: Cached<V, P, E>, i: nat, target: Target<V>): Cached<V, P, E>
    requires i < |s.counters|
  {
    s.(counters := s.counters[i := Holding(target)], changeCount := s.changeCount + 1)
  }

  function WithPlain<V, P, E>(s: Cached<V, P, E>, plain: P): Cached<V, P, E> {
    s.(plain := plain, changeCount := s.changeCount + 1)
  }

  /** A change of a child through one of its counted methods, unknown to the object. */
  function WithEdit<V, P, E>(s: Cached<V, P, E>, i: nat, value: V): Cached<V, P, E>
    requires i < |s.counters| && s.counters[i].target.Target?
  {
    var c := s.counters[i];
    s.(counters := s.counters[i := c.(target := Target(value, c.target.count + 1))])
  }

  /** The assignment of another object to a child, which takes over its value and its count. */
  function WithAssigned<V, P, E>(s: Cached<V, P, E>, i: nat, value: V, count: nat): Cached<V, P, E>
    requires i < |s.counters|
  {
    s.(counters := s.counters[i := s.counters[i].(target := Target(value, count))])
  }

  /** wireEncode, with the number of the default format; returns the encoding also. */
  function Encoded<V, P, E>(s: Cached<V, P, E>, codecs: nat -> Codec<Fields<V, P>, E>, format: nat, default: nat)
    : (Cached<V, P, E>, E)
  {
    var r := Refreshed(s);
    if r.encoding.Some? && r.format == format then (r, r.encoding.value)
    else
      var e := codecs(format).encode(FieldsOf(r));
      (if format == default then Stored(r, Some(e), default) else r, e)
  }

  /** The end of wireDecode, when the fields have been set from the input. */
  function DecodeStored<V, P, E>(s: Cached<V, P, E>, input: E, format: nat, default: nat): Cached<V, P, E> {
    if format == default then Stored(s, Some(input), default) else Stored(s, None, 0)
  }

  // Coherence.

  ghost predicate RoundTrips<F(!new), E>(codecs: nat -> Codec<F, E>) {
    forall format, f :: codecs(format).decode(codecs(format).encode(f)) == f
  }

  /** The cached encoding is current as far as the counts can tell. */
  predicate Fresh<V, P, E>(s: Cached<V, P, E>) {
    s.encoding.Some? && s.encodingCount == s.changeCount && !AnyUnseen(s.counters)
  }

  /** No counter has seen more changes than its child has had. */
  ghost predicate InOrder<V>(counters: seq<Counter<V>>) {
    forall i :: 0 <= i < |counters| && counters[i].target.Target? ==> counters[i].seen <= counters[i].target.count
  }

  /** A cached encoding that the counts take for current decodes to the current fields. */
  ghost predicate Coherent<V, P, E>(s: Cached<V, P, E>, codecs: nat -> Codec<Fields<V, P>, E>) {
    && s.encodingCount <= s.changeCount
    && InOrder(s.counters)
    && (Fresh(s) ==> codecs(s.format).decode(s.encoding.value) == FieldsOf(s))
  }

  lemma {:induction false} SeeAllSame<V>(counters: seq<Counter<V>>)
    ensures |SeeAll(counters)| == |counters| && Values(SeeAll(counters)) == Values(counters)
    ensures !AnyUnseen(SeeAll(counters))
    ensures forall i :: 0 <= i < |counters| ==> SeeAll(counters)[i] == See(counters[i])
    ensures !AnyUnseen(counters) ==> SeeAll(counters) == counters
  {
    if counters != [] { SeeAllSame(counters[1..]); }
  }

  lemma {:induction false} AnyUnseenAt<V>(counters: seq<Counter<V>>)
    ensures AnyUnseen(counters) <==> exists i :: 0 <= i < |counters| && Unseen(counters[i])
  {
    if counters != [] {
      AnyUnseenAt(counters[1..]);
      if AnyUnseen(counters[1..]) {
        var i :| 0 <= i < |counters[1..]| && Unseen(counters[1..][i]);
        assert Unseen(counters[i + 1]);
      }
      if exists i :: 0 <= i < |counters| && Unseen(counters[i]) {
        var i :| 0 <= i < |counters| && Unseen(counters[i]);
        if i > 0 { assert Unseen(counters[1..][i - 1]); }
      }
    }
  }

  lemma CheckedKeeps<V, P, E>(s: Cached<V, P, E>, codecs: nat -> Codec<Fields<V, P>, E>)
    ensures FieldsOf(Checked(s)) == FieldsOf(s) && !AnyUnseen(Checked(s).counters)
    ensures Coherent(s, codecs) ==> Coherent(Checked(s), codecs)
  {
    SeeAllSame(s.counters);
  }

  /** What getDefaultWireEncoding returns, if anything, is an encoding of the current fields. */
  lemma RefreshedIsCurrent<V, P, E>(s: Cached<V, P, E>, codecs: nat -> Codec<Fields<V, P>, E>)
    requires Coherent(s, codecs)
    ensures var r := Refreshed(s);
      && Coherent(r, codecs) && FieldsOf(r) == FieldsOf(s)
      && (r.encoding.Some? ==> codecs(r.format).decode(r.encoding.value) == FieldsOf(s))
      && (r.encoding.Some? <==> Fresh(s))
  {
    CheckedKeeps(s, codecs);
  }

  lemma StoredCoherent<V, P, E>(s: Cached<V, P, E>, encoding: Option<E>, format: nat,
                                codecs: nat -> Codec<Fields<V, P>, E>)
    requires Coherent(s.(encoding := None), codecs)
    ensures FieldsOf(Stored(s, encoding, format)) == FieldsOf(s)
    ensures Coherent(Stored(s, encoding, format), codecs)
       <==> encoding.None? || codecs(format).decode(encoding.value) == FieldsOf(s)
  {
    SeeAllSame(s.counters);
  }

  // Every operation keeps coherence.

  lemma {:induction false} ValuesAt<V>(counters: seq<Counter<V>>, i: nat)
    requires i < |counters|
    ensures Values(counters)[i] == ValueOf(counters[i])
  {
    if i > 0 { ValuesAt(counters[1..], i - 1); }
  }

  /** A change of a child is noticed at the next check, whichever child it is. */
  lemma EditIsUnseen<V, P, E>(s: Cached<V, P, E>, i: nat, value: V)
    requires i < |s.counters| && s.counters[i].target.Target? && s.counters[i].seen <= s.counters[i].target.count
    ensures AnyUnseen(WithEdit(s, i, value).counters)
  {
    AnyUnseenAt(WithEdit(s, i, value).counters);
    assert Unseen(WithEdit(s, i, value).counters[i]);
  }

  lemma SetterCoherent<V, P, E>(s: Cached<V, P, E>, i: nat, target: Target<V>, plain: P,
                                codecs: nat -> Codec<Fields<V, P>, E>)
    requires Coherent(s, codecs)
    ensures Coherent(WithPlain(s, plain), codecs)
    ensures i < |s.counters| ==> Coherent(WithChild(s, i, target), codecs)
  {
  }

  lemma EditCoherent<V, P, E>(s: Cached<V, P, E>, i: nat, value: V, codecs: nat -> Codec<Fields<V, P>, E>)
    requires Coherent(s, codecs) && i < |s.counters| && s.counters[i].target.Target?
    ensures Coherent(WithEdit(s, i, value), codecs)
  {
    EditIsUnseen(s, i, value);
  }

  /** wireEncode returns an encoding of the current fields, cached or not, and changes none of them. */
  lemma EncodedIsCurrent<V(!new), P(!new), E>(s: Cached<V, P, E>, codecs: nat -> Codec<Fields<V, P>, E>, format: nat,
                                              default: nat)
    requires RoundTrips(codecs) && Coherent(s, codecs)
    ensures var (t, e) := Encoded(s, codecs, format, default);
      && Coherent(t, codecs) && FieldsOf(t) == FieldsOf(s) && codecs(format).decode(e) == FieldsOf(s)
      && (format == default ==> Fresh(t) && t.encoding == Some(e))
  {
    RefreshedIsCurrent(s, codecs);
    var r := Refreshed(s);
    if !(r.encoding.Some? && r.format == format) {
      var e := codecs(format).encode(FieldsOf(r));
      assert codecs(format).decode(e) == FieldsOf(r);
      StoredCoherent(r, Some(e), format, codecs);
      CheckedKeeps(r, codecs);
      SeeAllSame(r.counters);
    } else {
      SeeAllSame(s.counters);
    }
  }

  /** After wireDecode has set the fields from the input, the input is a current encoding of them. */
  lemma DecodedCoherent<V, P, E>(s: Cached<V, P, E>, input: E, format: nat, default: nat,
                                 codecs: nat -> Codec<Fields<V, P>, E>)
    requires Coherent(s.(encoding := None), codecs) && codecs(format).decode(input) == FieldsOf(s)
    ensures Coherent(DecodeStored(s, input, format, default), codecs)
    ensures FieldsOf(DecodeStored(s, input, format, default)) == FieldsOf(s)
  {
    StoredCoherent(s, Some(input), default, codecs);
    StoredCoherent(s, None, 0, codecs);
  }

  /** A decoded packet is encoded in its format as it came, byte by byte, and so is one that has just been encoded. */
  lemma KeepsEncoding<V, P, E>(s: Cached<V, P, E>, input: E, codecs: nat -> Codec<Fields<V, P>, E>, default: nat)
    ensures Encoded(DecodeStored(s, input, default, default), codecs, default, default).1 == input
    ensures var (t, e) := Encoded(s, codecs, default, default); Encoded(t, codecs, default, default) == (t, e)
  {
    SeeAllSame(s.counters);
    StoredIsReturned(s, Some(input), default);
    var r := Refreshed(s);
    SeeAllSame(r.counters);
    StoredIsReturned(r, Some(codecs(default).encode(FieldsOf(r))), default);
    RefreshedTwice(s);
  }

  /** What has just been stored is returned. */
  lemma StoredIsReturned<V, P, E>(s: Cached<V, P, E>, encoding: Option<E>, format: nat)
    ensures var t := Stored(s, encoding, format);
      Refreshed(t) == t && t.encoding == encoding && t.format == format && FieldsOf(t) == FieldsOf(s)
  {
    SeeAllSame(s.counters);
  }

  lemma RefreshedTwice<V, P, E>(s: Cached<V, P, E>)
    ensures Refreshed(Refreshed(s)) == Refreshed(s)
  {
    SeeAllSame(s.counters);
  }

  // Runs.

  /** A counter after its child has been set in place to a decoded value, with the change counted. */
  function Replaced<V>(c: Counter<V>, value: Option<V>): (r: Counter<V>)
    ensures ValueOf(r) == value
    ensures c.target.Target? && c.seen <= c.target.count && value.Some? ==> Unseen(r)
    ensures c.target.Target? && c.seen <= c.target.count && r.target.Target? ==> r.seen <= r.target.count
    ensures c.target.NoTarget? && r.target.Target? ==> r.seen <= r.target.count
  {
    match value
    case None => Holding(NoTarget)
    case Some(v) => if c.target.Target? then c.(target := Target(v, c.target.count + 1)) else Holding(Target(v, 0))
  }

  /** The counters after every child has been set in place. */
  function Overwritten<V>(counters: seq<Counter<V>>, values: seq<Option<V>>): (r: seq<Counter<V>>)
    requires |values| == |counters|
    ensures |r| == |counters| && forall i :: 0 <= i < |r| ==> r[i] == Replaced(counters[i], values[i])
  {
    if counters == [] then [] else [Replaced(counters[0], values[0])] + Overwritten(counters[1..], values[1..])
  }

  lemma OverwrittenValues<V>(counters: seq<Counter<V>>, values: seq<Option<V>>)
    requires |values| == |counters|
    ensures Values(Overwritten(counters, values)) == values
    ensures InOrder(counters) ==> InOrder(Overwritten(counters, values))
  {
    hide Overwritten, Replaced;
    var r := Overwritten(counters, values);
    forall i | 0 <= i < |r| ensures Values(r)[i] == values[i] { ValuesAt(r, i); }
  }

  function WithFields<V, P, E>(s: Cached<V, P, E>, f: Fields<V, P>): Cached<V, P, E>
    requires |f.children| == |s.counters|
  {
    s.(counters := Overwritten(s.counters, f.children), plain := f.plain, changeCount := s.changeCount + 1)
  }

  datatype Op<V, P, E> =
    | SetChild(i: nat, target: Target<V>)
    | SetPlain(plain: P)
    | EditChild(i: nat, value: V)
    | GetEncoding
    | Encode(format: nat)
    | Decode(input: E, format: nat)

  /** One operation. A decoding that does not fit the object fails and changes nothing. */
  function ApplyOp<V, P, E>(s: Cached<V, P, E>, op: Op<V, P, E>, codecs: nat -> Codec<Fields<V, P>, E>, default: nat)
    : Cached<V, P, E>
  {
    match op
    case SetChild(i, target) => if i < |s.counters| then WithChild(s, i, target) else s
    case SetPlain(plain) => WithPlain(s, plain)
    case EditChild(i, value) => if i < |s.counters| && s.counters[i].target.Target? then WithEdit(s, i, value) else s
    case GetEncoding => Refreshed(s)
    case Encode(format) => Encoded(s, codecs, format, default).0
    case Decode(input, format) =>
      var f := codecs(format).decode(input);
      if |f.children| != |s.counters| then s
      else
        DecodeStored(WithFields(s, f), input, format, default)
  }

  function RunOps<V, P, E>(s: Cached<V, P, E>, ops: seq<Op<V, P, E>>, codecs: nat -> Codec<Fields<V, P>, E>,
                           default: nat)
    : Cached<V, P, E>
    decreases |ops|
  {
    if |ops| == 0 then s else RunOps(ApplyOp(s, ops[0], codecs, default), ops[1..], codecs, default)
  }

  lemma OpCoherent<V(!new), P(!new), E>(s: Cached<V, P, E>, op: Op<V, P, E>, codecs: nat -> Codec<Fields<V, P>, E>,
                                        default: nat)
    requires RoundTrips(codecs) && Coherent(s, codecs)
    ensures Coherent(ApplyOp(s, op, codecs, default), codecs)
  {
    match op
    case SetChild(i, target) =>
    case SetPlain(plain) =>
    case EditChild(i, value) =>
      if i < |s.counters| && s.counters[i].target.Target? { EditCoherent(s, i, value, codecs); }
    case GetEncoding => RefreshedIsCurrent(s, codecs);
    case Encode(format) => EncodedIsCurrent(s, codecs, format, default);
    case Decode(input, format) =>
      var f := codecs(format).decode(input);
      if |f.children| == |s.counters| {
        OverwrittenValues(s.counters, f.children);
        DecodedCoherent(WithFields(s, f), input, format, default, codecs);
      }
  }

  /** The operation changes a field, or sets all of them. */
  predicate Changes<V, P, E>(s: Cached<V, P, E>, op: Op<V, P, E>, codecs: nat -> Codec<Fields<V, P>, E>) {
    match op
    case SetChild(i, _) => i < |s.counters|
    case SetPlain(_) => true
    case EditChild(i, _) => i < |s.counters| && s.counters[i].target.Target?
    case Decode(input, format) => |codecs(format).decode(input).children| == |s.counters|
    case _ => false
  }

  /** getChangeCount moves if and only if the operation is a change, so an object that holds this one as a child
      notices every change of it, and nothing else. */
  lemma ChangeIsCounted<V, P, E>(s: Cached<V, P, E>, op: Op<V, P, E>, codecs: nat -> Codec<Fields<V, P>, E>,
                                 default: nat)
    requires InOrder(s.counters) && !AnyUnseen(s.counters)
    ensures s.changeCount <= Checked(ApplyOp(s, op, codecs, default)).changeCount
    ensures s.changeCount < Checked(ApplyOp(s, op, codecs, default)).changeCount <==> Changes(s, op, codecs)
  {
    SeeAllSame(s.counters);
    if op.EditChild? && op.i < |s.counters| && s.counters[op.i].target.Target? { EditIsUnseen(s, op.i, op.value); }
    hide AnyUnseen, SeeAll, Values, Overwritten;
  }

  lemma {:induction false} RunCoherent<V(!new), P(!new), E>(s: Cached<V, P, E>, ops: seq<Op<V, P, E>>,
                                                            codecs: nat -> Codec<Fields<V, P>, E>, default: nat)
    requires RoundTrips(codecs) && Coherent(s, codecs)
    ensures Coherent(RunOps(s, ops, codecs, default), codecs)
    decreases |ops|
  {
    if |ops| > 0 {
      OpCoherent(s, ops[0], codecs, default);
      RunCoherent(ApplyOp(s, ops[0], codecs, default), ops[1..], codecs, default);
    }
  }

  /** Over every run of setters, counted edits of the children, encodings and decodings, what getDefaultWireEncoding
      then returns, if anything, decodes to the current fields. */
  lemma CachedEncodingIsCurrent<V(!new), P(!new), E>(s: Cached<V, P, E>, ops: seq<Op<V, P, E>>,
                                                     codecs: nat -> Codec<Fields<V, P>, E>, default: nat)
    requires RoundTrips(codecs) && Coherent(s, codecs)
    ensures var r := Refreshed(RunOps(s, ops, codecs, default));
      && FieldsOf(r) == FieldsOf(RunOps(s, ops, codecs, default))
      && (r.encoding.Some? ==> codecs(r.format).decode(r.encoding.value) == FieldsOf(r))
  {
    RunCoherent(s, ops, codecs, default);
    RefreshedIsCurrent(RunOps(s, ops, codecs, default), codecs);
  }

  // What the change counts miss.

  /** Assigning another object to a child of an object with a current encoding goes unnoticed, and makes the encoding
      wrong, exactly when its count is the one last seen and its value is another. */
  lemma AssignedGoesUnnoticed<V, P, E>(s: Cached<V, P, E>, i: nat, value: V, count: nat,
                                       codecs: nat -> Codec<Fields<V, P>, E>)
    requires Coherent(s, codecs) && Fresh(s) && i < |s.counters| && s.counters[i].target.Target?
    ensures var r := Refreshed(WithAssigned(s, i, value, count));
      (r.encoding.Some? && codecs(r.format).decode(r.encoding.value) != FieldsOf(r))
      <==> count == s.counters[i].seen && value != s.counters[i].target.value
  {
    var t := WithAssigned(s, i, value, count);
    AnyUnseenAt(s.counters);
    AnyUnseenAt(t.counters);
    SeeAllSame(t.counters);
    ValuesAt(s.counters, i);
    ValuesAt(t.counters, i);
    assert Unseen(t.counters[i]) <==> count != s.counters[i].seen;
    if value == s.counters[i].target.value && count == s.counters[i].seen {
      assert t.counters == s.counters;
    }
  }

  /** An assignment that copies the other object's fields and then its raw cached encoding, without checking whether
      that is still current, leaves a coherent object exactly when the raw encoding decodes to the fields. */
  lemma UncheckedCopy<V, P, E>(other: Cached<V, P, E>, s: Cached<V, P, E>, codecs: nat -> Codec<Fields<V, P>, E>)
    requires Coherent(other, codecs) && Coherent(s.(encoding := None), codecs) && FieldsOf(s) == FieldsOf(other)
    ensures Coherent(Stored(s, other.encoding, other.format), codecs)
       <==> other.encoding.None? || codecs(other.format).decode(other.encoding.value) == FieldsOf(other)
    ensures Fresh(other) ==> Coherent(Stored(s, other.encoding, other.format), codecs)
  {
    StoredCoherent(s, other.encoding, other.format, codecs);
  }

  /** The checked copy, which first drops an encoding that is no longer current, is always coherent. */
  lemma CheckedCopy<V, P, E>(other: Cached<V, P, E>, s: Cached<V, P, E>, codecs: nat -> Codec<Fields<V, P>, E>)
    requires Coherent(other, codecs) && Coherent(s.(encoding := None), codecs) && FieldsOf(s) == FieldsOf(other)
    ensures var r := Refreshed(other);
      Coherent(Stored(s, r.encoding, r.format), codecs)
  {
    RefreshedIsCurrent(other, codecs);
    StoredCoherent(s, Refreshed(other).encoding, Refreshed(other).format, codecs);
  }
}