/** The delegation set: a list that add keeps sorted, and the map it represents. */
module DelegationSet {
  import opened EncodingCache
  import opened NameOrder

  datatype Delegation = Delegation(preference: int, name: Name)

  function CompareDelegations(x: Delegation, y: Delegation): (r: int) {
    if x.preference < y.preference then -1
    else if x.preference > y.preference then 1
    else Compare(x.name, y.name)
  }

  /** The values of the components, which is all that name equality looks at. */
  function NameValues(n: Name): (r: seq<seq<octet>>)
    ensures |r| == |n| && forall i :: 0 <= i < |n| ==> r[i] == n[i].value
  {
    if n == [] then [] else [n[0].value] + NameValues(n[1..])
  }

  /** Name::equals: from the last component to the first. */
  method Equals(x: Name, y: Name) returns (equal: bool)
    ensures equal == (NameValues(x) == NameValues(y))
  {
    if |x| != |y| {
      return false;
    }
    var i := |x| - 1;
    while i >= 0
      invariant -1 <= i < |x| && forall k :: i < k < |x| ==> x[k].value == y[k].value
    {
      if x[i].value != y[i].value {
        assert NameValues(x)[i] != NameValues(y)[i];
        return false;
      }
      i := i - 1;
    }
    equal := true;
  }

  // The list.

  function Without(ds: seq<Delegation>, key: seq<seq<octet>>): seq<Delegation> {
    if ds == [] then []
    else
      var last := ds[|ds| - 1];
      Without(ds[..|ds| - 1], key) + if NameValues(last.name) == key then [] else [last]
  }

  /** The list with d inserted before the first entry that is not less. */
  function Insert(ds: seq<Delegation>, d: Delegation): seq<Delegation> {
    if ds == [] then [d]
    else if CompareDelegations(ds[0], d) >= 0 then [d] + ds
    else [ds[0]] + Insert(ds[1..], d)
  }

  function Added(ds: seq<Delegation>, d: Delegation): seq<Delegation> { Insert(Without(ds, NameValues(d.name)), d) }

  datatype GetResult = Found(delegation: Delegation) | NoSuchIndex

  lemma {:induction false} InsertAt(ds: seq<Delegation>, d: Delegation, i: nat)
    requires i <= |ds| && (forall k :: 0 <= k < i ==> CompareDelegations(ds[k], d) < 0)
    requires i < |ds| ==> CompareDelegations(ds[i], d) >= 0
    ensures Insert(ds, d) == ds[..i] + [d] + ds[i..]
  {
    if i > 0 {
      InsertAt(ds[1..], d, i - 1);
      assert ds[1..][..i - 1] == ds[1..i] && ds[1..][i - 1..] == ds[i..];
      assert ds[..i] == [ds[0]] + ds[1..i];
    } else {
      assert ds[..0] == [] && ds[0..] == ds;
    }
  }

  /** How far a backward loop has removed the entries with the name: down to index n. */
  ghost predicate Swept(was: seq<Delegation>, key: seq<seq<octet>>, n: nat, now: seq<Delegation>) {
    && n <= |now| <= |was| && now[..n] == was[..n]
    && Without(was, key) == Without(was[..n], key) + now[n..]
  }

  lemma SweptAll(was: seq<Delegation>, key: seq<seq<octet>>)
    ensures Swept(was, key, |was|, was)
  {
    assert was[..|was|] == was;
  }

  lemma SweptNext(was: seq<Delegation>, key: seq<seq<octet>>, n: nat, now: seq<Delegation>)
    requires 0 < n && Swept(was, key, n, now)
    ensures |now| <= |was|
    ensures if NameValues(now[n - 1].name) == key then Swept(was, key, n - 1, now[..n - 1] + now[n..])
            else Swept(was, key, n - 1, now)
  {
    var head, rest, last := was[..n], was[..n - 1], was[n - 1];
    assert head[..n - 1] == rest && head[n - 1] == last == now[n - 1];
    assert now[..n - 1] == rest by { assert now[..n][..n - 1] == now[..n - 1]; }
    var kept := Without(rest, key);
    assert Without(head, key) == kept + if NameValues(last.name) == key then [] else [last];
    hide Without, NameValues;
    if NameValues(last.name) == key {
      var less := now[..n - 1] + now[n..];
      assert less[n - 1..] == now[n..] && less[..n - 1] == rest;
    } else {
      assert (kept + [last]) + now[n..] == kept + now[n - 1..];
    }
  }

  lemma SweptEnd(was: seq<Delegation>, key: seq<seq<octet>>, now: seq<Delegation>)
    requires Swept(was, key, 0, now)
    ensures now == Without(was, key)
  {
    assert was[..0] == [] && now[0..] == now;
  }

  class DelegationSet<E> {
    var delegations: seq<Delegation>
    var changeCount: nat
    var defaultWireEncoding: Option<E>
    var defaultWireEncodingFormat: nat
    var getDefaultWireEncodingChangeCount: nat

    /** The set as an object without counted children. */
    function View(): Cached<(), seq<Delegation>, E>
      reads this
    {
      Cached([], delegations, changeCount, defaultWireEncoding, defaultWireEncodingFormat,
             getDefaultWireEncodingChangeCount)
    }

    constructor ()
      ensures View() == Cached([], [], 0, None, 0, 0)
    {
      delegations, changeCount, defaultWireEncoding := [], 0, None;
      defaultWireEncodingFormat, getDefaultWireEncodingChangeCount := 0, 0;
    }

    /** The copy takes over the change count and the encoding, if that is still current. */
    constructor Copy(other: DelegationSet<E>)
      modifies other
      ensures other.View() == Refreshed(old(other.View()))
      ensures View() == other.View()
    {
      delegations, changeCount := other.delegations, other.changeCount;
      new;
      var encoding := other.GetDefaultWireEncoding();
      SetDefaultWireEncoding(encoding, other.defaultWireEncodingFormat);
    }

    /** operator=, which does not count as a change. */
    method Assign(other: DelegationSet<E>)
      requires this != other
      modifies this, other
      ensures other.View() == Refreshed(old(other.View()))
      ensures View() == Stored(old(View()).(plain := old(other.delegations)), other.defaultWireEncoding,
                               other.defaultWireEncodingFormat)
    {
      delegations := other.delegations;
      var encoding := other.GetDefaultWireEncoding();
      SetDefaultWireEncoding(encoding, other.defaultWireEncodingFormat);
    }

    method GetDefaultWireEncoding() returns (encoding: Option<E>)
      modifies this`defaultWireEncoding, this`defaultWireEncodingFormat, this`getDefaultWireEncodingChangeCount
      ensures View() == Refreshed(old(View())) && encoding == defaultWireEncoding
    {
      if getDefaultWireEncodingChangeCount != changeCount {
        defaultWireEncoding, defaultWireEncodingFormat := None, 0;
        getDefaultWireEncodingChangeCount := changeCount;
      }
      encoding := defaultWireEncoding;
    }

    method SetDefaultWireEncoding(encoding: Option<E>, format: nat)
      modifies this`defaultWireEncoding, this`defaultWireEncodingFormat, this`getDefaultWireEncodingChangeCount
      ensures View() == Stored(old(View()), encoding, format)
    {
      defaultWireEncoding, defaultWireEncodingFormat := encoding, format;
      getDefaultWireEncodingChangeCount := changeCount;
    }

    method WireEncode(codecs: nat -> Codec<Fields<(), seq<Delegation>>, E>, format: nat, default: nat)
      returns (encoding: E)
      modifies this`defaultWireEncoding, this`defaultWireEncodingFormat, this`getDefaultWireEncodingChangeCount
      ensures (View(), encoding) == Encoded(old(View()), codecs, format, default)
    {
      var cached := GetDefaultWireEncoding();
      if cached.Some? && defaultWireEncodingFormat == format {
        return cached.value;
      }
      encoding := codecs(format).encode(FieldsOf(View()));
      if format == default {
        SetDefaultWireEncoding(Some(encoding), default);
      }
    }

    /** Replace the list by the delegations read, in their order, to the end of the input or to an error in it. */
    method WireDecode(input: E, read: seq<Delegation>, failed: bool,
                      codecs: nat -> Codec<Fields<(), seq<Delegation>>, E>, format: nat, default: nat)
      returns (ok: bool)
      requires Coherent(View(), codecs) && (!failed ==> codecs(format).decode(input) == Fields([], read))
      modifies this
      ensures ok == !failed && delegations == read && Coherent(View(), codecs)
      ensures if ok then Fresh(View()) <==> format == default else !Fresh(View())
    {
      Clear();
      for i := 0 to |read|
        invariant delegations == read[..i] && Coherent(View(), codecs)
        invariant getDefaultWireEncodingChangeCount < changeCount
      {
        AddUnsorted(read[i]);
      }
      assert read[..|read|] == read;
      if failed {
        return false;
      }
      assert codecs(format).decode(input) == FieldsOf(View());
      DecodedCoherent(View(), input, format, default, codecs);
      if format == default {
        SetDefaultWireEncoding(Some(input), default);
      } else {
        SetDefaultWireEncoding(None, 0);
      }
      ok := true;
    }

    method Add(preference: int, name: Name)
      modifies this`delegations, this`changeCount
      ensures delegations == Added(old(delegations), Delegation(preference, name))
      ensures var removed := Without(old(delegations), NameValues(name)) != old(delegations);
        changeCount == old(changeCount) + if removed then 2 else 1
    {
      var removed := Remove(name);
      var newDelegation := Delegation(preference, name);
      var i := 0;
      while i < |delegations|
        invariant i <= |delegations| && forall k :: 0 <= k < i ==> CompareDelegations(delegations[k], newDelegation) < 0
      {
        if CompareDelegations(delegations[i], newDelegation) >= 0 {
          break;
        }
        i := i + 1;
      }
      InsertAt(delegations, newDelegation, i);
      delegations := delegations[..i] + [newDelegation] + delegations[i..];
      changeCount := changeCount + 1;
    }

    method AddUnsorted(d: Delegation)
      modifies this`delegations, this`changeCount
      ensures delegations == old(delegations) + [d] && changeCount == old(changeCount) + 1
    {
      delegations := delegations + [d];
      changeCount := changeCount + 1;
    }

    method Remove(name: Name) returns (wasRemoved: bool)
      modifies this`delegations, this`changeCount
      ensures delegations == Without(old(delegations), NameValues(name))
      ensures wasRemoved == (delegations != old(delegations))
      ensures changeCount == old(changeCount) + if wasRemoved then 1 else 0
    {
      hide Swept, NameValues, Without;
      ghost var was, key := delegations, NameValues(name);
      wasRemoved := false;
      var i := |delegations| - 1;
      SweptAll(was, key);
      while i >= 0
        invariant -1 <= i < |delegations| && Swept(was, key, i + 1, delegations)
        invariant wasRemoved == (|delegations| < |was|) && (!wasRemoved ==> delegations == was)
        invariant changeCount == old(changeCount)
      {
        SweptNext(was, key, i + 1, delegations);
        var equal := Equals(delegations[i].name, name);
        if equal {
          wasRemoved := true;
          delegations := delegations[..i] + delegations[i + 1..];
        }
        i := i - 1;
      }
      SweptEnd(was, key, delegations);
      if wasRemoved {
        changeCount := changeCount + 1;
      }
    }

    method Clear()
      modifies this`delegations, this`changeCount
      ensures delegations == [] && changeCount == old(changeCount) + 1
    {
      delegations := [];
      changeCount := changeCount + 1;
    }

    /** The entry at an index, or an error. */
    method Get(i: nat) returns (r: GetResult)
      ensures r == if i < |delegations| then Found(delegations[i]) else NoSuchIndex
    {
      if i >= |delegations| {
        return NoSuchIndex;
      }
      r := Found(delegations[i]);
    }

    method Find(name: Name) returns (r: int)
      ensures -1 <= r < |delegations|
      ensures forall k :: 0 <= k < (if r < 0 then |delegations| else r) ==>
        NameValues(delegations[k].name) != NameValues(name)
      ensures r >= 0 ==> NameValues(delegations[r].name) == NameValues(name)
    {
      var i := 0;
      while i < |delegations|
        invariant i <= |delegations| && forall k :: 0 <= k < i ==> NameValues(delegations[k].name) != NameValues(name)
      {
        var equal := Equals(delegations[i].name, name);
        if equal {
          return i;
        }
        i := i + 1;
      }
      r := -1;
    }
  }

  // The map that a list represents.

  /** Strictly increasing, so no two entries compare equal. */
  ghost predicate Sorted(ds: seq<Delegation>) {
    forall i, j :: 0 <= i < j < |ds| ==> CompareDelegations(ds[i], ds[j]) < 0
  }

  /** No two entries have names that are equal. */
  ghost predicate NamesDiffer(ds: seq<Delegation>) {
    forall i, j :: 0 <= i < j < |ds| ==> NameValues(ds[i].name) != NameValues(ds[j].name)
  }

  type DelegationMap = map<seq<seq<octet>>, Delegation>

  ghost predicate Represents(ds: seq<Delegation>, m: DelegationMap) {
    && (forall d :: d in ds ==> NameValues(d.name) in m && m[NameValues(d.name)] == d)
    && (forall key :: key in m ==> m[key] in ds && NameValues(m[key].name) == key)
  }

  /** The list is the sorted enumeration of the map. */
  ghost predicate Canonical(ds: seq<Delegation>, m: DelegationMap) {
    Sorted(ds) && NamesDiffer(ds) && Represents(ds, m)
  }

  datatype Op = AddOp(preference: int, name: Name) | RemoveOp(name: Name) | ClearOp

  function OnList(ds: seq<Delegation>, op: Op): seq<Delegation> {
    match op
    case AddOp(preference, name) => Added(ds, Delegation(preference, name))
    case RemoveOp(name) => Without(ds, NameValues(name))
    case ClearOp => []
  }

  function OnMap(m: DelegationMap, op: Op): DelegationMap {
    match op
    case AddOp(preference, name) => m[NameValues(name) := Delegation(preference, name)]
    case RemoveOp(name) => m - {NameValues(name)}
    case ClearOp => map[]
  }

  function ListAfter(ops: seq<Op>): seq<Delegation> {
    if ops == [] then [] else OnList(ListAfter(ops[..|ops| - 1]), ops[|ops| - 1])
  }

  function MapAfter(ops: seq<Op>): DelegationMap {
    if ops == [] then map[] else OnMap(MapAfter(ops[..|ops| - 1]), ops[|ops| - 1])
  }

  lemma DelegationsOrder(x: Delegation, y: Delegation)
    ensures CompareDelegations(x, y) == -CompareDelegations(y, x)
    ensures CompareDelegations(x, y) == 0 <==> x.preference == y.preference && SameName(x.name, y.name)
  {
    CompareOrder(x.name, y.name);
  }

  lemma DelegationsTransitive(x: Delegation, y: Delegation, z: Delegation)
    requires CompareDelegations(x, y) < 0 && CompareDelegations(y, z) < 0
    ensures CompareDelegations(x, z) < 0
  {
    if x.preference == y.preference == z.preference {
      CompareTransitive(x.name, y.name, z.name);
    }
  }

  lemma {:induction false} WithoutMember(ds: seq<Delegation>, key: seq<seq<octet>>, d: Delegation)
    ensures d in Without(ds, key) <==> d in ds && NameValues(d.name) != key
  {
    if ds != [] {
      WithoutMember(ds[..|ds| - 1], key, d);
      assert ds == ds[..|ds| - 1] + [ds[|ds| - 1]];
    }
  }

  /** Removing keeps the order of what stays. */
  lemma {:induction false} WithoutKeeps(ds: seq<Delegation>, key: seq<seq<octet>>)
    ensures Sorted(ds) ==> Sorted(Without(ds, key))
    ensures NamesDiffer(ds) ==> NamesDiffer(Without(ds, key))
  {
    if ds != [] {
      var rest, last := ds[..|ds| - 1], ds[|ds| - 1];
      WithoutKeeps(rest, key);
      forall k | 0 <= k < |Without(rest, key)|
        ensures Without(rest, key)[k] in rest
      {
        WithoutMember(rest, key, Without(rest, key)[k]);
      }
    }
  }

  lemma {:induction false} InsertMember(ds: seq<Delegation>, d: Delegation, x: Delegation)
    ensures x in Insert(ds, d) <==> x in ds || x == d
  {
    if ds != [] && CompareDelegations(ds[0], d) < 0 {
      InsertMember(ds[1..], d, x);
      assert ds == [ds[0]] + ds[1..];
    }
  }

  /** Inserting into a sorted list an entry with a name of its own keeps it sorted. */
  lemma {:induction false} InsertSorted(ds: seq<Delegation>, d: Delegation)
    requires Sorted(ds) && NamesDiffer(ds) && forall x :: x in ds ==> NameValues(x.name) != NameValues(d.name)
    ensures Sorted(Insert(ds, d)) && NamesDiffer(Insert(ds, d))
  {
    if ds != [] {
      var first, rest := ds[0], ds[1..];
      hide NameValues, CompareDelegations, Insert;
      DifferentNamesCompare(first, d);
      if CompareDelegations(first, d) >= 0 {
        assert Insert(ds, d) == [d] + ds by { InsertNow(ds, d); }
        DelegationsOrder(first, d);
        assert ds == [first] + rest;
        SmallerFirst(d, ds, first);
      } else {
        assert Insert(ds, d) == [first] + Insert(rest, d) by { InsertLater(ds, d); }
        InsertSorted(rest, d);
        forall x | x in Insert(rest, d)
          ensures CompareDelegations(first, x) < 0 && NameValues(first.name) != NameValues(x.name)
        {
          InsertMember(rest, d, x);
        }
        SortedCons(first, Insert(rest, d));
      }
    }
  }

  lemma InsertNow(ds: seq<Delegation>, d: Delegation)
    requires |ds| > 0 && CompareDelegations(ds[0], d) >= 0
    ensures Insert(ds, d) == [d] + ds
  {
  }

  lemma InsertLater(ds: seq<Delegation>, d: Delegation)
    requires |ds| > 0 && CompareDelegations(ds[0], d) < 0
    ensures Insert(ds, d) == [ds[0]] + Insert(ds[1..], d)
  {
  }

  lemma SortedCons(d: Delegation, ds: seq<Delegation>)
    requires Sorted(ds) && NamesDiffer(ds)
    requires forall x :: x in ds ==> CompareDelegations(d, x) < 0 && NameValues(d.name) != NameValues(x.name)
    ensures Sorted([d] + ds) && NamesDiffer([d] + ds)
  {
    hide NameValues, CompareDelegations;
  }

  /** What is less than the first entry of a sorted list can be put in front of it. */
  lemma SmallerFirst(d: Delegation, ds: seq<Delegation>, first: Delegation)
    requires |ds| > 0 && first == ds[0] && CompareDelegations(d, first) < 0
    requires Sorted(ds) && NamesDiffer(ds) && forall x :: x in ds ==> NameValues(x.name) != NameValues(d.name)
    ensures Sorted([d] + ds) && NamesDiffer([d] + ds)
  {
    hide NameValues, CompareDelegations;
    forall x | x in ds ensures CompareDelegations(d, x) < 0 {
      var k :| 0 <= k < |ds| && ds[k] == x;
      if k > 0 { DelegationsTransitive(d, first, ds[k]); }
    }
    SortedCons(d, ds);
  }

  lemma DifferentNamesCompare(x: Delegation, y: Delegation)
    requires NameValues(x.name) != NameValues(y.name)
    ensures CompareDelegations(x, y) != 0
  {
    DelegationsOrder(x, y);
    if SameName(x.name, y.name) { SameNameSameValues(x.name, y.name); }
  }

  lemma SameNameSameValues(x: Name, y: Name)
    requires SameName(x, y)
    ensures NameValues(x) == NameValues(y)
  {
    assert forall i :: 0 <= i < |x| ==> NameValues(x)[i] == NameValues(y)[i];
  }

  /** Each operation keeps the list the sorted enumeration of the map. */
  lemma OpCanonical(ds: seq<Delegation>, m: DelegationMap, op: Op)
    requires Canonical(ds, m)
    ensures Canonical(OnList(ds, op), OnMap(m, op))
  {
    match op
    case ClearOp =>
    case RemoveOp(name) =>
      WithoutKeeps(ds, NameValues(name));
      forall d ensures d in Without(ds, NameValues(name)) <==> d in ds && NameValues(d.name) != NameValues(name) {
        WithoutMember(ds, NameValues(name), d);
      }
    case AddOp(preference, name) =>
      var d := Delegation(preference, name);
      var left := Without(ds, NameValues(name));
      WithoutKeeps(ds, NameValues(name));
      forall x ensures x in left <==> x in ds && NameValues(x.name) != NameValues(name) {
        WithoutMember(ds, NameValues(name), x);
      }
      InsertSorted(left, d);
      forall x ensures x in Insert(left, d) <==> x in left || x == d { InsertMember(left, d, x); }
  }

  /** After any run of add, remove and clear, the list is strictly increasing, has no two equal names, and is the
      enumeration of the map from each name to what was last added for it. */
  lemma {:induction false} RunCanonical(ops: seq<Op>)
    ensures Canonical(ListAfter(ops), MapAfter(ops))
  {
    if ops != [] {
      RunCanonical(ops[..|ops| - 1]);
      OpCanonical(ListAfter(ops[..|ops| - 1]), MapAfter(ops[..|ops| - 1]), ops[|ops| - 1]);
    }
  }

  /** After any such run, lower preferences come first, and equal ones stand in the canonical order of the names. */
  lemma RunByPreference(ops: seq<Op>, i: nat, j: nat)
    requires i < j < |ListAfter(ops)|
    ensures var x, y := ListAfter(ops)[i], ListAfter(ops)[j];
      x.preference <= y.preference && (x.preference == y.preference ==> Compare(x.name, y.name) < 0)
  {
    RunCanonical(ops);
    hide NamesDiffer, Represents, ListAfter, MapAfter;
  }

  /** A map has one sorted enumeration. */
  lemma {:induction false} SortedUnique(x: seq<Delegation>, y: seq<Delegation>)
    requires Sorted(x) && Sorted(y) && forall d :: d in x <==> d in y
    ensures x == y
  {
    assert |y| > 0 ==> y[0] in x;
    if x != [] {
      assert x[0] in y && |y| > 0 && y[0] in x;
      var i :| 0 <= i < |y| && y[i] == x[0];
      var j :| 0 <= j < |x| && x[j] == y[0];
      DelegationsOrder(x[0], y[0]);
      assert x[0] == y[0];
      forall d ensures d in x[1..] <==> d in y[1..] { TailMember(x, d); TailMember(y, d); }
      SortedUnique(x[1..], y[1..]);
    }
  }

  lemma TailMember(x: seq<Delegation>, d: Delegation)
    requires Sorted(x) && |x| > 0
    ensures d in x[1..] <==> d in x && d != x[0]
  {
    DelegationsOrder(d, d);
    assert x == [x[0]] + x[1..];
  }

  /** Two runs that end in the same map leave identical lists. */
  lemma SameMapSameList(ops: seq<Op>, other: seq<Op>)
    requires MapAfter(ops) == MapAfter(other)
    ensures ListAfter(ops) == ListAfter(other)
  {
    RunCanonical(ops);
    RunCanonical(other);
    SortedUnique(ListAfter(ops), ListAfter(other));
  }

  predicate GenericName(n: Name) { forall i :: 0 <= i < |n| ==> n[i].kind == Generic }

  /** The preference of each name, by the values of its components. */
  function Preferences(m: DelegationMap): map<seq<seq<octet>>, int> { map key | key in m :: m[key].preference }

  ghost predicate AllGeneric(ops: seq<Op>) {
    forall i :: 0 <= i < |ops| && ops[i].AddOp? ==> GenericName(ops[i].name)
  }

  lemma {:induction false} GenericMap(ops: seq<Op>)
    requires AllGeneric(ops)
    ensures forall key :: key in MapAfter(ops) ==> GenericName(MapAfter(ops)[key].name)
  {
    if ops != [] { GenericMap(ops[..|ops| - 1]); }
  }

  lemma GenericByValues(x: Name, y: Name)
    requires GenericName(x) && GenericName(y) && NameValues(x) == NameValues(y)
    ensures x == y
  {
    forall i | 0 <= i < |x| ensures x[i] == y[i] {
      assert NameValues(x)[i] == NameValues(y)[i];
    }
  }

  lemma SameKeys(m: DelegationMap, m': DelegationMap)
    requires Preferences(m) == Preferences(m')
    ensures forall key :: key in m <==> key in m'
    ensures forall key :: key in m && key in m' ==> m[key].preference == m'[key].preference
  {
    forall key ensures key in m <==> key in m' { assert key in Preferences(m) <==> key in Preferences(m'); }
    forall key | key in m && key in m' ensures m[key].preference == m'[key].preference {
      assert Preferences(m)[key] == Preferences(m')[key];
    }
  }

  /** Each key of the map after a run is the name it is mapped to. */
  lemma KeyIsName(ops: seq<Op>, key: seq<seq<octet>>)
    requires AllGeneric(ops) && key in MapAfter(ops)
    ensures var d := MapAfter(ops)[key]; GenericName(d.name) && NameValues(d.name) == key
  {
    GenericMap(ops);
    RunCanonical(ops);
    hide AllGeneric, Sorted, NamesDiffer, ListAfter, MapAfter, GenericName, NameValues;
  }

  /** With generic components only, the lists are identical as soon as the names have the same preferences. */
  lemma SamePreferencesSameList(ops: seq<Op>, other: seq<Op>)
    requires AllGeneric(ops) && AllGeneric(other) && Preferences(MapAfter(ops)) == Preferences(MapAfter(other))
    ensures ListAfter(ops) == ListAfter(other)
  {
    hide AllGeneric, ListAfter, MapAfter, GenericName, NameValues, Preferences;
    var m, m' := MapAfter(ops), MapAfter(other);
    SameKeys(m, m');
    forall key | key in m ensures m[key] == m'[key] {
      KeyIsName(ops, key);
      KeyIsName(other, key);
      GenericByValues(m[key].name, m'[key].name);
    }
    assert m == m';
    SameMapSameList(ops, other);
  }

  /** Adding to any list, even one decoded with duplicates or out of order, leaves exactly one entry with the name. */
  lemma AddLeavesOne(ds: seq<Delegation>, d: Delegation, x: Delegation)
    ensures x in Added(ds, d) && NameValues(x.name) == NameValues(d.name) <==> x == d
    ensures NameValues(x.name) != NameValues(d.name) ==> (x in Added(ds, d) <==> x in ds)
  {
    InsertMember(Without(ds, NameValues(d.name)), d, x);
    WithoutMember(ds, NameValues(d.name), x);
  }
}