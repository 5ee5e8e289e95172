/** Name components and names, their canonical order, and successors. */
module NameOrder {
  type octet = x: int | 0 <= x < 256

  /** The recognized component types. OtherCode holds the type code of every other one. */
  datatype ComponentType = Generic | ImplicitSha256Digest | ParametersSha256Digest | OtherCode(code: nat)

  datatype Component = Component(kind: ComponentType, value: seq<octet>)

  type Name = seq<Component>

  function TypeCode(t: ComponentType): nat {
    match t
    case Generic => 8
    case ImplicitSha256Digest => 1
    case ParametersSha256Digest => 2
    case OtherCode(code) => code
  }

  /** The sign of memcmp on equally long byte strings. */
  function CompareBytes(x: seq<octet>, y: seq<octet>): (r: int)
    requires |x| == |y|
    ensures -1 <= r <= 1
  {
    if x == [] then 0
    else if x[0] < y[0] then -1
    else if x[0] > y[0] then 1
    else CompareBytes(x[1..], y[1..])
  }

  /** Canonical order of components: by type code, then by length, then by bytes. */
  function CompareComponents(x: Component, y: Component): (r: int)
    ensures -1 <= r <= 1
  {
    if TypeCode(x.kind) < TypeCode(y.kind) then -1
    else if TypeCode(x.kind) > TypeCode(y.kind) then 1
    else if |x.value| < |y.value| then -1
    else if |x.value| > |y.value| then 1
    else CompareBytes(x.value, y.value)
  }

  /** Component equality, which tells a recognized type from the same code given as another type. */
  predicate EqualComponents(x: Component, y: Component) { x.value == y.value && x.kind == y.kind }

  /** The same component as far as the canonical order can tell. */
  predicate SameComponent(x: Component, y: Component) {
    TypeCode(x.kind) == TypeCode(y.kind) && x.value == y.value
  }

  /** Canonical order of names, from the first component on. */
  function Compare(x: Name, y: Name): (r: int)
    ensures -1 <= r <= 1
  {
    if x == [] then (if y == [] then 0 else -1)
    else if y == [] then 1
    else
      var c := CompareComponents(x[0], y[0]);
      if c != 0 then c else Compare(x[1..], y[1..])
  }

  /** Component by component the same. */
  ghost predicate SameName(x: Name, y: Name) {
    |x| == |y| && forall i :: 0 <= i < |x| ==> SameComponent(x[i], y[i])
  }

  // Compare is a total order on names up to SameName.

  lemma {:induction false} BytesOrder(x: seq<octet>, y: seq<octet>)
    requires |x| == |y|
    ensures CompareBytes(x, y) == -CompareBytes(y, x)
    ensures CompareBytes(x, y) == 0 <==> x == y
  {
    if x != [] {
      BytesOrder(x[1..], y[1..]);
      assert x == [x[0]] + x[1..] && y == [y[0]] + y[1..];
    }
  }

  lemma {:induction false} BytesTransitive(x: seq<octet>, y: seq<octet>, z: seq<octet>)
    requires |x| == |y| == |z| && CompareBytes(x, y) <= 0 && CompareBytes(y, z) <= 0
    ensures CompareBytes(x, z) <= 0
    ensures CompareBytes(x, y) < 0 || CompareBytes(y, z) < 0 ==> CompareBytes(x, z) < 0
  {
    if x != [] && x[0] == y[0] == z[0] {
      BytesTransitive(x[1..], y[1..], z[1..]);
    }
  }

  lemma ComponentsOrder(x: Component, y: Component)
    ensures CompareComponents(x, y) == -CompareComponents(y, x)
    ensures CompareComponents(x, y) == 0 <==> SameComponent(x, y)
  {
    if |x.value| == |y.value| {
      BytesOrder(x.value, y.value);
    }
  }

  lemma ComponentsTransitive(x: Component, y: Component, z: Component)
    requires CompareComponents(x, y) <= 0 && CompareComponents(y, z) <= 0
    ensures CompareComponents(x, z) <= 0
    ensures CompareComponents(x, y) < 0 || CompareComponents(y, z) < 0 ==> CompareComponents(x, z) < 0
  {
    if |x.value| == |y.value| == |z.value| && TypeCode(x.kind) == TypeCode(y.kind) == TypeCode(z.kind) {
      BytesTransitive(x.value, y.value, z.value);
    }
  }

  /** Exactly one of before, same and after holds, and same means equal codes and values. */
  lemma {:induction false} CompareOrder(x: Name, y: Name)
    ensures Compare(x, y) == -Compare(y, x)
    ensures Compare(x, y) == 0 <==> SameName(x, y)
  {
    if x != [] && y != [] {
      ComponentsOrder(x[0], y[0]);
      CompareOrder(x[1..], y[1..]);
      if SameName(x, y) {
        assert SameName(x[1..], y[1..]);
      }
      if SameComponent(x[0], y[0]) && SameName(x[1..], y[1..]) {
        assert forall i :: 1 <= i < |x| ==> x[i] == x[1..][i - 1] && y[i] == y[1..][i - 1];
      }
    }
  }

  lemma {:induction false} CompareTransitive(x: Name, y: Name, z: Name)
    requires Compare(x, y) <= 0 && Compare(y, z) <= 0
    ensures Compare(x, z) <= 0
    ensures Compare(x, y) < 0 || Compare(y, z) < 0 ==> Compare(x, z) < 0
  {
    if x != [] && y != [] && z != [] {
      ComponentsOrder(x[0], y[0]);
      ComponentsOrder(y[0], z[0]);
      ComponentsTransitive(x[0], y[0], z[0]);
      if CompareComponents(x[0], y[0]) == 0 && CompareComponents(y[0], z[0]) == 0 {
        CompareTransitive(x[1..], y[1..], z[1..]);
      }
    }
  }

  // Sub-ranges.

  function Min(x: int, y: int): int { if x < y then x else y }

  /** A start index counted from the end if it is negative. */
  function Start(n: Name, i: int): int { if i < 0 then |n| + i else i }

  function SubName(n: Name, start: int, count: nat): Name
    requires -|n| <= start <= |n|
  {
    var s := Start(n, start);
    n[s..Min(s + count, |n|)]
  }

  /** A negative start counts from the end. */
  lemma LastComponents(n: Name, k: nat, count: nat)
    requires 0 < k <= |n|
    ensures |SubName(n, 0 - k, count)| == (if count < k then count else k)
    ensures SubName(n, 0 - k, count) <= n[|n| - k..] && (k <= count ==> SubName(n, 0 - k, count) == n[|n| - k..])
  {
  }

  datatype RangeComparison = Ordered(sign: int) | OutOfBounds

  /** Compare sub-ranges in place. A negative start in the other name is not counted from its end,
      so the first component read is then outside the name. */
  method CompareRange(x: Name, start: int, count: nat, y: Name, otherStart: int, otherCount: nat)
    returns (r: RangeComparison)
    requires -|x| <= start <= |x| && -|y| <= otherStart <= |y|
    ensures r == Ordered(Compare(SubName(x, start, count), SubName(y, otherStart, otherCount))) <==>
            otherStart >= 0 || SubName(x, start, count) == [] || otherCount == 0
    ensures r.OutOfBounds? <==> otherStart < 0 && SubName(x, start, count) != [] && otherCount != 0
  {
    var s := start;
    if s < 0 {
      s := |x| - (-s);
    }
    var n, m := Min(count, |x| - s), Min(otherCount, |y| - otherStart);
    if otherStart < 0 && Min(n, m) > 0 {
      return OutOfBounds;
    }
    if otherStart < 0 {
      return Ordered(if n < m then -1 else if n > m then 1 else 0);
    }
    hide Compare;
    var c := CompareRuns(x, s, n, y, otherStart, m);
    return Ordered(c);
  }

  /** Compare n components of x from s on with m components of y from t on. */
  method CompareRuns(x: Name, s: nat, n: nat, y: Name, t: nat, m: nat) returns (r: int)
    requires s + n <= |x| && t + m <= |y|
    ensures r == Compare(x[s..s + n], y[t..t + m])
  {
    ghost var u, v := x[s..s + n], y[t..t + m];
    assert forall k :: 0 <= k < n ==> u[k] == x[s + k];
    assert forall k :: 0 <= k < m ==> v[k] == y[t + k];
    hide CompareComponents, Compare;
    for i := 0 to Min(n, m)
      invariant forall k :: 0 <= k < i ==> CompareComponents(u[k], v[k]) == 0
    {
      var comparison := CompareComponents(x[s + i], y[t + i]);
      assert u[i] == x[s + i] && v[i] == y[t + i];
      if comparison != 0 {
        CompareFrom(u, v, i);
        return comparison;
      }
    }
    CompareFrom(u, v, Min(n, m));
    return if n < m then -1 else if n > m then 1 else 0;
  }

  lemma {:induction false} CompareFrom(u: Name, v: Name, i: nat)
    requires i <= |u| && i <= |v|
    requires forall k :: 0 <= k < i ==> CompareComponents(u[k], v[k]) == 0
    ensures Compare(u, v) == Compare(u[i..], v[i..])
  {
    if i == 0 {
      assert u[0..] == u && v[0..] == v;
    } else {
      CompareFrom(u[1..], v[1..], i - 1);
      assert u[1..][i - 1..] == u[i..] && v[1..][i - 1..] == v[i..];
    }
  }

  // Successors.

  predicate AllOnes(v: seq<octet>) { forall i :: 0 <= i < |v| ==> v[i] == 0xff }

  function ZeroBytes(n: nat): seq<octet> { seq(n, _ => 0) }

  /** v plus one as a big-endian number of the same length. */
  function Increment(v: seq<octet>): (r: seq<octet>)
    requires !AllOnes(v)
    ensures |r| == |v|
  {
    var last := |v| - 1;
    if v[last] < 0xff then v[..last] + [v[last] + 1] else Increment(v[..last]) + [0]
  }

  /** The next byte string: by one, or one byte longer and all zeros when every byte carries. */
  function NextBytes(v: seq<octet>): seq<octet> {
    if AllOnes(v) then ZeroBytes(|v| + 1) else Increment(v)
  }

  function ComponentSuccessor(c: Component): Component { c.(value := NextBytes(c.value)) }

  /** Incrementing touches the last byte that is not 0xff and zeros what follows it. */
  lemma {:induction false} IncrementAt(v: seq<octet>, p: nat)
    requires p < |v| && v[p] < 0xff && AllOnes(v[p + 1..])
    ensures !AllOnes(v) && Increment(v) == v[..p] + [v[p] + 1] + ZeroBytes(|v| - p - 1)
  {
    var last := |v| - 1;
    if p < last {
      assert v[last] == v[p + 1..][last - p - 1] == 0xff;
      var w := v[..last];
      assert AllOnes(w[p + 1..]) by {
        assert w[p + 1..] == v[p + 1..][..last - p - 1];
      }
      IncrementAt(w, p);
      assert w[..p] == v[..p];
    }
  }

  /** The carry loop, from the last byte to the first. */
  method GetComponentSuccessor(c: Component) returns (r: Component)
    ensures r == ComponentSuccessor(c)
  {
    var v := c.value;
    var result := new octet[|v| + 1](_ => 0);
    var carry := true;
    var i := |v| - 1;
    ghost var p := 0;
    while i >= 0
      invariant -1 <= i < |v|
      invariant carry ==> forall k :: i < k < |v| ==> v[k] == 0xff && result[k] == 0
      invariant !carry ==> i < p < |v| && v[p] < 0xff && result[p] == v[p] + 1
      invariant !carry ==> forall k :: p < k < |v| ==> v[k] == 0xff && result[k] == 0
      invariant !carry ==> forall k :: i < k < p ==> result[k] == v[k]
    {
      if carry {
        result[i] := (v[i] as int + 1) % 256;
        carry := result[i] == 0;
        p := i;
      } else {
        result[i] := v[i];
      }
      i := i - 1;
    }
    if carry {
      result[|v|] := 0;
      r := c.(value := result[..]);
    } else {
      IncrementAt(v, p);
      r := c.(value := result[..|v|]);
    }
  }

  /** Nothing of the same length lies between a byte string and its increment. */
  lemma {:induction false} IncrementIsNext(v: seq<octet>, w: seq<octet>)
    requires |v| == |w| && !AllOnes(v)
    ensures CompareBytes(v, w) < 0 <==> CompareBytes(Increment(v), w) <= 0
  {
    var last := |v| - 1;
    CompareLast(v, w);
    CompareLast(Increment(v), w);
    BytesOrder(v[..last], w[..last]);
    if v[last] == 0xff {
      assert !AllOnes(v[..last]);
      assert Increment(v)[..last] == Increment(v[..last]);
      IncrementIsNext(v[..last], w[..last]);
      BytesOrder(Increment(v[..last]), w[..last]);
    } else {
      assert Increment(v)[..last] == v[..last];
    }
  }

  /** Bytes are compared up to the last one, which decides only if the rest is equal. */
  lemma {:induction false} CompareLast(v: seq<octet>, w: seq<octet>)
    requires |v| == |w| > 0
    ensures var last := |v| - 1;
            var c := CompareBytes(v[..last], w[..last]);
            CompareBytes(v, w) == if c != 0 then c
                                  else if v[last] < w[last] then -1 else if v[last] > w[last] then 1 else 0
  {
    if |v| > 1 {
      var last := |v| - 1;
      CompareLast(v[1..], w[1..]);
      assert v[1..][..last - 1] == v[..last][1..] && w[1..][..last - 1] == w[..last][1..];
    }
  }

  lemma {:induction false} AllOnesIsLast(v: seq<octet>, w: seq<octet>)
    requires |v| == |w| && AllOnes(v)
    ensures CompareBytes(v, w) >= 0
  {
    if v != [] {
      AllOnesIsLast(v[1..], w[1..]);
    }
  }

  lemma {:induction false} ZerosAreFirst(w: seq<octet>)
    ensures CompareBytes(ZeroBytes(|w|), w) <= 0
  {
    if w != [] {
      ZerosAreFirst(w[1..]);
      assert ZeroBytes(|w|)[1..] == ZeroBytes(|w[1..]|);
    }
  }

  /** The component successor is the immediate next component: to be after x is to be not before successor(x). */
  lemma ComponentSuccessorIsNext(x: Component, z: Component)
    ensures CompareComponents(x, z) < 0 <==> CompareComponents(ComponentSuccessor(x), z) <= 0
  {
    var v, w := x.value, z.value;
    if AllOnes(v) {
      if |v| == |w| {
        AllOnesIsLast(v, w);
      } else if |w| == |v| + 1 {
        ZerosAreFirst(w);
      }
    } else if |v| == |w| {
      IncrementIsNext(v, w);
    }
  }

  /** The digest of all zeros, which follows the empty name. */
  function ZeroDigest(): Component { Component(ImplicitSha256Digest, ZeroBytes(32)) }

  function Successor(n: Name): Name {
    if n == [] then [ZeroDigest()] else n[..|n| - 1] + [ComponentSuccessor(n[|n| - 1])]
  }

  method GetSuccessor(n: Name) returns (r: Name)
    ensures r == Successor(n)
  {
    if |n| == 0 {
      r := [ZeroDigest()];
    } else {
      var last := GetComponentSuccessor(n[|n| - 1]);
      r := SubName(n, 0, |n| - 1) + [last];
    }
  }

  /** The components of x, type codes included, start z. */
  ghost predicate PrefixOf(x: Name, z: Name) { |x| <= |z| && SameName(x, z[..|x|]) }

  lemma PrefixStep(x: Name, z: Name)
    requires x != [] && z != []
    ensures PrefixOf(x, z) <==> SameComponent(x[0], z[0]) && PrefixOf(x[1..], z[1..])
  {
    if |x| <= |z| {
      var p := z[..|x|];
      assert z[1..][..|x| - 1] == p[1..];
      assert forall i :: 1 <= i < |x| ==> x[i] == x[1..][i - 1] && p[i] == p[1..][i - 1];
      assert forall i :: 0 <= i < |x| - 1 ==> x[1..][i] == x[i + 1] && p[1..][i] == p[i + 1];
    }
  }

  lemma EmptyPrefix(z: Name)
    ensures PrefixOf([], z)
  {
  }

  lemma NoPrefixOfEmpty(x: Name)
    requires x != []
    ensures !PrefixOf(x, [])
  {
  }

  lemma CompareStep(x: Name, z: Name)
    requires x != [] && z != []
    ensures var c := CompareComponents(x[0], z[0]); Compare(x, z) == if c != 0 then c else Compare(x[1..], z[1..])
  {
  }

  lemma CompareEmpty(z: Name)
    ensures Compare([], z) <= 0 && Compare(z, []) >= 0
    ensures Compare(z, []) == 0 <==> z == []
    ensures Compare([], z) == 0 <==> z == []
  {
  }

  lemma OneSuccessor(x: Name)
    requires |x| == 1
    ensures Successor(x) == [ComponentSuccessor(x[0])] && x[1..] == [] && Successor(x)[1..] == []
  {
    hide ComponentSuccessor;
  }

  lemma LaterSuccessor(x: Name)
    requires |x| > 1
    ensures Successor(x) != [] && Successor(x)[0] == x[0] && Successor(x)[1..] == Successor(x[1..])
  {
    hide ComponentSuccessor;
  }

  /** The names from x up to, not including, its successor are x and its extensions, and no others. */
  lemma {:induction false} SuccessorInterval(x: Name, z: Name)
    requires x != []
    ensures Compare(x, z) <= 0 && Compare(z, Successor(x)) < 0 <==> PrefixOf(x, z)
  {
    if z != [] {
      hide PrefixOf, ComponentSuccessor, CompareComponents, Compare, Successor;
      PrefixStep(x, z);
      CompareStep(x, z);
      ComponentsOrder(x[0], z[0]);
      if |x| == 1 {
        OneSuccessor(x);
        CompareStep(z, Successor(x));
        ComponentSuccessorIsNext(x[0], z[0]);
        ComponentsOrder(ComponentSuccessor(x[0]), z[0]);
        EmptyPrefix(z[1..]);
        CompareEmpty(z[1..]);
      } else {
        LaterSuccessor(x);
        CompareStep(z, Successor(x));
        SuccessorInterval(x[1..], z[1..]);
      }
    } else {
      hide PrefixOf, ComponentSuccessor, CompareComponents, Successor;
      assert Compare(x, z) == 1;
      NoPrefixOfEmpty(x);
    }
  }

  /** So something always lies strictly between a non-empty name and its successor, unlike what the
      documentation says: each of the extensions of the name. */
  lemma ExtensionsAreBetween(x: Name, c: Component)
    requires x != []
    ensures Compare(x, x + [c]) < 0 && Compare(x + [c], Successor(x)) < 0
  {
    SuccessorInterval(x, x + [c]);
    CompareOrder(x, x + [c]);
  }

  /** Between the empty name and its successor are the names whose first component is before the zero digest. */
  lemma EmptySuccessorInterval(z: Name)
    ensures Compare([], z) < 0 && Compare(z, Successor([])) < 0 <==> z != [] && CompareComponents(z[0], ZeroDigest()) < 0
  {
  }
}
