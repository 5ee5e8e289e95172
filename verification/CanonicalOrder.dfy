/** The canonical order of names on plain numbers: by the first component that differs, and there by type code, by length
    and by the number that the bytes stand for. */
module CanonicalOrder {
  import opened NameNumber
  import opened NameOrder

  /** The numbers of a component, compared from the left. */
  predicate Before(x: Component, y: Component) {
    || TypeCode(x.kind) < TypeCode(y.kind)
    || (TypeCode(x.kind) == TypeCode(y.kind)
        && (|x.value| < |y.value| || (|x.value| == |y.value| && ValueOf(x.value) < ValueOf(y.value))))
  }

  lemma ComponentsByNumbers(x: Component, y: Component)
    ensures CompareComponents(x, y) < 0 <==> Before(x, y)
  {
    if |x.value| == |y.value| { CompareIsNumeric(x.value, y.value); }
  }

  /** The recognized types have their TLV codes: a digest comes first, then a digest of parameters, then every code below
      8, then a generic component. */
  lemma TypesInOrder(u: seq<octet>, v: seq<octet>, w: seq<octet>, z: seq<octet>, code: nat)
    ensures Before(Component(ImplicitSha256Digest, u), Component(ParametersSha256Digest, v))
    ensures Before(Component(ParametersSha256Digest, v), Component(Generic, w))
    ensures code < 1 ==> Before(Component(OtherCode(code), z), Component(ImplicitSha256Digest, u))
    ensures 2 < code ==> Before(Component(ParametersSha256Digest, v), Component(OtherCode(code), z))
    ensures code < 8 ==> Before(Component(OtherCode(code), z), Component(Generic, w))
    ensures 8 < code ==> Before(Component(Generic, w), Component(OtherCode(code), z))
  {
  }

  /** The names agree before index i, and there x has less. */
  ghost predicate LessAt(x: Name, y: Name, i: nat) {
    && i <= |x| && i < |y| && SameName(x[..i], y[..i])
    && (i < |x| ==> Before(x[i], y[i]))
  }

  /** A name comes before another exactly when it has less where they first differ, or ends there. */
  lemma {:induction false} NamesByFirstDifference(x: Name, y: Name)
    ensures Compare(x, y) < 0 <==> exists i :: LessAt(x, y, i)
  {
    if x == [] {
      if y != [] { assert LessAt(x, y, 0); }
    } else if y != [] {
      ComponentsByNumbers(x[0], y[0]);
      ComponentsOrder(x[0], y[0]);
      NamesByFirstDifference(x[1..], y[1..]);
      hide CompareComponents, Before, TypeCode;
      if Compare(x, y) < 0 {
        if CompareComponents(x[0], y[0]) < 0 {
          assert LessAt(x, y, 0);
        } else {
          var i :| LessAt(x[1..], y[1..], i);
          LessBehind(x, y, i);
        }
      }
      if i :| LessAt(x, y, i) {
        if i > 0 { LessInTail(x, y, i); }
      }
    }
  }

  lemma LessBehind(x: Name, y: Name, i: nat)
    requires x != [] && y != [] && SameComponent(x[0], y[0]) && LessAt(x[1..], y[1..], i)
    ensures LessAt(x, y, i + 1)
  {
    hide Before;
    forall k | 0 <= k < i + 1 ensures SameComponent(x[k], y[k]) {
      if k > 0 { assert SameComponent(x[1..][..i][k - 1], y[1..][..i][k - 1]); }
    }
  }

  lemma LessInTail(x: Name, y: Name, i: nat)
    requires LessAt(x, y, i) && i > 0
    ensures SameComponent(x[0], y[0]) && LessAt(x[1..], y[1..], i - 1)
  {
    hide Before;
    assert SameComponent(x[..i][0], y[..i][0]);
    var u, v := x[1..][..i - 1], y[1..][..i - 1];
    forall k | 0 <= k < i - 1 ensures SameComponent(u[k], v[k]) {
      assert SameComponent(x[..i][k + 1], y[..i][k + 1]);
    }
  }

  /** So a name that has a digest where another has a generic component, and agrees with it before, comes first. */
  lemma DigestComesFirst(x: Name, y: Name, i: nat)
    requires i < |x| && i < |y| && SameName(x[..i], y[..i])
    requires x[i].kind == ImplicitSha256Digest && y[i].kind == Generic
    ensures Compare(x, y) == -1
  {
    assert LessAt(x, y, i);
    NamesByFirstDifference(x, y);
    CompareOrder(x, y);
  }

  /** The successor of the empty name is the least name that a 32-byte digest starts. */
  lemma EmptySuccessorIsLeast(z: Name)
    requires z != [] && z[0].kind == ImplicitSha256Digest && |z[0].value| == 32
    ensures |Successor([])| == 1 && Successor([])[0].kind == ImplicitSha256Digest && |Successor([])[0].value| == 32
    ensures Compare(Successor([]), z) <= 0
  {
    var d := ZeroDigest();
    ZeroValue(d.value);
    ComponentsByNumbers(z[0], d);
    ComponentsOrder(z[0], d);
    CompareOrder([], z[1..]);
  }

  lemma {:induction false} ZeroValue(v: seq<octet>)
    requires forall i :: 0 <= i < |v| ==> v[i] == 0
    ensures ValueOf(v) == 0
  {
    if v != [] { ZeroValue(v[..|v| - 1]); }
  }
}
