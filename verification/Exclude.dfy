/** The exclude filter: a scan of components and ANY markers, against what the list means. */
module Exclude {
  import opened NameOrder

  datatype Entry = Any | Excluded(component: Component)

  /** The component of an ANY entry, as its constructor leaves it. */
  function EmptyComponent(): Component { Component(Generic, []) }

  function ComponentOf(e: Entry): Component { if e.Any? then EmptyComponent() else e.component }

  // What a list means.

  datatype Bound = Unbounded | Bound(component: Component)

  /** The nearest component before index i. */
  function Lower(entries: seq<Entry>, i: nat): Bound
    requires i <= |entries|
  {
    if i == 0 then Unbounded
    else match entries[i - 1]
      case Any => Lower(entries, i - 1)
      case Excluded(c) => Bound(c)
  }

  /** The nearest component from index i on. */
  function Upper(entries: seq<Entry>, i: nat): Bound
    requires i <= |entries|
    decreases |entries| - i
  {
    if i == |entries| then Unbounded
    else match entries[i]
      case Any => Upper(entries, i + 1)
      case Excluded(c) => Bound(c)
  }

  predicate Above(c: Component, low: Bound) { low.Bound? ==> CompareComponents(c, low.component) > 0 }

  predicate Below(c: Component, high: Bound) { high.Bound? ==> CompareComponents(c, high.component) < 0 }

  /** The component is listed at index i, or is in the interval around the ANY at index i. */
  predicate CoveredAt(entries: seq<Entry>, c: Component, i: nat)
    requires i < |entries|
  {
    match entries[i]
    case Any => Above(c, Lower(entries, i)) && Below(c, Upper(entries, i))
    case Excluded(x) => EqualComponents(c, x)
  }

  ghost predicate Covered(entries: seq<Entry>, c: Component) {
    exists i :: 0 <= i < |entries| && CoveredAt(entries, c, i)
  }

  /** The list has a component and ends in two ANYs. */
  ghost predicate EndsInTwoAnys(entries: seq<Entry>) {
    && |entries| >= 2 && entries[|entries| - 1].Any? && entries[|entries| - 2].Any?
    && exists i :: 0 <= i < |entries| && entries[i].Excluded?
  }

  /** What the scan answers for every list: at the second of two trailing ANYs it takes the first one's empty component
      as the lower bound. */
  ghost predicate Excludes(entries: seq<Entry>, c: Component) {
    Covered(entries, c) || (EndsInTwoAnys(entries) && CompareComponents(c, EmptyComponent()) > 0)
  }

  // The scan.

  /** All the ANYs of a run have the same bounds. */
  lemma {:induction false} RunBounds(entries: seq<Entry>, i: nat, j: nat, k: nat)
    requires i <= j <= k <= |entries| && forall n :: i <= n < k ==> entries[n].Any?
    ensures Lower(entries, j) == Lower(entries, i) && Upper(entries, j) == Upper(entries, k)
    decreases k - i
  {
    if j > i { RunBounds(entries, i, j - 1, j - 1); }
    if j < k { RunBounds(entries, j + 1, j + 1, k); }
  }

  method FindUpperBound(entries: seq<Entry>, i: nat) returns (iUpperBound: nat)
    requires i < |entries| && entries[i].Any?
    ensures i < iUpperBound <= |entries|
    ensures forall n :: i <= n < iUpperBound ==> entries[n].Any?
    ensures iUpperBound < |entries| ==> entries[iUpperBound].Excluded?
  {
    iUpperBound := i + 1;
    while iUpperBound < |entries|
      invariant i < iUpperBound <= |entries| && forall n :: i <= n < iUpperBound ==> entries[n].Any?
    {
      if entries[iUpperBound].Excluded? {
        break;
      }
      iUpperBound := iUpperBound + 1;
    }
  }

  /** One bound check at the ANY at index i decides the whole run. */
  lemma RunCovered(entries: seq<Entry>, c: Component, i: nat, end: nat)
    requires i < end <= |entries| && forall n :: i <= n < end ==> entries[n].Any?
    ensures forall n :: i <= n < end ==> (CoveredAt(entries, c, n) <==> CoveredAt(entries, c, i))
  {
    forall n | i <= n < end ensures CoveredAt(entries, c, n) <==> CoveredAt(entries, c, i) {
      RunBounds(entries, i, n, end);
      RunBounds(entries, i, i, end);
    }
  }

  method Matches(entries: seq<Entry>, component: Component) returns (matches: bool)
    ensures matches == Excludes(entries, component)
    ensures !EndsInTwoAnys(entries) ==> matches == Covered(entries, component)
  {
    var i := 0;
    ghost var tail := -1;  // where a trailing run after a component starts, once its first ANY did not match
    while i < |entries|
      invariant i <= |entries|
      invariant tail == -1 ==> forall n :: 0 <= n < i ==> !CoveredAt(entries, component, n)
      invariant tail == -1 ==> i == 0 || entries[i - 1].Excluded? || (i < |entries| && entries[i].Excluded?)
      invariant tail != -1 ==> 0 < tail < i && entries[tail - 1].Excluded?
      invariant tail != -1 ==> forall n :: tail <= n < |entries| ==> entries[n].Any?
      invariant tail != -1 ==> !Covered(entries, component)
      invariant tail != -1 && tail + 1 < i ==> CompareComponents(component, EmptyComponent()) <= 0
    {
      if entries[i].Any? {
        var iUpperBound := FindUpperBound(entries, i);
        RunCovered(entries, component, i, iUpperBound);
        RunBounds(entries, i, i, iUpperBound);
        if iUpperBound < |entries| {
          var upperBound := ComponentOf(entries[iUpperBound]);
          if i > 0 {
            var lowerBound := ComponentOf(entries[i - 1]);
            if CompareComponents(component, lowerBound) > 0 && CompareComponents(component, upperBound) < 0 {
              assert CoveredAt(entries, component, i);
              return true;
            }
          } else if CompareComponents(component, upperBound) < 0 {
            assert CoveredAt(entries, component, i);
            return true;
          }
          i := iUpperBound - 1;
        } else if i > 0 {
          if CompareComponents(component, ComponentOf(entries[i - 1])) > 0 {
            assert tail == -1 ==> CoveredAt(entries, component, i);
            assert tail != -1 ==> EndsInTwoAnys(entries);
            return true;
          }
          if tail == -1 { tail := i; }
        } else {
          assert CoveredAt(entries, component, i);
          return true;
        }
      } else if EqualComponents(component, ComponentOf(entries[i])) {
        assert CoveredAt(entries, component, i);
        return true;
      }
      i := i + 1;
    }
    matches := false;
  }

  // What ANYs stand for, in short lists.

  /** An ANY between two components excludes them and what is strictly between; one at either end reaches without end. */
  lemma RangesExclude(x: Component, y: Component, c: Component)
    ensures Covered([Excluded(x), Any, Excluded(y)], c)
       <==> EqualComponents(c, x) || EqualComponents(c, y)
            || (CompareComponents(x, c) < 0 && CompareComponents(c, y) < 0)
    ensures Covered([Excluded(x), Any], c) <==> EqualComponents(c, x) || CompareComponents(x, c) < 0
    ensures Covered([Any, Excluded(y)], c) <==> EqualComponents(c, y) || CompareComponents(c, y) < 0
    ensures Covered([Any], c) && !Covered([], c) && (Covered([Excluded(x)], c) <==> EqualComponents(c, x))
  {
    ComponentsOrder(x, c);
    ComponentsOrder(c, y);
    hide CompareComponents, EqualComponents;
    MiddleAny(x, y, c);
    LastAny(x, c);
    FirstAny(y, c);
    assert CoveredAt([Any], c, 0) by { assert Lower([Any], 0) == Unbounded && Upper([Any], 0) == Unbounded; }
    if EqualComponents(c, x) { assert CoveredAt([Excluded(x)], c, 0); }
  }

  lemma MiddleAny(x: Component, y: Component, c: Component)
    ensures Covered([Excluded(x), Any, Excluded(y)], c)
       <==> EqualComponents(c, x) || EqualComponents(c, y)
            || (CompareComponents(c, x) > 0 && CompareComponents(c, y) < 0)
  {
    var es := [Excluded(x), Any, Excluded(y)];
    assert Lower(es, 1) == Bound(x) && Upper(es, 1) == Upper(es, 2) == Bound(y);
    hide CompareComponents, EqualComponents, Lower, Upper;
    assert CoveredAt(es, c, 0) == EqualComponents(c, x) && CoveredAt(es, c, 2) == EqualComponents(c, y);
    assert CoveredAt(es, c, 1) == (CompareComponents(c, x) > 0 && CompareComponents(c, y) < 0);
  }

  lemma LastAny(x: Component, c: Component)
    ensures Covered([Excluded(x), Any], c) <==> EqualComponents(c, x) || CompareComponents(c, x) > 0
  {
    var es := [Excluded(x), Any];
    assert Lower(es, 1) == Bound(x) && Upper(es, 1) == Upper(es, 2) == Unbounded;
    hide CompareComponents, EqualComponents, Lower, Upper;
    assert CoveredAt(es, c, 0) == EqualComponents(c, x) && CoveredAt(es, c, 1) == (CompareComponents(c, x) > 0);
  }

  lemma FirstAny(y: Component, c: Component)
    ensures Covered([Any, Excluded(y)], c) <==> EqualComponents(c, y) || CompareComponents(c, y) < 0
  {
    var es := [Any, Excluded(y)];
    assert Lower(es, 0) == Unbounded && Upper(es, 0) == Upper(es, 1) == Bound(y);
    hide CompareComponents, EqualComponents, Lower, Upper;
    assert CoveredAt(es, c, 0) == (CompareComponents(c, y) < 0) && CoveredAt(es, c, 1) == EqualComponents(c, y);
  }

  // Repeated ANYs.

  function Once(a: seq<Entry>, b: seq<Entry>): seq<Entry> { a + [Any] + b }

  function Twice(a: seq<Entry>, b: seq<Entry>): seq<Entry> { a + [Any] + [Any] + b }

  lemma {:induction false} LowerPrefix(x: seq<Entry>, y: seq<Entry>, i: nat)
    requires i <= |x| && i <= |y| && x[..i] == y[..i]
    ensures Lower(x, i) == Lower(y, i)
  {
    if i > 0 {
      assert x[i - 1] == x[..i][i - 1] == y[..i][i - 1] == y[i - 1];
      assert x[..i - 1] == x[..i][..i - 1] && y[..i - 1] == y[..i][..i - 1];
      LowerPrefix(x, y, i - 1);
    }
  }

  lemma {:induction false} UpperSuffix(x: seq<Entry>, i: nat, y: seq<Entry>, j: nat)
    requires i <= |x| && j <= |y| && x[i..] == y[j..]
    ensures Upper(x, i) == Upper(y, j)
    decreases |x| - i
  {
    assert |x| - i == |y| - j;
    if i < |x| {
      assert x[i] == x[i..][0] == y[j..][0] == y[j];
      assert x[i + 1..] == x[i..][1..] && y[j + 1..] == y[j..][1..];
      UpperSuffix(x, i + 1, y, j + 1);
    }
  }

  /** Behind the ANYs, the nearest component before is the same. */
  lemma {:induction false} LowerBehind(a: seq<Entry>, b: seq<Entry>, j: nat)
    requires j <= |b|
    ensures Lower(Once(a, b), |a| + 1 + j) == Lower(Twice(a, b), |a| + 2 + j)
  {
    var x, y := Once(a, b), Twice(a, b);
    if j == 0 {
      LowerPrefix(x, y, |a|);
      assert Lower(x, |a| + 1) == Lower(x, |a|) && Lower(y, |a| + 2) == Lower(y, |a| + 1) == Lower(y, |a|);
    } else {
      assert x[|a| + j] == b[j - 1] == y[|a| + 1 + j];
      LowerBehind(a, b, j - 1);
    }
  }

  /** Before the ANYs, the nearest component behind is the same. */
  lemma {:induction false} UpperBefore(a: seq<Entry>, b: seq<Entry>, i: nat)
    requires i <= |a|
    ensures Upper(Once(a, b), i) == Upper(Twice(a, b), i)
    decreases |a| - i
  {
    var x, y := Once(a, b), Twice(a, b);
    if i == |a| {
      UpperSuffix(x, |a| + 1, y, |a| + 2);
      assert Upper(x, |a|) == Upper(x, |a| + 1) && Upper(y, |a|) == Upper(y, |a| + 1) == Upper(y, |a| + 2);
    } else {
      assert x[i] == a[i] == y[i];
      UpperBefore(a, b, i + 1);
    }
  }

  /** Each place of the list with one ANY is covered as its place in the list with two. */
  lemma CoveredOnceTwice(a: seq<Entry>, b: seq<Entry>, c: Component, i: nat)
    requires i < |Once(a, b)|
    ensures CoveredAt(Once(a, b), c, i) <==> CoveredAt(Twice(a, b), c, if i <= |a| then i else i + 1)
  {
    var x, y := Once(a, b), Twice(a, b);
    if i <= |a| {
      assert x[i] == y[i];
      LowerPrefix(x, y, i);
      UpperBefore(a, b, i);
    } else {
      assert x[i] == b[i - |a| - 1] == y[i + 1];
      LowerBehind(a, b, i - |a| - 1);
      UpperSuffix(x, i, y, i + 1);
    }
  }

  /** A repeated ANY, anywhere in a list, means no more than one. */
  lemma RepeatedAny(a: seq<Entry>, b: seq<Entry>, c: Component)
    ensures Covered(Twice(a, b), c) <==> Covered(Once(a, b), c)
  {
    var x, y := Once(a, b), Twice(a, b);
    if Covered(x, c) {
      var i :| 0 <= i < |x| && CoveredAt(x, c, i);
      CoveredOnceTwice(a, b, c, i);
    }
    if Covered(y, c) {
      var i :| 0 <= i < |y| && CoveredAt(y, c, i);
      var j := if i <= |a| then i else i - 1;
      RunCovered(y, c, |a|, |a| + 2);
      CoveredOnceTwice(a, b, c, j);
      assert CoveredAt(x, c, j);
    }
  }

  /** Appending an ANY to a list that already ends in one, behind some component, adds nothing to what the list means,
      but makes the scan answer for everything after the empty component as well. */
  lemma TrailingAny(entries: seq<Entry>, c: Component)
    requires entries != [] && entries[|entries| - 1].Any? && exists i :: 0 <= i < |entries| && entries[i].Excluded?
    ensures Covered(entries + [Any], c) <==> Covered(entries, c)
    ensures Excludes(entries + [Any], c) <==> Covered(entries, c) || CompareComponents(c, EmptyComponent()) > 0
  {
    var a := entries[..|entries| - 1];
    RepeatedAny(a, [], c);
    assert Once(a, []) == entries && Twice(a, []) == entries + [Any];
    var i :| 0 <= i < |entries| && entries[i].Excluded?;
    assert (entries + [Any])[i].Excluded?;
  }

  /** A list that ends in two ANYs after a component excludes every component but the empty one and those before it,
      even one before its only component, which the list does not mean. */
  lemma TwoAnysExcludeTooMuch(x: Component, c: Component)
    requires CompareComponents(EmptyComponent(), c) < 0 && CompareComponents(c, x) < 0
    ensures Excludes([Excluded(x), Any, Any], c) && !Covered([Excluded(x), Any, Any], c)
  {
    var entries := [Excluded(x), Any, Any];
    ComponentsOrder(EmptyComponent(), c);
    ComponentsOrder(c, x);
    assert entries[0].Excluded?;
    assert Lower(entries, 1) == Bound(x) && Lower(entries, 2) == Bound(x);
    assert forall i :: 0 <= i < 3 ==> !CoveredAt(entries, c, i);
  }
}
