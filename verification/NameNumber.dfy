/** Numbers as name components: a prefix and then the shortest big-endian form. */
module NameNumber {
  import opened NameOrder

  const TWO_TO_THE_64 := 0x1_0000_0000_0000_0000

  datatype NumberResult = Number(number: nat) | NoPrefix

  /** The bytes of a number without leading zeros, and none for zero. */
  function BigEndian(n: nat): seq<octet> { if n == 0 then [] else BigEndian(n / 256) + [n % 256] }

  /** The number that bytes stand for. */
  function ValueOf(v: seq<octet>): nat { if v == [] then 0 else 256 * ValueOf(v[..|v| - 1]) + v[|v| - 1] }

  function Reversed(v: seq<octet>): (r: seq<octet>)
    ensures |r| == |v| && forall i :: 0 <= i < |v| ==> r[i] == v[|v| - 1 - i]
  {
    if v == [] then [] else Reversed(v[1..]) + [v[0]]
  }

  /** The byte at k when the i bytes at each end have been reversed. */
  function PartlyReversed(v: seq<octet>, i: nat, k: nat): octet
    requires k < |v|
  {
    if i <= k < |v| - i then v[k] else v[|v| - 1 - k]
  }

  /** std::reverse: swap the ends and go inwards. */
  method Reverse(v: seq<octet>) returns (r: seq<octet>)
    ensures r == Reversed(v)
  {
    r := v;
    var i, j := 0, |v|;
    while i < j - 1
      invariant 0 <= i <= j + 1 && j == |v| - i && |r| == |v|
      invariant forall k :: 0 <= k < |v| ==> r[k] == PartlyReversed(v, i, k)
    {
      j := j - 1;
      r := r[i := r[j]][j := r[i]];
      i := i + 1;
    }
  }

  /** First in little endian, and then reversed. */
  method FromNumberWithPrefix(number: nat, prefix: seq<octet>) returns (c: Component)
    ensures c == Component(Generic, prefix + BigEndian(number))
  {
    var digits: seq<octet> := [];
    var rest := number;
    while rest != 0
      invariant BigEndian(number) == BigEndian(rest) + Reversed(digits)
    {
      var digit: octet := rest % 256;
      ReversedAppend(digits, digit);
      Regroup(BigEndian(rest / 256), [digit], Reversed(digits));
      digits := digits + [digit];
      rest := rest / 256;
    }
    digits := Reverse(digits);
    c := Component(Generic, prefix + digits);
  }

  lemma Regroup(a: seq<octet>, b: seq<octet>, c: seq<octet>)
    ensures (a + b) + c == a + (b + c)
  {
  }

  lemma {:induction false} ReversedAppend(v: seq<octet>, x: octet)
    ensures Reversed(v + [x]) == [x] + Reversed(v)
  {
    forall i | 0 <= i < |v| + 1 ensures Reversed(v + [x])[i] == ([x] + Reversed(v))[i] {}
  }

  /** The number after the prefix, in 64 bits. */
  method ToNumberWithPrefix(c: Component, prefix: seq<octet>) returns (r: NumberResult)
    ensures r == if prefix <= c.value then Number(ValueOf(c.value[|prefix|..]) % TWO_TO_THE_64) else NoPrefix
  {
    if |c.value| < |prefix| || c.value[..|prefix|] != prefix {
      return NoPrefix;
    }
    var result := 0;
    ghost var tail := c.value[|prefix|..];
    for i := |prefix| to |c.value|
      invariant result == ValueOf(tail[..i - |prefix|]) % TWO_TO_THE_64
    {
      ValueStep(tail, i - |prefix|);
      result := Wrapped(result, c.value[i]);
    }
    assert tail[..|tail|] == tail;
    r := Number(result);
  }

  /** One step of the loop that reads a number, on 64 bits. */
  function Wrapped(result: nat, byte: octet): nat { (result * 256 % TWO_TO_THE_64 + byte) % TWO_TO_THE_64 }

  lemma ValueStep(v: seq<octet>, k: nat)
    requires k < |v|
    ensures ValueOf(v[..k + 1]) % TWO_TO_THE_64 == Wrapped(ValueOf(v[..k]) % TWO_TO_THE_64, v[k])
  {
    assert v[..k + 1][..k] == v[..k];
    WrapTwice(ValueOf(v[..k]), v[k]);
  }

  lemma WrapTwice(n: nat, byte: octet)
    ensures (256 * n + byte) % TWO_TO_THE_64 == Wrapped(n % TWO_TO_THE_64, byte)
  {
    var q, r := n / TWO_TO_THE_64, n % TWO_TO_THE_64;
    WrapMultiple(256 * q, r * 256 + byte);
    WrapMultiple(r * 256 / TWO_TO_THE_64, r * 256 % TWO_TO_THE_64 + byte);
  }

  lemma WrapMultiple(q: nat, x: nat)
    ensures (q * TWO_TO_THE_64 + x) % TWO_TO_THE_64 == x % TWO_TO_THE_64
  {
  }

  lemma {:induction false} ValueOfBigEndian(n: nat)
    ensures ValueOf(BigEndian(n)) == n
    ensures n > 0 ==> BigEndian(n)[0] != 0
  {
    if n > 0 {
      ValueOfBigEndian(n / 256);
      assert BigEndian(n)[..|BigEndian(n)| - 1] == BigEndian(n / 256);
    }
  }

  /** Reading back a 64-bit number gives the number. */
  lemma NumberRoundTrip(n: nat, prefix: seq<octet>)
    requires n < TWO_TO_THE_64
    ensures prefix <= prefix + BigEndian(n)
    ensures ValueOf((prefix + BigEndian(n))[|prefix|..]) % TWO_TO_THE_64 == n
  {
    hide ValueOf, BigEndian;
    assert (prefix + BigEndian(n))[|prefix|..] == BigEndian(n);
    ValueOfBigEndian(n);
    Below64(n);
  }

  lemma Below64(n: nat)
    requires n < TWO_TO_THE_64
    ensures n % TWO_TO_THE_64 == n
  {
  }

  function Power256(n: nat): nat { if n == 0 then 1 else 256 * Power256(n - 1) }

  lemma {:induction false} ValueAppend(a: seq<octet>, b: seq<octet>)
    ensures ValueOf(a + b) == ValueOf(a) * Power256(|b|) + ValueOf(b) && ValueOf(b) < Power256(|b|)
  {
    if b == [] {
      assert a + b == a;
    } else {
      var init, last := b[..|b| - 1], b[|b| - 1];
      ValueAppend(a, init);
      assert (a + b)[..|a + b| - 1] == a + init;
      assert ValueOf(a + b) == 256 * (ValueOf(a) * Power256(|init|) + ValueOf(init)) + last;
      Distribute(ValueOf(a), Power256(|init|), ValueOf(init), last);
    }
  }

  lemma Distribute(v: nat, p: nat, w: nat, last: nat)
    ensures 256 * (v * p + w) + last == v * (256 * p) + (256 * w + last)
  {
  }

  /** Reading a number in 64 bits reads the last eight bytes. */
  lemma LastEightBytes(v: seq<octet>)
    requires |v| >= 8
    ensures ValueOf(v) % TWO_TO_THE_64 == ValueOf(v[|v| - 8..])
  {
    var a, b := v[..|v| - 8], v[|v| - 8..];
    EightBytesMore(a, b);
    assert v == a + b;
    hide ValueOf;
    WrapLow(ValueOf(v), ValueOf(a), ValueOf(b));
  }

  lemma WrapLow(n: nat, q: nat, x: nat)
    requires n == q * TWO_TO_THE_64 + x && x < TWO_TO_THE_64
    ensures n % TWO_TO_THE_64 == x
  {
    WrapMultiple(q, x);
    Below64(x);
  }

  lemma EightBytesMore(a: seq<octet>, b: seq<octet>)
    requires |b| == 8
    ensures ValueOf(a + b) == ValueOf(a) * TWO_TO_THE_64 + ValueOf(b) && ValueOf(b) < TWO_TO_THE_64
  {
    ValueAppend(a, b);
    EightPowers();
    hide ValueOf, Power256;
  }

  lemma EightPowers()
    ensures Power256(8) == TWO_TO_THE_64
  {
    assert Power256(2) == 0x1_0000;
    assert Power256(4) == 0x1_0000_0000 by { assert Power256(3) == 0x100_0000; }
    assert Power256(6) == 0x1_0000_0000_0000 by { assert Power256(5) == 0x100_0000_0000; }
    assert Power256(7) == 0x100_0000_0000_0000;
  }

  /** Bytes are the form of their number exactly when they have no leading zero. */
  lemma {:induction false} ShortestForm(v: seq<octet>)
    ensures BigEndian(ValueOf(v)) == v <==> v == [] || v[0] != 0
  {
    if v == [] {
    } else {
      var init, last := v[..|v| - 1], v[|v| - 1];
      ShortestForm(init);
      ValueOfBigEndian(ValueOf(v));
      assert v == init + [last];
      if v[0] != 0 {
        if init != [] { assert ValueOf(init) > 0 by { PositiveValue(init); } }
        assert ValueOf(v) / 256 == ValueOf(init) && ValueOf(v) % 256 == last;
      }
    }
  }

  lemma {:induction false} PositiveValue(v: seq<octet>)
    requires v != [] && v[0] != 0
    ensures ValueOf(v) > 0
  {
    if |v| > 1 { PositiveValue(v[..|v| - 1]); }
  }

  /** Canonical order of equally long bytes is the order of their numbers. */
  lemma {:induction false} CompareIsNumeric(x: seq<octet>, y: seq<octet>)
    requires |x| == |y|
    ensures CompareBytes(x, y) < 0 <==> ValueOf(x) < ValueOf(y)
    ensures CompareBytes(x, y) == 0 <==> ValueOf(x) == ValueOf(y)
  {
    if x != [] {
      var n := |x| - 1;
      CompareIsNumeric(x[..n], y[..n]);
      CompareLast(x, y);
    }
  }

  lemma {:induction false} LongerIsLarger(m: nat, n: nat)
    requires m <= n
    ensures |BigEndian(m)| <= |BigEndian(n)|
  {
    if m > 0 { LongerIsLarger(m / 256, n / 256); }
  }

  /** The canonical order of the components of numbers with one prefix is the order of the numbers. */
  lemma NumbersInOrder(m: nat, n: nat, prefix: seq<octet>)
    ensures CompareComponents(Component(Generic, prefix + BigEndian(m)), Component(Generic, prefix + BigEndian(n)))
         == if m < n then -1 else if m > n then 1 else 0
  {
    var x, y := BigEndian(m), BigEndian(n);
    ValueOfBigEndian(m);
    ValueOfBigEndian(n);
    if m <= n { LongerIsLarger(m, n); }
    if n <= m { LongerIsLarger(n, m); }
    if |x| == |y| {
      CompareIsNumeric(x, y);
      CompareAfterPrefix(prefix, x, y);
    }
  }

  lemma {:induction false} CompareAfterPrefix(prefix: seq<octet>, x: seq<octet>, y: seq<octet>)
    requires |x| == |y|
    ensures CompareBytes(prefix + x, prefix + y) == CompareBytes(x, y)
  {
    if prefix == [] {
      assert prefix + x == x && prefix + y == y;
    } else {
      CompareAfterPrefix(prefix[1..], x, y);
      assert (prefix + x)[1..] == prefix[1..] + x && (prefix + y)[1..] == prefix[1..] + y;
    }
  }
}
