/** Big-endian numbers in byte arrays, and the arithmetic of base 256. */
module Bytes {
  type Byte = b: int | 0 <= b < 256

  function Pow256(n: nat): (p: nat)
    ensures p > 0
  {
    if n == 0 then 1 else 256 * Pow256(n - 1)
  }

  /** The number a byte string spells, most significant byte first. */
  function Value(s: seq<Byte>): nat {
    if s == [] then 0 else Value(s[..|s| - 1]) * 256 + s[|s| - 1]
  }

  lemma {:induction false} Pow256Add(a: nat, b: nat)
    ensures Pow256(a + b) == Pow256(a) * Pow256(b)
  {
    if a > 0 {
      Pow256Add(a - 1, b);
      assert Pow256(a + b) == 256 * Pow256(a - 1 + b);
      assert 256 * (Pow256(a - 1) * Pow256(b)) == (256 * Pow256(a - 1)) * Pow256(b);
    }
  }

  lemma {:induction false} ValueAppend(a: seq<Byte>, b: seq<Byte>)
    ensures Value(a + b) == Value(a) * Pow256(|b|) + Value(b)
  {
    if b == [] {
      assert a + b == a;
    } else {
      var n := |b| - 1;
      var x := b[n];
      assert (a + b)[..|a + b| - 1] == a + b[..n];
      assert (a + b)[|a + b| - 1] == x;
      ValueAppend(a, b[..n]);
      assert Value(a + b) == Value(a + b[..n]) * 256 + x;
      assert Pow256(|b|) == 256 * Pow256(n);
      assert (Value(a) * Pow256(n)) * 256 == Value(a) * (256 * Pow256(n));
    }
  }

  lemma {:induction false} ValueBound(s: seq<Byte>)
    ensures Value(s) < Pow256(|s|)
  {
    if s != [] {
      ValueBound(s[..|s| - 1]);
    }
  }

  function Zeros(n: nat): (s: seq<Byte>)
    ensures |s| == n && forall i :: 0 <= i < n ==> s[i] == 0
  {
    seq(n, i => 0)
  }

  lemma {:induction false} ValueZeros(s: seq<Byte>)
    ensures Value(s) == 0 <==> forall i :: 0 <= i < |s| ==> s[i] == 0
  {
    if s != [] {
      var n := |s| - 1;
      ValueZeros(s[..n]);
      assert forall i :: 0 <= i < n ==> s[i] == s[..n][i];
    }
  }

  lemma Pow256Step(n: nat)
    ensures Pow256(n + 1) == 256 * Pow256(n)
  {
  }

  lemma ValueSnoc(s: seq<Byte>, x: Byte)
    ensures Value(s + [x]) == Value(s) * 256 + x
  {
    assert (s + [x])[..|s|] == s;
  }

  lemma ValueCons(x: Byte, s: seq<Byte>)
    ensures Value([x] + s) == x * Pow256(|s|) + Value(s)
  {
    ValueAppend([x], s);
    ValueOne(x);
  }

  lemma ValueOne(x: Byte)
    ensures Value([x]) == x
  {
    assert [x][..0] == [];
  }

  /** Leading zeros do not change the number. */
  lemma ValueLeadingZeros(z: seq<Byte>, s: seq<Byte>)
    requires Value(z) == 0
    ensures Value(z + s) == Value(s)
  {
    ValueAppend(z, s);
  }

  /** The order on byte strings, a prefix before what extends it. */
  predicate LexLess(a: seq<Byte>, b: seq<Byte>) {
    b != [] && (a == [] || a[0] < b[0] || (a[0] == b[0] && LexLess(a[1..], b[1..])))
  }

  /** For equal lengths, lexicographic order is numeric order. */
  lemma {:induction false} LexIsNumeric(a: seq<Byte>, b: seq<Byte>)
    requires |a| == |b|
    ensures LexLess(a, b) <==> Value(a) < Value(b)
  {
    if a != [] {
      var n := |a| - 1;
      assert a == [a[0]] + a[1..] && b == [b[0]] + b[1..];
      ValueAppend([a[0]], a[1..]);
      ValueAppend([b[0]], b[1..]);
      ValueOne(a[0]);
      ValueOne(b[0]);
      LexIsNumeric(a[1..], b[1..]);
      ValueBound(a[1..]);
      ValueBound(b[1..]);
      LeadingDigit(a[0], Value(a[1..]), b[0], Value(b[1..]), Pow256(n));
    }
  }

  /** Comparison by the leading digit first. */
  lemma LeadingDigit(x: int, r: int, y: int, s: int, p: int)
    requires 0 <= r < p && 0 <= s < p
    ensures x * p + r < y * p + s <==> x < y || (x == y && r < s)
  {
    if x < y {
      assert (x + 1) * p <= y * p;
    } else if y < x {
      assert (y + 1) * p <= x * p;
    }
  }

  lemma DivExact(q: int, p: int, r: int)
    requires p > 0 && 0 <= r < p
    ensures (q * p + r) / p == q && (q * p + r) % p == r
  {
    var v := q * p + r;
    assert v / p * p + v % p == v;
    LeadingDigit(q, r, v / p, v % p, p);
    LeadingDigit(v / p, v % p, q, r, p);
  }

  lemma Distribute(a: int, b: int, c: int)
    ensures (a + b) * c == a * c + b * c
  {
  }

  lemma Associate(a: int, b: int, c: int)
    ensures a * (b * c) == (a * b) * c && (a * b) * c == (a * c) * b
  {
  }
}
