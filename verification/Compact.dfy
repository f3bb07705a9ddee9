/** The numbers behind the compact target encoding: one byte of size and 23 bits of
    mantissa (kernel/src/consensus/target.rs). */
module Compact {
  import opened Bytes

  function Size(c: nat): nat {
    c / 0x100_0000
  }

  function Mantissa(c: nat): nat {
    c % 0x80_0000
  }

  predicate Negative(c: nat) {
    c / 0x80_0000 % 2 == 1
  }

  function Pack(size: nat, mantissa: nat): nat {
    size * 0x100_0000 + mantissa
  }

  /** The number a compact encoding denotes, the sign aside. */
  function Denoted(c: nat): int {
    Scaled(Size(c), Mantissa(c))
  }

  function Scaled(size: nat, m: int): int {
    if size <= 3 then m / Pow256(3 - size) else m * Pow256(size - 3)
  }

  /** Number of base-256 digits. */
  function Digits(v: int): nat {
    if v <= 0 then 0 else 1 + Digits(v / 256)
  }

  /** The three leading digits, as a 24-bit number. */
  function Leading(v: int): int {
    var n := Digits(v);
    if n <= 3 then v * Pow256(3 - n) else v / Pow256(n - 3)
  }

  /** The canonical encoding of a number. */
  function Encode(v: int): nat
    requires v > 0
  {
    LeadingBounds(v);
    var n, m := Digits(v), Leading(v);
    if m >= 0x80_0000 then Pack(n + 1, m / 256) else Pack(n, m)
  }

  lemma PackParts(size: nat, m: nat)
    requires m < 0x80_0000
    ensures Size(Pack(size, m)) == size && Mantissa(Pack(size, m)) == m && !Negative(Pack(size, m))
  {
  }

  lemma {:induction false} DigitsBounds(v: nat)
    requires v > 0
    ensures Digits(v) >= 1 && Pow256(Digits(v) - 1) <= v < Pow256(Digits(v))
  {
    if v >= 256 {
      DigitsBounds(v / 256);
    } else {
      assert Digits(v / 256) == 0;
    }
  }

  lemma {:induction false} DigitsUnique(v: nat, n: nat)
    requires n >= 1 && Pow256(n - 1) <= v < Pow256(n)
    ensures Digits(v) == n
  {
    if n == 1 {
      assert v / 256 == 0;
    } else {
      DigitsUnique(v / 256, n - 1);
    }
  }

  lemma SmallPowers()
    ensures Pow256(0) == 1 && Pow256(1) == 256 && Pow256(2) == 0x1_0000 && Pow256(3) == 0x100_0000
  {
    assert Pow256(1) == 256 * Pow256(0);
  }

  lemma {:induction false} Pow256Mono(a: nat, b: nat)
    requires a <= b
    ensures Pow256(a) <= Pow256(b)
    decreases b
  {
    if a < b {
      Pow256Mono(a, b - 1);
    }
  }

  /** A number is at least and less than the multiples of `p` around it. */
  lemma FloorBounds(v: int, p: int)
    requires p > 0
    ensures v / p * p <= v < v / p * p + p
  {
    assert v / p * p + v % p == v;
  }

  lemma DivBetween(v: int, p: int, lo: int, hi: int)
    requires p > 0 && lo * p <= v < hi * p
    ensures lo <= v / p < hi
  {
    var q, r := v / p, v % p;
    assert q * p + r == v;
    LeadingDigit(q, r, lo, 0, p);
    LeadingDigit(q, r, hi, 0, p);
  }

  lemma LeadingBounds(v: nat)
    requires v > 0
    ensures 0x1_0000 <= Leading(v) < 0x100_0000
  {
    var n := Digits(v);
    DigitsBounds(v);
    SmallPowers();
    if n <= 3 {
      assert n == 1 || n == 2 || n == 3;
    } else {
      var p := Pow256(n - 3);
      Pow256Add(2, n - 3);
      Pow256Add(3, n - 3);
      DivBetween(v, p, 0x1_0000, 0x100_0000);
    }
  }

  /** One or two digits are encoded exactly. */
  lemma EncodeSmall(v: nat)
    requires v > 0 && Digits(v) <= 2
    ensures !Negative(Encode(v)) && Denoted(Encode(v)) == v
  {
    hide Pow256, Digits, Negative, Mantissa, Size, Pack;
    var n, m := Digits(v), Leading(v);
    LeadingBounds(v);
    DigitsBounds(v);
    SmallPowers();
    if m >= 0x80_0000 {
      PackParts(n + 1, m / 256);
    } else {
      PackParts(n, m);
    }
    if n == 1 {
      assert m == v * 0x1_0000;
    } else {
      assert m == v * 256;
    }
  }

  /** Beyond that the low digits are cut off. */
  lemma EncodeLarge(v: nat)
    requires v > 0 && Digits(v) >= 3
    ensures var n, m, c := Digits(v), Leading(v), Encode(v);
            && m == v / Pow256(n - 3)
            && !Negative(c)
            && Denoted(c) == if m >= 0x80_0000 then m / 256 * Pow256(n - 2) else m * Pow256(n - 3)
  {
    hide Pow256, Digits, Negative, Mantissa, Size, Pack;
    var n, m := Digits(v), Leading(v);
    LeadingBounds(v);
    SmallPowers();
    if m >= 0x80_0000 {
      PackParts(n + 1, m / 256);
    } else {
      PackParts(n, m);
    }
  }

  /** The weight of the last bit an encoding of the number can keep. */
  function Unit(v: nat): (u: nat)
    requires v > 0
    ensures u > 0
  {
    var n := Digits(v);
    if n <= 2 then 1 else if Leading(v) >= 0x80_0000 then Pow256(n - 2) else Pow256(n - 3)
  }

  /** Rounding: what a number's encoding denotes is the number cut down to a multiple of its unit. */
  lemma EncodeRoundsDown(v: nat)
    requires v > 0
    ensures !Negative(Encode(v)) && 0 < Denoted(Encode(v)) <= v < Denoted(Encode(v)) + Unit(v)
    ensures Denoted(Encode(v)) == v / Unit(v) * Unit(v)
    ensures Digits(v) >= 3 ==> v / Unit(v) >= 0x8000
  {
    hide Pow256, Digits, Negative, Denoted, Encode, Leading;
    var n, m := Digits(v), Leading(v);
    if n <= 2 {
      EncodeSmall(v);
    } else {
      EncodeLarge(v);
      LeadingBounds(v);
      if m >= 0x80_0000 {
        Pow256Step(n - 3);
        DivTwice(v, Pow256(n - 3), 256);
      }
      FloorBounds(v, Unit(v));
      TimesBound(0x8000, v / Unit(v), v / Unit(v), Unit(v));
    }
  }

  lemma DivTwice(v: int, p: int, k: int)
    requires v >= 0 && p > 0 && k > 0
    ensures k * p > 0 && v / p / k == v / (k * p)
  {
    var q := v / p;
    FloorBounds(v, p);
    FloorBounds(q, k);
    var d, u := q / k, k * p;
    Associate(d, k, p);
    TimesBound(d * k, q, q, p);
    TimesBound(q + 1, q + 1, d * k + k, p);
    Distribute(d * k, k, p);
    Distribute(q, 1, p);
    Distribute(d, 1, u);
    DivBetween(v, u, d, d + 1);
  }

  /** Multiples of 256^k with at least 16 bits in front are the only candidates near such a one. */
  lemma NothingBetween(v: nat, k: nat, q: nat, size: nat, m: nat)
    requires q >= 0x8000 && q * Pow256(k) <= v < q * Pow256(k) + Pow256(k)
    requires m < 0x80_0000 && Scaled(size, m) <= v
    ensures Scaled(size, m) <= q * Pow256(k)
  {
    hide Pow256;
    SmallPowers();
    var p := Pow256(k);
    if k == 0 {
    } else if size >= k + 3 {
      var e := size - 3 - k;
      Pow256Add(e, k);
      Associate(m, Pow256(e), p);
      Distribute(q, 1, p);
      Multiples(m * Pow256(e), q, p);
    } else {
      Pow256Step(k - 1);
      Associate(0x8000, 256, Pow256(k - 1));
      TimesBound(0x8000, q, q, p);
      TimesBound(1, Pow256(k - 1), Pow256(k - 1), 0x80_0000);
      if size > 3 {
        Pow256Mono(size - 3, k - 1);
        TimesBound(0, m, 0x80_0000, Pow256(size - 3));
        TimesBound(Pow256(size - 3), Pow256(k - 1), Pow256(k - 1), 0x80_0000);
      } else {
        DivLess(m, Pow256(3 - size));
      }
    }
  }

  lemma Multiples(x: int, q: int, p: int)
    requires p > 0 && x * p < (q + 1) * p
    ensures x * p <= q * p
  {
    LeadingDigit(x, 0, q + 1, 0, p);
    TimesBound(x, q, q, p);
  }

  /** And it is the best possible: no encoding denotes a number closer from below. */
  lemma EncodeIsLargest(v: nat, c: nat)
    requires v > 0 && Denoted(c) <= v
    ensures Denoted(c) <= Denoted(Encode(v)) <= v
  {
    hide Pow256, Digits, Negative, Encode, Leading;
    EncodeRoundsDown(v);
    if Digits(v) >= 3 {
      var k := if Leading(v) >= 0x80_0000 then Digits(v) - 2 else Digits(v) - 3;
      NothingBetween(v, k, v / Unit(v), Size(c), Mantissa(c));
    }
  }

  lemma TimesBound(lo: int, x: int, hi: int, p: int)
    requires p > 0 && lo <= x <= hi
    ensures lo * p <= x * p <= hi * p
  {
  }

  /** Encoding what an encoding denotes gives the encoding back. */
  lemma EncodeIdempotent(v: nat)
    requires v > 0
    ensures Denoted(Encode(v)) > 0 && Encode(Denoted(Encode(v))) == Encode(v)
  {
    hide Pow256, Digits, Negative, Denoted, Leading;
    var n, m := Digits(v), Leading(v);
    EncodeRoundsDown(v);
    if n <= 2 {
      EncodeSmall(v);
    } else {
      EncodeLarge(v);
      LeadingBounds(v);
      if m >= 0x80_0000 {
        Pow256Step(n - 3);
        Associate(m / 256, 256, Pow256(n - 3));
        SameDigits(m / 256 * 256, n);
      } else {
        SameDigits(m, n);
      }
    }
  }

  lemma SameDigits(m: nat, n: nat)
    requires n >= 3 && 0x1_0000 <= m < 0x100_0000
    ensures Digits(m * Pow256(n - 3)) == n && Leading(m * Pow256(n - 3)) == m
  {
    hide Pow256, Digits;
    var p := Pow256(n - 3);
    SmallPowers();
    Pow256Add(2, n - 3);
    Pow256Add(3, n - 3);
    DivExact(m, p, 0);
    TimesBound(0x1_0000, m, 0xff_ffff, p);
    DigitsUnique(m * p, n);
    if n == 3 {
      assert p == 1;
    }
  }

  /** The overflow test on size and mantissa is exactly "2^256 or more". */
  lemma OverflowIff(size: nat, m: nat)
    requires 0 < m < 0x80_0000
    ensures Scaled(size, m) >= Pow256(32) <==>
            size > 34 || (m > 0xff && size > 33) || (m > 0xffff && size > 32)
  {
    hide Pow256;
    SmallPowers();
    Pow256Mono(3, 32);
    if size <= 3 {
      DivLess(m, Pow256(3 - size));
    } else if size <= 32 {
      Pow256Add(3, size - 3);
      Pow256Mono(size, 32);
      TimesBound(0, m, 0xff_ffff, Pow256(size - 3));
    } else if size == 33 {
      Pow256Add(2, 30);
      LeadingDigit(m, 0, 0x1_0000, 0, Pow256(30));
    } else if size == 34 {
      Pow256Add(1, 31);
      LeadingDigit(m, 0, 256, 0, Pow256(31));
    } else {
      Pow256Mono(32, size - 3);
      TimesBound(1, m, m, Pow256(size - 3));
    }
  }

  /** What `from_compact` decodes: unsigned, non-zero and below 2^256. */
  predicate Decodable(c: nat) {
    !Negative(c) && 0 < Denoted(c) < Pow256(32)
  }

  /** Every number below 2^256 has an encoding that fits 32 bits and decodes. */
  lemma EncodeDecodable(v: nat)
    requires 0 < v < Pow256(32)
    ensures Encode(v) < 0x1_0000_0000 && Decodable(Encode(v))
  {
    hide Pow256, Digits, Negative, Denoted, Leading;
    EncodeRoundsDown(v);
    DigitsBounds(v);
    LeadingBounds(v);
    if Digits(v) > 32 {
      Pow256Mono(32, Digits(v) - 1);
    }
  }

  lemma DivLess(m: int, p: int)
    requires p > 0 && m >= 0
    ensures m / p <= m
  {
    if m / p > m {
      FloorBounds(m, p);
      Distribute(m, m / p - m, p);
      TimesBound(1, m / p - m, m / p - m, p);
      TimesBound(0, m, m, p);
      MulGrows(m, p);
    }
  }

  lemma MulGrows(m: int, p: int)
    requires p > 0 && m >= 0
    ensures m <= m * p
  {
    Distribute(1, p - 1, m);
    assert 0 <= (p - 1) * m;
  }
}
