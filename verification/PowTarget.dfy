/** 256-bit proof-of-work targets (kernel/src/consensus/target.rs): scaling by a ratio
    with byte-wise long multiplication and division, and the compact encoding. */
module PowTarget {
  import opened Wrappers
  import opened Bytes
  import opened Compact

  const SIZE := 32
  const POW_LIMIT_BITS := 0x201f_ffff

  /** `PoWTarget`: 32 big-endian bytes, not all zero. */
  predicate IsTarget(t: seq<Byte>) {
    |t| == SIZE && Value(t) > 0
  }

  predicate RatioPart(x: nat) {
    0 < x <= 255
  }

  // ----- scaling -----

  /** The first loop of `scale_ratio`: the 264-bit product. */
  method Multiply(t: seq<Byte>, numerator: nat) returns (wide: array<Byte>)
    requires |t| == SIZE && RatioPart(numerator)
    ensures fresh(wide) && wide.Length == SIZE + 1
    ensures Value(wide[..]) == Value(t) * numerator
  {
    hide Value, Pow256;
    wide := new Byte[SIZE + 1];
    var carry, index := 0, SIZE;
    assert t[SIZE..] == [] && wide[SIZE + 1..] == [];
    ValueNothing();
    while index > 0
      invariant 0 <= index <= SIZE && 0 <= carry < numerator
      invariant carry * Pow256(SIZE - index) + Value(wide[index + 1..]) == Value(t[index..]) * numerator
    {
      index := index - 1;
      var product := t[index] * numerator + carry;
      ghost var low := wide[index + 2..];
      CarryBound(t[index], numerator, carry);
      MultiplyStep(t[index], t[index + 1..], low, numerator, carry, product / 256, product % 256);
      wide[index + 1] := product % 256;
      assert wide[index + 1..] == [product % 256] + low;
      assert t[index..] == [t[index]] + t[index + 1..];
      carry := product / 256;
    }
    assert t[0..] == t;
    ghost var low := wide[1..];
    wide[0] := carry;
    assert wide[..] == [carry] + low;
    ValueCons(carry, low);
  }

  lemma ValueNothing()
    ensures Value([]) == 0
  {
  }

  /** One digit of the product: what leaves as carry and what stays. */
  lemma CarryStep(x: int, n: int, carry: int, p: int, rest: int, low: int, q: int, r: int)
    requires carry * p + low == rest * n && q * 256 + r == x * n + carry
    ensures q * (256 * p) + (r * p + low) == (x * p + rest) * n
  {
    Associate(q, 256, p);
    Distribute(q * 256, r, p);
    Distribute(x * n, carry, p);
    Associate(x, n, p);
    Distribute(x * p, rest, n);
  }

  lemma MultiplyStep(x: Byte, rest: seq<Byte>, low: seq<Byte>, n: int, carry: int, q: int, r: Byte)
    requires |rest| == |low| && carry * Pow256(|rest|) + Value(low) == Value(rest) * n
    requires q * 256 + r == x * n + carry
    ensures q * Pow256(|rest| + 1) + Value([r] + low) == Value([x] + rest) * n
  {
    hide Value, Pow256;
    ValueCons(r, low);
    ValueCons(x, rest);
    Pow256Step(|rest|);
    CarryStep(x, n, carry, Pow256(|rest|), Value(rest), Value(low), q, r);
  }

  lemma CarryBound(x: int, n: int, carry: int)
    requires 0 <= x < 256 && 0 <= carry < n <= 255
    ensures 0 <= (x * n + carry) / 256 < n && 0 <= x * n + carry < 256 * 256
  {
    LeqTimes(x, 255, n);
    LeqTimes(0, x, n);
  }

  lemma LeqTimes(a: int, b: int, c: int)
    requires a <= b && 0 <= c
    ensures a * c <= b * c
  {
  }

  /** The second loop of `scale_ratio`: long division in place. */
  method Divide(wide: array<Byte>, denominator: nat)
    requires RatioPart(denominator)
    modifies wide
    ensures Value(wide[..]) == old(Value(wide[..])) / denominator
  {
    hide Value, Pow256;
    ghost var orig := wide[..];
    var remainder := 0;
    ValueNothing();
    assert orig[..0] == [] && wide[..0] == [];
    for j := 0 to wide.Length
      invariant 0 <= remainder < denominator
      invariant wide[j..] == orig[j..]
      invariant Value(wide[..j]) * denominator + remainder == Value(orig[..j])
    {
      ghost var done := wide[..j];
      var value := remainder * 256 + wide[j];
      QuotientIsByte(remainder, wide[j], denominator);
      assert wide[j] == orig[j] && orig[..j + 1] == orig[..j] + [orig[j]];
      ValueSnoc(orig[..j], orig[j]);
      ValueSnoc(done, value / denominator);
      DivideStep(Value(done), remainder, Value(orig[..j]), orig[j], denominator, value / denominator, value % denominator);
      wide[j] := value / denominator;
      assert wide[..j + 1] == done + [wide[j]];
      remainder := value % denominator;
    }
    assert orig[..wide.Length] == orig && wide[..wide.Length] == wide[..];
    DivExact(Value(wide[..]), denominator, remainder);
  }

  lemma QuotientIsByte(remainder: int, byte: int, d: int)
    requires 0 <= remainder < d && 0 <= byte < 256
    ensures var v := remainder * 256 + byte; 0 <= v / d < 256 && 0 <= v % d < d && v / d * d + v % d == v
  {
    var v := remainder * 256 + byte;
    assert v < 256 * d;
    assert v / d * d + v % d == v;
    LeadingDigit(v / d, v % d, 256, 0, d);
  }

  lemma DivideStep(q: int, r: int, v: int, byte: int, d: int, digit: int, r': int)
    requires q * d + r == v && digit * d + r' == r * 256 + byte
    ensures (q * 256 + digit) * d + r' == v * 256 + byte
  {
    Distribute(q * 256, digit, d);
    Associate(q, d, 256);
  }

  /** `scale_ratio`. */
  method ScaleRatio(t: seq<Byte>, numerator: nat, denominator: nat) returns (scaled: Option<seq<Byte>>)
    requires IsTarget(t)
    ensures !RatioPart(numerator) || !RatioPart(denominator) ==> scaled.None?
    ensures RatioPart(numerator) && RatioPart(denominator) ==>
              var exact := Value(t) * numerator / denominator;
              if exact < Pow256(SIZE) then
                scaled.Some? && IsTarget(scaled.value) && Value(scaled.value) == if exact == 0 then 1 else exact
              else scaled.None?
  {
    hide Value, Pow256;
    if numerator == 0 || denominator == 0 || numerator > 255 || denominator > 255 {
      return None;
    }
    var wide := Multiply(t, numerator);
    Divide(wide, denominator);
    ghost var low := wide[1..];
    assert wide[..] == [wide[0]] + low;
    ValueCons(wide[0], low);
    ValueBound(low);
    if wide[0] != 0 {
      LeqTimes(1, wide[0], Pow256(SIZE));
      return None;
    }
    var bytes := wide[1..];
    ValueZeros(bytes);
    if forall i :: 0 <= i < SIZE ==> bytes[i] == 0 {
      bytes := bytes[SIZE - 1 := 1];
      SmallestTarget(bytes);
    }
    scaled := Some(bytes);
  }

  lemma SmallestTarget(s: seq<Byte>)
    requires |s| == SIZE && s[SIZE - 1] == 1 && forall i :: 0 <= i < SIZE - 1 ==> s[i] == 0
    ensures Value(s) == 1
  {
    assert s == s[..SIZE - 1] + [1];
    ValueZeros(s[..SIZE - 1]);
  }

  // ----- the compact encoding -----

  /** `from_compact`: exactly the decodable encodings, with the number they denote. */
  method FromCompact(c: nat) returns (t: Option<seq<Byte>>)
    requires c < 0x1_0000_0000
    ensures t.Some? <==> Decodable(c)
    ensures t.Some? ==> IsTarget(t.value) && Value(t.value) == Denoted(c)
  {
    hide Value, Pow256;
    var size, mantissa := c / 0x100_0000, c % 0x80_0000;
    if Negative(c) {
      return None;
    }
    if size == 0 || mantissa == 0 {
      NothingDenoted(size, mantissa);
      return None;
    }
    OverflowIff(size, mantissa);
    if size > 34 || (mantissa > 0xff && size > 33) || (mantissa > 0xffff && size > 32) {
      return None;
    }
    var bytes;
    if size <= 3 {
      bytes := SmallBytes(size, mantissa);
    } else {
      bytes := LargeBytes(size, mantissa);
    }
    ValueZeros(bytes);
    t := if forall i :: 0 <= i < SIZE ==> bytes[i] == 0 then None else Some(bytes);
  }

  lemma NothingDenoted(size: nat, m: nat)
    requires (size == 0 || m == 0) && m < 0x80_0000
    ensures Scaled(size, m) == 0
  {
    SmallPowers();
    if size <= 3 {
      assert size == 0 || size == 1 || size == 2 || size == 3;
    }
  }

  function Triple(high: int, mid: int, low: int): int {
    (high * 256 + mid) * 256 + low
  }

  lemma DigitStep(v: nat, k: nat)
    requires k <= 2
    ensures v / Pow256(k + 1) * 256 + v / Pow256(k) % 256 == v / Pow256(k)
  {
    SmallPowers();
    assert k == 0 || k == 1 || k == 2;
  }

  lemma FitsSize(m: nat, size: nat)
    requires 1 <= size <= 3 && m < 0x80_0000
    ensures 0 <= m / Pow256(3 - size) && m / Pow256(3 - size) / Pow256(size) == 0
  {
    SmallPowers();
    assert size == 1 || size == 2 || size == 3;
  }

  method SmallBytes(size: nat, mantissa: nat) returns (bytes: seq<Byte>)
    requires 1 <= size <= 3 && mantissa < 0x80_0000
    ensures |bytes| == SIZE && Value(bytes) == Scaled(size, mantissa)
  {
    hide Value, Pow256;
    var a := new Byte[SIZE](_ => 0);
    var value := mantissa / Pow256(3 - size);
    FitsSize(mantissa, size);
    ValueZeros(a[..SIZE - size]);
    for index := 0 to size
      invariant Value(a[..SIZE - size + index]) == value / Pow256(size - index)
    {
      ghost var done := a[..SIZE - size + index];
      var digit := value / Pow256(size - 1 - index) % 256;
      a[SIZE - size + index] := digit;
      assert a[..SIZE - size + index + 1] == done + [digit];
      ValueSnoc(done, digit);
      DigitStep(value, size - 1 - index);
    }
    SmallPowers();
    bytes := a[..];
    assert bytes == a[..SIZE];
  }

  method LargeBytes(size: nat, mantissa: nat) returns (bytes: seq<Byte>)
    requires 3 < size <= 34 && 0 < mantissa < 0x80_0000
    requires size > 33 ==> mantissa <= 0xff
    requires size > 32 ==> mantissa <= 0xffff
    ensures |bytes| == SIZE && Value(bytes) == Scaled(size, mantissa)
  {
    hide Value, Pow256;
    var a := new Byte[SIZE](_ => 0);
    var digits: seq<Byte> := [mantissa / 0x1_0000, mantissa / 256 % 256, mantissa % 256];
    var base := SIZE - size;
    for offset := 0 to 3
      invariant forall i :: 0 <= i < SIZE ==> a[i] == if base <= i < base + offset then digits[i - base] else 0
    {
      var index := base + offset;
      if index < 0 {
        // The overflow test has already refused a non-zero byte left of the target.
        assert digits[offset] == 0;
      } else {
        a[index] := digits[offset];
      }
    }
    bytes := a[..];
    PlacedValue(bytes, digits, size, mantissa);
  }

  /** Three mantissa digits, their last one followed by `size - 3` zeros, any part left of
      the target zero. */
  lemma PlacedValue(bytes: seq<Byte>, digits: seq<Byte>, size: nat, m: nat)
    requires |bytes| == SIZE && |digits| == 3 && 3 < size <= 34
    requires m == Triple(digits[0], digits[1], digits[2])
    requires size > 32 ==> digits[0] == 0
    requires size > 33 ==> digits[1] == 0
    requires var base := SIZE - size;
             forall i :: 0 <= i < SIZE ==> bytes[i] == if base <= i < base + 3 then digits[i - base] else 0
    ensures Value(bytes) == Scaled(size, m)
  {
    hide Value, Pow256, Triple;
    ThreeDigits(digits);
    if size <= SIZE {
      Inside(bytes, digits, SIZE - size);
      PaddedValue(Zeros(SIZE - size), digits, Zeros(size - 3));
    } else if size == 33 {
      assert digits == [0] + digits[1..] && bytes == digits[1..] + Zeros(30);
      ValueOne(0);
      ValueLeadingZeros([0], digits[1..]);
      PaddedValue([], digits[1..], Zeros(30));
    } else {
      assert digits == Zeros(2) + digits[2..] && bytes == digits[2..] + Zeros(31);
      ValueZeros(Zeros(2));
      ValueLeadingZeros(Zeros(2), digits[2..]);
      PaddedValue([], digits[2..], Zeros(31));
    }
  }

  lemma Inside(bytes: seq<Byte>, digits: seq<Byte>, base: nat)
    requires |bytes| == SIZE && |digits| == 3 && base + 3 <= SIZE
    requires forall i :: 0 <= i < SIZE ==> bytes[i] == if base <= i < base + 3 then digits[i - base] else 0
    ensures bytes == Zeros(base) + digits + Zeros(SIZE - 3 - base)
  {
  }

  lemma PaddedValue(lead: seq<Byte>, body: seq<Byte>, tail: seq<Byte>)
    requires forall i :: 0 <= i < |lead| ==> lead[i] == 0
    requires forall i :: 0 <= i < |tail| ==> tail[i] == 0
    ensures Value(lead + body + tail) == Value(body) * Pow256(|tail|)
    ensures lead == [] ==> lead + body == body
  {
    hide Value, Pow256;
    ValueZeros(lead);
    ValueZeros(tail);
    ValueAppend(lead + body, tail);
    ValueLeadingZeros(lead, body);
  }

  lemma ThreeDigits(s: seq<Byte>)
    requires |s| == 3
    ensures Value(s) == Triple(s[0], s[1], s[2])
  {
    hide Value, Pow256;
    assert s == [s[0]] + [s[1]] + [s[2]];
    ValueOne(s[0]);
    ValueSnoc([s[0]], s[1]);
    ValueSnoc([s[0]] + [s[1]], s[2]);
  }

  /** `to_compact`: the canonical encoding of the target's number. */
  method ToCompact(t: seq<Byte>) returns (c: nat)
    requires IsTarget(t)
    ensures c == Encode(Value(t)) && c < 0x1_0000_0000
  {
    hide Value, Pow256, Digits;
    var first := 0;
    ValueZeros(t);
    while first < SIZE && t[first] == 0
      invariant 0 <= first <= SIZE && forall i :: 0 <= i < first ==> t[i] == 0
    {
      first := first + 1;
    }
    var size := SIZE - first;
    var mantissa;
    SizeIsDigits(t, first);
    if size <= 3 {
      var value := 0;
      assert t[first..first] == [];
      ValueNothing();
      for i := first to SIZE
        invariant value == Value(t[first..i])
      {
        assert t[first..i + 1] == t[first..i] + [t[i]];
        ValueSnoc(t[first..i], t[i]);
        value := value * 256 + t[i];
      }
      assert t[first..SIZE] == t[first..];
      mantissa := value * Pow256(3 - size);
    } else {
      mantissa := Triple(t[first], t[first + 1], t[first + 2]);
      LeadingThree(t, first);
    }
    LeadingBounds(Value(t));
    if mantissa >= 0x80_0000 {
      mantissa := mantissa / 256;
      size := size + 1;
    }
    c := size * 0x100_0000 + mantissa;
  }

  lemma SizeIsDigits(t: seq<Byte>, first: nat)
    requires |t| == SIZE && first < SIZE && t[first] != 0 && forall i :: 0 <= i < first ==> t[i] == 0
    ensures Digits(Value(t)) == SIZE - first && Value(t[first..]) == Value(t)
  {
    hide Value, Pow256, Digits;
    var s := t[first..];
    assert t == t[..first] + s && s == [t[first]] + s[1..];
    ValueZeros(t[..first]);
    ValueLeadingZeros(t[..first], s);
    ValueCons(t[first], s[1..]);
    ValueBound(s);
    TimesBound(1, t[first], 255, Pow256(|s| - 1));
    DigitsUnique(Value(s), |s|);
  }

  lemma LeadingThree(t: seq<Byte>, first: nat)
    requires |t| == SIZE && first < SIZE - 3 && Digits(Value(t)) == SIZE - first && Value(t[first..]) == Value(t)
    ensures Leading(Value(t)) == Triple(t[first], t[first + 1], t[first + 2])
  {
    hide Value, Pow256, Digits;
    var s := t[first..];
    assert s == s[..3] + s[3..];
    ValueAppend(s[..3], s[3..]);
    ValueBound(s[3..]);
    DivExact(Value(s[..3]), Pow256(|s| - 3), Value(s[3..]));
    ThreeDigits(s[..3]);
  }

  // ----- the consensus limit -----

  ghost function Limit(): (l: nat)
    ensures l == 0x1f_ffff * Pow256(29)
  {
    LimitValue();
    Denoted(POW_LIMIT_BITS)
  }

  lemma LimitValue()
    ensures Denoted(POW_LIMIT_BITS) == 0x1f_ffff * Pow256(29) > 0 && Decodable(POW_LIMIT_BITS)
  {
    hide Pow256;
    OverflowIff(32, 0x1f_ffff);
    TimesBound(1, 0x1f_ffff, 0x1f_ffff, Pow256(29));
  }

  /** `pow_limit`: decoding the limit never fails. */
  method PowLimit() returns (t: seq<Byte>)
    ensures IsTarget(t) && Value(t) == Limit()
  {
    hide Value, Pow256;
    LimitValue();
    var decoded := FromCompact(POW_LIMIT_BITS);
    t := decoded.value;
  }

  /** `meets`: comparing bytes compares numbers. */
  method Meets(t: seq<Byte>, hash: seq<Byte>) returns (ok: bool)
    requires IsTarget(t) && |hash| == SIZE
    ensures ok <==> Value(hash) <= Value(t)
  {
    LexIsNumeric(t, hash);
    ok := !LexLess(t, hash);
  }

  function Min(a: int, b: int): int {
    if a < b then a else b
  }

  /** `scale_ratio_consensus`: for every ratio of two bytes it succeeds, rounds down, and is
      held between one and the limit. */
  method ScaleRatioConsensus(t: seq<Byte>, numerator: nat, denominator: nat) returns (scaled: Option<seq<Byte>>)
    requires IsTarget(t)
    ensures scaled.Some? <==> RatioPart(numerator) && RatioPart(denominator)
    ensures scaled.Some? ==>
              var exact := Value(t) * numerator / denominator;
              && IsTarget(scaled.value)
              && Value(scaled.value) == Min(Limit(), if exact == 0 then 1 else exact)
  {
    hide Value, Pow256, Limit;
    if numerator == 0 || denominator == 0 || numerator > 255 || denominator > 255 {
      return None;
    }
    var limit := PowLimit();
    scaled := ScaleRatio(t, numerator, denominator);
    LimitBelow();
    match scaled
    case Some(target) =>
      LexIsNumeric(target, limit);
      scaled := Some(if LexLess(target, limit) then target else limit);
    case None =>
      ValueBound(t);
      if numerator > denominator {
        scaled := Some(limit);
      } else {
        ShrinkFits(Value(t), numerator, denominator);
        assert false;
      }
  }

  lemma LimitBelow()
    ensures Limit() < Pow256(SIZE)
  {
    LimitValue();
  }

  lemma ShrinkFits(v: nat, n: nat, d: nat)
    requires 0 < n <= d
    ensures v * n / d <= v
  {
    TimesBound(0, n, d, v + 1);
    FloorBounds(v * n, d);
    Distribute(v, 1, n);
    Distribute(v, 1, d);
    if v * n / d > v {
      TimesBound(v + 1, v * n / d, v * n / d, d);
    }
  }

  /** What `from_consensus_compact` accepts: the canonical encodings of targets within the limit. */
  ghost predicate Accepted(c: nat) {
    Decodable(c) && Encode(Denoted(c)) == c && Denoted(c) <= Limit()
  }

  method FromConsensusCompact(c: nat) returns (t: Option<seq<Byte>>)
    requires c < 0x1_0000_0000
    ensures t.Some? <==> Accepted(c)
    ensures t.Some? ==> IsTarget(t.value) && Value(t.value) == Denoted(c)
  {
    hide Value, Pow256, Encode, Denoted, Limit;
    t := FromCompact(c);
    if t.Some? {
      var back := ToCompact(t.value);
      if back != c {
        return None;
      }
      var limit := PowLimit();
      LexIsNumeric(limit, t.value);
      if LexLess(limit, t.value) {
        return None;
      }
    }
  }

  /** Compacting a target within the limit yields bits that consensus accepts again, naming a
      target that is no easier and less than one unit of the last kept bit harder; no other
      encoding names a target between the two. */
  lemma CompactReaccepted(v: nat)
    requires 0 < v <= Limit()
    ensures Encode(v) < 0x1_0000_0000 && Accepted(Encode(v))
    ensures Denoted(Encode(v)) <= v < Denoted(Encode(v)) + Unit(v)
    ensures forall c: nat :: Denoted(c) <= v ==> Denoted(c) <= Denoted(Encode(v))
  {
    hide Value, Pow256, Encode, Denoted, Limit, Unit;
    LimitBelow();
    EncodeDecodable(v);
    EncodeIdempotent(v);
    EncodeRoundsDown(v);
    forall c: nat | Denoted(c) <= v ensures Denoted(c) <= Denoted(Encode(v)) {
      EncodeIsLargest(v, c);
    }
  }

  /** A target has at most one accepted encoding, and decoding then encoding an accepted
      one changes nothing. */
  lemma AcceptedIsCanonical(c: nat, d: nat)
    requires Accepted(c) && Accepted(d) && Denoted(c) == Denoted(d)
    ensures c == d
  {
  }
}
