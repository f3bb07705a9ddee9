/** The block locator a node sends to find a common ancestor, and its wire form
    (runtime/src/node/chain_sync.rs). */
module Locator {
  import opened Powers
  import opened Wrappers
  import opened Bytes
  import opened Integers
  import opened HeaderChain
  import opened HeaderCheckpoints

  const MAX_LOCATOR_HASHES := 64
  const GET_HEADERS_MESSAGE: Byte := 1

  /** Depth below the tip of the `i`-th entry: ten single steps, then doubling ones. */
  function Depth(i: nat): nat {
    if i <= 9 then i else 8 + Pow2(i - 9)
  }

  lemma DepthGrows(i: nat)
    ensures Depth(i) < Depth(i + 1) <= 2 * (Depth(i) + 1)
    ensures Depth(i + 1) - Depth(i) == if i <= 9 then 1 else Pow2(i - 9)
  {
    if i >= 9 {
      assert Pow2(i - 8) == 2 * Pow2(i - 9);
      PowPositive(i - 9);
    }
  }

  lemma {:induction false} PowPositive(n: nat)
    ensures Pow2(n) > 0
  {
    if n > 0 {
      PowPositive(n - 1);
    }
  }

  lemma StepFits(n: nat)
    requires n <= 63
    ensures Pow2(n) <= MAX_U64
  {
    Pow2At65();
    Pow2Monotone(n, 63);
    assert Pow2(65) == 2 * Pow2(64) && Pow2(64) == 2 * Pow2(63);
  }

  /** A chain whose genesis is the expected one and no other header is mistaken for it. */
  ghost predicate HonestChain(r: Rules, headers: map<nat, Header>, n: nat, genesis: Hash) {
    && 0 < n <= MAX_U64 && Contiguous(headers, n)
    && forall i: nat :: i < n ==> r.hash(headers[i]).Some? && (r.hash(headers[i]).value == genesis <==> i == 0)
  }

  predicate Names(r: Rules, headers: map<nat, Header>, entry: (Hash, nat)) {
    entry.1 in headers && r.hash(headers[entry.1]) == Some(entry.0)
  }

  /** Entry `i` is the first one at least `d` below the tip. */
  predicate FirstAt(locator: seq<(Hash, nat)>, tip: nat, d: nat, i: nat) {
    i < |locator| && tip - locator[i].1 >= d && (i > 0 ==> tip - locator[i - 1].1 < d)
  }

  ghost predicate Reaches(locator: seq<(Hash, nat)>, tip: nat, d: nat) {
    exists i: nat :: FirstAt(locator, tip, d, i) && (tip - locator[i].1 <= 2 * d || locator[i].1 == 0)
  }

  /** From the tip strictly down to genesis, within the limit, each entry naming its header;
      and whatever the depth of a fork, the first entry at or below it is at most twice as
      deep, or genesis. */
  ghost predicate Locates(r: Rules, headers: map<nat, Header>, tip: nat, locator: seq<(Hash, nat)>) {
    && 0 < |locator| <= MAX_LOCATOR_HASHES
    && locator[0].1 == tip && locator[|locator| - 1].1 == 0
    && (forall i :: 0 <= i < |locator| ==> Names(r, headers, locator[i]))
    && (forall i, j :: 0 <= i < j < |locator| ==> locator[j].1 < locator[i].1)
    && (forall d: nat :: d <= tip ==> Reaches(locator, tip, d))
  }

  /** Entries above genesis, at the depths of the doubling schedule. */
  predicate Upper(r: Rules, headers: map<nat, Header>, tip: nat, locator: seq<(Hash, nat)>) {
    forall i :: 0 <= i < |locator| ==>
      Names(r, headers, locator[i]) && locator[i].1 == tip - Depth(i) && locator[i].1 > 0
  }

  /** The loop comes to an entry `i`. */
  predicate Reached(tip: nat, i: nat) {
    i < MAX_LOCATOR_HASHES - 1 && (i > 0 ==> tip > Depth(i - 1))
  }

  predicate Hashed(r: Rules, headers: map<nat, Header>, h: nat) {
    h in headers && r.hash(headers[h]).Some?
  }

  /** Entry `i` as the loop makes it. */
  predicate Visits(r: Rules, headers: map<nat, Header>, tip: nat, locator: seq<(Hash, nat)>, i: nat) {
    i < |locator| && Names(r, headers, locator[i]) && locator[i].1 == SatSub(tip, Depth(i))
  }

  /** Whatever the headers: the visited entries, and the genesis hash at the end. */
  ghost predicate Lists(r: Rules, headers: map<nat, Header>, tip: nat, genesis: Hash, locator: seq<(Hash, nat)>) {
    && locator != [] && locator[|locator| - 1].0 == genesis
    && (forall i: nat :: Reached(tip, i) ==> Visits(r, headers, tip, locator, i))
    && (forall i: nat :: i < |locator| ==> Reached(tip, i) || Added(locator, genesis, i))
  }

  /** The genesis hash, put last where the loop did not end with it. */
  predicate Added(locator: seq<(Hash, nat)>, genesis: Hash, i: nat) {
    0 < i == |locator| - 1 && locator[i] == (genesis, 0) && locator[i - 1].0 != genesis
  }

  lemma {:induction false} ReachedDown(tip: nat, i: nat, j: nat)
    requires Reached(tip, i) && j <= i
    ensures Reached(tip, j)
  {
    hide Depth;
    if 0 < j < i {
      DepthOrder(j - 1, i - 1);
    }
  }

  /** `ledger_header_locator`: it fails exactly where a header it comes to is missing or has no
      hash; on the chain of this network the locator finds every fork within twice its depth. */
  method HeaderLocator(r: Rules, headers: map<nat, Header>, tip: Option<nat>, genesis: Hash)
    returns (o: Result<seq<(Hash, nat)>>)
    ensures o.Success? <==> tip.Some? && forall i: nat :: Reached(tip.value, i) ==> Hashed(r, headers, SatSub(tip.value, Depth(i)))
    ensures o.Success? ==> Lists(r, headers, tip.value, genesis, o.value)
    ensures tip.Some? && HonestChain(r, headers, tip.value + 1, genesis) ==>
              o.Success? && Locates(r, headers, tip.value, o.value)
  {
    hide Depth, Pow2, Locates, Reached, HonestChain;
    if tip.None? {
      return Failure("local header chain is empty");
    }
    var visited := Visit(r, headers, tip.value);
    if HonestChain(r, headers, tip.value + 1, genesis) {
      HonestHashed(r, headers, tip.value, genesis);
    }
    if visited.Failure? {
      return Failure(visited.reason);
    }
    var locator := visited.value;
    AllVisited(r, headers, tip.value, locator);
    if locator[|locator| - 1].0 != genesis {
      locator := locator + [(genesis, 0)];
    }
    ListsFollows(r, headers, tip.value, genesis, visited.value);
    if HonestChain(r, headers, tip.value + 1, genesis) {
      HonestLocates(r, headers, tip.value, genesis, locator);
    }
    o := Success(locator);
  }

  /** The loop. */
  method Visit(r: Rules, headers: map<nat, Header>, tip: nat) returns (o: Result<seq<(Hash, nat)>>)
    ensures o.Failure? ==> exists i: nat :: Reached(tip, i) && !Hashed(r, headers, SatSub(tip, Depth(i)))
    ensures o.Success? ==> o.value != [] && Done(r, headers, tip, o.value)
  {
    hide Depth, Pow2, Reached;
    var locator: seq<(Hash, nat)> := [];
    var height, step := tip, 1;
    DepthStart();
    FirstReached(tip);
    while true
      invariant |locator| <= MAX_LOCATOR_HASHES - 2 && Reached(tip, |locator|)
      invariant forall i: nat :: i < |locator| ==> Reached(tip, i) && Visits(r, headers, tip, locator, i)
      invariant height == SatSub(tip, Depth(|locator|))
      invariant step == if |locator| <= 9 then 1 else Pow2(|locator| - 9)
      decreases MAX_LOCATOR_HASHES - |locator|
    {
      if height !in headers {
        assert !Hashed(r, headers, SatSub(tip, Depth(|locator|)));
        return Failure("canonical header is missing");
      }
      var hash := r.hash(headers[height]);
      if hash.None? {
        assert !Hashed(r, headers, SatSub(tip, Depth(|locator|)));
        return Failure("header hash failed");
      }
      VisitsMore(r, headers, tip, locator, (hash.value, height));
      ReachedNext(tip, |locator|);
      locator := locator + [(hash.value, height)];
      if height == 0 || |locator| == MAX_LOCATOR_HASHES - 1 {
        break;
      }
      DepthGrows(|locator| - 1);
      height := SatSub(height, step);
      if |locator| >= 10 {
        StepDoubles(|locator|);
        step := if 2 * step > MAX_U64 then MAX_U64 else 2 * step;
      }
    }
    o := Success(locator);
  }

  /** The loop's entries so far, and it comes to no further one. */
  ghost predicate Done(r: Rules, headers: map<nat, Header>, tip: nat, locator: seq<(Hash, nat)>) {
    && (forall i: nat :: i < |locator| ==> Reached(tip, i) && Visits(r, headers, tip, locator, i))
    && !Reached(tip, |locator|)
  }

  lemma FirstReached(tip: nat)
    ensures Reached(tip, 0)
  {
  }

  lemma ReachedNext(tip: nat, i: nat)
    requires Reached(tip, i)
    ensures Reached(tip, i + 1) <==> SatSub(tip, Depth(i)) > 0 && i + 1 < MAX_LOCATOR_HASHES - 1
  {
  }

  lemma VisitsMore(r: Rules, headers: map<nat, Header>, tip: nat, locator: seq<(Hash, nat)>, x: (Hash, nat))
    requires forall i: nat :: i < |locator| ==> Visits(r, headers, tip, locator, i)
    requires Names(r, headers, x) && x.1 == SatSub(tip, Depth(|locator|))
    ensures forall i: nat :: i < |locator| + 1 ==> Visits(r, headers, tip, locator + [x], i)
  {
    hide Depth, Names;
    forall i: nat | i < |locator| + 1 ensures Visits(r, headers, tip, locator + [x], i) {
      assert i < |locator| ==> Visits(r, headers, tip, locator, i);
    }
  }

  lemma AllVisited(r: Rules, headers: map<nat, Header>, tip: nat, locator: seq<(Hash, nat)>)
    requires Done(r, headers, tip, locator)
    ensures forall i: nat :: Reached(tip, i) ==> i < |locator| && Visits(r, headers, tip, locator, i)
    ensures forall i: nat :: Reached(tip, i) ==> Hashed(r, headers, SatSub(tip, Depth(i)))
  {
    hide Depth, Reached;
    forall i: nat | Reached(tip, i) ensures i < |locator| {
      if i >= |locator| {
        ReachedDown(tip, i, |locator|);
      }
    }
  }

  lemma ListsFollows(r: Rules, headers: map<nat, Header>, tip: nat, genesis: Hash, locator: seq<(Hash, nat)>)
    requires locator != [] && Done(r, headers, tip, locator)
    ensures Lists(r, headers, tip, genesis, if locator[|locator| - 1].0 != genesis then locator + [(genesis, 0)] else locator)
  {
    hide Depth, Reached, Names;
    AllVisited(r, headers, tip, locator);
    var longer := locator + [(genesis, 0)];
    forall i: nat | i < |locator| ensures Visits(r, headers, tip, longer, i) {
      assert Visits(r, headers, tip, locator, i) && longer[i] == locator[i];
    }
  }

  lemma HonestHashed(r: Rules, headers: map<nat, Header>, tip: nat, genesis: Hash)
    requires HonestChain(r, headers, tip + 1, genesis)
    ensures forall i: nat :: Hashed(r, headers, SatSub(tip, Depth(i)))
  {
    hide Depth;
  }

  lemma EntryVisited(r: Rules, headers: map<nat, Header>, tip: nat, genesis: Hash, locator: seq<(Hash, nat)>, i: nat)
    requires Lists(r, headers, tip, genesis, locator) && i < |locator| - 1
    ensures Reached(tip, i) && Visits(r, headers, tip, locator, i)
  {
    hide Reached, Names, Depth;
  }

  lemma HonestLocates(r: Rules, headers: map<nat, Header>, tip: nat, genesis: Hash, locator: seq<(Hash, nat)>)
    requires HonestChain(r, headers, tip + 1, genesis) && Lists(r, headers, tip, genesis, locator)
    ensures Locates(r, headers, tip, locator)
  {
    hide Depth, Locates;
    var last := |locator| - 1;
    DepthStart();
    FirstReached(tip);
    forall i | 0 <= i < last ensures Names(r, headers, locator[i]) && locator[i].1 == tip - Depth(i) && locator[i].1 > 0 {
      EntryVisited(r, headers, tip, genesis, locator, i);
      ReachedNext(tip, i);
    }
    assert Upper(r, headers, tip, locator[..last]);
    if Reached(tip, last) {
      assert Visits(r, headers, tip, locator, last);
    }
    if last > 0 {
      EntryVisited(r, headers, tip, genesis, locator, last - 1);
    } else {
      ReachedNext(tip, 0);
      assert Reached(tip, 1) ==> Visits(r, headers, tip, locator, 1);
    }
    LocatesFollows(r, headers, tip, locator);
  }

  lemma DepthStart()
    ensures Depth(0) == 0
  {
  }

  lemma StepDoubles(n: nat)
    requires 10 <= n <= 63
    ensures n > 10 ==> 2 * Pow2(n - 10) == Pow2(n - 9) <= MAX_U64
    ensures Pow2(n - 9) == if n == 10 then 2 else 2 * Pow2(n - 10)
  {
    StepFits(n - 9);
    assert Pow2(1) == 2 * Pow2(0);
  }

  lemma {:induction false} DepthOrder(i: nat, j: nat)
    requires i < j
    ensures Depth(i) < Depth(j)
  {
    DepthGrows(j - 1);
    if i < j - 1 {
      DepthOrder(i, j - 1);
    }
  }

  lemma LocatesFollows(r: Rules, headers: map<nat, Header>, tip: nat, locator: seq<(Hash, nat)>)
    requires 0 < |locator| <= MAX_LOCATOR_HASHES && Upper(r, headers, tip, locator[..|locator| - 1])
    requires locator[|locator| - 1].1 == 0 && Names(r, headers, locator[|locator| - 1])
    requires |locator| == 1 ==> tip == 0
    ensures Locates(r, headers, tip, locator)
  {
    hide Depth;
    var last := |locator| - 1;
    DepthStart();
    assert forall i :: 0 <= i < last ==> locator[i] == locator[..last][i];
    assert last > 0 ==> locator[0] == locator[..last][0];
    forall i, j | 0 <= i < j < |locator| ensures locator[j].1 < locator[i].1 {
      if j < last {
        DepthOrder(i, j);
      }
    }
    forall d: nat | d <= tip ensures Reaches(locator, tip, d) {
      var i := Reach(locator, tip, d);
      if 0 < i < last {
        DepthGrows(i - 1);
      }
      assert FirstAt(locator, tip, d, i) && (tip - locator[i].1 <= 2 * d || locator[i].1 == 0);
    }
  }

  lemma Reach(locator: seq<(Hash, nat)>, tip: nat, d: nat) returns (i: nat)
    requires locator != [] && locator[|locator| - 1].1 == 0 && d <= tip
    ensures FirstAt(locator, tip, d, i)
  {
    i := 0;
    while tip - locator[i].1 < d
      invariant i < |locator| && (i > 0 ==> tip - locator[i - 1].1 < d)
      decreases |locator| - i
    {
      i := i + 1;
    }
  }

  // ----- wire form -----

  function Flatten(hashes: seq<seq<Byte>>): seq<Byte> {
    if hashes == [] then [] else hashes[0] + Flatten(hashes[1..])
  }

  predicate Hashes32(hashes: seq<seq<Byte>>) {
    forall i :: 0 <= i < |hashes| ==> |hashes[i]| == 32
  }

  predicate Encodes(bytes: seq<Byte>, hashes: seq<seq<Byte>>) {
    && Hashes32(hashes) && 0 < |hashes| <= MAX_LOCATOR_HASHES
    && bytes == [GET_HEADERS_MESSAGE, |hashes|] + Flatten(hashes)
  }

  /** `encode_locator`. */
  method EncodeLocator(hashes: seq<seq<Byte>>) returns (o: Result<seq<Byte>>)
    requires Hashes32(hashes)
    ensures o.Success? <==> 0 < |hashes| <= MAX_LOCATOR_HASHES
    ensures o.Success? ==> Encodes(o.value, hashes)
  {
    if hashes == [] || |hashes| > MAX_LOCATOR_HASHES {
      return Failure("header locator count is outside allowed range");
    }
    var bytes: seq<Byte> := [GET_HEADERS_MESSAGE, |hashes|];
    ghost var head := bytes;
    assert hashes[..0] == [];
    for i := 0 to |hashes|
      invariant bytes == head + Flatten(hashes[..i])
    {
      bytes := bytes + hashes[i];
      FlattenSnoc(hashes[..i], hashes[i]);
      assert hashes[..i + 1] == hashes[..i] + [hashes[i]];
    }
    assert hashes[..|hashes|] == hashes;
    o := Success(bytes);
  }

  lemma {:induction false} FlattenSnoc(a: seq<seq<Byte>>, x: seq<Byte>)
    ensures Flatten(a + [x]) == Flatten(a) + x
  {
    if a == [] {
      assert a + [x] == [x] && [x][1..] == [];
    } else {
      assert (a + [x])[1..] == a[1..] + [x];
      FlattenSnoc(a[1..], x);
    }
  }

  /** `decode_locator`: it accepts exactly the encodings, and inverts them. */
  method DecodeLocator(bytes: seq<Byte>) returns (o: Result<seq<seq<Byte>>>)
    ensures o.Success? ==> Encodes(bytes, o.value)
    ensures o.Failure? ==> forall hashes :: !Encodes(bytes, hashes)
  {
    hide Encodes;
    if bytes == [] || bytes[0] != GET_HEADERS_MESSAGE {
      NotEncoded(bytes);
      return Failure("expected get-headers message");
    }
    if |bytes| < 2 {
      NotEncoded(bytes);
      return Failure("missing locator count");
    }
    var count: int := bytes[1];
    if count == 0 || count > MAX_LOCATOR_HASHES || |bytes| != 2 + count * 32 {
      NotEncoded(bytes);
      return Failure("invalid header locator size");
    }
    var hashes := Chunks(bytes[2..], count);
    EncodesParts(bytes, hashes);
    o := Success(hashes);
  }

  method Chunks(body: seq<Byte>, count: nat) returns (hashes: seq<seq<Byte>>)
    requires |body| == count * 32
    ensures |hashes| == count && Hashes32(hashes) && Flatten(hashes) == body
  {
    hide Flatten;
    hashes := [];
    FlattenNothing();
    for i := 0 to count
      invariant |hashes| == i && Hashes32(hashes) && Flatten(hashes) == body[..i * 32]
    {
      var chunk := body[i * 32..(i + 1) * 32];
      FlattenSnoc(hashes, chunk);
      assert body[..(i + 1) * 32] == body[..i * 32] + chunk;
      hashes := hashes + [chunk];
    }
    assert body[..count * 32] == body;
  }

  lemma FlattenNothing()
    ensures Flatten([]) == []
  {
  }

  lemma EncodesParts(bytes: seq<Byte>, hashes: seq<seq<Byte>>)
    requires |bytes| >= 2 && Hashes32(hashes) && 0 < |hashes| <= MAX_LOCATOR_HASHES
    ensures Encodes(bytes, hashes) <==>
            bytes[0] == GET_HEADERS_MESSAGE && bytes[1] == |hashes| && bytes[2..] == Flatten(hashes)
  {
    assert bytes == [bytes[0], bytes[1]] + bytes[2..];
  }

  lemma NotEncoded(bytes: seq<Byte>)
    requires |bytes| < 2 || bytes[0] != GET_HEADERS_MESSAGE || bytes[1] == 0 || bytes[1] > MAX_LOCATOR_HASHES || |bytes| != 2 + bytes[1] as int * 32
    ensures forall hashes :: !Encodes(bytes, hashes)
  {
    forall hashes ensures !Encodes(bytes, hashes) {
      if Encodes(bytes, hashes) {
        FlattenLength(hashes);
      }
    }
  }

  /** An encoding has one decoding only. */
  lemma EncodingIsUnique(bytes: seq<Byte>, a: seq<seq<Byte>>, b: seq<seq<Byte>>)
    requires Encodes(bytes, a) && Encodes(bytes, b)
    ensures a == b
  {
    EncodesParts(bytes, a);
    EncodesParts(bytes, b);
    FlattenInjective(a, b);
  }

  lemma {:induction false} FlattenLength(hashes: seq<seq<Byte>>)
    requires Hashes32(hashes)
    ensures |Flatten(hashes)| == |hashes| * 32
  {
    if hashes != [] {
      FlattenLength(hashes[1..]);
    }
  }

  lemma {:induction false} FlattenInjective(a: seq<seq<Byte>>, b: seq<seq<Byte>>)
    requires Hashes32(a) && Hashes32(b) && |a| == |b| && Flatten(a) == Flatten(b)
    ensures a == b
  {
    if a != [] {
      assert a[0] == Flatten(a)[..32] == Flatten(b)[..32] == b[0];
      assert Flatten(a[1..]) == Flatten(a)[32..] == Flatten(b)[32..] == Flatten(b[1..]);
      FlattenInjective(a[1..], b[1..]);
      assert a == [a[0]] + a[1..] && b == [b[0]] + b[1..];
    }
  }
}
