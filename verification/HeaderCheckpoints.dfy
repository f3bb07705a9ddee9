/** Cached totals along the canonical header chain (runtime/src/node/state.rs) and the
    validation state rebuilt from them at any height (runtime/src/node/chain_sync.rs). */
module HeaderCheckpoints {
  import opened Wrappers
  import opened Bytes
  import opened Integers
  import opened HeaderChain
  import opened HeaderGenesis
  import opened HeaderMeaning

  const INTERVAL := 256

  /** `HeaderStateCheckpoint`. */
  datatype Checkpoint = Checkpoint(height: nat, hash: Hash, work: nat, weight: nat)

  /** A header table holding exactly the heights below `n`, as `Chain` keeps it. */
  ghost predicate Contiguous(headers: map<nat, Header>, n: nat) {
    forall i: nat :: i in headers <==> i < n
  }

  function Listed(headers: map<nat, Header>, n: nat): (hs: seq<Placed>)
    requires forall i: nat :: i < n ==> i in headers
    ensures |hs| == n && forall i :: 0 <= i < n ==> hs[i] == Placed(i, headers[i])
  {
    seq(n, i requires 0 <= i < n => Placed(i, headers[i]))
  }

  /** The checkpoint an honest node holds for height `h`. */
  predicate Honest(r: Rules, hs: seq<Placed>, c: Checkpoint) {
    && c.height < |hs|
    && r.hash(hs[c.height].header) == Some(c.hash)
    && c.work == Cap(SumWork(r, hs[..c.height + 1]), MaxWork())
    && c.weight == Cap(SumWeight(hs[..c.height + 1]), MAX_U64)
  }

  predicate AllHonest(r: Rules, hs: seq<Placed>, cs: seq<Checkpoint>) {
    forall i :: 0 <= i < |cs| ==> Honest(r, hs, cs[i])
  }

  predicate Ascending(cs: seq<Checkpoint>) {
    forall i, j :: 0 <= i < j < |cs| ==> cs[i].height < cs[j].height
  }

  /** Honest, in order, and starting at genesis so that every height is covered. */
  predicate Covers(r: Rules, hs: seq<Placed>, cs: seq<Checkpoint>) {
    cs != [] && cs[0].height == 0 && AllHonest(r, hs, cs) && Ascending(cs)
  }

  // ----- building -----

  predicate Hashes(r: Rules, hs: seq<Placed>) {
    forall i :: 0 <= i < |hs| ==> r.hash(hs[i].header).Some?
  }

  predicate Works(r: Rules, hs: seq<Placed>) {
    forall i :: 0 < i < |hs| ==> r.work(hs[i].header.targetBits).Some?
  }

  lemma CapStep(r: Rules, hs: seq<Placed>, k: nat)
    requires 0 < k < |hs| && r.work(hs[k].header.targetBits).Some?
    ensures Cap(SumWork(r, hs[..k + 1]), MaxWork()) ==
            SatAdd(Cap(SumWork(r, hs[..k]), MaxWork()), r.work(hs[k].header.targetBits).value, MaxWork())
    ensures Cap(SumWeight(hs[..k + 1]), MAX_U64) ==
            SatAdd(Cap(SumWeight(hs[..k]), MAX_U64), hs[k].header.blockWeight, MAX_U64)
  {
    SumsStep(r, hs, k);
  }

  /** One at every multiple of the interval, from genesis on. */
  predicate Spaced(cs: seq<Checkpoint>) {
    forall i :: 0 <= i < |cs| ==> cs[i].height == i * INTERVAL
  }

  /** `build_header_state_checkpoints`: a checkpoint at every multiple of the interval. */
  method Build(r: Rules, headers: map<nat, Header>, n: nat, genesis: Hash)
    returns (o: Result<(seq<Checkpoint>, nat, nat)>)
    requires Contiguous(headers, n)
    ensures o.Success? <==> var hs := Listed(headers, n); Rooted(r, hs, genesis) && Hashes(r, hs) && Works(r, hs)
    ensures o.Success? ==>
              var hs := Listed(headers, n);
              var (cs, work, weight) := o.value;
              && Covers(r, hs, cs)
              && Spaced(cs) && |cs| == (n - 1) / INTERVAL + 1
              && work == Cap(SumWork(r, hs), MaxWork())
              && weight == Cap(SumWeight(hs), MAX_U64)
  {
    hide SumWork, SumWeight, Pow256, MaxWork;
    ghost var hs := Listed(headers, n);
    var cs: seq<Checkpoint> := [];
    var work, weight := 0, 0;
    NoSums(r, hs);
    for h := 0 to n
      invariant h > 0 ==> Rooted(r, hs, genesis)
      invariant Hashes(r, hs[..h]) && Works(r, hs[..h])
      invariant AllHonest(r, hs, cs)
      invariant |cs| == (h + INTERVAL - 1) / INTERVAL
      invariant Spaced(cs)
      invariant work == Cap(SumWork(r, hs[..h]), MaxWork()) && weight == Cap(SumWeight(hs[..h]), MAX_U64)
    {
      var header := headers[h];
      assert header == hs[h].header;
      var hash := r.hash(header);
      if hash.None? {
        return Failure("header hash failed");
      }
      if h == 0 {
        if hash.value != genesis {
          return Failure("canonical checkpoint chain has the wrong genesis");
        }
        cs := [Checkpoint(h, hash.value, work, weight)];
      } else {
        var w := r.work(header.targetBits);
        if w.None? {
          return Failure("invalid target bits");
        }
        CapStep(r, hs, h);
        work := SatAdd(work, w.value, MaxWork());
        weight := SatAdd(weight, header.blockWeight, MAX_U64);
        if h % INTERVAL == 0 {
          cs := cs + [Checkpoint(h, hash.value, work, weight)];
        }
      }
    }
    if cs == [] {
      return Failure("canonical chain has no genesis checkpoint");
    }
    assert hs[..n] == hs;
    o := Success((cs, work, weight));
  }

  lemma NoSums(r: Rules, hs: seq<Placed>)
    ensures SumWork(r, hs[..0]) == 0 && SumWeight(hs[..0]) == 0
    ensures |hs| > 0 ==> SumWork(r, hs[..1]) == 0 && SumWeight(hs[..1]) == 0
  {
  }

  // ----- rebuilding a state -----

  /** The last checkpoint at or below the height. */
  function Covering(cs: seq<Checkpoint>, height: nat): Option<Checkpoint> {
    if cs == [] then None
    else if cs[|cs| - 1].height <= height then Some(cs[|cs| - 1])
    else Covering(cs[..|cs| - 1], height)
  }

  function AddWorks(r: Rules, total: nat, xs: seq<Placed>): nat
    decreases xs
  {
    if xs == [] then total
    else AddWorks(r, SatAdd(total, WorkOf(r, xs[0].header), MaxWork()), xs[1..])
  }

  /** The state at the end of `hs`, with totals resumed from a checkpoint. */
  function Resumed(r: Rules, hs: seq<Placed>, c: Checkpoint): State
    requires c.height < |hs|
  {
    var rest := hs[c.height + 1..];
    State(|hs| - 1, hs[|hs| - 1].header, AddWorks(r, c.work, rest), AddWeights(c.weight, rest),
          AnchorOf(hs), LastN(hs, RECENT_HEADER_WINDOW))
  }

  predicate Resumable(r: Rules, hs: seq<Placed>, c: Option<Checkpoint>) {
    && c.Some? && c.value.height < |hs|
    && r.hash(hs[c.value.height].header) == Some(c.value.hash)
    && forall i :: c.value.height < i < |hs| ==> r.work(hs[i].header.targetBits).Some?
  }

  /** `ledger_header_state_at_height`. */
  method StateAtHeight(r: Rules, headers: map<nat, Header>, n: nat, cs: seq<Checkpoint>, target: nat)
    returns (o: Result<State>)
    requires Contiguous(headers, n) && n <= MAX_U64
    ensures o.Success? <==> target < n && Resumable(r, Listed(headers, target + 1), Covering(cs, target))
    ensures o.Success? ==> o.value == Resumed(r, Listed(headers, target + 1), Covering(cs, target).value)
  {
    hide AddWorks, AddWeights, Pow256, MaxWork, LastN, Covering, Contiguous;
    Reaches(headers, n);
    if target !in headers {
      return Failure("canonical ancestor height is missing");
    }
    ghost var hs := Listed(headers, target + 1);
    var found := FindCovering(cs, target);
    if found.None? {
      return Failure("no header state checkpoint covers target height");
    }
    var c := found.value;
    CoveringBelow(cs, target);
    var hash := r.hash(headers[c.height]);
    if hash.None? || hash.value != c.hash {
      return Failure("header state checkpoint does not match canonical chain");
    }
    var totals := TotalsUpTo(r, headers, n, c, target);
    if totals.None? {
      return Failure("invalid target bits");
    }
    var anchor := if target == 0 then Placed(0, headers[0]) else Placed(1, headers[1]);
    var recent := Recent(headers, n, target);
    o := Success(State(target, headers[target], totals.value.0, totals.value.1, anchor, recent));
  }

  /** The totals resumed from a checkpoint, one header at a time. */
  method TotalsUpTo(r: Rules, headers: map<nat, Header>, n: nat, c: Checkpoint, target: nat) returns (o: Option<(nat, nat)>)
    requires Contiguous(headers, n) && c.height <= target < n
    ensures var hs := Listed(headers, target + 1);
            && (o.Some? <==> forall i :: c.height < i < |hs| ==> r.work(hs[i].header.targetBits).Some?)
            && (o.Some? ==> o.value == (AddWorks(r, c.work, hs[c.height + 1..]), AddWeights(c.weight, hs[c.height + 1..])))
  {
    hide AddWorks, AddWeights, Pow256, MaxWork;
    ghost var hs := Listed(headers, target + 1);
    var work, weight := c.work, c.weight;
    var next := c.height + 1;
    TotalsFrom(r, work, weight, hs, next);
    while next <= target
      invariant c.height < next <= target + 1
      invariant forall i :: c.height < i < next ==> r.work(hs[i].header.targetBits).Some?
      invariant AddWorks(r, work, hs[next..]) == AddWorks(r, c.work, hs[c.height + 1..])
      invariant AddWeights(weight, hs[next..]) == AddWeights(c.weight, hs[c.height + 1..])
    {
      var header := headers[next];
      var w := r.work(header.targetBits);
      if w.None? {
        assert hs[next].header == header;
        return None;
      }
      TotalsFrom(r, work, weight, hs, next);
      work := SatAdd(work, w.value, MaxWork());
      weight := SatAdd(weight, header.blockWeight, MAX_U64);
      next := next + 1;
    }
    TotalsFrom(r, work, weight, hs, next);
    o := Some((work, weight));
  }

  lemma Reaches(headers: map<nat, Header>, n: nat)
    requires Contiguous(headers, n)
    ensures forall i: nat :: i in headers <==> i < n
  {
  }

  lemma TotalsFrom(r: Rules, work: nat, weight: nat, hs: seq<Placed>, i: nat)
    requires i <= |hs|
    ensures i == |hs| ==> AddWorks(r, work, hs[i..]) == work && AddWeights(weight, hs[i..]) == weight
    ensures i < |hs| ==>
              && AddWorks(r, work, hs[i..]) == AddWorks(r, SatAdd(work, WorkOf(r, hs[i].header), MaxWork()), hs[i + 1..])
              && AddWeights(weight, hs[i..]) == AddWeights(SatAdd(weight, hs[i].header.blockWeight, MAX_U64), hs[i + 1..])
  {
    hide Pow256;
    if i < |hs| {
      assert hs[i..][0] == hs[i] && hs[i..][1..] == hs[i + 1..];
    }
  }

  method FindCovering(cs: seq<Checkpoint>, height: nat) returns (c: Option<Checkpoint>)
    ensures c == Covering(cs, height)
  {
    var i := |cs|;
    assert cs[..|cs|] == cs;
    while i > 0
      invariant 0 <= i <= |cs| && Covering(cs[..i], height) == Covering(cs, height)
    {
      i := i - 1;
      assert cs[..i + 1][..i] == cs[..i];
      if cs[i].height <= height {
        return Some(cs[i]);
      }
    }
    c := None;
  }

  lemma {:induction false} CoveringBelow(cs: seq<Checkpoint>, height: nat)
    ensures Covering(cs, height).Some? ==> Covering(cs, height).value in cs && Covering(cs, height).value.height <= height
    ensures Covering(cs, height).None? ==> forall c :: c in cs ==> c.height > height
  {
    if cs != [] {
      CoveringBelow(cs[..|cs| - 1], height);
      assert cs == cs[..|cs| - 1] + [cs[|cs| - 1]];
    }
  }

  /** The window that ends at the target height. */
  method Recent(headers: map<nat, Header>, n: nat, target: nat) returns (recent: seq<Placed>)
    requires Contiguous(headers, n) && target < n
    ensures recent == LastN(Listed(headers, target + 1), RECENT_HEADER_WINDOW)
  {
    var start := if target + 1 > RECENT_HEADER_WINDOW then target + 1 - RECENT_HEADER_WINDOW else 0;
    ghost var hs := Listed(headers, target + 1);
    var height := start;
    recent := [];
    while height <= target
      invariant start <= height <= target + 1
      invariant recent == hs[start..height]
    {
      recent := recent + [Placed(height, headers[height])];
      height := height + 1;
    }
  }

  // ----- honest checkpoints rebuild the state of genesis validation -----

  lemma {:induction false} ResumeTotals(r: Rules, hs: seq<Placed>, k: nat)
    requires 0 < k <= |hs| && forall i :: k <= i < |hs| ==> r.work(hs[i].header.targetBits).Some?
    ensures AddWorks(r, Cap(SumWork(r, hs[..k]), MaxWork()), hs[k..]) == Cap(SumWork(r, hs), MaxWork())
    ensures AddWeights(Cap(SumWeight(hs[..k]), MAX_U64), hs[k..]) == Cap(SumWeight(hs), MAX_U64)
    decreases |hs| - k
  {
    hide SumWork, SumWeight, AddWorks, AddWeights, Pow256, MaxWork;
    TotalsFrom(r, Cap(SumWork(r, hs[..k]), MaxWork()), Cap(SumWeight(hs[..k]), MAX_U64), hs, k);
    if k < |hs| {
      CapStep(r, hs, k);
      ResumeTotals(r, hs, k + 1);
    } else {
      assert hs[..k] == hs;
    }
  }

  /** From any honest checkpoint the rebuilt state is the one validation from genesis computes,
      its anchor included. */
  lemma HonestResume(r: Rules, hs: seq<Placed>, c: Checkpoint, genesis: Hash)
    requires ValidChain(r, hs, genesis) && |hs| <= MAX_U64 && Honest(r, hs, c)
    ensures Resumable(r, hs, Some(c))
    ensures HeaderState(r, hs, genesis) == Ok(Resumed(r, hs, c))
  {
    hide SumWork, SumWeight, AddWorks, AddWeights, Pow256, MaxWork, HeaderState;
    forall i | 0 < i < |hs| ensures r.work(hs[i].header.targetBits).Some? {
      assert Linked(r, hs, i);
    }
    ResumeTotals(r, hs, c.height + 1);
    StateMeaning(r, hs, genesis);
  }

  /** An honest checkpoint of a chain is honest for every prefix that still reaches it. */
  lemma HonestPrefix(r: Rules, hs: seq<Placed>, n: nat, c: Checkpoint)
    requires n <= |hs| && Honest(r, hs, c) && c.height < n
    ensures Honest(r, hs[..n], c)
  {
    assert hs[..n][..c.height + 1] == hs[..c.height + 1];
  }

  lemma ValidPrefix(r: Rules, hs: seq<Placed>, n: nat, genesis: Hash)
    requires ValidChain(r, hs, genesis) && 0 < n <= |hs|
    ensures ValidChain(r, hs[..n], genesis)
  {
    forall i | 0 < i < n ensures Linked(r, hs[..n], i) {
      assert Linked(r, hs, i);
      if Boundary(i) {
        assert hs[..n][i - WBDA_WINDOW..i] == hs[i - WBDA_WINDOW..i];
      }
    }
  }

  /** With covering checkpoints the rebuild succeeds at every height of a valid canonical chain
      and gives the state that validating that prefix from genesis gives. */
  lemma RebuildIsGenesisState(r: Rules, hs: seq<Placed>, cs: seq<Checkpoint>, target: nat, genesis: Hash)
    requires ValidChain(r, hs, genesis) && |hs| <= MAX_U64 && Covers(r, hs, cs) && target < |hs|
    ensures var prefix := hs[..target + 1];
            && Resumable(r, prefix, Covering(cs, target))
            && HeaderState(r, prefix, genesis) == Ok(Resumed(r, prefix, Covering(cs, target).value))
  {
    hide HeaderState, Resumed, Resumable, ValidChain, Honest, Covering;
    CoveringBelow(cs, target);
    assert cs[0] in cs;
    var c := Covering(cs, target).value;
    assert Honest(r, hs, c);
    HonestPrefix(r, hs, target + 1, c);
    ValidPrefix(r, hs, target + 1, genesis);
    HonestResume(r, hs[..target + 1], c, genesis);
  }

  // ----- keeping checkpoints across chain changes -----

  ghost predicate Injective(r: Rules) {
    forall a, b :: r.hash(a).Some? && r.hash(a) == r.hash(b) ==> a == b
  }

  /** One matching hash pins everything below it. */
  lemma {:induction false} SamePrefix(r: Rules, a: seq<Placed>, b: seq<Placed>, k: nat, genesis: Hash)
    requires Injective(r) && ValidChain(r, a, genesis) && ValidChain(r, b, genesis)
    requires k < |a| && k < |b| && r.hash(a[k].header) == r.hash(b[k].header)
    ensures a[..k + 1] == b[..k + 1]
  {
    if k > 0 {
      assert Linked(r, a, k) && Linked(r, b, k);
      SamePrefix(r, a, b, k - 1, genesis);
      assert a[..k + 1] == a[..k] + [a[k]] && b[..k + 1] == b[..k] + [b[k]];
    } else {
      assert a[..1] == [a[0]] && b[..1] == [b[0]];
      assert r.hash(a[0].header).Some?;
    }
  }

  /** Checkpoints up to one whose hash is on the new chain stay honest there. */
  lemma HonestAcross(r: Rules, was: seq<Placed>, hs: seq<Placed>, c: Checkpoint, k: nat)
    requires Honest(r, was, c) && c.height <= k < |was| && k < |hs| && was[..k + 1] == hs[..k + 1]
    ensures Honest(r, hs, c)
  {
    assert was[..k + 1][c.height] == was[c.height] && hs[..k + 1][c.height] == hs[c.height];
    assert was[..c.height + 1] == was[..k + 1][..c.height + 1] == hs[..c.height + 1];
  }

  /** The last remembered checkpoint whose hash the chain still has at that height. */
  predicate Matches(r: Rules, headers: map<nat, Header>, n: nat, c: Checkpoint) {
    c.height < n && c.height in headers && r.hash(headers[c.height]) == Some(c.hash)
  }

  method FindAnchor(r: Rules, headers: map<nat, Header>, n: nat, cs: seq<Checkpoint>) returns (k: nat)
    ensures k <= |cs| && (k > 0 ==> Matches(r, headers, n, cs[k - 1]))
    ensures forall i :: k <= i < |cs| ==> !Matches(r, headers, n, cs[i])
  {
    k := |cs|;
    while k > 0 && !Matches(r, headers, n, cs[k - 1])
      invariant k <= |cs| && forall i :: k <= i < |cs| ==> !Matches(r, headers, n, cs[i])
    {
      k := k - 1;
    }
  }

  /** `updated_header_state_checkpoints`: totals continued from the last checkpoint that still
      matches. Whatever chain the remembered checkpoints were taken on, on a valid new chain the
      update succeeds and leaves checkpoints that are honest for the new chain. */
  method Update(r: Rules, headers: map<nat, Header>, n: nat, previous: Option<seq<Checkpoint>>, genesis: Hash,
                ghost was: seq<Placed>)
    returns (o: Result<(seq<Checkpoint>, nat, nat)>)
    requires Contiguous(headers, n) && 0 < n <= MAX_U64
    requires Injective(r) && ValidChain(r, was, genesis)
    requires previous.Some? ==> Covers(r, was, previous.value)
    ensures ValidChain(r, Listed(headers, n), genesis) ==>
              var hs := Listed(headers, n);
              && o.Success?
              && Covers(r, hs, o.value.0)
              && o.value.1 == Cap(SumWork(r, hs), MaxWork())
              && o.value.2 == Cap(SumWeight(hs), MAX_U64)
    ensures o.Success? && (previous.Some? ==> Spaced(previous.value)) ==>
              Spaced(o.value.0) && |o.value.0| == (n - 1) / INTERVAL + 1
  {
    hide SumWork, SumWeight, Pow256, MaxWork, Linked, Covers;
    ghost var hs := Listed(headers, n);
    ghost var valid := ValidChain(r, hs, genesis);
    if valid {
      ValidDefined(r, hs, genesis);
    }
    if previous.None? {
      o := Build(r, headers, n, genesis);
      return;
    }
    var k := FindAnchor(r, headers, n, previous.value);
    if k == 0 {
      o := Build(r, headers, n, genesis);
      return;
    }
    var cs := previous.value[..k];
    if valid {
      CarriedOver(r, was, hs, previous.value, k, genesis);
    }
    o := Extend(r, headers, n, cs, genesis);
  }

  /** Checkpoints continued from the last one to the tip. */
  method Extend(r: Rules, headers: map<nat, Header>, n: nat, kept: seq<Checkpoint>, ghost genesis: Hash)
    returns (o: Result<(seq<Checkpoint>, nat, nat)>)
    requires Contiguous(headers, n) && kept != [] && kept[|kept| - 1].height < n
    ensures ValidChain(r, Listed(headers, n), genesis) && Covers(r, Listed(headers, n), kept) ==>
              var hs := Listed(headers, n);
              && o.Success?
              && Covers(r, hs, o.value.0)
              && o.value.1 == Cap(SumWork(r, hs), MaxWork())
              && o.value.2 == Cap(SumWeight(hs), MAX_U64)
    ensures o.Success? <==>
              forall i :: kept[|kept| - 1].height < i < n ==>
                && r.work(headers[i].targetBits).Some?
                && (i % INTERVAL == 0 ==> r.hash(headers[i]).Some?)
    ensures o.Success? && Spaced(kept) ==> Spaced(o.value.0) && |o.value.0| == (n - 1) / INTERVAL + 1
  {
    hide SumWork, SumWeight, Pow256, MaxWork, Linked, Spaced, Covers, ValidChain, Honest;
    ghost var hs := Listed(headers, n);
    ghost var valid := ValidChain(r, hs, genesis) && Covers(r, hs, kept);
    if valid {
      ValidDefined(r, hs, genesis);
      LastHonest(r, hs, kept);
    }
    var cs, anchor := kept, kept[|kept| - 1];
    var work, weight := anchor.work, anchor.weight;
    var next := anchor.height + 1;
    SpacedLast(kept);
    while next < n
      invariant anchor.height < next <= n && cs != []
      invariant valid ==> Covers(r, hs, cs) && cs[|cs| - 1].height < next
      invariant valid ==> work == Cap(SumWork(r, hs[..next]), MaxWork())
      invariant valid ==> weight == Cap(SumWeight(hs[..next]), MAX_U64)
      invariant forall i :: anchor.height < i < next ==>
                  r.work(headers[i].targetBits).Some? && (i % INTERVAL == 0 ==> r.hash(headers[i]).Some?)
      invariant Spaced(kept) ==> Spaced(cs) && |cs| == (next - 1) / INTERVAL + 1
    {
      var header := headers[next];
      assert header == hs[next].header;
      var w := r.work(header.targetBits);
      if w.None? {
        return Failure("invalid target bits");
      }
      CapStep(r, hs, next);
      work := SatAdd(work, w.value, MaxWork());
      weight := SatAdd(weight, header.blockWeight, MAX_U64);
      if Spaced(kept) {
        SpacedMore(cs, next, work, weight, r.hash(header));
      }
      if next % INTERVAL == 0 {
        var hash := r.hash(header);
        if hash.None? {
          return Failure("header hash failed");
        }
        ghost var c := Checkpoint(next, hash.value, work, weight);
        if valid {
          CoversMore(r, hs, cs, c);
        }
        cs := cs + [Checkpoint(next, hash.value, work, weight)];
      }
      next := next + 1;
    }
    assert hs[..n] == hs;
    o := Success((cs, work, weight));
  }

  lemma LastHonest(r: Rules, hs: seq<Placed>, cs: seq<Checkpoint>)
    requires Covers(r, hs, cs)
    ensures var c := cs[|cs| - 1];
            && c.height < |hs| && c.work == Cap(SumWork(r, hs[..c.height + 1]), MaxWork())
            && c.weight == Cap(SumWeight(hs[..c.height + 1]), MAX_U64)
  {
    hide SumWork, SumWeight, MaxWork;
    assert Honest(r, hs, cs[|cs| - 1]);
  }

  lemma CoversMore(r: Rules, hs: seq<Placed>, cs: seq<Checkpoint>, c: Checkpoint)
    requires Covers(r, hs, cs) && cs[|cs| - 1].height < c.height < |hs|
    requires r.hash(hs[c.height].header) == Some(c.hash)
    requires c.work == Cap(SumWork(r, hs[..c.height + 1]), MaxWork()) && c.weight == Cap(SumWeight(hs[..c.height + 1]), MAX_U64)
    ensures Covers(r, hs, cs + [c])
  {
    hide SumWork, SumWeight, MaxWork;
    assert Honest(r, hs, c);
  }

  lemma SpacedLast(cs: seq<Checkpoint>)
    requires cs != []
    ensures Spaced(cs) ==> |cs| == cs[|cs| - 1].height / INTERVAL + 1
  {
  }

  /** A checkpoint is due exactly at the next multiple. */
  lemma SpacedMore(cs: seq<Checkpoint>, next: nat, work: nat, weight: nat, hash: Option<Hash>)
    requires next > 0 && Spaced(cs) && |cs| == (next - 1) / INTERVAL + 1
    ensures next % INTERVAL != 0 ==> |cs| == next / INTERVAL + 1
    ensures next % INTERVAL == 0 && hash.Some? ==>
              Spaced(cs + [Checkpoint(next, hash.value, work, weight)]) && |cs| + 1 == next / INTERVAL + 1
  {
  }

  lemma ValidDefined(r: Rules, hs: seq<Placed>, genesis: Hash)
    requires ValidChain(r, hs, genesis)
    ensures Rooted(r, hs, genesis) && Hashes(r, hs) && Works(r, hs)
  {
    forall i | 0 < i < |hs| ensures r.work(hs[i].header.targetBits).Some? && r.hash(hs[i].header).Some? {
      assert Linked(r, hs, i);
    }
  }

  lemma CarriedOver(r: Rules, was: seq<Placed>, hs: seq<Placed>, cs: seq<Checkpoint>, k: nat, genesis: Hash)
    requires Injective(r) && ValidChain(r, was, genesis) && ValidChain(r, hs, genesis) && Covers(r, was, cs)
    requires 0 < k <= |cs| && cs[k - 1].height < |hs| && r.hash(hs[cs[k - 1].height].header) == Some(cs[k - 1].hash)
    ensures Covers(r, hs, cs[..k])
  {
    hide SumWork, SumWeight, Pow256, MaxWork, ValidChain;
    var top := cs[k - 1].height;
    assert Honest(r, was, cs[k - 1]);
    SamePrefix(r, was, hs, top, genesis);
    forall i | 0 <= i < k ensures Honest(r, hs, cs[..k][i]) {
      assert Honest(r, was, cs[i]);
      HonestAcross(r, was, hs, cs[i], top);
    }
  }
}
