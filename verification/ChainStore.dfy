/** The linear chain of headers with a cache of resident bodies
    (kernel/src/blockchain/chain.rs). */
module ChainStore {
  import opened Wrappers
  import opened HeaderChain
  import opened Integers
  import opened HeaderCheckpoints

  datatype Block = Block(header: Header, height: nat, body: nat)

  datatype ChainError = DuplicateBlock | InvalidHeight | InvalidParent | MissingBody | CodecFailed

  datatype Outcome<T> = Fine(value: T) | Bad(error: ChainError)

  const ZERO_HASH: Hash := 0

  /** What a block must name as its parent to stand on these headers. */
  function ParentOf(hash: Header -> Option<Hash>, hs: seq<Placed>): Option<Hash> {
    if hs == [] then Some(ZERO_HASH) else hash(hs[|hs| - 1].header)
  }

  /** Numbered from zero, and each header naming the hash of the one before it. */
  predicate LinkedList(hash: Header -> Option<Hash>, hs: seq<Placed>) {
    && (forall i :: 0 <= i < |hs| ==> hs[i].height == i && hash(hs[i].header).Some?)
    && (forall i :: 0 <= i < |hs| ==> Some(hs[i].header.previousHash) == ParentOf(hash, hs[..i]))
  }

  /** The tip fields and resident bodies that belong to a header table. */
  ghost predicate Consistent(hash: Header -> Option<Hash>, headers: map<nat, Header>, n: nat, blocks: map<nat, Block>, tipHash: Option<Hash>) {
    && Contiguous(headers, n) && n <= MAX_U64 + 1
    && LinkedList(hash, Listed(headers, n))
    && tipHash == (if n == 0 then None else hash(headers[n - 1]))
    && (forall h :: h in blocks ==> h in headers && blocks[h].header == headers[h] && blocks[h].height == h)
  }

  class Chain {
    const hash: Header -> Option<Hash>
    var headers: map<nat, Header>
    var blocks: map<nat, Block>
    var tipHeight: Option<nat>
    var tipHash: Option<Hash>

    function Count(): nat
      reads this
    {
      if tipHeight.None? then 0 else tipHeight.value + 1
    }

    /** The chain as a list of placed headers, genesis first. */
    ghost function View(): (hs: seq<Placed>)
      requires Contiguous(headers, Count())
      reads this
    {
      Listed(headers, Count())
    }

    ghost predicate Valid()
      reads this
    {
      Contiguous(headers, Count()) && Consistent(hash, headers, Count(), blocks, tipHash)
    }

    constructor (hash: Header -> Option<Hash>)
      ensures Valid() && View() == [] && blocks == map[] && this.hash == hash
    {
      this.hash := hash;
      headers, blocks, tipHeight, tipHash := map[], map[], None, None;
    }

    /** A clone: equal contents in a new object. */
    constructor Clone(c: Chain)
      requires c.Valid()
      ensures Valid() && View() == c.View() && blocks == c.blocks && hash == c.hash
      ensures headers == c.headers && tipHeight == c.tipHeight && tipHash == c.tipHash
    {
      hash := c.hash;
      headers, blocks, tipHeight, tipHash := c.headers, c.blocks, c.tipHeight, c.tipHash;
    }

    /** `validate_next_block`. */
    method ValidateNext(b: Block) returns (o: Outcome<()>)
      requires Valid() && b.height <= MAX_U64
      ensures o.Fine? <==> b.height == Count() && Some(b.header.previousHash) == ParentOf(hash, View())
      ensures o.Bad? ==> o.error == if b.height in headers then DuplicateBlock
                                    else if b.height != Count() || tipHeight.None? then InvalidHeight
                                    else InvalidParent
    {
      if b.height in headers {
        return Bad(DuplicateBlock);
      }
      if tipHeight.None? {
        if b.height != 0 || b.header.previousHash != ZERO_HASH {
          return Bad(InvalidHeight);
        }
      } else {
        if b.height != Next(tipHeight.value) {
          return Bad(InvalidHeight);
        }
        if b.header.previousHash != tipHash.value {
          return Bad(InvalidParent);
        }
      }
      o := Fine(());
    }

    /** `insert_block`: one header longer, or nothing changed. */
    method InsertBlock(b: Block) returns (o: Outcome<()>)
      requires Valid() && b.height <= MAX_U64
      modifies this
      ensures Valid()
      ensures o.Fine? <==> old(b.height == Count() && Some(b.header.previousHash) == ParentOf(hash, View())) && hash(b.header).Some?
      ensures o.Fine? ==> View() == old(View()) + [Placed(b.height, b.header)] && blocks == old(blocks)[b.height := b]
      ensures o.Bad? ==> unchanged(this)
    {
      hide Consistent, Listed, LinkedList, Contiguous;
      var next := ValidateNext(b);
      if next.Bad? {
        return next;
      }
      var h := hash(b.header);
      if h.None? {
        return Bad(CodecFailed);
      }
      Longer(hash, headers, blocks, tipHash, b);
      headers := headers[b.height := b.header];
      blocks := blocks[b.height := b];
      tipHeight := Some(b.height);
      tipHash := h;
      o := Fine(());
    }

    /** `remove_tip`: one header shorter, or nothing changed. */
    method RemoveTip(expected: Hash) returns (o: Outcome<Block>)
      requires Valid()
      modifies this
      ensures Valid()
      ensures o.Fine? <==> old(tipHeight.Some? && tipHash == Some(expected) && tipHeight.value in blocks)
      ensures o.Fine? ==>
                var n := old(Count()) - 1;
                View() == old(View())[..n] && blocks == old(blocks) - {n} && o.value == old(blocks[n])
      ensures o.Bad? ==> unchanged(this)
    {
      hide Consistent, Listed, LinkedList, Contiguous;
      TipKnown(hash, headers, Count(), blocks, tipHash);
      if tipHash != Some(expected) {
        return Bad(InvalidParent);
      }
      var height := tipHeight.value;
      if height !in blocks {
        return Bad(MissingBody);
      }
      Shorter(hash, headers, height + 1, blocks, tipHash);
      var block := blocks[height];
      blocks := blocks - {height};
      headers := headers - {height};
      if height == 0 {
        tipHeight, tipHash := None, None;
      } else {
        tipHeight := Some(height - 1);
        tipHash := hash(headers[height - 1]);
      }
      o := Fine(block);
    }

    /** `cache_known_block`: a body whose header is on the chain becomes resident; the chain
        itself does not move. `sound` stands for the body's own structure check. */
    method CacheKnownBlock(b: Block, sound: Block -> bool) returns (o: Outcome<()>)
      requires Valid()
      modifies this`blocks
      ensures Valid() && View() == old(View())
      ensures o.Fine? <==> b.height in headers && headers[b.height] == b.header && sound(b)
      ensures blocks == if o.Fine? then old(blocks)[b.height := b] else old(blocks)
    {
      if b.height !in headers || headers[b.height] != b.header || !sound(b) {
        return Bad(InvalidParent);
      }
      blocks := blocks[b.height := b];
      o := Fine(());
    }

    predicate Pinned(h: nat)
      reads this
    {
      h == 0 || tipHeight == Some(h)
    }

    /** `retain_recent_bodies`: the chain does not move, no body is added, and a resident body
        stays exactly when it is genesis or the tip, or fits both budgets after all the bodies
        that stay above it. When some body cannot be weighed nothing changes. */
    method RetainRecentBodies(weigh: Block -> Option<nat>, maxBytes: nat, maxBlocks: nat) returns (o: Outcome<()>)
      requires Valid()
      modifies this`blocks
      ensures Valid() && View() == old(View())
      ensures o.Fine? <==> forall h :: h in old(blocks) ==> weigh(old(blocks)[h]).Some?
      ensures o.Bad? ==> blocks == old(blocks)
      ensures forall h :: h in blocks ==> h in old(blocks) && blocks[h] == old(blocks)[h]
      ensures o.Fine? ==> forall h :: h in old(blocks) ==>
                (h in blocks <==> Pinned(h) || Fits(Weight(weigh), maxBytes, maxBlocks, old(blocks), blocks.Keys, h, Count()))
    {
      hide Total, Number, Decided, Listed, LinkedList, Contiguous, Consistent;
      ghost var weight := Weight(weigh);
      Resident(hash, headers, Count(), blocks, tipHash);
      var bytes, count, h, n := 0, 0, Count(), Count();
      var keep: set<nat> := {};
      NothingKept(weight, maxBytes, maxBlocks, blocks, tipHeight, n);
      while h > 0
        invariant blocks == old(blocks)
        invariant h <= n && forall k :: k in keep ==> h <= k && k in blocks
        invariant bytes == Total(weight, blocks, keep, h, n) && count == Number(keep, h, n)
        invariant Decided(weight, maxBytes, maxBlocks, blocks, keep, tipHeight, h, n)
        invariant forall k :: k in blocks && k >= h ==> weigh(blocks[k]).Some?
      {
        h := h - 1;
        var stays := false;
        if h in blocks {
          var weighed := weigh(blocks[h]);
          if weighed.None? {
            return Bad(CodecFailed);
          }
          var size := weighed.value;
          if Pinned(h) || (count < maxBlocks && size <= SatSub(maxBytes, bytes)) {
            bytes, count, stays := bytes + size, count + 1, true;
          }
        }
        Decide(weight, maxBytes, maxBlocks, blocks, keep, tipHeight, h, n, stays);
        if stays {
          keep := keep + {h};
        }
      }
      var kept := map k | k in blocks && k in keep :: blocks[k];
      assert kept.Keys == keep;
      FewerBodies(hash, headers, n, blocks, kept, tipHash);
      DecidedMeans(weight, maxBytes, maxBlocks, blocks, keep, tipHeight, n);
      blocks := kept;
      o := Fine(());
    }
  }

  /** Weights, where they exist. */
  function Weight(weigh: Block -> Option<nat>): Block -> nat {
    (b: Block) => if weigh(b).Some? then weigh(b).value else 0
  }

  /** Total size and number of the kept bodies at heights `lo` and above. */
  function Total(weight: Block -> nat, blocks: map<nat, Block>, keep: set<nat>, lo: nat, n: nat): nat
    decreases n - lo
  {
    if lo >= n then 0
    else (if lo in keep && lo in blocks then weight(blocks[lo]) else 0) + Total(weight, blocks, keep, lo + 1, n)
  }

  function Number(keep: set<nat>, lo: nat, n: nat): nat
    decreases n - lo
  {
    if lo >= n then 0 else (if lo in keep then 1 else 0) + Number(keep, lo + 1, n)
  }

  predicate Fits(weight: Block -> nat, maxBytes: nat, maxBlocks: nat, blocks: map<nat, Block>, keep: set<nat>, h: nat, n: nat)
    requires h in blocks
  {
    && Number(keep, h + 1, n) < maxBlocks
    && weight(blocks[h]) <= SatSub(maxBytes, Total(weight, blocks, keep, h + 1, n))
  }

  /** The bodies at `h` and above are kept exactly where they should be. */
  ghost predicate Decided(weight: Block -> nat, maxBytes: nat, maxBlocks: nat, blocks: map<nat, Block>, keep: set<nat>,
                          tip: Option<nat>, h: nat, n: nat)
  {
    forall k :: k in blocks && k >= h ==>
      (k in keep <==> k == 0 || tip == Some(k) || Fits(weight, maxBytes, maxBlocks, blocks, keep, k, n))
  }

  lemma NothingKept(weight: Block -> nat, maxBytes: nat, maxBlocks: nat, blocks: map<nat, Block>, tip: Option<nat>, n: nat)
    requires forall h :: h in blocks ==> h < n
    ensures Total(weight, blocks, {}, n, n) == 0 && Number({}, n, n) == 0
    ensures Decided(weight, maxBytes, maxBlocks, blocks, {}, tip, n, n)
  {
  }

  lemma DecidedMeans(weight: Block -> nat, maxBytes: nat, maxBlocks: nat, blocks: map<nat, Block>, keep: set<nat>, tip: Option<nat>, n: nat)
    requires Decided(weight, maxBytes, maxBlocks, blocks, keep, tip, 0, n)
    ensures forall h :: h in blocks ==>
              (h in keep <==> h == 0 || tip == Some(h) || Fits(weight, maxBytes, maxBlocks, blocks, keep, h, n))
  {
  }

  lemma Resident(hash: Header -> Option<Hash>, headers: map<nat, Header>, n: nat, blocks: map<nat, Block>, tipHash: Option<Hash>)
    requires Consistent(hash, headers, n, blocks, tipHash)
    ensures forall h :: h in blocks ==> h < n
  {
  }

  lemma FewerBodies(hash: Header -> Option<Hash>, headers: map<nat, Header>, n: nat, blocks: map<nat, Block>, kept: map<nat, Block>,
                    tipHash: Option<Hash>)
    requires Consistent(hash, headers, n, blocks, tipHash)
    requires forall h :: h in kept ==> h in blocks && kept[h] == blocks[h]
    ensures Consistent(hash, headers, n, kept, tipHash)
  {
    hide LinkedList, Listed;
  }

  lemma Decide(weight: Block -> nat, maxBytes: nat, maxBlocks: nat, blocks: map<nat, Block>, keep: set<nat>,
               tip: Option<nat>, h: nat, n: nat, stays: bool)
    requires h < n && Decided(weight, maxBytes, maxBlocks, blocks, keep, tip, h + 1, n) && h !in keep
    requires stays <==> h in blocks && (h == 0 || tip == Some(h) || Fits(weight, maxBytes, maxBlocks, blocks, keep, h, n))
    ensures var after := if stays then keep + {h} else keep;
            && Decided(weight, maxBytes, maxBlocks, blocks, after, tip, h, n)
            && Number(after, h, n) == Number(keep, h + 1, n) + (if stays then 1 else 0)
            && Total(weight, blocks, after, h, n) ==
               Total(weight, blocks, keep, h + 1, n) + (if stays then weight(blocks[h]) else 0)
  {
    hide Total, Number;
    var after := if stays then keep + {h} else keep;
    TotalsStep(weight, blocks, after, h, n);
    LowerIrrelevant(weight, blocks, keep, h, h + 1, n);
    forall k | k in blocks && k >= h
      ensures k in after <==> k == 0 || tip == Some(k) || Fits(weight, maxBytes, maxBlocks, blocks, after, k, n)
    {
      LowerIrrelevant(weight, blocks, keep, h, k + 1, n);
    }
  }

  lemma TotalsStep(weight: Block -> nat, blocks: map<nat, Block>, keep: set<nat>, h: nat, n: nat)
    requires h < n
    ensures Number(keep, h, n) == Number(keep, h + 1, n) + (if h in keep then 1 else 0)
    ensures Total(weight, blocks, keep, h, n) ==
            Total(weight, blocks, keep, h + 1, n) + (if h in keep && h in blocks then weight(blocks[h]) else 0)
  {
  }

  lemma {:induction false} LowerIrrelevant(weight: Block -> nat, blocks: map<nat, Block>, keep: set<nat>, h: nat, lo: nat, n: nat)
    requires h < lo
    ensures Total(weight, blocks, keep + {h}, lo, n) == Total(weight, blocks, keep, lo, n)
    ensures Number(keep + {h}, lo, n) == Number(keep, lo, n)
    decreases n - lo
  {
    if lo < n {
      LowerIrrelevant(weight, blocks, keep, h, lo + 1, n);
    }
  }

  lemma TipKnown(hash: Header -> Option<Hash>, headers: map<nat, Header>, n: nat, blocks: map<nat, Block>, tipHash: Option<Hash>)
    requires Consistent(hash, headers, n, blocks, tipHash)
    ensures tipHash.None? <==> n == 0
    ensures n > 1 ==> n - 2 in headers
  {
    if n > 0 {
      assert Listed(headers, n)[n - 1] == Placed(n - 1, headers[n - 1]);
    }
  }

  lemma Longer(hash: Header -> Option<Hash>, headers: map<nat, Header>, blocks: map<nat, Block>, tipHash: Option<Hash>, b: Block)
    requires Consistent(hash, headers, b.height, blocks, tipHash) && b.height <= MAX_U64
    requires hash(b.header).Some? && Some(b.header.previousHash) == ParentOf(hash, Listed(headers, b.height))
    ensures var after := headers[b.height := b.header];
            && Contiguous(after, b.height + 1)
            && Consistent(hash, after, b.height + 1, blocks[b.height := b], hash(b.header))
            && Listed(after, b.height + 1) == Listed(headers, b.height) + [Placed(b.height, b.header)]
  {
    hide LinkedList;
    var after := headers[b.height := b.header];
    var hs := Listed(headers, b.height);
    LinkedSnoc(hash, hs, Placed(b.height, b.header));
    assert Listed(after, b.height + 1) == hs + [Placed(b.height, b.header)];
  }

  lemma Shorter(hash: Header -> Option<Hash>, headers: map<nat, Header>, n: nat, blocks: map<nat, Block>, tipHash: Option<Hash>)
    requires n > 0 && Consistent(hash, headers, n, blocks, tipHash)
    ensures var after := headers - {n - 1};
            && Contiguous(after, n - 1)
            && Consistent(hash, after, n - 1, blocks - {n - 1}, if n == 1 then None else hash(headers[n - 2]))
            && Listed(after, n - 1) == Listed(headers, n)[..n - 1]
            && (n > 1 ==> n - 2 in after && after[n - 2] == headers[n - 2])
  {
    hide LinkedList;
    var after := headers - {n - 1};
    LinkedPrefix(hash, Listed(headers, n), n - 1);
    assert Listed(after, n - 1) == Listed(headers, n)[..n - 1];
  }

  lemma LinkedSnoc(hash: Header -> Option<Hash>, hs: seq<Placed>, x: Placed)
    requires LinkedList(hash, hs) && x.height == |hs| && hash(x.header).Some?
    requires Some(x.header.previousHash) == ParentOf(hash, hs)
    ensures LinkedList(hash, hs + [x])
  {
    var longer := hs + [x];
    forall i | 0 <= i < |longer| ensures Some(longer[i].header.previousHash) == ParentOf(hash, longer[..i]) {
      if i < |hs| {
        assert longer[..i] == hs[..i];
      } else {
        assert longer[..i] == hs;
      }
    }
  }

  lemma LinkedPrefix(hash: Header -> Option<Hash>, hs: seq<Placed>, n: nat)
    requires LinkedList(hash, hs) && n <= |hs|
    ensures LinkedList(hash, hs[..n])
  {
    forall i | 0 <= i < n ensures Some(hs[..n][i].header.previousHash) == ParentOf(hash, hs[..n][..i]) {
      assert hs[..n][..i] == hs[..i];
    }
  }
}
