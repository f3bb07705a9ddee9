/** How a node's chain changes. Installing a verified branch (runtime/src/node/chain_sync.rs): fork
    choice, rollback of a staged copy to the common ancestor, replay of the branch, one atomic
    replacement. Extending the tip by a relayed or mined block, and resolving a short fork from
    gossip (runtime/src/node/gossip.rs, runtime/src/node/mining.rs). */
module Reorg {
  import Bytes
  import opened Wrappers
  import opened HeaderChain
  import opened Integers
  import opened HeaderGenesis
  import opened HeaderMeaning
  import opened HeaderCheckpoints
  import opened ChainStore

  // ----- fork choice (kernel/src/consensus/fork/ordering.rs) -----

  datatype Tip = Tip(work: nat, weight: nat, hash: Hash)

  /** `compare_chain_tips` says greater: more work, then more weight, then the smaller hash. */
  predicate Better(a: Tip, b: Tip) {
    || a.work > b.work
    || (a.work == b.work && a.weight > b.weight)
    || (a.work == b.work && a.weight == b.weight && a.hash < b.hash)
  }

  ghost function TipOf(r: Rules, hs: seq<Placed>): Tip
    requires hs != []
  {
    var hash := r.hash(hs[|hs| - 1].header);
    Tip(Cap(SumWork(r, hs), MaxWork()), Cap(SumWeight(hs), MAX_U64), if hash.None? then 0 else hash.value)
  }

  /** The first chain has more capped work, or as much work and more capped weight, or as much of
      both and the smaller tip hash. */
  ghost predicate Outranks(r: Rules, a: seq<Placed>, b: seq<Placed>)
    requires a != [] && b != []
  {
    var workA, workB := Cap(SumWork(r, a), MaxWork()), Cap(SumWork(r, b), MaxWork());
    var weightA, weightB := Cap(SumWeight(a), MAX_U64), Cap(SumWeight(b), MAX_U64);
    var tipA, tipB := r.hash(a[|a| - 1].header), r.hash(b[|b| - 1].header);
    && workA >= workB && (workA == workB ==> weightA >= weightB)
    && tipA.Some? && tipB.Some? && (workA == workB && weightA == weightB ==> tipA.value < tipB.value)
  }

  /** Both totals have reached their largest value. */
  ghost predicate Saturated(t: Tip) {
    t.work >= MaxWork() && t.weight >= MAX_U64
  }

  /** The tip is preferred to the one before, unless the totals can grow no more. */
  ghost predicate Improves(after: Tip, before: Tip) {
    Better(after, before) || (Saturated(before) && Saturated(after))
  }

  /** Every target that proof of work can be checked against has some work. */
  ghost predicate Priced(r: Rules) {
    && (forall h, bits :: r.pow(h, bits) ==> r.work(bits).Some?)
    && (forall bits :: r.work(bits).Some? ==> r.work(bits).value > 0)
  }

  // ----- the ledger -----

  /** Ledger state changes: executing a block, undoing one from its journal (with the state-root
      and supply checks each makes), and a body's own structure check. */
  datatype Execution<!S> = Execution(
    apply: (S, Block) -> Option<S>,
    undo: (S, Block) -> Option<S>,
    sound: Block -> bool)

  /** The state after executing blocks in turn. */
  function Executed<S>(exec: Execution<S>, base: S, bs: seq<Block>): Option<S> {
    if bs == [] then Some(base)
    else
      match Executed(exec, base, bs[..|bs| - 1])
      case None => None
      case Some(s) => exec.apply(s, bs[|bs| - 1])
  }

  /** Undoing a block that was executed, where it succeeds, gives back the state before it. */
  ghost predicate Inverts<S(!new)>(exec: Execution<S>) {
    forall s, b, t, u :: exec.apply(s, b) == Some(t) && exec.undo(t, b) == Some(u) ==> u == s
  }

  /** The bodies are those of the chain. */
  predicate Bodies(bodies: seq<Block>, hs: seq<Placed>) {
    |bodies| == |hs| && forall i :: 0 <= i < |hs| ==> bodies[i].header == hs[i].header && bodies[i].height == i
  }

  /** The resident bodies are among these. */
  ghost predicate Among(resident: map<nat, Block>, bodies: seq<Block>) {
    forall h :: h in resident ==> h < |bodies| && resident[h] == bodies[h]
  }

  class Ledger<S> {
    const exec: Execution<S>
    const chain: Chain
    var journals: set<nat>
    var state: S

    ghost predicate Valid()
      reads this, chain
    {
      chain.Valid()
    }

    /** The ledger holds the chain of these bodies, and the state of executing them from `base`. */
    ghost predicate Holds(base: S, bodies: seq<Block>)
      requires Valid()
      reads this, chain
    {
      Bodies(bodies, chain.View()) && Among(chain.blocks, bodies) && Executed(exec, base, bodies) == Some(state)
    }

    constructor Clone(l: Ledger<S>)
      requires l.Valid()
      ensures Valid() && fresh(chain)
      ensures chain.View() == l.chain.View() && chain.blocks == l.chain.blocks && chain.hash == l.chain.hash
      ensures exec == l.exec && journals == l.journals && state == l.state
    {
      exec, journals, state := l.exec, l.journals, l.state;
      var copy := new Chain.Clone(l.chain);
      chain := copy;
    }

    /** `can_rollback_to`. */
    predicate CanRollbackTo(ancestor: nat)
      reads this, chain
    {
      forall h :: ancestor < h < chain.Count() ==> h in journals
    }

    /** The tip's body and journal are at hand, and undoing it passes its checks. */
    predicate Undoable()
      reads this, chain
    {
      && chain.tipHeight.Some? && chain.tipHeight.value in chain.blocks && chain.tipHeight.value in journals
      && exec.undo(state, chain.blocks[chain.tipHeight.value]).Some?
    }

    /** `rollback_tip`: the tip block is undone as a whole or not at all. */
    method RollbackTip() returns (o: Result<Block>)
      requires Valid()
      modifies this, chain
      ensures Valid()
      ensures o.Success? <==> old(Undoable())
      ensures o.Success? ==>
                && old(chain.Count()) > 0
                && chain.View() == old(chain.View())[..old(chain.Count()) - 1]
                && journals == old(journals) - {old(chain.Count()) - 1}
                && chain.blocks == old(chain.blocks) - {old(chain.Count()) - 1}
                && o.value == old(chain.blocks[chain.tipHeight.value])
                && old(exec.undo(state, o.value)) == Some(state)
      ensures o.Failure? ==> unchanged(this, chain)
    {
      TipKnown(chain.hash, chain.headers, chain.Count(), chain.blocks, chain.tipHash);
      if chain.tipHeight.None? || chain.tipHash.None? {
        return Failure("empty chain");
      }
      var height := chain.tipHeight.value;
      if height !in chain.blocks {
        return Failure("empty chain");
      }
      if height !in journals {
        return Failure("missing rollback journal");
      }
      var undone := exec.undo(state, chain.blocks[height]);
      if undone.None? {
        return Failure("invalid rollback state");
      }
      var removed := chain.RemoveTip(chain.tipHash.value);
      state := undone.value;
      journals := journals - {height};
      o := Success(removed.value);
    }

    /** `apply_block`: the block becomes the tip and its effects the state, or nothing changes. */
    method ApplyBlock(b: Block) returns (o: Result<()>)
      requires Valid() && b.height <= MAX_U64
      modifies this, chain
      ensures Valid()
      ensures o.Success? <==>
                && old(exec.apply(state, b)).Some? && chain.hash(b.header).Some?
                && old(b.height == chain.Count() && Some(b.header.previousHash) == ParentOf(chain.hash, chain.View()))
      ensures o.Success? ==>
                && chain.View() == old(chain.View()) + [Placed(b.height, b.header)]
                && chain.blocks == old(chain.blocks)[b.height := b] && journals == old(journals) + {b.height}
                && old(exec.apply(state, b)) == Some(state)
      ensures o.Failure? ==> unchanged(this, chain)
    {
      var next := exec.apply(state, b);
      if next.None? {
        return Failure("execution failed");
      }
      var inserted := chain.InsertBlock(b);
      if inserted.Bad? {
        return Failure("chain refused");
      }
      state := next.value;
      journals := journals + {b.height};
      o := Success(());
    }
  }

  // ----- what a change of chain needs -----

  /** The heights from `lo` up to but not including `hi`. */
  function Heights(lo: nat, hi: nat): (hs: set<nat>)
    ensures forall h: nat :: h in hs <==> lo <= h < hi
    decreases hi
  {
    if lo >= hi then {} else Heights(lo, hi - 1) + {hi - 1}
  }

  /** The block at this height is sound, and undoing it from the state it left passes its checks. */
  ghost predicate UndoesAt<S>(exec: Execution<S>, base: S, bodies: seq<Block>, h: nat)
    requires h < |bodies|
  {
    var s := Executed(exec, base, bodies[..h + 1]);
    exec.sound(bodies[h]) && s.Some? && exec.undo(s.value, bodies[h]).Some?
  }

  /** Every block above the ancestor has its undo data and can be undone. */
  ghost predicate Unwinds<S>(exec: Execution<S>, base: S, bodies: seq<Block>, journals: set<nat>, ancestor: nat) {
    forall h :: ancestor < h < |bodies| ==> h in journals && UndoesAt(exec, base, bodies, h)
  }

  /** One header per height from `n` on, each naming the hash of the one before it. */
  predicate Follows(hash: Header -> Option<Hash>, from: Hash, n: nat, headers: seq<Placed>, i: nat)
    requires i < |headers|
  {
    && headers[i].height == n + i && hash(headers[i].header).Some?
    && Some(headers[i].header.previousHash) == if i == 0 then Some(from) else hash(headers[i - 1].header)
  }

  predicate Chains(hash: Header -> Option<Hash>, from: Hash, n: nat, headers: seq<Placed>) {
    forall i :: 0 <= i < |headers| ==> Follows(hash, from, n, headers, i)
  }

  /** Every download arrived. */
  predicate Arrived(blocks: seq<Option<Block>>) {
    forall i :: 0 <= i < |blocks| ==> blocks[i].Some?
  }

  function Got(blocks: seq<Option<Block>>): (bs: seq<Block>)
    requires Arrived(blocks)
    ensures |bs| == |blocks| && forall i :: 0 <= i < |bs| ==> blocks[i] == Some(bs[i])
  {
    seq(|blocks|, i requires 0 <= i < |blocks| => blocks[i].value)
  }

  /** The downloads are exactly the blocks of these headers. */
  predicate Downloads(headers: seq<Placed>, blocks: seq<Option<Block>>) {
    && |blocks| == |headers|
    && forall i :: 0 <= i < |headers| ==>
         blocks[i].Some? && blocks[i].value.height == headers[i].height && blocks[i].value.header == headers[i].header
  }

  /** The downloads arrived for these headers, and executing them on top of `bodies` succeeds. */
  ghost predicate Plays<S>(exec: Execution<S>, base: S, bodies: seq<Block>, headers: seq<Placed>, blocks: seq<Option<Block>>) {
    Downloads(headers, blocks) && Arrived(blocks) && Executed(exec, base, bodies + Got(blocks)).Some?
  }

  // ----- the node -----

  /** What a node keeps, as a value: its chain, the stored bodies, and the heights that have a
      resident body and undo data. */
  datatype Image = Image(headers: seq<Placed>, bodies: seq<Block>, resident: set<nat>, journals: set<nat>)

  /** The image without its tip. */
  function Shortened(held: Image): Image
    requires |held.headers| == |held.bodies| > 0
  {
    var n := |held.bodies| - 1;
    Image(held.headers[..n], held.bodies[..n], held.resident - {n}, held.journals - {n})
  }

  /** The first `n` blocks. */
  function Cut(held: Image, n: nat): Image
    requires n <= |held.headers| == |held.bodies|
  {
    var gone := Heights(n, |held.bodies|);
    Image(held.headers[..n], held.bodies[..n], held.resident - gone, held.journals - gone)
  }

  /** One block more, resident and with its undo data. */
  function Grown(held: Image, b: Block): Image {
    Image(held.headers + [Placed(b.height, b.header)], held.bodies + [b], held.resident + {b.height}, held.journals + {b.height})
  }

  /** Several blocks more. */
  function Joined(held: Image, headers: seq<Placed>, bodies: seq<Block>): Image {
    var added := Heights(|held.bodies|, |held.bodies| + |bodies|);
    Image(held.headers + headers, held.bodies + bodies, held.resident + added, held.journals + added)
  }

  /** What a node holds once a branch and its blocks have replaced everything above the ancestor:
      the ancestor's body has become resident too. */
  ghost function Replaced(held: Image, branch: Branch, blocks: seq<Option<Block>>): Image
    requires branch.ancestorHeight < |held.headers| == |held.bodies| && Arrived(blocks)
  {
    var prefix := Cut(held, branch.ancestorHeight + 1);
    Joined(prefix.(resident := prefix.resident + {branch.ancestorHeight}), branch.headers, Got(blocks))
  }

  lemma CutNothing(held: Image)
    requires |held.headers| == |held.bodies|
    ensures Cut(held, |held.bodies|) == held
  {
  }

  lemma CutMore<S>(exec: Execution<S>, base: S, held: Image, n: nat)
    requires 0 < n <= |held.headers| == |held.bodies|
    ensures var cut := Cut(held, n);
            && |cut.headers| == |cut.bodies| == n && Shortened(cut) == Cut(held, n - 1) && cut.bodies == held.bodies[..n]
            && (n - 1 in cut.journals <==> n - 1 in held.journals)
            && (UndoesAt(exec, base, cut.bodies, n - 1) <==> UndoesAt(exec, base, held.bodies, n - 1))
  {
    hide Executed;
    assert held.headers[..n][..n - 1] == held.headers[..n - 1] && held.bodies[..n][..n - 1] == held.bodies[..n - 1];
    assert held.bodies[..n][..n] == held.bodies[..n];
  }

  lemma ReplacedMeans(held: Image, branch: Branch, blocks: seq<Option<Block>>)
    requires branch.ancestorHeight < |held.headers| == |held.bodies| && Arrived(blocks)
    ensures var after, kept := Replaced(held, branch, blocks), branch.ancestorHeight + 1;
            && |after.bodies| >= kept && after.bodies[..kept] == held.bodies[..kept]
            && after.headers == held.headers[..kept] + branch.headers
            && (forall h :: kept <= h < |after.bodies| ==> h in after.resident)
            && (forall h: nat :: h < kept ==> (h in after.resident <==> h in held.resident || h == kept - 1))
  {
  }

  lemma JoinedNone(hash: Header -> Option<Hash>, from: Hash, held: Image, headers: seq<Placed>, blocks: seq<Option<Block>>)
    ensures Joined(held, headers[..0], []) == held && Played(hash, from, |held.bodies|, headers, blocks, [], from)
  {
    assert held.headers + headers[..0] == held.headers && held.bodies + [] == held.bodies;
  }

  lemma JoinedMore(held: Image, headers: seq<Placed>, played: seq<Block>, next: Option<Block>)
    requires |played| < |headers|
    ensures var i := |played|;
            var joined := Joined(held, headers[..i], played);
            && |joined.bodies| == |held.bodies| + i && joined.bodies == held.bodies + played
            && (next.Some? && Placed(next.value.height, next.value.header) == headers[i] && next.value.height == |joined.bodies| ==>
                  && Grown(joined, next.value) == Joined(held, headers[..i + 1], played + [next.value])
                  && Grown(joined, next.value).headers[|joined.headers|] == headers[i]
                  && |Grown(joined, next.value).headers| == |joined.headers| + 1)
  {
    if next.Some? && Placed(next.value.height, next.value.header) == headers[|played|] {
      Snoc(held.headers, headers, |played|, headers[|played|]);
      Regroup(held.bodies, played, next.value);
    }
  }

  /** A `HeaderSyncResult`: the branch `headers` on top of a local ancestor, with its totals. */
  datatype Branch = Branch(ancestorHeight: nat, ancestorHash: Hash, headers: seq<Placed>, work: nat, weight: nat)

  /** The branch ends the valid chain `peer`, whose totals it reports. */
  ghost predicate HonestBranch(r: Rules, genesis: Hash, b: Branch, peer: seq<Placed>) {
    && ValidChain(r, peer, genesis) && |peer| <= MAX_U64
    && |peer| == b.ancestorHeight + 1 + |b.headers| && peer[b.ancestorHeight + 1..] == b.headers
    && r.hash(peer[b.ancestorHeight].header) == Some(b.ancestorHash)
    && b.work == Cap(SumWork(r, peer), MaxWork())
    && b.weight == Cap(SumWeight(peer), MAX_U64)
  }

  /** Everything the node keeps about its chain agrees with the chain. */
  ghost predicate Agrees(r: Rules, genesis: Hash, hs: seq<Placed>, cs: seq<Checkpoint>, work: nat, weight: nat, stored: seq<Block>) {
    && |hs| <= MAX_U64 && ValidChain(r, hs, genesis)
    && Covers(r, hs, cs)
    && work == Cap(SumWork(r, hs), MaxWork())
    && weight == Cap(SumWeight(hs), MAX_U64)
    && Bodies(stored, hs)
  }

  /** The hash the branch's tip must have. */
  function NewTip(r: Rules, b: Branch): Option<Hash> {
    if b.headers == [] then Some(b.ancestorHash) else r.hash(b.headers[|b.headers| - 1].header)
  }

  datatype Answer = Applied(count: nat) | Offered | Ignored | Recover | Resync | Failed(reason: string)

  /** What a peer announces of its tip. */
  datatype Inventory = Inventory(height: nat, tip: Tip)

  /** A branch with its blocks, checked against some earlier chain of the node. */
  datatype Offer = Offer(branch: Branch, blocks: seq<Option<Block>>)

  /** One step of some thread of the node: a verified branch from header synchronization, or a
      block relayed by a peer or mined here, is applied under the state lock; an announced tip is
      checked, with what its peer answers to block requests, against a snapshot of the chain and
      without the lock; the fork found by such a check, the chain having moved on meanwhile, is
      applied under the lock. `persists` says whether the storage transaction commits. */
  datatype Event =
    | Sync(branch: Branch, blocks: seq<Option<Block>>, persists: bool)
    | Next(block: Block, relayed: bool, persists: bool)
    | Announce(remote: Inventory, fetch: Hash -> Option<Block>)
    | Resolve(offer: nat, persists: bool)
  {
    /** Heights on the wire are 64-bit. */
    ghost predicate Framed() {
      Next? ==> block.height <= MAX_U64
    }
  }

  const MAX_SHALLOW_GOSSIP_FORK_DEPTH := 8

  class Node<S(!new)> {
    const rules: Rules
    const genesis: Hash
    /** The ledger state before genesis. */
    const base: S
    const exec: Execution<S>
    const allows: (nat, nat) -> bool
    var ledger: Ledger<S>
    var checkpoints: seq<Checkpoint>
    var work: nat
    var weight: nat
    var stored: seq<Block>

    ghost predicate Valid()
      reads this, ledger, ledger.chain
    {
      && ledger.Valid() && ledger.chain.hash == rules.hash && ledger.exec == exec
      && Agrees(rules, genesis, ledger.chain.View(), checkpoints, work, weight, stored)
      && Inverts(exec) && ledger.Holds(base, stored)
    }

    /** The node as loading leaves it. */
    constructor (rules: Rules, genesis: Hash, allows: (nat, nat) -> bool, l: Ledger<S>, cs: seq<Checkpoint>,
                 work: nat, weight: nat, stored: seq<Block>, base: S)
      requires l.Valid() && l.chain.hash == rules.hash && Inverts(l.exec) && l.Holds(base, stored)
      requires Agrees(rules, genesis, l.chain.View(), cs, work, weight, stored)
      ensures Valid() && ledger == l && this.stored == stored
    {
      this.rules, this.genesis, this.allows, this.base, exec, ledger := rules, genesis, allows, base, l.exec, l;
      checkpoints, this.work, this.weight, this.stored := cs, work, weight, stored;
    }

    ghost function Current(): seq<Placed>
      requires ledger.Valid()
      reads this, ledger, ledger.chain
    {
      ledger.chain.View()
    }

    ghost function Held(): Image
      requires ledger.Valid()
      reads this, ledger, ledger.chain
    {
      Image(Current(), stored, ledger.chain.blocks.Keys, ledger.journals)
    }

    /** `canonical_block`: the resident body, or the stored one if it carries this header. */
    method CanonicalBlock(l: Ledger<S>, height: nat) returns (o: Result<Block>)
      requires l.Valid()
      ensures o.Success? <==>
                && height < l.chain.Count()
                && (height in l.chain.blocks ||
                    (height < |stored| && exec.sound(stored[height])
                     && stored[height].height == height && stored[height].header == l.chain.View()[height].header))
      ensures o.Success? ==> o.value.height == height && o.value.header == l.chain.View()[height].header
      ensures o.Success? ==>
                if height in l.chain.blocks then o.value == l.chain.blocks[height]
                else height < |stored| && o.value == stored[height]
    {
      if height !in l.chain.headers {
        return Failure("block was not found in this chain");
      }
      if height in l.chain.blocks {
        return Success(l.chain.blocks[height]);
      }
      if height >= |stored| || !exec.sound(stored[height]) {
        return Failure("local canonical body is missing; recovery is required");
      }
      var b := stored[height];
      if b.height != height || b.header != l.chain.headers[height] {
        return Failure("local body does not match pinned canonical header");
      }
      o := Success(b);
    }

    /** A ledger of this node's kind holds the image's chain, in the state of executing its bodies. */
    ghost predicate Shows(l: Ledger<S>, held: Image)
      reads l, l.chain
    {
      && l.Valid() && l.chain.hash == rules.hash && l.exec == exec
      && l.chain.View() == held.headers && l.Holds(base, held.bodies)
      && l.chain.blocks.Keys == held.resident && l.journals == held.journals
    }

    /** One turn of the rollback loop: the tip's body is found, made resident, and undone. */
    method Unwind(staged: Ledger<S>, ghost held: Image) returns (o: Result<()>)
      requires Shows(staged, held) && held.bodies != [] && held.bodies <= stored && Inverts(exec)
      requires staged != ledger && staged.chain != ledger.chain
      modifies staged, staged.chain
      ensures var n := |held.bodies|;
              && (o.Success? <==> n - 1 in held.journals && UndoesAt(exec, base, held.bodies, n - 1))
              && (o.Success? ==> Shows(staged, Shortened(held)))
    {
      hide Consistent, Contiguous, Listed, Executed, Among, Inverts, Bodies;
      SameCount(staged.chain, held.headers);
      BodiesLength(held.bodies, held.headers);
      var cached := Cache(staged, staged.chain.tipHeight.value, held);
      if cached.Failure? {
        return cached;
      }
      SameCount(staged.chain, held.headers);
      BodyAt(staged.chain.blocks, held.bodies, held.headers, |held.bodies| - 1);
      ghost var was, resident := staged.state, staged.chain.blocks;
      Whole(held.bodies);
      var removed := staged.RollbackTip();
      if removed.Failure? {
        return Failure(removed.reason);
      }
      Undone(staged.exec, base, held.bodies, held.headers, resident, was, staged.state);
      o := Success(());
    }

    /** The rollback loop: it stops exactly at the ancestor, in the state the ancestor left, and
        fails only if some block above the ancestor cannot be undone. */
    method RollBack(staged: Ledger<S>, ancestor: nat, ghost held: Image) returns (o: Result<nat>)
      requires Shows(staged, held) && ancestor < |held.bodies| && held.bodies <= stored && Inverts(exec)
      requires staged != ledger && staged.chain != ledger.chain
      modifies staged, staged.chain
      ensures o.Success? <==> Unwinds(exec, base, held.bodies, held.journals, ancestor)
      ensures o.Success? ==> o.value == |held.bodies| - 1 - ancestor
      ensures o.Success? ==> Shows(staged, Cut(held, ancestor + 1))
    {
      hide UndoesAt, Shows, Cut, Inverts;
      var count := 0;
      ghost var n := |held.bodies|;
      ShownLength(staged, held);
      CutNothing(held);
      while staged.chain.tipHeight.Some? && staged.chain.tipHeight.value > ancestor
        invariant ancestor < n <= |held.bodies| && count == |held.bodies| - n
        invariant Shows(staged, Cut(held, n)) && staged.chain.Count() == n
        invariant Unwinds(exec, base, held.bodies, held.journals, n - 1)
        decreases n
      {
        CutMore(exec, base, held, n);
        var undone := Unwind(staged, Cut(held, n));
        if undone.Failure? {
          return Failure(undone.reason);
        }
        n := n - 1;
        ShownLength(staged, Cut(held, n));
        count := count + 1;
      }
      o := Success(count);
    }

    lemma ShownLength(l: Ledger<S>, held: Image)
      requires Shows(l, held)
      ensures l.chain.Count() == |held.headers| == |held.bodies|
    {
      hide Executed, Among, Consistent;
    }

    /** One turn of the replay loop: the download is the block the verified header names, and executes. */
    method Play(staged: Ledger<S>, previous: Hash, expected: Placed, download: Option<Block>, ghost held: Image)
      returns (o: Result<Hash>)
      requires Shows(staged, held) && ParentOf(rules.hash, held.headers) == Some(previous) && expected.height <= MAX_U64
      requires staged != ledger && staged.chain != ledger.chain
      modifies staged, staged.chain
      ensures o.Success? <==> Continues(exec, base, rules.hash, held.bodies, previous, expected, download)
      ensures o.Success? ==>
                && download.Some? && rules.hash(expected.header) == Some(o.value)
                && Shows(staged, Grown(held, download.value))
                && Placed(download.value.height, download.value.header) == expected && download.value.height == |held.bodies|
    {
      hide Consistent, Contiguous, Listed, Executed, Among, Bodies;
      if download.None? {
        return Failure("download failed");
      }
      var b := download.value;
      if b.height != expected.height || b.header != expected.header || b.header.previousHash != previous {
        return Failure("downloaded block does not match verified header branch");
      }
      var hash := rules.hash(b.header);
      if hash.None? {
        return Failure("header hash failed");
      }
      SameCount(staged.chain, held.headers);
      BodiesLength(held.bodies, held.headers);
      Done(exec, base, held.bodies, held.headers, staged.chain.blocks, staged.state, b);
      var applied := staged.ApplyBlock(b);
      if applied.Failure? {
        return Failure(applied.reason);
      }
      o := Success(hash.value);
    }

    /** The replay loop: every downloaded block must be the one its verified header names. */
    method Replay(staged: Ledger<S>, from: Hash, headers: seq<Placed>, blocks: seq<Option<Block>>, ghost held: Image)
      returns (o: Result<()>)
      requires Shows(staged, held) && ParentOf(rules.hash, held.headers) == Some(from)
      requires forall i :: 0 <= i < |headers| ==> headers[i].height <= MAX_U64
      requires staged != ledger && staged.chain != ledger.chain
      modifies staged, staged.chain
      ensures o.Success? <==>
                Chains(rules.hash, from, |held.bodies|, headers) && Plays(exec, base, held.bodies, headers, blocks)
      ensures o.Success? ==> Arrived(blocks) && |blocks| == |headers| && Shows(staged, Joined(held, headers, Got(blocks)))
    {
      hide Shows, Continues, Plays, Chains, Played, Joined;
      var previous := from;
      ghost var played: seq<Block> := [];
      JoinedNone(rules.hash, from, held, headers, blocks);
      for i := 0 to |headers|
        invariant i <= |blocks| && |played| == i
        invariant Shows(staged, Joined(held, headers[..i], played))
        invariant Played(rules.hash, from, |held.bodies|, headers, blocks, played, previous)
        invariant ParentOf(rules.hash, Joined(held, headers[..i], played).headers) == Some(previous)
      {
        TooFew(exec, base, held.bodies, headers, blocks);
        if i >= |blocks| {
          return Failure("downloaded block count does not match verified headers");
        }
        PlayedStep(exec, base, rules.hash, from, held.bodies, headers, blocks, played, previous);
        JoinedMore(held, headers, played, blocks[i]);
        var next := Play(staged, previous, headers[i], blocks[i], Joined(held, headers[..i], played));
        if next.Failure? {
          return Failure(next.reason);
        }
        previous, played := next.value, played + [blocks[i].value];
      }
      TooFew(exec, base, held.bodies, headers, blocks);
      if |blocks| > |headers| {
        return Failure("downloaded block count does not match verified headers");
      }
      Whole(headers);
      AllPlayed(exec, base, rules.hash, from, held.bodies, headers, blocks, played, previous);
      ShownExecuted(staged, held, headers, played);
      o := Success(());
    }

    lemma ShownExecuted(l: Ledger<S>, held: Image, headers: seq<Placed>, played: seq<Block>)
      requires Shows(l, Joined(held, headers, played))
      ensures Executed(exec, base, held.bodies + played).Some?
    {
    }

    /** The bodies that replacing the stored chain streams out, one per header: those of the staged
        ledger. */
    method Collect(staged: Ledger<S>, ghost held: Image, ghost shared: nat) returns (o: Result<seq<Block>>)
      requires Shows(staged, held) && shared <= |stored| && shared <= |held.bodies| && held.bodies[..shared] == stored[..shared]
      requires forall h :: shared <= h < |held.bodies| ==> h in held.resident
      ensures o.Success? <==> forall h :: 0 <= h < shared ==> h in held.resident || exec.sound(stored[h])
      ensures o.Success? ==> o.value == held.bodies
    {
      hide Consistent, Contiguous, Executed, Bodies, Among;
      var out: seq<Block> := [];
      BodiesLength(held.bodies, held.headers);
      SameCount(staged.chain, held.headers);
      for h := 0 to staged.chain.Count()
        invariant out == held.bodies[..h]
        invariant forall k :: 0 <= k < shared && k < h ==> k in held.resident || exec.sound(stored[k])
      {
        BodyAt(staged.chain.blocks, held.bodies, held.headers, h);
        assert h < shared ==> held.bodies[..shared][h] == stored[..shared][h];
        var b := CanonicalBlock(staged, h);
        if b.Failure? {
          return Failure(b.reason);
        }
        out := out + [b.value];
      }
      o := Success(out);
    }

    /** The branch passes fork choice against this chain. */
    ghost predicate Prefers(held: Image, branch: Branch)
      requires held.headers != []
    {
      && allows(branch.work, branch.weight) && NewTip(rules, branch).Some?
      && Better(Tip(branch.work, branch.weight, NewTip(rules, branch).value), TipOf(rules, held.headers))
    }

    /** Its ancestor is on this chain. */
    ghost predicate Joins(held: Image, branch: Branch) {
      && branch.ancestorHeight < |held.headers| == |held.bodies|
      && rules.hash(held.headers[branch.ancestorHeight].header) == Some(branch.ancestorHash)
    }

    /** The chain above the ancestor has its undo data. */
    ghost predicate Journalled(held: Image, ancestor: nat) {
      forall h :: ancestor < h < |held.bodies| ==> h in held.journals
    }

    /** The branch can be put on its ancestor here: the local blocks above the ancestor can be undone,
        the bodies up to the ancestor can be read, and the downloads are the branch's and execute. */
    ghost predicate Rebuilds(held: Image, branch: Branch, blocks: seq<Option<Block>>) {
      var a := branch.ancestorHeight;
      && Joins(held, branch) && Unwinds(exec, base, held.bodies, held.journals, a)
      && exec.sound(held.bodies[a]) && (forall h :: 0 <= h < a ==> h in held.resident || exec.sound(held.bodies[h]))
      && Plays(exec, base, held.bodies[..a + 1], branch.headers, blocks)
    }

    /** The branch is preferred, and can replace what stands above its ancestor. */
    ghost predicate Installs(held: Image, branch: Branch, blocks: seq<Option<Block>>)
      requires held.headers != []
    {
      Prefers(held, branch) && Rebuilds(held, branch, blocks)
    }

    /** `apply_verified_branch_stream`. `persists` says whether the storage transaction commits. A
        branch is installed exactly when it is preferred to the current tip and can be installed,
        and then the node holds exactly the branch's chain; on any other answer nothing it holds
        changes. More total work always wins and less always loses; equal work is decided by
        weight, and equal weight by the smaller tip hash. */
    method ApplyVerifiedBranch(branch: Branch, blocks: seq<Option<Block>>, persists: bool, ghost peer: seq<Placed>)
      returns (answer: Answer)
      requires Valid() && Injective(rules)
      requires allows(branch.work, branch.weight) ==> HonestBranch(rules, genesis, branch, peer)
      modifies this
      ensures Valid()
      ensures answer.Applied? <==> persists && old(Installs(Held(), branch, blocks))
      ensures answer.Applied? ==>
                && answer.count == |branch.headers| && Current() == peer && Held() == old(Replaced(Held(), branch, blocks))
                && fresh(ledger) && fresh(ledger.chain)
      ensures !answer.Applied? ==> unchanged(this) && Held() == old(Held())
      ensures answer.Recover? <==>
                old(Prefers(Held(), branch) && Joins(Held(), branch) && !Journalled(Held(), branch.ancestorHeight))
      ensures answer.Ignored? <==>
                !allows(branch.work, branch.weight) || (NewTip(rules, branch).Some? && !old(Prefers(Held(), branch)))
      ensures answer.Applied? || answer.Recover? || answer.Ignored? || answer.Failed?
      ensures answer.Applied? ==> Outranks(rules, peer, old(Current()))
      ensures allows(branch.work, branch.weight) && NewTip(rules, branch).Some? ==>
                var hs, h := old(Current()), NewTip(rules, branch).value;
                var work, weight := Cap(SumWork(rules, hs), MaxWork()), Cap(SumWeight(hs), MAX_U64);
                && (branch.work > work ==> !answer.Ignored?) && (branch.work < work ==> answer.Ignored?)
                && (branch.work == work && branch.weight > weight ==> !answer.Ignored?)
                && (branch.work == work && branch.weight < weight ==> answer.Ignored?)
                && (branch.work == work && branch.weight == weight ==>
                      (answer.Ignored? <==> rules.hash(hs[|hs| - 1].header).Some? && rules.hash(hs[|hs| - 1].header).value <= h))
    {
      hide Consistent, Contiguous, Listed, HonestBranch, ValidChain, Bodies, Injective, Agrees, Better, TipOf, Executed, Among, Inverts, SumWork, SumWeight, MaxWork, Outranks, Prefers, Joins, Journalled, Installs;
      TipHashes();
      ghost var held := Held();
      PrefersByTotals(held, branch);
      InstallsMeans(held, branch, blocks);
      var refused := Weigh(branch);
      if refused.Some? {
        return refused.value;
      }
      PrefersAllows(held, branch);
      PreferredOutranks(held, branch, peer);
      answer := Exchange(branch, blocks, persists, peer);
    }

    /** Fork choice, and the search for the ancestor and for the undo data above it. */
    method Weigh(branch: Branch) returns (refused: Option<Answer>)
      requires Valid()
      ensures Current() != []
      ensures refused.None? <==> Prefers(Held(), branch) && Joins(Held(), branch) && Journalled(Held(), branch.ancestorHeight)
      ensures refused == Some(Recover) <==>
                Prefers(Held(), branch) && Joins(Held(), branch) && !Journalled(Held(), branch.ancestorHeight)
      ensures refused == Some(Ignored) <==>
                !allows(branch.work, branch.weight) || (NewTip(rules, branch).Some? && !Prefers(Held(), branch))
      ensures refused.Some? ==> refused.value.Recover? || refused.value.Ignored? || refused.value.Failed?
    {
      hide Consistent, Contiguous, Listed, ValidChain, Covers, Bodies, Agrees, Better, TipOf, Executed, Among, Inverts;
      ghost var hs := Current();
      NonEmpty();
      if !allows(branch.work, branch.weight) {
        return Some(Ignored);
      }
      var newTip := NewTip(rules, branch);
      if newTip.None? {
        return Some(Failed("header hash failed"));
      }
      Located(ledger.chain);
      AgreesMeans(rules, genesis, hs, checkpoints, work, weight, stored);
      BodiesLength(stored, hs);
      var current := Tip(work, weight, ledger.chain.tipHash.value);
      if !Better(Tip(branch.work, branch.weight, newTip.value), current) {
        return Some(Ignored);
      }
      if branch.ancestorHeight !in ledger.chain.headers {
        return Some(Failed("reorg ancestor is missing from canonical chain"));
      }
      var ancestor := rules.hash(ledger.chain.headers[branch.ancestorHeight]);
      if ancestor != Some(branch.ancestorHash) {
        return Some(Failed("reorg ancestor hash does not match canonical chain"));
      }
      if !ledger.CanRollbackTo(branch.ancestorHeight) {
        return Some(Recover);
      }
      refused := None;
    }

    /** The rollback, the replay and the atomic replacement. */
    method Exchange(branch: Branch, blocks: seq<Option<Block>>, persists: bool, ghost peer: seq<Placed>) returns (answer: Answer)
      requires Valid() && Injective(rules) && HonestBranch(rules, genesis, branch, peer)
      requires Current() != [] && Prefers(Held(), branch) && Joins(Held(), branch)
      modifies this
      ensures Valid()
      ensures answer.Applied? <==> persists && old(Installs(Held(), branch, blocks))
      ensures answer.Applied? ==>
                && answer.count == |branch.headers| && Current() == peer && Held() == old(Replaced(Held(), branch, blocks))
                && fresh(ledger) && fresh(ledger.chain)
      ensures !answer.Applied? ==> answer.Failed? && unchanged(this) && Held() == old(Held())
    {
      hide Consistent, Contiguous, Listed, HonestBranch, ValidChain, Bodies, Injective, Agrees, Executed, Among, Inverts, Prefers, Replaced, Shows, Rebuilds;
      ghost var held := Held();
      AgreesMeans(rules, genesis, held.headers, checkpoints, work, weight, stored);
      AncestorShared(rules, genesis, held.headers, branch, peer);
      BranchChains(rules, genesis, branch, peer);
      var bodies, staged := Prepare(branch, blocks, peer);
      if bodies.Failure? {
        return Failed(bodies.reason);
      }
      if !persists {
        return Failed("replace canonical chain failed");
      }
      ReplacedMeans(held, branch, blocks);
      Install(staged, bodies.value, Replaced(held, branch, blocks));
      answer := Applied(|branch.headers|);
    }

    /** The staged copy, and the bodies to store for it. */
    method Prepare(branch: Branch, blocks: seq<Option<Block>>, ghost peer: seq<Placed>)
      returns (o: Result<seq<Block>>, staged: Ledger<S>)
      requires Valid() && Joins(Held(), branch) && HonestBranch(rules, genesis, branch, peer)
      requires Current()[..branch.ancestorHeight + 1] == peer[..branch.ancestorHeight + 1]
      ensures fresh(staged) && fresh(staged.chain)
      ensures o.Success? <==> Rebuilds(Held(), branch, blocks)
      ensures o.Success? ==>
                && Arrived(blocks) && |blocks| == |branch.headers| && Shows(staged, Replaced(Held(), branch, blocks))
                && o.value == Replaced(Held(), branch, blocks).bodies
    {
      hide Consistent, Contiguous, Listed, HonestBranch, ValidChain, Bodies, Agrees, Executed, Among, Inverts, Unwinds, Plays, Replaced, Shows;
      ghost var held := Held();
      staged := new Ledger.Clone(ledger);
      Cloned(staged);
      var done := Stage(staged, branch, blocks, held, peer);
      if done.Failure? {
        return Failure(done.reason), staged;
      }
      ReplacedMeans(held, branch, blocks);
      o := Collect(staged, Replaced(held, branch, blocks), branch.ancestorHeight + 1);
    }

    lemma Cloned(l: Ledger<S>)
      requires Valid() && l.Valid() && l.chain.View() == ledger.chain.View() && l.chain.blocks == ledger.chain.blocks
      requires l.chain.hash == ledger.chain.hash && l.exec == ledger.exec && l.journals == ledger.journals && l.state == ledger.state
      ensures Shows(l, Held())
    {
    }

    /** Fork choice, by the totals alone. */
    lemma PrefersByTotals(held: Image, branch: Branch)
      requires held.headers != [] && rules.hash(held.headers[|held.headers| - 1].header).Some?
      ensures allows(branch.work, branch.weight) && NewTip(rules, branch).Some? ==>
                var hs, h := held.headers, NewTip(rules, branch).value;
                var work, weight := Cap(SumWork(rules, hs), MaxWork()), Cap(SumWeight(hs), MAX_U64);
                && (branch.work > work ==> Prefers(held, branch)) && (branch.work < work ==> !Prefers(held, branch))
                && (branch.work == work && branch.weight > weight ==> Prefers(held, branch))
                && (branch.work == work && branch.weight < weight ==> !Prefers(held, branch))
                && (branch.work == work && branch.weight == weight ==>
                      (Prefers(held, branch) <==> h < rules.hash(hs[|hs| - 1].header).value))
    {
      hide SumWork, SumWeight, MaxWork;
    }

    lemma InstallsMeans(held: Image, branch: Branch, blocks: seq<Option<Block>>)
      requires held.headers != []
      ensures Installs(held, branch, blocks) ==>
                Prefers(held, branch) && Joins(held, branch) && Journalled(held, branch.ancestorHeight)
    {
      hide Prefers, UndoesAt, Plays;
    }

    lemma PrefersAllows(held: Image, branch: Branch)
      requires held.headers != [] && Prefers(held, branch)
      ensures allows(branch.work, branch.weight) && NewTip(rules, branch).Some?
    {
    }

    lemma PreferredOutranks(held: Image, branch: Branch, peer: seq<Placed>)
      requires held.headers != [] && ValidChain(rules, held.headers, genesis)
      requires Prefers(held, branch) && HonestBranch(rules, genesis, branch, peer)
      ensures peer != [] && Outranks(rules, peer, held.headers)
    {
      hide ValidChain, HonestBranch, TipOf, Better, Outranks;
      BranchTip(rules, genesis, branch, peer, NewTip(rules, branch).value);
      BetterOutranks(rules, genesis, peer, held.headers);
    }

    lemma TipHashes()
      requires Valid()
      ensures Current() != [] && ValidChain(rules, Current(), genesis) && rules.hash(Current()[|Current()| - 1].header).Some?
    {
      hide ValidChain, Consistent, Covers, Bodies, Executed, Among, Inverts;
      AgreesMeans(rules, genesis, Current(), checkpoints, work, weight, stored);
      ValidDefined(rules, Current(), genesis);
    }

    /** The committed replacement and the cache built for it. */
    method Install(staged: Ledger<S>, bodies: seq<Block>, ghost held: Image)
      requires Valid() && Injective(rules) && Shows(staged, held) && bodies == held.bodies
      requires held.headers != [] && |held.headers| <= MAX_U64 && ValidChain(rules, held.headers, genesis)
      modifies this
      ensures Valid() && ledger == staged && Held() == held
    {
      hide Consistent, Contiguous, Listed, ValidChain, Covers, SumWork, SumWeight, MaxWork, Bodies, Injective, Agrees, Executed, Among, Inverts;
      ghost var hs := Current();
      AgreesMeans(rules, genesis, hs, checkpoints, work, weight, stored);
      Located(staged.chain);
      var updated := Update(rules, staged.chain.headers, staged.chain.Count(), Some(checkpoints), genesis, hs);
      stored := bodies;
      ledger := staged;
      checkpoints, work, weight := updated.value.0, updated.value.1, updated.value.2;
      AgreesNow(rules, genesis, held.headers, checkpoints, work, weight, stored);
    }

    /** Rollback to the ancestor and replay, on the staged copy alone. */
    method Stage(staged: Ledger<S>, branch: Branch, blocks: seq<Option<Block>>, ghost held: Image, ghost peer: seq<Placed>)
      returns (o: Result<()>)
      requires Shows(staged, held) && held.bodies == stored && Inverts(exec) && HonestBranch(rules, genesis, branch, peer)
      requires staged != ledger && staged.chain != ledger.chain
      requires branch.ancestorHeight < |held.bodies| && branch.ancestorHeight < |held.headers|
      requires held.headers[..branch.ancestorHeight + 1] == peer[..branch.ancestorHeight + 1]
      modifies staged, staged.chain
      ensures |held.headers| == |held.bodies|
      ensures o.Success? <==>
                var a := branch.ancestorHeight;
                && Unwinds(exec, base, held.bodies, held.journals, a) && exec.sound(held.bodies[a])
                && Plays(exec, base, held.bodies[..a + 1], branch.headers, blocks)
      ensures o.Success? ==> Arrived(blocks) && |blocks| == |branch.headers| && Shows(staged, Replaced(held, branch, blocks))
    {
      hide Shows, Inverts, Unwinds, HonestBranch, Chains, Plays, Joined;
      BranchChains(rules, genesis, branch, peer);
      ShownLength(staged, held);
      ghost var a := branch.ancestorHeight;
      var back := RollBack(staged, branch.ancestorHeight, held);
      if back.Failure? {
        return Failure(back.reason);
      }
      // The tip is now the ancestor, so the source's check that it is cannot fail.
      ghost var cut := Cut(held, a + 1);
      var cached := Cache(staged, branch.ancestorHeight, cut);
      if cached.Failure? {
        return cached;
      }
      assert held.headers[..a + 1][a] == peer[..a + 1][a];
      o := Replay(staged, branch.ancestorHash, branch.headers, blocks, cut.(resident := cut.resident + {a}));
    }

    /** A body on the staged chain becomes resident. */
    method Cache(staged: Ledger<S>, height: nat, ghost held: Image) returns (o: Result<()>)
      requires Shows(staged, held) && held.bodies <= stored && height < |held.bodies|
      requires staged != ledger && staged.chain != ledger.chain
      modifies staged.chain
      ensures o.Success? <==> exec.sound(held.bodies[height])
      ensures o.Success? ==> Shows(staged, held.(resident := held.resident + {height}))
    {
      hide Consistent, Contiguous, Listed, Executed, Among, Bodies;
      BodyAt(staged.chain.blocks, held.bodies, held.headers, height);
      BodiesLength(held.bodies, held.headers);
      SameCount(staged.chain, held.headers);
      Located(staged.chain);
      var body := CanonicalBlock(staged, height);
      if body.Failure? {
        return Failure(body.reason);
      }
      CachedAmong(staged.chain.blocks, held.bodies, height, body.value);
      var cached := staged.chain.CacheKnownBlock(body.value, staged.exec.sound);
      if cached.Bad? {
        return Failure("body refused");
      }
      o := Success(());
    }

    static lemma Located(c: Chain)
      requires c.Valid()
      ensures c.Count() == |c.View()| && Contiguous(c.headers, c.Count()) && Listed(c.headers, c.Count()) == c.View()
      ensures forall h: nat :: h in c.headers <==> h < |c.View()|
      ensures forall h: nat :: h < |c.View()| ==> c.headers[h] == c.View()[h].header
      ensures c.View() != [] ==> c.tipHash.Some? && c.tipHash == c.hash(c.View()[|c.View()| - 1].header)
    {
      TipKnown(c.hash, c.headers, c.Count(), c.blocks, c.tipHash);
    }

    /** A block may follow this chain: it keeps every consensus rule; a relayed one is not the tip
        again, and with it the chain meets the configured minimums. */
    ghost predicate Admits(hs: seq<Placed>, b: Block, relayed: bool)
      requires hs != []
    {
      var longer := hs + [Placed(b.height, b.header)];
      && Linked(rules, longer, |hs|)
      && (relayed ==>
            && rules.hash(b.header) != rules.hash(hs[|hs| - 1].header)
            && allows(Cap(SumWork(rules, longer), MaxWork()), Cap(SumWeight(longer), MAX_U64)))
    }

    /** It is admitted and executes. */
    ghost predicate Extends(held: Image, b: Block, relayed: bool)
      requires held.headers != []
    {
      Admits(held.headers, b, relayed) && Executed(exec, base, held.bodies + [b]).Some?
    }

    /** A relayed block (`accept_relayed_block`) or a mined one (`persist_mined_block`): the tip's
        child, admitted by the consensus rules and executed, becomes the tip; otherwise nothing
        changes. */
    method Extend(b: Block, relayed: bool, persists: bool) returns (answer: Answer)
      requires Valid() && Injective(rules) && b.height <= MAX_U64 && |Current()| < MAX_U64
      modifies this
      ensures Valid()
      ensures old(Current()) != [] && (answer.Applied? <==> persists && old(Extends(Held(), b, relayed)))
      ensures answer.Applied? ==> Held() == Grown(old(Held()), b) && fresh(ledger) && fresh(ledger.chain)
      ensures !answer.Applied? ==> unchanged(this) && Held() == old(Held())
      ensures answer.Resync? <==> old(Detached(Current(), b, relayed))
    {
      hide Consistent, Contiguous, Listed, ValidChain, Covers, Bodies, Injective, Agrees, Admits, Executed, Among, Inverts, Linked;
      ghost var held := Held();
      NonEmpty();
      var refused := Judge(b, relayed);
      if refused.Some? {
        return refused.value;
      }
      AdmitsMeans(held.headers, b, relayed);
      AgreesMeans(rules, genesis, held.headers, checkpoints, work, weight, stored);
      ValidSnoc(rules, held.headers, Placed(b.height, b.header), genesis);
      SameCount(ledger.chain, held.headers);
      Done(exec, base, stored, held.headers, ledger.chain.blocks, ledger.state, b);
      var staged := new Ledger.Clone(ledger);
      var applied := staged.ApplyBlock(b);
      if applied.Failure? {
        return Failed(applied.reason);
      }
      if !persists {
        return Failed("append block failed");
      }
      Install(staged, stored + [b], Grown(held, b));
      answer := Applied(1);
    }

    /** A relayed block that is not the tip and does not follow it. */
    ghost predicate Detached(hs: seq<Placed>, b: Block, relayed: bool)
      requires hs != []
    {
      var hash, tip := rules.hash(b.header), rules.hash(hs[|hs| - 1].header);
      relayed && hash.Some? && hash != tip && tip != Some(b.header.previousHash)
    }

    lemma AdmitsMeans(hs: seq<Placed>, b: Block, relayed: bool)
      requires hs != []
      ensures Admits(hs, b, relayed) ==>
                && Linked(rules, hs + [Placed(b.height, b.header)], |hs|)
                && b.height == |hs| && rules.hash(b.header).Some? && Some(b.header.previousHash) == ParentOf(rules.hash, hs)
    {
      hide Linked, SumWork, SumWeight, MaxWork;
      var longer := hs + [Placed(b.height, b.header)];
      assert longer[|hs| - 1] == hs[|hs| - 1];
      LinkedMeans(rules, longer);
    }

    /** The tests, in the order they are made. */
    method Judge(b: Block, relayed: bool) returns (refused: Option<Answer>)
      requires Valid() && b.height <= MAX_U64
      ensures Current() != [] && (refused.None? <==> Admits(Current(), b, relayed))
      ensures refused.Some? ==> !refused.value.Applied? && !refused.value.Offered?
      ensures refused == Some(Resync) <==> Detached(Current(), b, relayed)
    {
      hide Consistent, Contiguous, Listed, Agrees, Linked, MaxWork, SumWork, SumWeight, Bodies, Executed, Among, Inverts;
      NonEmpty();
      Located(ledger.chain);
      ghost var hs := Current();
      var headers := Listed(ledger.chain.headers, ledger.chain.Count()) + [Placed(b.height, b.header)];
      LinkedMeans(rules, headers);
      TotalsGrow(rules, genesis, hs, checkpoints, work, weight, stored, Placed(b.height, b.header));
      var hash := rules.hash(b.header);
      if relayed && hash.None? {
        return Some(Failed("header hash failed"));
      }
      if relayed && ledger.chain.tipHash == hash {
        return Some(Ignored);
      }
      if ledger.chain.tipHash != Some(b.header.previousHash) {
        return Some(if relayed then Resync else Failed("mined candidate became stale while mining"));
      }
      if relayed {
        var w := rules.work(b.header.targetBits);
        if w.None? {
          return Some(Failed("relayed block has invalid target bits"));
        }
        if !allows(SatAdd(work, w.value, MaxWork()), SatAdd(weight, b.header.blockWeight, MAX_U64)) {
          return Some(Failed("relayed chain is below configured work/weight minimums"));
        }
      }
      if !Linked(rules, headers, |headers| - 1) {
        return Some(Failed("block refused by consensus"));
      }
      refused := None;
    }

    /** Every fork that was found is an honest branch, and short enough. */
    ghost predicate AllHonest(offers: seq<Offer>, peers: seq<seq<Placed>>, left: nat) {
      && |offers| == |peers|
      && forall k :: 0 <= k < |offers| ==> HonestBranch(rules, genesis, offers[k].branch, peers[k]) && Room(|peers[k]|, left)
    }

    /** A verified branch is applied under the lock. */
    ghost predicate Applies(branch: Branch, blocks: seq<Option<Block>>, persists: bool, before: Image, answer: Answer, after: Image)
      requires before.headers != []
    {
      && (answer.Applied? <==> persists && Installs(before, branch, blocks))
      && after == (if answer.Applied? then Replaced(before, branch, blocks) else before)
      && (answer.Recover? <==> Prefers(before, branch) && Joins(before, branch) && !Journalled(before, branch.ancestorHeight))
      && (answer.Ignored? <==> !allows(branch.work, branch.weight) || (NewTip(rules, branch).Some? && !Prefers(before, branch)))
      && !answer.Offered? && !answer.Resync?
    }

    /** One step of the node, on values: what it answers and what it then holds, exactly. */
    ghost predicate Steps(event: Event, offers: seq<Offer>, before: Image, answer: Answer, after: Image, offers': seq<Offer>)
      requires before.headers != []
    {
      match event
      case Sync(branch, blocks, persists) => offers' == offers && Applies(branch, blocks, persists, before, answer, after)
      case Next(b, relayed, persists) =>
        && offers' == offers
        && (answer.Applied? <==> persists && Extends(before, b, relayed))
        && (answer.Resync? <==> Detached(before.headers, b, relayed))
        && after == if answer.Applied? then Grown(before, b) else before
      case Announce(remote, fetch) =>
        && after == before && !answer.Applied?
        && (forall found :: Forks(before.headers, remote, fetch, found) ==>
              answer.Offered? && offers' == offers + [OfferOf(remote, found)])
        && ((forall found :: !Forks(before.headers, remote, fetch, found)) ==> !answer.Offered? && offers' == offers)
      case Resolve(k, persists) =>
        && offers' == offers
        && if k < |offers| then Applies(offers[k].branch, offers[k].blocks, persists, before, answer, after)
           else answer.Ignored? && after == before
    }

    /** Any run of such steps, each accepted, ignored or failing. `images` and `pools` are what the
        node holds and which forks it has found before each step and at the end; every step does
        exactly what it should. The tip improves with every change, strictly until both totals are
        saturated, so no chain comes back; the capped work never falls, and at equal work the
        capped weight does not; and the ledger state is at the end what executing the stored
        bodies from the beginning gives. */
    method Run(events: seq<Event>, ghost peers: seq<seq<Placed>>)
      returns (answers: seq<Answer>, ghost images: seq<Image>, ghost pools: seq<seq<Offer>>, ghost tips: seq<Tip>)
      requires Valid() && Injective(rules) && Priced(rules) && |peers| == |events|
      requires forall i :: 0 <= i < |events| ==> events[i].Framed()
      requires forall i :: 0 <= i < |events| && events[i].Sync? && allows(events[i].branch.work, events[i].branch.weight) ==>
                 HonestBranch(rules, genesis, events[i].branch, peers[i]) && Room(|peers[i]|, |events|)
      requires Room(|Current()|, |events|)
      modifies this
      ensures Valid() && |answers| == |events|
      ensures Executed(exec, base, stored) == Some(ledger.state)
      ensures |images| == |pools| == |events| + 1 && images[0] == old(Held()) && pools[0] == [] && images[|events|] == Held()
      ensures forall i :: 0 <= i < |images| ==> images[i].headers != []
      ensures forall i :: 0 <= i < |events| ==> Steps(events[i], pools[i], images[i], answers[i], images[i + 1], pools[i + 1])
      ensures |tips| == 1 + Installed(answers)
      ensures forall i :: 0 <= i <= |events| ==> TipAt(tips, answers, images, i)
      ensures forall i, j :: 0 <= i < j < |tips| ==> Improves(tips[j], tips[i])
      ensures forall i, j :: 0 <= i < j < |tips| ==>
                tips[j].work >= tips[i].work && (tips[j].work == tips[i].work ==> tips[j].weight >= tips[i].weight)
    {
      hide Agrees, HonestBranch, Bodies, Consistent, Contiguous, Listed, TipOf, Improves, Installed, Priced, Injective, Among, Executed, Inverts, AllHonest, Steps, TipAt, InRange;
      answers := [];
      NonEmpty();
      images, tips := [Held()], [TipOf(rules, Current())];
      var offers: seq<Offer> := [];
      ghost var chains: seq<seq<Placed>> := [];
      pools := [offers];
      NoOffers(|events|);
      FirstTip(images, tips);
      TipInRange(rules, Current());
      for i := 0 to |events|
        invariant Valid() && |answers| == i && Current() != []
        invariant Room(|Current()|, |events| - i) && AllHonest(offers, chains, |events| - i)
        invariant |images| == |pools| == i + 1 && images[0] == old(Held()) && pools[0] == []
        invariant images[i] == Held() && pools[i] == offers
        invariant forall k :: 0 <= k <= i ==> images[k].headers != []
        invariant forall k :: 0 <= k < i ==> Steps(events[k], pools[k], images[k], answers[k], images[k + 1], pools[k + 1])
        invariant |tips| == 1 + Installed(answers) && tips[|tips| - 1] == TipOf(rules, Current())
        invariant forall k :: 0 <= k <= i ==> TipAt(tips, answers, images, k)
        invariant forall i, j :: 0 <= i < j < |tips| ==> Improves(tips[j], tips[i])
        invariant forall i :: 0 <= i < |tips| ==> InRange(tips[i])
      {
        ghost var was := Current();
        var answer, offers';
        answer, offers', chains := Handle(events[i], peers[i], offers, chains, |events| - i);
        TipInRange(rules, Current());
        if answer.Applied? {
          ImprovesOnAll(rules, tips, was, Current());
        }
        NextTip(images, answers, tips, Held(), answer);
        images, pools := images + [Held()], pools + [offers'];
        answers, offers := answers + [answer], offers';
        if answer.Applied? {
          tips := tips + [TipOf(rules, Current())];
        }
      }
      NeverBehind(tips);
    }

    /** The tip after so many changes of chain is the tip of the image there. */
    ghost predicate TipAt(tips: seq<Tip>, answers: seq<Answer>, images: seq<Image>, i: nat) {
      && i <= |answers| && i < |images| && images[i].headers != [] && Installed(answers[..i]) < |tips|
      && tips[Installed(answers[..i])] == TipOf(rules, images[i].headers)
    }

    lemma FirstTip(images: seq<Image>, tips: seq<Tip>)
      requires images != [] && images[0].headers != [] && tips == [TipOf(rules, images[0].headers)]
      ensures Installed([]) == 0 && TipAt(tips, [], images, 0)
    {
      hide TipOf;
    }

    lemma NextTip(images: seq<Image>, answers: seq<Answer>, tips: seq<Tip>, held: Image, answer: Answer)
      requires |images| == |answers| + 1 && |tips| == 1 + Installed(answers) && held.headers != []
      requires !answer.Applied? ==> held == images[|answers|]
      requires forall k :: 0 <= k <= |answers| ==> TipAt(tips, answers, images, k)
      ensures Installed(answers + [answer]) == Installed(answers) + if answer.Applied? then 1 else 0
      ensures var tips' := if answer.Applied? then tips + [TipOf(rules, held.headers)] else tips;
              forall k :: 0 <= k <= |answers| + 1 ==> TipAt(tips', answers + [answer], images + [held], k)
    {
      hide TipOf, Installed;
      InstalledOne(answers, answer);
      var all, longer := answers + [answer], images + [held];
      var tips' := if answer.Applied? then tips + [TipOf(rules, held.headers)] else tips;
      forall k | 0 <= k <= |answers| + 1 ensures TipAt(tips', all, longer, k) {
        if k <= |answers| {
          assert TipAt(tips, answers, images, k) && all[..k] == answers[..k];
        } else {
          assert TipAt(tips, answers, images, |answers|) && answers[..|answers|] == answers && all[..k] == all;
        }
      }
    }

    lemma NoOffers(left: nat)
      ensures AllHonest([], [], left)
    {
    }

    /** One step: the tip improves, or nothing changes but that a fork is found. */
    method Handle(event: Event, ghost peer: seq<Placed>, offers: seq<Offer>, ghost chains: seq<seq<Placed>>, ghost left: nat)
      returns (answer: Answer, offers': seq<Offer>, ghost chains': seq<seq<Placed>>)
      requires Valid() && Injective(rules) && Priced(rules) && event.Framed() && left > 0 && Room(|Current()|, left)
      requires event.Sync? && allows(event.branch.work, event.branch.weight) ==>
                 HonestBranch(rules, genesis, event.branch, peer) && Room(|peer|, left)
      requires AllHonest(offers, chains, left)
      modifies this
      ensures Valid() && Room(|Current()|, left - 1) && old(Current()) != [] && Current() != []
      ensures AllHonest(offers', chains', left - 1)
      ensures Steps(event, offers, old(Held()), answer, Held(), offers')
      ensures answer.Applied? ==> Improves(TipOf(rules, Current()), old(TipOf(rules, Current())))
      ensures !answer.Applied? ==> Held() == old(Held())
    {
      hide Agrees, HonestBranch, Bodies, Consistent, Contiguous, Listed, TipOf, Priced, Injective, Improves, Among, Executed, Inverts, Prefers, Joins, Journalled, Rebuilds, Replaced, Extends, Detached, Forks, Outranks, SumWork, SumWeight, MaxWork, Admits;
      NonEmpty();
      ghost var held := Held();
      offers', chains' := offers, chains;
      match event
      case Sync(branch, blocks, persists) =>
        answer := ApplyVerifiedBranch(branch, blocks, persists, peer);
        InstalledImproves(held, branch, blocks, peer);
      case Next(b, relayed, persists) =>
        answer := Extend(b, relayed, persists);
        ExtendedImproves(held, b, relayed);
      case Announce(remote, fetch) =>
        var found;
        answer, found := Probe(remote, fetch);
        if answer.Offered? {
          offers' := offers + [found];
          chains' := chains + [Forked(held.headers, found.branch)];
        }
      case Resolve(k, persists) =>
        if k < |offers| {
          answer := ApplyVerifiedBranch(offers[k].branch, offers[k].blocks, persists, chains[k]);
          InstalledImproves(held, offers[k].branch, offers[k].blocks, chains[k]);
        } else {
          answer := Ignored;
        }
    }

    lemma InstalledImproves(held: Image, branch: Branch, blocks: seq<Option<Block>>, peer: seq<Placed>)
      requires held.headers != [] && (allows(branch.work, branch.weight) ==> HonestBranch(rules, genesis, branch, peer))
      ensures Installs(held, branch, blocks) ==> peer != [] && Improves(TipOf(rules, peer), TipOf(rules, held.headers))
    {
      hide HonestBranch, TipOf, Better, Unwinds, Plays;
      if Installs(held, branch, blocks) {
        BranchTip(rules, genesis, branch, peer, NewTip(rules, branch).value);
      }
    }

    lemma ExtendedImproves(held: Image, b: Block, relayed: bool)
      requires held.headers != [] && Priced(rules)
      ensures Extends(held, b, relayed) ==> Improves(TipOf(rules, Grown(held, b).headers), TipOf(rules, held.headers))
    {
      hide Executed, TipOf, Improves, Priced, Linked, SumWork, SumWeight, MaxWork;
      if Extends(held, b, relayed) {
        ExtendImproves(rules, held.headers, Placed(b.height, b.header));
      }
    }

    /** A chain up to a branch's ancestor, and the branch. */
    ghost function Forked(hs: seq<Placed>, branch: Branch): seq<Placed>
      requires branch.ancestorHeight < |hs|
    {
      hs[..branch.ancestorHeight + 1] + branch.headers
    }

    /** The block's parent is on this chain. */
    predicate Rests(hs: seq<Placed>, b: Block) {
      0 < b.height <= |hs| && rules.hash(hs[b.height - 1].header) == Some(b.header.previousHash)
    }

    /** The hash each of these blocks is asked for by: the announced tip, then what the child names. */
    function Asked(remote: Inventory, found: seq<Block>, i: nat): Hash
      requires i < |found|
    {
      if i == |found| - 1 then remote.tip.hash else found[i + 1].header.previousHash
    }

    /** The peer answers with these blocks, the announced tip last. */
    ghost predicate Answers(remote: Inventory, fetch: Hash -> Option<Block>, found: seq<Block>) {
      && (found != [] ==> found[|found| - 1].height == remote.height)
      && forall i :: 0 <= i < |found| ==>
           && found[i].height > 0 && fetch(Asked(remote, found, i)) == Some(found[i])
           && rules.hash(found[i].header) == Some(Asked(remote, found, i))
    }

    /** Few enough blocks from the announced tip down to the first one whose parent is on this chain. */
    ghost predicate Serves(hs: seq<Placed>, remote: Inventory, fetch: Hash -> Option<Block>, found: seq<Block>) {
      && 0 < |found| <= MAX_SHALLOW_GOSSIP_FORK_DEPTH && Answers(remote, fetch, found)
      && forall i :: 0 <= i < |found| ==> (Rests(hs, found[i]) <==> i == 0)
    }

    /** The descent of `try_shallow_gossip_reorg`: blocks asked for by hash from the announced tip
        down, until one's parent is in the local chain. */
    method Descend(remote: Inventory, fetch: Hash -> Option<Block>) returns (o: Result<Option<seq<Block>>>)
      requires Valid()
      ensures forall found :: Serves(Current(), remote, fetch, found) <==> o == Success(Some(found))
    {
      hide Agrees, Consistent, Contiguous, Listed, Serves, Answers, Bodies, Executed, Among, Inverts, Rests;
      Located(ledger.chain);
      ghost var hs := Current();
      var requested, found: seq<Block> := remote.tip.hash, [];
      StartDescent(hs, remote, fetch);
      for i := 0 to MAX_SHALLOW_GOSSIP_FORK_DEPTH
        invariant |found| == i && requested == Wanted(remote, found)
        invariant Below(hs, remote, fetch, found)
        invariant forall g :: Serves(hs, remote, fetch, g) ==> EndsWith(g, found)
      {
        NextServed(hs, remote, fetch, found);
        var fetched := fetch(requested);
        if fetched.None? {
          return Failure("peer returned an unexpected gossip block response");
        }
        var b := fetched.value;
        if rules.hash(b.header) != Some(requested) {
          return Failure("gossip block body does not match requested hash");
        }
        if found == [] && b.height != remote.height {
          return Failure("gossip tip block height does not match announcement");
        }
        if b.height == 0 {
          return Success(None);
        }
        AnotherBlock(hs, remote, fetch, found, b);
        RestsMeans(ledger.chain, b);
        found := [b] + found;
        requested := b.header.previousHash;
        if b.height - 1 in ledger.chain.headers && rules.hash(ledger.chain.headers[b.height - 1]) == Some(b.header.previousHash) {
          return Success(Some(found));
        }
      }
      TooDeep(hs, remote, fetch, found);
      o := Success(None);
    }

    /** What is asked for next. */
    function Wanted(remote: Inventory, found: seq<Block>): Hash {
      if found == [] then remote.tip.hash else found[0].header.previousHash
    }

    /** Blocks on the way down, none resting on this chain. */
    ghost predicate Below(hs: seq<Placed>, remote: Inventory, fetch: Hash -> Option<Block>, found: seq<Block>) {
      Answers(remote, fetch, found) && forall i :: 0 <= i < |found| ==> !Rests(hs, found[i])
    }

    /** There is more to come above these. */
    static ghost predicate EndsWith(g: seq<Block>, found: seq<Block>) {
      |found| < |g| && g[|g| - |found|..] == found
    }

    lemma StartDescent(hs: seq<Placed>, remote: Inventory, fetch: Hash -> Option<Block>)
      ensures Below(hs, remote, fetch, [])
      ensures forall g :: Serves(hs, remote, fetch, g) ==> EndsWith(g, [])
    {
      hide Rests, Answers;
      assert Answers(remote, fetch, []) by {
        Unanswered(remote, fetch);
      }
      forall g | Serves(hs, remote, fetch, g) ensures EndsWith(g, []) {
        assert g[|g|..] == [];
      }
    }

    lemma Unanswered(remote: Inventory, fetch: Hash -> Option<Block>)
      ensures Answers(remote, fetch, [])
    {
    }

    /** Any blocks that would be served go on with what the peer answers next. */
    ghost predicate GoesOn(hs: seq<Placed>, remote: Inventory, fetch: Hash -> Option<Block>, found: seq<Block>, g: seq<Block>)
      requires EndsWith(g, found)
    {
      var b := g[|g| - |found| - 1];
      && fetch(Wanted(remote, found)) == Some(b) && rules.hash(b.header) == Some(Wanted(remote, found))
      && b.height > 0 && (found == [] ==> b.height == remote.height)
      && if Rests(hs, b) then g == [b] + found else EndsWith(g, [b] + found)
    }

    lemma NextServed(hs: seq<Placed>, remote: Inventory, fetch: Hash -> Option<Block>, found: seq<Block>)
      ensures forall g :: Serves(hs, remote, fetch, g) && EndsWith(g, found) ==> GoesOn(hs, remote, fetch, found, g)
    {
      hide Serves, EndsWith, GoesOn;
      forall g | Serves(hs, remote, fetch, g) && EndsWith(g, found) ensures GoesOn(hs, remote, fetch, found, g) {
        ServedNext(hs, remote, fetch, found, g);
      }
    }

    lemma ServedNext(hs: seq<Placed>, remote: Inventory, fetch: Hash -> Option<Block>, found: seq<Block>, g: seq<Block>)
      requires Serves(hs, remote, fetch, g) && EndsWith(g, found)
      ensures GoesOn(hs, remote, fetch, found, g)
    {
      hide Rests;
      var j := |g| - |found| - 1;
      assert found != [] ==> g[j + 1] == found[0];
      assert Asked(remote, g, j) == Wanted(remote, found);
      assert g[j..] == [g[j]] + found;
      assert Rests(hs, g[j]) <==> j == 0;
    }

    /** One block more on the way down; the first to rest on the chain ends it. */
    lemma AnotherBlock(hs: seq<Placed>, remote: Inventory, fetch: Hash -> Option<Block>, found: seq<Block>, b: Block)
      requires Below(hs, remote, fetch, found) && |found| < MAX_SHALLOW_GOSSIP_FORK_DEPTH
      requires fetch(Wanted(remote, found)) == Some(b) && rules.hash(b.header) == Some(Wanted(remote, found))
      requires b.height > 0 && (found == [] ==> b.height == remote.height)
      ensures if Rests(hs, b) then Serves(hs, remote, fetch, [b] + found) else Below(hs, remote, fetch, [b] + found)
    {
      hide Rests;
      var all := [b] + found;
      forall i | 0 <= i < |all|
        ensures all[i].height > 0 && fetch(Asked(remote, all, i)) == Some(all[i]) && rules.hash(all[i].header) == Some(Asked(remote, all, i))
        ensures i > 0 ==> !Rests(hs, all[i])
      {
        if i == 0 {
          assert Asked(remote, all, 0) == Wanted(remote, found);
        } else {
          assert all[i] == found[i - 1] && Asked(remote, all, i) == Asked(remote, found, i - 1);
        }
      }
    }

    lemma TooDeep(hs: seq<Placed>, remote: Inventory, fetch: Hash -> Option<Block>, found: seq<Block>)
      requires |found| == MAX_SHALLOW_GOSSIP_FORK_DEPTH
      ensures forall g :: Serves(hs, remote, fetch, g) ==> !EndsWith(g, found)
    {
      hide Rests, Answers;
    }

    lemma RestsMeans(c: Chain, b: Block)
      requires c.Valid() && b.height > 0
      ensures Rests(c.View(), b) <==>
                b.height - 1 in c.headers && rules.hash(c.headers[b.height - 1]) == Some(b.header.previousHash)
    {
      hide Consistent, Contiguous, Listed;
      Located(c);
    }

    /** The served blocks are a valid fork with the announced totals, allowed and preferred. */
    ghost predicate Matches(hs: seq<Placed>, remote: Inventory, found: seq<Block>)
      requires hs != [] && found != [] && 0 < found[0].height <= |hs|
    {
      var forked := hs[..found[0].height] + Headers(found);
      && ValidChain(rules, forked, genesis)
      && Cap(SumWork(rules, forked), MaxWork()) == remote.tip.work && Cap(SumWeight(forked), MAX_U64) == remote.tip.weight
      && allows(remote.tip.work, remote.tip.weight) && Better(remote.tip, TipOf(rules, hs))
    }

    ghost predicate Forks(hs: seq<Placed>, remote: Inventory, fetch: Hash -> Option<Block>, found: seq<Block>)
      requires hs != []
    {
      Serves(hs, remote, fetch, found) && Rests(hs, found[0]) && Matches(hs, remote, found)
    }

    /** What is then applied, once the lock is held. */
    function BranchOf(remote: Inventory, found: seq<Block>): Branch
      requires found != [] && found[0].height > 0
    {
      Branch(found[0].height - 1, found[0].header.previousHash, Headers(found), remote.tip.work, remote.tip.weight)
    }

    ghost function OfferOf(remote: Inventory, found: seq<Block>): Offer
    {
      if found == [] || found[0].height == 0 then Offer(Branch(0, 0, [], 0, 0), [])
      else Offer(BranchOf(remote, found), Given(found))
    }

    /** `try_shallow_gossip_reorg` up to its last call, on one snapshot of the chain: a short fork is
        offered exactly when the peer serves it down to the local chain, it is valid from the local
        ancestor on, has the announced totals, and is allowed and preferred. It is then an honest
        branch of the snapshot's prefix and the fetched headers. Resync asks for full header
        synchronization. */
    method Probe(remote: Inventory, fetch: Hash -> Option<Block>) returns (answer: Answer, offer: Offer)
      requires Valid() && Room(|Current()|, 1)
      ensures !answer.Applied? && Current() != []
      ensures forall found :: Forks(Current(), remote, fetch, found) ==> answer.Offered? && offer == OfferOf(remote, found)
      ensures answer.Offered? ==> exists found :: Forks(Current(), remote, fetch, found)
      ensures answer.Offered? ==>
                var branch := offer.branch;
                && branch.ancestorHeight < |Current()| && 0 < |branch.headers| <= MAX_SHALLOW_GOSSIP_FORK_DEPTH
                && HonestBranch(rules, genesis, branch, Forked(Current(), branch))
      ensures !Better(remote.tip, TipOf(rules, Current())) ==> answer.Ignored?
    {
      hide Agrees, HonestBranch, Consistent, Contiguous, Listed, TipOf, Better, Serves, Rests, Executed, Among, Inverts, Bodies, Matches;
      NonEmpty();
      ghost var hs := Current();
      offer := Offer(Branch(0, 0, [], 0, 0), []);
      Located(ledger.chain);
      AgreesMeans(rules, genesis, hs, checkpoints, work, weight, stored);
      ForksMeans(hs, remote, fetch);
      if !Better(remote.tip, Tip(work, weight, ledger.chain.tipHash.value)) {
        return Ignored, offer;
      }
      var descent := Descend(remote, fetch);
      if descent.Failure? {
        return Failed(descent.reason), offer;
      }
      if descent.value.None? {
        return Resync, offer;
      }
      var found := descent.value.value;
      assert Serves(hs, remote, fetch, found);
      ServesMeans(hs, remote, fetch, found);
      var checked := CheckFork(remote, found);
      if checked.Failure? {
        return Failed(checked.reason), offer;
      }
      if checked.value.None? {
        return Ignored, offer;
      }
      assert Forks(hs, remote, fetch, found);
      answer, offer := Offered, Offer(checked.value.value, Given(found));
    }

    /** A fork that was offered and meets the chain unmoved is installed, if its blocks execute and
        the blocks it replaces can be undone. */
    lemma {:induction false} OfferInstalls(held: Image, remote: Inventory, fetch: Hash -> Option<Block>, found: seq<Block>)
      requires held.headers != [] && |held.headers| == |held.bodies| && Forks(held.headers, remote, fetch, found)
      ensures var a, offer := found[0].height - 1, OfferOf(remote, found);
              && Installs(held, offer.branch, offer.blocks) <==>
                 && Unwinds(exec, base, held.bodies, held.journals, a)
                 && exec.sound(held.bodies[a]) && (forall h :: 0 <= h < a ==> h in held.resident || exec.sound(held.bodies[h]))
                 && Executed(exec, base, held.bodies[..a + 1] + found).Some?
    {
      hide Unwinds, Executed, ValidChain, Better, TipOf, SumWork, SumWeight, MaxWork;
      ServesMeans(held.headers, remote, fetch, found);
      assert Got(Given(found)) == found;
    }

    lemma ForksMeans(hs: seq<Placed>, remote: Inventory, fetch: Hash -> Option<Block>)
      requires hs != []
      ensures forall found :: Forks(hs, remote, fetch, found) ==> Better(remote.tip, TipOf(rules, hs))
    {
      hide Serves, Better, TipOf, ValidChain;
    }

    lemma ServesMeans(hs: seq<Placed>, remote: Inventory, fetch: Hash -> Option<Block>, found: seq<Block>)
      requires Serves(hs, remote, fetch, found)
      ensures Rests(hs, found[0]) && 0 < found[0].height <= |hs| && rules.hash(found[|found| - 1].header) == Some(remote.tip.hash)
      ensures 0 < |found| <= MAX_SHALLOW_GOSSIP_FORK_DEPTH
    {
      assert Rests(hs, found[0]);
    }

    /** The checks: header validation from the local ancestor on, the announced tip and totals,
        the configured minimums and fork choice. */
    method CheckFork(remote: Inventory, found: seq<Block>) returns (o: Result<Option<Branch>>)
      requires Valid() && Room(|Current()|, 1) && 0 < |found| <= MAX_SHALLOW_GOSSIP_FORK_DEPTH && Rests(Current(), found[0])
      requires rules.hash(found[|found| - 1].header) == Some(remote.tip.hash)
      ensures Current() != [] && (o.Success? && o.value.Some? <==> Matches(Current(), remote, found))
      ensures o.Success? && o.value.Some? ==>
                && o.value.value == BranchOf(remote, found)
                && HonestBranch(rules, genesis, o.value.value, Forked(Current(), o.value.value))
    {
      hide Agrees, HonestBranch, Consistent, Contiguous, Listed, TipOf, Better, Covers, Resumed, Resumable, Covering, Advance, ValidChain, MaxWork, SumWork, SumWeight, Bodies, Executed, Among, Inverts;
      NonEmpty();
      ghost var hs := Current();
      Located(ledger.chain);
      AgreesMeans(rules, genesis, hs, checkpoints, work, weight, stored);
      var ancestor, headers := found[0].height - 1, Headers(found);
      ListedPrefix(ledger.chain.headers, |hs|, ancestor + 1);
      AdvanceMeans(rules, genesis, hs, checkpoints, ancestor, headers);
      // The checkpoints cover the ancestor, so the state can always be rebuilt there.
      var state := StateAtHeight(rules, ledger.chain.headers, ledger.chain.Count(), checkpoints, ancestor);
      var advanced := Advance(rules, state.value, headers);
      if advanced.Err? {
        return Failure("invalid peer headers");
      }
      var end := advanced.value;
      if rules.hash(end.header) != Some(remote.tip.hash) || end.work != remote.tip.work || end.weight != remote.tip.weight {
        return Failure("shallow gossip branch does not match announced tip/work");
      }
      if !allows(end.work, end.weight) || !Better(Tip(end.work, end.weight, remote.tip.hash), Tip(work, weight, ledger.chain.tipHash.value)) {
        return Success(None);
      }
      ForkHonest(rules, genesis, hs, BranchOf(remote, found));
      o := Success(Some(Branch(ancestor, found[0].header.previousHash, headers, end.work, end.weight)));
    }

    lemma NonEmpty()
      requires Valid()
      ensures Current() != []
    {
    }

    static lemma SameCount(c: Chain, hs: seq<Placed>)
      requires c.Valid() && c.View() == hs
      ensures c.Count() == |hs|
    {
    }
  }

  function Headers(bs: seq<Block>): (hs: seq<Placed>)
    ensures |hs| == |bs| && forall i :: 0 <= i < |bs| ==> hs[i] == Placed(bs[i].height, bs[i].header)
  {
    seq(|bs|, i requires 0 <= i < |bs| => Placed(bs[i].height, bs[i].header))
  }

  function Given(bs: seq<Block>): (os: seq<Option<Block>>)
    ensures |os| == |bs| && forall i :: 0 <= i < |bs| ==> os[i] == Some(bs[i])
  {
    seq(|bs|, i requires 0 <= i < |bs| => Some(bs[i]))
  }

  /** There are 64-bit heights left for so many more events. */
  predicate Room(length: nat, events: nat) {
    length + MAX_SHALLOW_GOSSIP_FORK_DEPTH * events <= MAX_U64
  }

  function Installed(answers: seq<Answer>): nat {
    if answers == [] then 0
    else Installed(answers[..|answers| - 1]) + if answers[|answers| - 1].Applied? then 1 else 0
  }

  lemma InstalledOne(answers: seq<Answer>, answer: Answer)
    ensures Installed(answers + [answer]) == Installed(answers) + if answer.Applied? then 1 else 0
  {
    assert (answers + [answer])[..|answers|] == answers;
  }

  /** Fork choice is a strict total order on tips: work decides, then weight, then the smaller hash. */
  lemma BetterIsStrictOrder(a: Tip, b: Tip, c: Tip)
    ensures !Better(a, a)
    ensures Better(a, b) ==> !Better(b, a)
    ensures Better(a, b) && Better(b, c) ==> Better(a, c)
    ensures a == b || Better(a, b) || Better(b, a)
    ensures a.work > b.work ==> Better(a, b)
    ensures a.work == b.work && a.weight > b.weight ==> Better(a, b)
    ensures a.work == b.work && a.weight == b.weight && a.hash < b.hash ==> Better(a, b)
  {
  }

  lemma BetterOutranks(r: Rules, genesis: Hash, a: seq<Placed>, b: seq<Placed>)
    requires ValidChain(r, a, genesis) && ValidChain(r, b, genesis) && a != [] && b != []
    requires Better(TipOf(r, a), TipOf(r, b))
    ensures Outranks(r, a, b)
  {
    hide ValidChain, SumWork, SumWeight, MaxWork;
    ValidDefined(r, a, genesis);
    ValidDefined(r, b, genesis);
  }

  /** The totals of one block more. */
  lemma TotalsGrow(r: Rules, genesis: Hash, hs: seq<Placed>, cs: seq<Checkpoint>, work: nat, weight: nat, stored: seq<Block>, x: Placed)
    requires Agrees(r, genesis, hs, cs, work, weight, stored) && hs != []
    ensures r.work(x.header.targetBits).Some? ==>
              && SatAdd(work, r.work(x.header.targetBits).value, MaxWork()) == Cap(SumWork(r, hs + [x]), MaxWork())
              && SatAdd(weight, x.header.blockWeight, MAX_U64) == Cap(SumWeight(hs + [x]), MAX_U64)
  {
    hide ValidChain, Covers, Bodies, SumWork, SumWeight, MaxWork;
    var longer := hs + [x];
    assert longer[..|hs|] == hs && longer[..|longer|] == longer;
    if r.work(x.header.targetBits).Some? {
      CapStep(r, longer, |hs|);
    }
  }

  ghost predicate InRange(t: Tip) {
    t.work <= MaxWork() && t.weight <= MAX_U64
  }

  lemma TipInRange(r: Rules, hs: seq<Placed>)
    requires hs != []
    ensures InRange(TipOf(r, hs))
  {
    hide MaxWork, SumWork, SumWeight;
  }

  /** Work never falls along improving tips, nor weight at equal work. */
  lemma NeverBehind(tips: seq<Tip>)
    requires forall i, j :: 0 <= i < j < |tips| ==> Improves(tips[j], tips[i])
    requires forall i :: 0 <= i < |tips| ==> InRange(tips[i])
    ensures forall i, j :: 0 <= i < j < |tips| ==>
              tips[j].work >= tips[i].work && (tips[j].work == tips[i].work ==> tips[j].weight >= tips[i].weight)
  {
    hide MaxWork;
  }

  lemma ImprovesTransitive(c: Tip, b: Tip, a: Tip)
    requires Improves(c, b) && Improves(b, a) && InRange(c) && InRange(b)
    ensures Improves(c, a)
  {
    hide MaxWork;
  }

  lemma ImprovesOnAll(r: Rules, tips: seq<Tip>, was: seq<Placed>, hs: seq<Placed>)
    requires tips != [] && was != [] && hs != [] && tips[|tips| - 1] == TipOf(r, was) && Improves(TipOf(r, hs), TipOf(r, was))
    requires forall i, j :: 0 <= i < j < |tips| ==> Improves(tips[j], tips[i])
    ensures var all := tips + [TipOf(r, hs)]; forall i, j :: 0 <= i < j < |all| ==> Improves(all[j], all[i])
  {
    hide MaxWork, Improves, SumWork, SumWeight;
    var t, all := TipOf(r, hs), tips + [TipOf(r, hs)];
    forall i, j | 0 <= i < j < |all| ensures Improves(all[j], all[i]) {
      if j == |tips| && i < |tips| - 1 {
        ImprovesTransitive(t, tips[|tips| - 1], tips[i]);
      }
    }
  }

  /** One more block with positive work and weight. */
  lemma ExtendImproves(r: Rules, hs: seq<Placed>, x: Placed)
    requires hs != [] && Priced(r) && Linked(r, hs + [x], |hs|)
    ensures Improves(TipOf(r, hs + [x]), TipOf(r, hs))
  {
    hide MaxWork, BitsAt;
    assert (hs + [x])[..|hs|] == hs;
  }

  lemma LinkedMeans(r: Rules, hs: seq<Placed>)
    requires |hs| > 1
    ensures var x := hs[|hs| - 1];
            Linked(r, hs, |hs| - 1) ==>
              && x.height == |hs| - 1 && r.hash(hs[|hs| - 2].header) == Some(x.header.previousHash)
              && r.hash(x.header).Some? && r.work(x.header.targetBits).Some?
  {
  }

  lemma ValidSnoc(r: Rules, hs: seq<Placed>, x: Placed, genesis: Hash)
    requires ValidChain(r, hs, genesis) && hs != [] && Linked(r, hs + [x], |hs|)
    ensures ValidChain(r, hs + [x], genesis)
  {
    var longer := hs + [x];
    forall i | 0 < i < |longer| ensures Linked(r, longer, i) {
      if i < |hs| {
        assert Linked(r, hs, i);
        if Boundary(i) {
          assert longer[i - WBDA_WINDOW..i] == hs[i - WBDA_WINDOW..i];
        }
      }
    }
  }

  lemma BodiesLength(bodies: seq<Block>, hs: seq<Placed>)
    requires Bodies(bodies, hs)
    ensures |bodies| == |hs|
  {
  }

  /** The body found for a height is the chain's, so caching it is sound. */
  lemma CachedAmong(resident: map<nat, Block>, bodies: seq<Block>, h: nat, b: Block)
    requires h < |bodies| && Among(resident, bodies) && b == bodies[h]
    ensures Among(resident[h := b], bodies)
  {
  }

  /** One block undone. */
  lemma {:induction false} Undone<S(!new)>(exec: Execution<S>, base: S, bodies: seq<Block>, hs: seq<Placed>, resident: map<nat, Block>, t: S, u: S)
    requires Inverts(exec) && bodies != [] && Bodies(bodies, hs) && Among(resident, bodies) && |bodies| - 1 in resident
    requires Executed(exec, base, bodies) == Some(t) && exec.undo(t, resident[|bodies| - 1]) == Some(u)
    ensures var n := |bodies| - 1;
            && Bodies(bodies[..n], hs[..n]) && Among(resident - {n}, bodies[..n])
            && Executed(exec, base, bodies[..n]) == Some(u)
  {
    var n := |bodies| - 1;
    assert exec.apply(Executed(exec, base, bodies[..n]).value, bodies[n]) == Some(t);
  }

  /** The body at a height, resident or not, is the chain's. */
  lemma BodyAt(resident: map<nat, Block>, bodies: seq<Block>, hs: seq<Placed>, h: nat)
    requires Bodies(bodies, hs) && Among(resident, bodies) && h < |bodies|
    ensures h < |hs| && bodies[h].height == h && bodies[h].header == hs[h].header
    ensures h in resident ==> resident[h] == bodies[h]
  {
  }

  lemma {:induction false} ExecutedPrefix<S>(exec: Execution<S>, base: S, bs: seq<Block>, k: nat)
    requires k <= |bs| && Executed(exec, base, bs).Some?
    ensures Executed(exec, base, bs[..k]).Some?
    decreases |bs|
  {
    if k < |bs| {
      ExecutedPrefix(exec, base, bs[..|bs| - 1], k);
      assert bs[..|bs| - 1][..k] == bs[..k];
    } else {
      assert bs[..k] == bs;
    }
  }

  /** One block more. */
  ghost predicate Continues<S>(exec: Execution<S>, base: S, hash: Header -> Option<Hash>, bodies: seq<Block>, previous: Hash,
                               expected: Placed, download: Option<Block>)
  {
    && download.Some? && download.value.height == expected.height == |bodies| && download.value.header == expected.header
    && expected.header.previousHash == previous && hash(expected.header).Some?
    && Executed(exec, base, bodies + [download.value]).Some?
  }

  /** The first downloads are `played`, those of the first headers, and `previous` is the hash of the last. */
  ghost predicate Played(hash: Header -> Option<Hash>, from: Hash, n: nat, headers: seq<Placed>, blocks: seq<Option<Block>>,
                         played: seq<Block>, previous: Hash)
  {
    var i := |played|;
    && i <= |headers| && i <= |blocks| && Some(previous) == (if i == 0 then Some(from) else hash(headers[i - 1].header))
    && forall k :: 0 <= k < i ==>
         && blocks[k] == Some(played[k]) && Follows(hash, from, n, headers, k)
         && played[k].height == headers[k].height && played[k].header == headers[k].header
  }

  lemma TooFew<S>(exec: Execution<S>, base: S, bodies: seq<Block>, headers: seq<Placed>, blocks: seq<Option<Block>>)
    ensures Plays(exec, base, bodies, headers, blocks) ==> |blocks| == |headers|
  {
  }

  /** The next turn: it goes on, or the branch cannot be played. */
  lemma PlayedStep<S>(exec: Execution<S>, base: S, hash: Header -> Option<Hash>, from: Hash, bodies: seq<Block>, headers: seq<Placed>,
                      blocks: seq<Option<Block>>, played: seq<Block>, previous: Hash)
    requires Played(hash, from, |bodies|, headers, blocks, played, previous) && |played| < |headers| && |played| < |blocks|
    ensures var i := |played|;
            if Continues(exec, base, hash, bodies + played, previous, headers[i], blocks[i])
            then Played(hash, from, |bodies|, headers, blocks, played + [blocks[i].value], hash(headers[i].header).value)
            else !(Chains(hash, from, |bodies|, headers) && Plays(exec, base, bodies, headers, blocks))
  {
    hide Executed, Plays;
    var i := |played|;
    if Chains(hash, from, |bodies|, headers) && Plays(exec, base, bodies, headers, blocks) {
      PlaysMeans(exec, base, bodies, headers, blocks, played);
      assert Follows(hash, from, |bodies|, headers, i);
    }
  }

  lemma PlaysMeans<S>(exec: Execution<S>, base: S, bodies: seq<Block>, headers: seq<Placed>, blocks: seq<Option<Block>>, played: seq<Block>)
    requires Plays(exec, base, bodies, headers, blocks) && |played| < |blocks|
    requires forall k :: 0 <= k < |played| ==> blocks[k] == Some(played[k])
    ensures var i := |played|;
            && |blocks| == |headers| && blocks[i].Some? && Executed(exec, base, bodies + played + [blocks[i].value]).Some?
            && blocks[i].value.height == headers[i].height && blocks[i].value.header == headers[i].header
  {
    hide Executed;
    var all, n := bodies + Got(blocks), |bodies| + |played| + 1;
    assert all[..n] == bodies + played + [blocks[|played|].value];
    ExecutedPrefix(exec, base, all, n);
  }

  lemma AllPlayed<S>(exec: Execution<S>, base: S, hash: Header -> Option<Hash>, from: Hash, bodies: seq<Block>, headers: seq<Placed>,
                     blocks: seq<Option<Block>>, played: seq<Block>, previous: Hash)
    requires Played(hash, from, |bodies|, headers, blocks, played, previous) && |played| == |headers| == |blocks|
    ensures Arrived(blocks) && played == Got(blocks) && Chains(hash, from, |bodies|, headers)
    ensures Executed(exec, base, bodies + played).Some? ==> Plays(exec, base, bodies, headers, blocks)
  {
    hide Executed;
    assert played == Got(blocks);
  }

  /** One block executed. */
  lemma {:induction false} Done<S>(exec: Execution<S>, base: S, bodies: seq<Block>, hs: seq<Placed>, resident: map<nat, Block>, s: S, b: Block)
    requires Bodies(bodies, hs) && Among(resident, bodies) && Executed(exec, base, bodies) == Some(s)
    ensures Executed(exec, base, bodies + [b]) == exec.apply(s, b)
    ensures b.height == |hs| ==>
              Bodies(bodies + [b], hs + [Placed(b.height, b.header)]) && Among(resident[b.height := b], bodies + [b])
  {
    assert (bodies + [b])[..|bodies|] == bodies;
  }

  /** What header synchronization hands over is honest: starting from the state rebuilt at any
      local ancestor and advancing it by the peer's chunks, the totals are those of the valid chain
      made of the local prefix and the downloaded headers. */
  lemma SyncIsHonest(r: Rules, genesis: Hash, hs: seq<Placed>, cs: seq<Checkpoint>, ancestor: nat, chunks: seq<seq<Placed>>)
    requires ValidChain(r, hs, genesis) && |hs| <= MAX_U64 && Covers(r, hs, cs) && ancestor < |hs|
    requires ancestor + 1 + |Concat(chunks)| <= MAX_U64
    requires Covering(cs, ancestor).Some? && Covering(cs, ancestor).value.height <= ancestor
    requires AdvanceAll(r, Resumed(r, hs[..ancestor + 1], Covering(cs, ancestor).value), chunks).Ok?
    ensures var s := AdvanceAll(r, Resumed(r, hs[..ancestor + 1], Covering(cs, ancestor).value), chunks).value;
            var hash := r.hash(hs[ancestor].header);
            && hash.Some?
            && HonestBranch(r, genesis, Branch(ancestor, hash.value, Concat(chunks), s.work, s.weight), hs[..ancestor + 1] + Concat(chunks))
  {
    hide ValidChain, Covers, Covering, Resumed, Advance, HeaderState, SumWork, SumWeight, MaxWork;
    var prefix, xs := hs[..ancestor + 1], Concat(chunks);
    var s0 := Resumed(r, prefix, Covering(cs, ancestor).value);
    RebuildIsGenesisState(r, hs, cs, ancestor, genesis);
    ValidDefined(r, hs, genesis);
    if chunks == [] {
      StateMeaning(r, prefix, genesis);
      assert prefix + xs == prefix;
    } else {
      AnyChunking(r, s0, chunks);
      PathIndependent(r, prefix, xs, genesis);
      StateMeaning(r, prefix + xs, genesis);
    }
    assert (prefix + xs)[ancestor + 1..] == xs && (prefix + xs)[ancestor] == hs[ancestor];
  }

  /** Resuming the validation state at a local ancestor and advancing it by these headers succeeds
      exactly when they extend the local prefix to a valid chain, and gives that chain's totals. */
  lemma AdvanceMeans(r: Rules, genesis: Hash, hs: seq<Placed>, cs: seq<Checkpoint>, ancestor: nat, xs: seq<Placed>)
    requires ValidChain(r, hs, genesis) && |hs| <= MAX_U64 && Covers(r, hs, cs) && ancestor < |hs|
    requires ancestor + 1 + |xs| <= MAX_U64 && xs != []
    ensures Resumable(r, hs[..ancestor + 1], Covering(cs, ancestor)) && Covering(cs, ancestor).value.height <= ancestor
    ensures var o := Advance(r, Resumed(r, hs[..ancestor + 1], Covering(cs, ancestor).value), xs);
            var longer := hs[..ancestor + 1] + xs;
            && (o.Ok? <==> ValidChain(r, longer, genesis))
            && (o.Ok? ==> o.value.header == xs[|xs| - 1].header
                          && o.value.work == Cap(SumWork(r, longer), MaxWork()) && o.value.weight == Cap(SumWeight(longer), MAX_U64))
  {
    hide ValidChain, Covers, Resumed, Advance, HeaderState, SumWork, SumWeight, MaxWork, LastN;
    var prefix := hs[..ancestor + 1];
    RebuildIsGenesisState(r, hs, cs, ancestor, genesis);
    PathIndependent(r, prefix, xs, genesis);
    StateMeaning(r, prefix + xs, genesis);
  }

  lemma ForkHonest(r: Rules, genesis: Hash, hs: seq<Placed>, branch: Branch)
    requires branch.ancestorHeight < |hs| && r.hash(hs[branch.ancestorHeight].header) == Some(branch.ancestorHash)
    requires var forked := hs[..branch.ancestorHeight + 1] + branch.headers;
             && ValidChain(r, forked, genesis) && |forked| <= MAX_U64
             && branch.work == Cap(SumWork(r, forked), MaxWork()) && branch.weight == Cap(SumWeight(forked), MAX_U64)
    ensures HonestBranch(r, genesis, branch, hs[..branch.ancestorHeight + 1] + branch.headers)
  {
    hide ValidChain, SumWork, SumWeight, MaxWork;
    var forked := hs[..branch.ancestorHeight + 1] + branch.headers;
    assert forked[branch.ancestorHeight + 1..] == branch.headers;
  }

  lemma ListedPrefix(headers: map<nat, Header>, n: nat, k: nat)
    requires Contiguous(headers, n) && k <= n
    ensures Listed(headers, k) == Listed(headers, n)[..k]
  {
  }

  /** An execution that counts the blocks. */
  function Counting(): Execution<int> {
    Execution((s: int, b: Block) => Some(s + 1), (s: int, b: Block) => Some(s - 1), (b: Block) => true)
  }

  /** The assumptions on a run can be met: a collision-free hash, a valid chain, and an honest
      branch that is preferred to it. */
  lemma HonestBranchExists()
    ensures var r, peer := EasyRules(), [FIRST, SECOND];
            && Injective(r) && Priced(r) && ValidChain(r, [FIRST], 7) && Inverts(Counting())
            && HonestBranch(r, 7, Branch(0, 7, [SECOND], 1, 1), peer)
            && Better(TipOf(r, peer), TipOf(r, [FIRST]))
  {
    hide MaxWork, TipOf, Better;
    var r, peer := EasyRules(), [FIRST, SECOND];
    assert Linked(r, peer, 1);
    assert peer[..1] == [FIRST] && peer[1..] == [SECOND];
    assert SumWork(r, [FIRST]) == 0 && SumWeight([FIRST]) == 0;
    assert SumWork(r, peer) == 1 && SumWeight(peer) == 1;
    BigEnough();
    TipsCompare(r);
  }

  lemma BigEnough()
    ensures MaxWork() >= 1
  {
    assert Bytes.Pow256(64) == 256 * Bytes.Pow256(63);
  }

  lemma TipsCompare(r: Rules)
    requires SumWork(r, [FIRST]) == 0 && SumWork(r, [FIRST, SECOND]) == 1 && MaxWork() >= 1
    ensures Better(TipOf(r, [FIRST, SECOND]), TipOf(r, [FIRST]))
  {
    hide MaxWork;
  }

  lemma AgreesMeans(r: Rules, genesis: Hash, hs: seq<Placed>, cs: seq<Checkpoint>, work: nat, weight: nat, stored: seq<Block>)
    requires Agrees(r, genesis, hs, cs, work, weight, stored)
    ensures hs != [] && |hs| <= MAX_U64 && ValidChain(r, hs, genesis) && Covers(r, hs, cs) && Bodies(stored, hs)
    ensures forall h :: r.hash(hs[|hs| - 1].header) == Some(h) ==> TipOf(r, hs) == Tip(work, weight, h)
  {
  }

  lemma AgreesNow(r: Rules, genesis: Hash, hs: seq<Placed>, cs: seq<Checkpoint>, work: nat, weight: nat, stored: seq<Block>)
    requires |hs| <= MAX_U64 && ValidChain(r, hs, genesis) && Covers(r, hs, cs) && Bodies(stored, hs)
    requires work == Cap(SumWork(r, hs), MaxWork()) && weight == Cap(SumWeight(hs), MAX_U64)
    ensures Agrees(r, genesis, hs, cs, work, weight, stored)
  {
  }

  /** With a collision-free hash the branch's chain and the local one agree up to the ancestor. */
  lemma AncestorShared(r: Rules, genesis: Hash, hs: seq<Placed>, branch: Branch, peer: seq<Placed>)
    requires Injective(r) && ValidChain(r, hs, genesis) && HonestBranch(r, genesis, branch, peer)
    requires branch.ancestorHeight < |hs| && r.hash(hs[branch.ancestorHeight].header) == Some(branch.ancestorHash)
    ensures hs[..branch.ancestorHeight + 1] == peer[..branch.ancestorHeight + 1]
  {
    hide ValidChain, SumWork, SumWeight, MaxWork;
    SamePrefix(r, hs, peer, branch.ancestorHeight, genesis);
  }

  lemma BranchTip(r: Rules, genesis: Hash, branch: Branch, peer: seq<Placed>, h: Hash)
    requires HonestBranch(r, genesis, branch, peer)
    requires NewTip(r, branch) == Some(h)
    ensures peer != [] && |peer| <= MAX_U64 && ValidChain(r, peer, genesis)
    ensures TipOf(r, peer) == Tip(branch.work, branch.weight, h)
  {
    hide ValidChain, SumWork, SumWeight, MaxWork;
    if branch.headers != [] {
      assert peer[|peer| - 1] == peer[branch.ancestorHeight + 1..][|branch.headers| - 1];
    }
  }

  /** An honest branch's headers follow its ancestor. */
  lemma BranchChains(r: Rules, genesis: Hash, branch: Branch, peer: seq<Placed>)
    requires HonestBranch(r, genesis, branch, peer)
    ensures Chains(r.hash, branch.ancestorHash, branch.ancestorHeight + 1, branch.headers)
    ensures forall i :: 0 <= i < |branch.headers| ==> branch.headers[i].height <= MAX_U64
    ensures branch.ancestorHeight < |peer| && r.hash(peer[branch.ancestorHeight].header) == Some(branch.ancestorHash)
    ensures peer == peer[..branch.ancestorHeight + 1] + branch.headers && |peer| <= MAX_U64 && ValidChain(r, peer, genesis)
  {
    hide SumWork, SumWeight, MaxWork, BitsAt;
    var a, hash := branch.ancestorHeight, branch.ancestorHash;
    forall i | 0 <= i < |branch.headers|
      ensures Follows(r.hash, hash, a + 1, branch.headers, i) && branch.headers[i].height <= MAX_U64
    {
      assert branch.headers[i] == peer[a + 1 + i];
      assert i > 0 ==> branch.headers[i - 1] == peer[a + i];
      assert Linked(r, peer, a + 1 + i);
    }
    assert peer == peer[..a + 1] + peer[a + 1..];
  }

  lemma Snoc<T>(a: seq<T>, b: seq<T>, i: nat, x: T)
    requires i < |b| && b[i] == x
    ensures a + b[..i] + [x] == a + b[..i + 1]
  {
  }

  lemma Regroup<T>(a: seq<T>, b: seq<T>, x: T)
    ensures a + b + [x] == a + (b + [x])
  {
  }

  lemma Whole<T>(s: seq<T>)
    ensures s[..|s|] == s
  {
  }
}
