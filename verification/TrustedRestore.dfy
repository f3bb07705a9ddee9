/** Restart from a stored snapshot (runtime/src/snapshot.rs): the load loop with its pinned body
    reader (runtime/src/storage.rs), and why skipping proof of work behind a matching checkpoint
    is safe whatever was written in between. */
module TrustedRestore {
  import opened Wrappers
  import opened StorageModel
  import opened StorageRuns
  import opened SnapshotMeaning

  const MAX_BLOCK_SIZE := 0x20_0000

  // ----- the pinned reader -----

  predicate Sized(bytes: Data) {
    0 < |bytes| <= MAX_BLOCK_SIZE
  }

  /** `CanonicalBodyReader`: one generation, streamed a body at a time from height 0. */
  class BodyReader {
    const db: Db
    var next: nat
    var last: Option<nat>
    ghost var served: nat
    ghost var broken: bool

    /** Until it breaks, the reader stands at the first body not yet served; then it is at its end. */
    ghost predicate Valid()
      reads this
    {
      if broken then last.None? else
        && (last.Some? ==> next == served <= last.value && last.value in db.blocks && forall h :: h in db.blocks ==> h <= last.value)
        && (last.None? ==> forall h :: h in db.blocks ==> h < served)
    }

    constructor (db: Db)
      ensures this.db == db && Valid() && served == 0 && !broken
    {
      this.db := db;
      next, served, broken := 0, 0, false;
      var top := Highest(db.blocks);
      last := top;
    }

    /** The body at the next height, or an error that ends the stream, or the end. */
    method Next() returns (o: Option<Result<Data>>)
      requires Valid()
      modifies this
      ensures Valid()
      ensures old(broken) ==> o.None? && broken
      ensures o.Some? && o.value.Success? <==> !old(broken) && old(served) in db.blocks && 0 < |db.blocks[old(served)]| <= 0x20_0000
      ensures o.Some? && o.value.Success? ==> !broken && served == old(served) + 1 && o.value.value == db.blocks[old(served)]
      ensures o.None? <==> old(broken) || forall h :: h in db.blocks ==> h < old(served)
      ensures o.Some? && o.value.Failure? ==> broken
    {
      if last.None? {
        return None;
      }
      var l := last.value;
      // The reader never stands above the highest body, so the source's other end test is idle.
      var height := next;
      if height == l {
        last := None;
      } else {
        next := next + 1;
      }
      if height !in db.blocks || !Sized(db.blocks[height]) {
        last := None;
        broken := true;
        return Some(Failure("local block body missing or outside range"));
      }
      served := served + 1;
      o := Some(Success(db.blocks[height]));
    }
  }

  method Highest(blocks: map<nat, Data>) returns (top: Option<nat>)
    ensures top.None? <==> blocks == map[]
    ensures top.Some? ==> top.value in blocks && forall h :: h in blocks ==> h <= top.value
  {
    top := None;
    var rest := blocks.Keys;
    while rest != {}
      invariant rest <= blocks.Keys
      invariant top.None? ==> rest == blocks.Keys
      invariant top.Some? ==> top.value in blocks && forall h :: h in blocks && h !in rest ==> h <= top.value
      decreases |rest|
    {
      var x :| x in rest;
      if top.None? || top.value < x {
        top := Some(x);
      }
      rest := rest - {x};
    }
  }

  // ----- one attempt -----

  /** A decoded snapshot payload. */
  datatype Snapshot = Snapshot(genesis: Hash, spec: nat, height: nat, tipHash: Hash, ledger: nat)

  datatype Restored = Restored(tipHeight: Option<nat>, tipHash: Option<Hash>, genesis: Option<Hash>, ledger: nat)

  /** The payload codec (None for a legacy payload) with its checksum, and the ledger constructor
      as any consumer of a block stream: whether it asks for another block after those it has,
      and what it makes of them. */
  datatype Loader = Loader(
    checksum: Data -> bool,
    payload: Data -> Option<Snapshot>,
    wants: (bool, nat, seq<Canonical>) -> bool,
    finish: (bool, nat, seq<Canonical>) -> Option<Restored>)

  datatype Attempt = Loaded(ledger: nat, next: nat) | Skipped | Rejected(reason: string)

  /** The record that lets this snapshot be trusted. */
  predicate Matches(c: Codec, r: Record, s: Snapshot, bytes: Data) {
    && r.version == c.version && r.genesis == s.genesis && r.spec == s.spec && r.height == s.height
    && r.tipHash == s.tipHash && r.snapshotHash == c.hash(bytes)
  }

  /** The bodies the ledger constructor gets from the pinned generation, in order, and whether the
      stream broke under it. */
  function Pulled(c: Codec, l: Loader, trusted: bool, ledger: nat, h: nat, db: Db, blocks: seq<Canonical>): (o: (seq<Canonical>, bool))
    requires |blocks| <= h + 1
    ensures |blocks| <= |o.0| <= h + 1
    decreases h + 1 - |blocks|
  {
    var n := |blocks|;
    if n > h || !l.wants(trusted, ledger, blocks) then (blocks, false)
    else if n !in db.blocks || !Sized(db.blocks[n]) || c.admit(db.blocks[n]).None? then (blocks, true)
    else Pulled(c, l, trusted, ledger, h, db, blocks + [c.admit(db.blocks[n]).value])
  }

  /** An intact payload of this node and height, with a matching record in the pinned generation
      where checkpoints are to be used. */
  predicate Admissible(c: Codec, l: Loader, h: nat, bytes: Data, pinned: Db, allow: bool) {
    && l.checksum(bytes) && l.payload(bytes).Some?
    && var s := l.payload(bytes).value;
       && s.genesis == c.genesis && s.spec == c.spec && s.height == h
       && (allow ==> h in pinned.checkpoints && Matches(c, pinned.checkpoints[h], s, bytes))
  }

  /** The body stream does not break, its digest is the recorded one where checkpoints are used,
      and the ledger made of it stands at the snapshot's height and tip. */
  ghost predicate Completes(c: Codec, l: Loader, h: nat, s: Snapshot, pinned: Db, allow: bool, ledger: nat, next: nat)
    requires allow ==> h in pinned.checkpoints
  {
    var (blocks, broke) := Pulled(c, l, allow, s.ledger, h, pinned, []);
    && !broke && next == |blocks|
    && (allow ==> Stored(pinned.blocks, |blocks|) && pinned.checkpoints[h].history == History(c, pinned.blocks, |blocks|))
    && l.finish(allow, s.ledger, blocks) == Some(Restored(Some(h), Some(s.tipHash), Some(c.genesis), ledger))
  }

  /** Exactly when a snapshot loads, and what. */
  ghost predicate Loads(c: Codec, l: Loader, h: nat, bytes: Data, pinned: Db, allow: bool, ledger: nat, next: nat) {
    Admissible(c, l, h, bytes, pinned, allow) && Completes(c, l, h, l.payload(bytes).value, pinned, allow, ledger, next)
  }

  /** An intact snapshot is passed over, without an error, if it is of the old format, or if it is
      this node's and checkpoints are to be used but no record matches it. */
  predicate Skips(c: Codec, l: Loader, h: nat, bytes: Data, pinned: Db, allow: bool) {
    && l.checksum(bytes)
    && (l.payload(bytes).None? ||
        var s := l.payload(bytes).value;
        && s.genesis == c.genesis && s.spec == c.spec && s.height == h && allow
        && !(h in pinned.checkpoints && Matches(c, pinned.checkpoints[h], s, bytes)))
  }

  method Try(c: Codec, l: Loader, h: nat, bytes: Data, pinned: Db, allow: bool) returns (a: Attempt)
    ensures a.Loaded? ==> Loads(c, l, h, bytes, pinned, allow, a.ledger, a.next)
    ensures !a.Loaded? ==> forall ledger, next :: !Loads(c, l, h, bytes, pinned, allow, ledger, next)
    ensures a.Skipped? <==> Skips(c, l, h, bytes, pinned, allow)
  {
    hide Completes, Matches;
    if !l.checksum(bytes) {
      return Rejected("snapshot checksum does not match");
    }
    var decoded := l.payload(bytes);
    if decoded.None? {
      return Skipped;
    }
    var s := decoded.value;
    if s.genesis != c.genesis || s.spec != c.spec || s.height != h {
      return Rejected("snapshot identity does not match this node or table key");
    }
    var record: Option<Record> := None;
    if allow && h in pinned.checkpoints && Matches(c, pinned.checkpoints[h], s, bytes) {
      record := Some(pinned.checkpoints[h]);
    }
    if allow && record.None? {
      return Skipped;
    }
    a := Finish(c, l, h, s, pinned, record);
  }

  /** The second half of an attempt: bodies streamed to the ledger constructor, then the tests. */
  method Finish(c: Codec, l: Loader, h: nat, s: Snapshot, pinned: Db, record: Option<Record>) returns (a: Attempt)
    requires record.Some? ==> h in pinned.checkpoints && record.value == pinned.checkpoints[h]
    requires s.height == h
    ensures a.Loaded? ==> Completes(c, l, h, s, pinned, record.Some?, a.ledger, a.next)
    ensures !a.Loaded? ==> forall ledger, next :: !Completes(c, l, h, s, pinned, record.Some?, ledger, next)
    ensures !a.Skipped?
  {
    hide History, Stored, Pulled;
    var reader := new BodyReader(pinned);
    var trusted := record.Some?;
    var blocks, digest, failed := Stream(c, l, trusted, s.ledger, h, reader);
    var restored := l.finish(trusted, s.ledger, blocks);
    if failed {
      return Rejected("local body stream failed");
    }
    if record.Some? && record.value.history != digest {
      return Rejected("snapshot validated history digest does not match local bodies");
    }
    if restored.None? {
      return Rejected("restore local snapshot");
    }
    if restored.value.tipHeight != Some(s.height) || restored.value.tipHash != Some(s.tipHash)
       || restored.value.genesis != Some(c.genesis) {
      return Rejected("snapshot does not match canonical body history");
    }
    a := Loaded(restored.value.ledger, |blocks|);
  }

  /** The block stream the ledger constructor pulls, with the running digest. */
  method Stream(c: Codec, l: Loader, trusted: bool, ledger: nat, h: nat, reader: BodyReader)
    returns (blocks: seq<Canonical>, digest: Digest, failed: bool)
    requires reader.Valid() && reader.served == 0 && !reader.broken
    modifies reader
    ensures (blocks, failed) == Pulled(c, l, trusted, ledger, h, reader.db, [])
    ensures trusted && !failed ==> Stored(reader.db.blocks, |blocks|) && digest == History(c, reader.db.blocks, |blocks|)
  {
    blocks, digest, failed := [], c.zero, false;
    ghost var goal := Pulled(c, l, trusted, ledger, h, reader.db, []);
    while !failed && |blocks| <= h && l.wants(trusted, ledger, blocks)
      invariant |blocks| <= h + 1
      invariant !failed ==> reader.Valid() && !reader.broken && reader.served == |blocks|
      invariant !failed ==> Pulled(c, l, trusted, ledger, h, reader.db, blocks) == goal
      invariant failed ==> (blocks, true) == goal
      invariant !failed && trusted ==> Stored(reader.db.blocks, |blocks|) && digest == History(c, reader.db.blocks, |blocks|)
      decreases !failed, h + 1 - |blocks|
    {
      var item := reader.Next();
      if item.None? || item.value.Failure? {
        failed := true;
      } else {
        var body := item.value.value;
        var block := c.admit(body);
        if block.None? {
          failed := true;
        } else {
          if trusted {
            digest := c.advance(digest, |blocks|, c.hash(body));
          }
          blocks := blocks + [block.value];
        }
      }
    }
  }

  /** Snapshot `i` is within the height limit and loads. */
  ghost predicate LoadsAt(c: Codec, l: Loader, snapshots: seq<(nat, Data)>, pinned: seq<Db>, maximum: nat, allow: bool,
                          i: nat, ledger: nat, next: nat)
    requires |pinned| == |snapshots|
  {
    i < |snapshots| && snapshots[i].0 <= maximum && Loads(c, l, snapshots[i].0, snapshots[i].1, pinned[i], allow, ledger, next)
  }

  /** None of the first `n` snapshots does. */
  ghost predicate NoneBelow(c: Codec, l: Loader, snapshots: seq<(nat, Data)>, pinned: seq<Db>, maximum: nat, allow: bool, n: nat)
    requires |pinned| == |snapshots|
  {
    forall i: nat, ledger, next :: i < n ==> !LoadsAt(c, l, snapshots, pinned, maximum, allow, i, ledger, next)
  }

  /** Snapshot `i` is above the height limit or passed over. */
  predicate PassesOver(c: Codec, l: Loader, snapshots: seq<(nat, Data)>, pinned: seq<Db>, maximum: nat, allow: bool, i: nat)
    requires |pinned| == |snapshots| && i < |snapshots|
  {
    snapshots[i].0 > maximum || Skips(c, l, snapshots[i].0, snapshots[i].1, pinned[i], allow)
  }

  /** `load_streamed_mode`: snapshots newest first, each tried with a reader pinned at its own
      moment; the first one within the height limit that loads is the answer. If none loads, the
      answer is an error exactly when one of those within the limit was not just passed over. */
  method Load(c: Codec, l: Loader, snapshots: seq<(nat, Data)>, pinned: seq<Db>, maximum: nat, allow: bool)
    returns (o: Result<Option<(nat, nat)>>)
    requires |pinned| == |snapshots|
    ensures o.Success? && o.value.Some? ==>
              exists i: nat :: LoadsAt(c, l, snapshots, pinned, maximum, allow, i, o.value.value.0, o.value.value.1)
                          && NoneBelow(c, l, snapshots, pinned, maximum, allow, i)
    ensures !(o.Success? && o.value.Some?) ==> NoneBelow(c, l, snapshots, pinned, maximum, allow, |snapshots|)
    ensures !(o.Success? && o.value.Some?) ==>
              (o.Success? <==> forall i :: 0 <= i < |snapshots| ==> PassesOver(c, l, snapshots, pinned, maximum, allow, i))
  {
    hide Loads, Skips;
    var errors: nat := 0;
    for i := 0 to |snapshots|
      invariant NoneBelow(c, l, snapshots, pinned, maximum, allow, i)
      invariant errors == 0 <==> forall k :: 0 <= k < i ==> PassesOver(c, l, snapshots, pinned, maximum, allow, k)
    {
      var (h, bytes) := snapshots[i];
      if h <= maximum {
        var attempt := Try(c, l, h, bytes, pinned[i], allow);
        match attempt
        case Loaded(ledger, next) =>
          assert LoadsAt(c, l, snapshots, pinned, maximum, allow, i, ledger, next);
          return Success(Some((ledger, next)));
        case Skipped =>
          assert PassesOver(c, l, snapshots, pinned, maximum, allow, i);
        case Rejected(_) =>
          assert !PassesOver(c, l, snapshots, pinned, maximum, allow, i);
          errors := errors + 1;
      } else {
        assert PassesOver(c, l, snapshots, pinned, maximum, allow, i);
      }
    }
    o := if errors == 0 then Success(None) else Failure("no snapshot could be loaded");
  }

  // ----- safety -----

  /** No collisions: of the byte hash, of the digest step, and with the initial digest. */
  ghost predicate CollisionFree(c: Codec) {
    && (forall a, b :: c.hash(a) == c.hash(b) ==> a == b)
    && (forall d, h, x, d', h', x' :: c.advance(d, h, x) == c.advance(d', h', x') ==> d == d' && h == h' && x == x')
    && (forall d, h, x :: c.advance(d, h, x) != c.zero)
  }

  /** There is such a codec. */
  lemma CollisionFreeExists(c: Codec)
    ensures CollisionFree(c.(hash := (x: Data) => OfBytes(x), zero := NoHistory,
                             advance := (d: Digest, h: nat, x: Digest) => Extended(d, h, x)))
  {
  }

  /** Equal history digests come from equal prefixes of equal length. */
  lemma {:induction false} HistoryPins(c: Codec, a: map<nat, Data>, m: nat, b: map<nat, Data>, n: nat)
    requires CollisionFree(c) && Stored(a, m) && Stored(b, n) && History(c, a, m) == History(c, b, n)
    ensures m == n && forall i :: 0 <= i < m ==> a[i] == b[i]
  {
    hide CollisionFree;
    if m > 0 && n > 0 {
      StepPins(c, History(c, a, m - 1), m - 1, a[m - 1], History(c, b, n - 1), n - 1, b[n - 1]);
      HistoryPins(c, a, m - 1, b, n - 1);
    } else {
      NoStepIsZero(c, a, m);
      NoStepIsZero(c, b, n);
    }
  }

  lemma StepPins(c: Codec, d: Digest, h: nat, x: Data, d': Digest, h': nat, x': Data)
    requires CollisionFree(c) && c.advance(d, h, c.hash(x)) == c.advance(d', h', c.hash(x'))
    ensures d == d' && h == h' && x == x'
  {
  }

  lemma NoStepIsZero(c: Codec, a: map<nat, Data>, m: nat)
    requires CollisionFree(c) && Stored(a, m)
    ensures History(c, a, m) == c.zero <==> m == 0
  {
  }

  /** What the ledger constructor pulls are the admitted bodies, in order. */
  lemma {:induction false} PulledBlocks(c: Codec, l: Loader, trusted: bool, ledger: nat, h: nat, db: Db, blocks: seq<Canonical>, i: nat)
    requires |blocks| <= h + 1 && i < |Pulled(c, l, trusted, ledger, h, db, blocks).0|
    requires forall k :: 0 <= k < |blocks| ==> k in db.blocks && c.admit(db.blocks[k]) == Some(blocks[k])
    ensures i in db.blocks && c.admit(db.blocks[i]) == Some(Pulled(c, l, trusted, ledger, h, db, blocks).0[i])
    decreases h + 1 - |blocks|
  {
    var n := |blocks|;
    if n <= h && l.wants(trusted, ledger, blocks) && n in db.blocks && Sized(db.blocks[n]) && c.admit(db.blocks[n]).Some? {
      PulledBlocks(c, l, trusted, ledger, h, db, blocks + [c.admit(db.blocks[n]).value], i);
    }
  }

  /** Trusted-restore safety, end to end. Whatever transactions run before, between or after the
      snapshot read and the pinning of the reader, a load that used the checkpoint has the
      snapshot bytes given to the validated write that published it, has pulled all `h + 1`
      bodies, and every one of them is the body that write certified, with the header it was
      given; and the snapshot's tip is the last of these headers. */
  lemma RestoreIsSafe(c: Codec, l: Loader, ops: seq<Op>, h: nat, bytes: Data, ledger: nat, next: nat) returns (p: nat)
    requires CollisionFree(c) && Loads(c, l, h, bytes, Run(c, ops), true, ledger, next)
    ensures p < |ops| && Validated(ops[p]) && CommitsAt(c, ops, p)
    ensures ops[p].height == h && ops[p].bytes == bytes && |ops[p].headers.value| == h + 1
    ensures IsRecord(c, Run(c, ops[..p]).blocks, h, bytes, ops[p].headers.value, Run(c, ops).checkpoints[h])
    ensures next == h + 1
    ensures c.headerHash(ops[p].headers.value[h].1) == Some(l.payload(bytes).value.tipHash)
    ensures var published, now := Run(c, ops[..p]).blocks, Run(c, ops).blocks;
            var blocks := Pulled(c, l, true, l.payload(bytes).value.ledger, h, Run(c, ops), []).0;
            && |blocks| == h + 1
            && forall i :: 0 <= i <= h ==>
                 && i in published && i in now && now[i] == published[i]
                 && c.admit(published[i]) == Some(blocks[i]) && blocks[i].header == ops[p].headers.value[i].1
  {
    hide Run, Pulled, History, Put;
    p := RecordOrigin(c, ops, h);
    var before, now := Run(c, ops[..p]), Run(c, ops);
    var headers := ops[p].headers.value;
    CoveredStored(c, before.blocks, h, headers);
    CertificateIs(c, before.blocks, h, ops[p].bytes, headers);
    PutMeaning(c, before, h, ops[p].bytes, ops[p].headers);
    HistoryPins(c, before.blocks, h + 1, now.blocks, next);
    var blocks := Pulled(c, l, true, l.payload(bytes).value.ledger, h, now, []).0;
    forall i | 0 <= i <= h
      ensures i in before.blocks && i in now.blocks && now.blocks[i] == before.blocks[i]
      ensures c.admit(before.blocks[i]) == Some(blocks[i]) && blocks[i].header == headers[i].1
    {
      PulledBlocks(c, l, true, l.payload(bytes).value.ledger, h, now, [], i);
    }
  }

  /** And the shortcut is there when it should be: the digest that a reachable checkpoint records
      is the one of the bodies stored beside it, whatever was appended or replaced since, so the
      digest test passes for a ledger constructor that pulls them all. */
  lemma {:induction false} CheckpointStaysUsable(c: Codec, l: Loader, ops: seq<Op>, h: nat, s: Snapshot, ledger: nat)
    requires forall i :: 0 <= i < |ops| ==> Chained(ops[i])
    requires h in Run(c, ops).checkpoints
    ensures var now := Run(c, ops);
            && h in now.snapshots && now.checkpoints[h].height == h
            && now.checkpoints[h].snapshotHash == c.hash(now.snapshots[h])
            && var (blocks, broke) := Pulled(c, l, true, s.ledger, h, now, []);
               (!broke && |blocks| == h + 1 && l.finish(true, s.ledger, blocks) == Some(Restored(Some(h), Some(s.tipHash), Some(c.genesis), ledger))
                ==> Completes(c, l, h, s, now, true, ledger, h + 1))
  {
    hide Run, Pulled, History;
    CheckpointInvariant(c, ops);
    assert Holds(c, Run(c, ops), h);
  }

  /** So a validated write is rewarded: as long as its snapshot is stored and was not written again,
      a load with checkpoints succeeds on it for any constructor that makes a ledger at its tip
      out of all the bodies. */
  lemma {:induction false} ValidatedLoads(c: Codec, l: Loader, ops: seq<Op>, h: nat, k: nat, ledger: nat)
    requires forall i :: 0 <= i < |ops| ==> Chained(ops[i])
    requires h in Run(c, ops).snapshots && LastWrite(c, ops, h, k) && Validated(ops[k])
    requires var bytes, headers := ops[k].bytes, ops[k].headers.value;
             && l.checksum(bytes) && l.payload(bytes).Some? && |headers| == h + 1
             && var s := l.payload(bytes).value;
                && s.genesis == c.genesis && s.spec == c.spec && s.height == h && c.headerHash(headers[h].1) == Some(s.tipHash)
                && var (blocks, broke) := Pulled(c, l, true, s.ledger, h, Run(c, ops), []);
                   !broke && |blocks| == h + 1 && l.finish(true, s.ledger, blocks) == Some(Restored(Some(h), Some(s.tipHash), Some(c.genesis), ledger))
    ensures Loads(c, l, h, Run(c, ops).snapshots[h], Run(c, ops), true, ledger, h + 1)
  {
    hide Run, Pulled, History, Outcome;
    var j := SnapshotsExact(c, ops, h);
    SameLast(c, ops, h, j, k);
    CheckpointStaysUsable(c, l, ops, h, l.payload(ops[k].bytes).value, ledger);
  }

  lemma SameLast(c: Codec, ops: seq<Op>, h: nat, j: nat, k: nat)
    requires LastWrite(c, ops, h, j) && LastWrite(c, ops, h, k)
    ensures j == k
  {
    hide CommitsAt;
  }
}
