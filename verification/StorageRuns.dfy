/** Safety of the storage state machine over every run of its write transactions
    (runtime/src/storage.rs): what every stored checkpoint still certifies, and where it came from. */
module StorageRuns {
  import opened Wrappers
  import opened StorageModel

  /** One write transaction. */
  datatype Op =
    | AppendOp(block: StoredBlock, mempool: seq<Data>)
    | ReplaceOp(stream: seq<StoredBlock>, mempool: seq<Data>, snapshot: Option<(nat, Data)>)
    | PutOp(height: nat, bytes: Data, headers: Option<seq<(nat, nat)>>)
    | RebuildOp(stream: seq<StoredBlock>)

  ghost function Outcome(c: Codec, db: Db, op: Op): Option<Db> {
    match op
    case AppendOp(b, m) => Appended(c, db, b, m)
    case ReplaceOp(s, m, p) => Replaced(c, db, s, m, p)
    case PutOp(h, b, hs) => Put(c, db, h, b, hs)
    case RebuildOp(s) => Reindexed(c, db, s)
  }

  /** A transaction that fails, or does not commit, leaves the generation as it was. */
  ghost function Step(c: Codec, db: Db, op: Op): Db {
    match Outcome(c, db, op)
    case None => db
    case Some(db') => db'
  }

  ghost function Run(c: Codec, ops: seq<Op>): Db {
    if ops == [] then EMPTY else Step(c, Run(c, ops[..|ops| - 1]), ops[|ops| - 1])
  }

  /** A replacement stream is a chain: heights 0, 1, 2, and so on. */
  predicate Contiguous(stream: seq<StoredBlock>) {
    forall i :: 0 <= i < |stream| ==> stream[i].height == i
  }

  predicate Chained(op: Op) {
    op.ReplaceOp? ==> Contiguous(op.stream)
  }

  // ----- checkpoints -----

  /** The checkpoint at `h` has its snapshot, with the recorded hash, and its digest is the
      fold over the bodies now stored at heights 0 to `h`. */
  ghost predicate Holds(c: Codec, db: Db, h: nat)
    requires h in db.checkpoints
  {
    var r := db.checkpoints[h];
    && r.height == h
    && h in db.snapshots && r.snapshotHash == c.hash(db.snapshots[h])
    && Stored(db.blocks, h + 1) && r.history == History(c, db.blocks, h + 1)
  }

  ghost predicate CheckpointsHold(c: Codec, db: Db) {
    forall h :: h in db.checkpoints ==> Holds(c, db, h)
  }

  lemma {:induction false} HistoryFrame(c: Codec, a: map<nat, Data>, b: map<nat, Data>, n: nat)
    requires Stored(a, n) && forall i :: 0 <= i < n ==> i in b && b[i] == a[i]
    ensures Stored(b, n) && History(c, b, n) == History(c, a, n)
  {
    if n > 0 {
      HistoryFrame(c, a, b, n - 1);
    }
  }

  lemma AppendKeeps(c: Codec, db: Db, b: StoredBlock, mempool: seq<Data>)
    requires CheckpointsHold(c, db) && Appended(c, db, b, mempool).Some?
    ensures CheckpointsHold(c, Appended(c, db, b, mempool).value)
  {
    hide Indexed, Context, History;
    var db' := Appended(c, db, b, mempool).value;
    forall h | h in db'.checkpoints ensures Holds(c, db', h) {
      assert Holds(c, db, h);
      HistoryFrame(c, db.blocks, db'.blocks, h + 1);
    }
  }

  lemma {:induction false} CommonMatches(blocks: map<nat, Data>, stream: seq<StoredBlock>, i: nat)
    requires i < CommonLength(blocks, stream)
    ensures stream[i].height in blocks && blocks[stream[i].height] == stream[i].bytes
  {
    if i > 0 {
      CommonMatches(blocks, stream[1..], i - 1);
    }
  }

  lemma {:induction false} FilledBodies(c: Codec, context: Hash, stream: seq<StoredBlock>)
    requires Contiguous(stream) && Filled(c, context, stream).Some?
    ensures var blocks := Filled(c, context, stream).value.0;
            && (forall i :: i in blocks <==> 0 <= i < |stream|)
            && (forall i :: 0 <= i < |stream| ==> blocks[i] == stream[i].bytes)
  {
    if stream != [] {
      FilledBodies(c, context, stream[..|stream| - 1]);
    }
  }

  lemma ReplaceKeeps(c: Codec, db: Db, stream: seq<StoredBlock>, mempool: seq<Data>, snapshot: Option<(nat, Data)>)
    requires CheckpointsHold(c, db) && Contiguous(stream) && Replaced(c, db, stream, mempool, snapshot).Some?
    ensures CheckpointsHold(c, Replaced(c, db, stream, mempool, snapshot).value)
  {
    hide Filled, Context, CommonLength, History;
    var db' := Replaced(c, db, stream, mempool, snapshot).value;
    FilledBodies(c, Context(c, stream[0].bytes).value, stream);
    forall h | h in db'.checkpoints ensures Holds(c, db', h) {
      assert h in db.checkpoints && h < CommonLength(db.blocks, stream);
      assert Holds(c, db, h);
      forall i | 0 <= i < h + 1 ensures i in db'.blocks && db'.blocks[i] == db.blocks[i] {
        CommonMatches(db.blocks, stream, i);
      }
      HistoryFrame(c, db.blocks, db'.blocks, h + 1);
    }
  }

  /** Pruning drops a snapshot and its checkpoint together, keeps at most two snapshots, and
      those the highest. */
  lemma {:induction false} PrunedMeaning(s: map<nat, Data>, k: map<nat, Record>)
    ensures var (s', k') := Pruned(s, k);
            && |s'| <= 2
            && (forall h :: h in s' ==> h in s && s'[h] == s[h])
            && (forall h :: h in k' <==> h in k && (h in s ==> h in s'))
            && (forall h :: h in k' ==> k'[h] == k[h])
            && (forall h, j :: h in s' && j in s && j !in s' ==> j < h)
            && (|s| <= 2 ==> s' == s && k' == k)
            && (|s| >= 2 ==> |s'| == 2)
    decreases |s|
  {
    if |s| > 2 {
      var k0 := Oldest(s);
      assert (s - {k0}).Keys == s.Keys - {k0};
      PrunedMeaning(s - {k0}, k - {k0});
    }
  }

  lemma PutKeeps(c: Codec, db: Db, height: nat, bytes: Data, headers: Option<seq<(nat, nat)>>)
    requires CheckpointsHold(c, db) && Put(c, db, height, bytes, headers).Some?
    ensures CheckpointsHold(c, Put(c, db, height, bytes, headers).value)
  {
    hide Pruned, Certifies, History;
    var db' := Put(c, db, height, bytes, headers).value;
    var cleared := db.checkpoints - {height};
    var checkpoints :=
      if headers.None? then cleared else cleared[height := Certificate(c, db.blocks, height, bytes, headers.value)];
    PrunedMeaning(db.snapshots[height := bytes], checkpoints);
    if headers.Some? {
      CertifiedStored(c, db.blocks, height, headers.value);
    }
    forall h | h in db'.checkpoints ensures Holds(c, db', h) {
      if h != height {
        assert Holds(c, db, h);
      }
    }
  }

  lemma StepKeeps(c: Codec, db: Db, op: Op)
    requires CheckpointsHold(c, db) && Chained(op)
    ensures CheckpointsHold(c, Step(c, db, op))
  {
    hide CheckpointsHold, Appended, Replaced, Put, Reindexed;
    if Outcome(c, db, op).Some? {
      match op
      case AppendOp(b, m) => AppendKeeps(c, db, b, m);
      case ReplaceOp(s, m, p) => ReplaceKeeps(c, db, s, m, p);
      case PutOp(h, b, hs) => PutKeeps(c, db, h, b, hs);
      case RebuildOp(s) => RebuildKeeps(c, db, s);
    }
  }

  lemma RebuildKeeps(c: Codec, db: Db, stream: seq<StoredBlock>)
    requires CheckpointsHold(c, db) && Reindexed(c, db, stream).Some?
    ensures CheckpointsHold(c, Reindexed(c, db, stream).value)
    ensures Reindexed(c, db, stream).value.checkpoints == db.checkpoints
  {
    hide Rebuilt, Context;
    var db' := Reindexed(c, db, stream).value;
    forall h | h in db'.checkpoints ensures Holds(c, db', h) {
      assert Holds(c, db, h);
    }
  }

  /** The checkpoint invariant: after any run whose replacements are chains, every stored
      checkpoint certifies the snapshot and the bodies that are stored now. */
  lemma {:induction false} CheckpointInvariant(c: Codec, ops: seq<Op>)
    requires forall i :: 0 <= i < |ops| ==> Chained(ops[i])
    ensures CheckpointsHold(c, Run(c, ops))
  {
    if ops != [] {
      CheckpointInvariant(c, ops[..|ops| - 1]);
      StepKeeps(c, Run(c, ops[..|ops| - 1]), ops[|ops| - 1]);
    }
  }

  // ----- where a checkpoint came from -----

  /** The transaction `op`, run on `db`, publishes exactly this record. */
  ghost predicate Publishes(c: Codec, db: Db, op: Op, r: Record) {
    && op.PutOp? && op.headers.Some? && op.height == r.height
    && Certifies(c, db.blocks, op.height, op.headers.value)
    && r == Certificate(c, db.blocks, op.height, op.bytes, op.headers.value)
  }

  lemma RecordsKept(c: Codec, db: Db, op: Op, h: nat)
    requires h in Step(c, db, op).checkpoints
    ensures (h in db.checkpoints && db.checkpoints[h] == Step(c, db, op).checkpoints[h])
         || Publishes(c, db, op, Step(c, db, op).checkpoints[h])
  {
    hide Filled, Rebuilt, Indexed, Context, CommonLength, History, Pruned, Certifies;
    if op.PutOp? && Outcome(c, db, op).Some? {
      var cleared := db.checkpoints - {op.height};
      var checkpoints :=
        if op.headers.None? then cleared
        else cleared[op.height := Certificate(c, db.blocks, op.height, op.bytes, op.headers.value)];
      PrunedMeaning(db.snapshots[op.height := op.bytes], checkpoints);
    }
  }

  /** Every record in a reachable generation was published, as it stands, by an earlier
      validated snapshot write of the run. */
  lemma {:induction false} RecordOrigin(c: Codec, ops: seq<Op>, h: nat) returns (k: nat)
    requires h in Run(c, ops).checkpoints
    ensures k < |ops| && Publishes(c, Run(c, ops[..k]), ops[k], Run(c, ops).checkpoints[h])
  {
    var n := |ops| - 1;
    var before := ops[..n];
    RecordsKept(c, Run(c, before), ops[n], h);
    if Publishes(c, Run(c, before), ops[n], Run(c, ops).checkpoints[h]) {
      k := n;
    } else {
      k := RecordOrigin(c, before, h);
      assert before[..k] == ops[..k];
    }
  }
}
