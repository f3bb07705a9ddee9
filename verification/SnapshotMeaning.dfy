/** What is left of the snapshots and their checkpoints, said without the code that writes them
    (runtime/src/storage.rs): which stay after each transaction, and over every run that a stored
    snapshot has a checkpoint if and only if the last write at its height was a validated one. */
module SnapshotMeaning {
  import opened Wrappers
  import opened StorageModel
  import opened StorageRuns

  // ----- one transaction -----

  ghost function Above<V>(m: map<nat, V>, h: nat): set<nat> {
    set j | j in m && j > h
  }

  lemma Fewer(a: set<nat>, b: set<nat>)
    requires a <= b
    ensures |a| <= |b|
    decreases b
  {
    if x :| x in b {
      Fewer(a - {x}, b - {x});
    }
  }

  /** Of more than two snapshots the two highest stay. */
  lemma HighestStay(s: map<nat, Data>, k: map<nat, Record>, h: nat)
    requires h in s
    ensures h in Pruned(s, k).0 <==> |Above(s, h)| < 2
  {
    hide Pruned;
    PrunedMeaning(s, k);
    var s' := Pruned(s, k).0;
    assert |s'.Keys| == |s'| && |s.Keys| == |s|;
    if h in s' {
      forall j | j in Above(s, h) ensures j in s'.Keys - {h} {
      }
      Fewer(Above(s, h), s'.Keys - {h});
    } else {
      Fewer(s'.Keys, Above(s, h));
    }
  }

  /** Bodies 0 to `height` are stored, admit, and carry these headers, and the last one hashes. */
  predicate Covered(c: Codec, blocks: map<nat, Data>, height: nat, headers: seq<(nat, nat)>) {
    && |headers| == height + 1
    && (forall i :: 0 <= i <= height ==>
          && headers[i].0 == i && i in blocks && c.admit(blocks[i]).Some?
          && c.admit(blocks[i]).value.height == i && c.admit(blocks[i]).value.header == headers[i].1)
    && c.headerHash(headers[height].1).Some?
  }

  lemma CoveredStored(c: Codec, blocks: map<nat, Data>, height: nat, headers: seq<(nat, nat)>)
    ensures Covered(c, blocks, height, headers) <==> Certifies(c, blocks, height, headers)
    ensures Covered(c, blocks, height, headers) ==> Stored(blocks, height + 1)
  {
    if |headers| == height + 1 {
      forall i | 0 <= i <= height
        ensures Carries(c, blocks, headers, i) <==>
                && headers[i].0 == i && i in blocks && c.admit(blocks[i]).Some?
                && c.admit(blocks[i]).value.height == i && c.admit(blocks[i]).value.header == headers[i].1
      {
      }
    }
  }

  /** The record of a validated write, field by field. */
  ghost predicate IsRecord(c: Codec, blocks: map<nat, Data>, height: nat, bytes: Data, headers: seq<(nat, nat)>, r: Record) {
    && |headers| == height + 1 && Stored(blocks, height + 1)
    && r.version == c.version && r.genesis == c.genesis && r.spec == c.spec && r.height == height
    && c.headerHash(headers[height].1) == Some(r.tipHash)
    && r.snapshotHash == c.hash(bytes) && r.history == History(c, blocks, height + 1)
  }

  /** A snapshot write: it commits exactly if it is unvalidated or its prefix is covered; the two
      highest snapshots stay, this one counted; a record is at its height exactly if it was
      validated, and every other record stays with its snapshot; bodies and tables stay. */
  lemma PutMeaning(c: Codec, db: Db, height: nat, bytes: Data, headers: Option<seq<(nat, nat)>>)
    ensures Outcome(c, db, PutOp(height, bytes, headers)).Some? <==>
            (headers.Some? ==> Covered(c, db.blocks, height, headers.value))
    ensures Outcome(c, db, PutOp(height, bytes, headers)).Some? ==>
              var db', all := Outcome(c, db, PutOp(height, bytes, headers)).value, db.snapshots[height := bytes];
              && (forall h :: h in db'.snapshots <==> h in all && |Above(all, h)| < 2)
              && (forall h :: h in db'.snapshots ==> db'.snapshots[h] == all[h])
              && (forall h :: h in db'.checkpoints <==>
                    (if h == height then headers.Some? else h in db.checkpoints) && (h in all ==> h in db'.snapshots))
              && (forall h :: h in db'.checkpoints && h != height ==> db'.checkpoints[h] == db.checkpoints[h])
              && (height in db'.checkpoints ==> headers.Some? && IsRecord(c, db.blocks, height, bytes, headers.value, db'.checkpoints[height]))
              && db' == db.(snapshots := db'.snapshots, checkpoints := db'.checkpoints)
  {
    hide Pruned, History, Certifies, Covered;
    if headers.Some? {
      CoveredStored(c, db.blocks, height, headers.value);
    }
    if Put(c, db, height, bytes, headers).Some? {
      var all := db.snapshots[height := bytes];
      var cleared := db.checkpoints - {height};
      var checkpoints :=
        if headers.None? then cleared else cleared[height := Certificate(c, db.blocks, height, bytes, headers.value)];
      PrunedMeaning(all, checkpoints);
      forall h | h in all ensures h in Pruned(all, checkpoints).0 <==> |Above(all, h)| < 2 {
        HighestStay(all, checkpoints, h);
      }
      if headers.Some? {
        CertificateIs(c, db.blocks, height, bytes, headers.value);
      }
    }
  }

  lemma CertificateIs(c: Codec, blocks: map<nat, Data>, height: nat, bytes: Data, headers: seq<(nat, nat)>)
    requires Certifies(c, blocks, height, headers)
    ensures IsRecord(c, blocks, height, bytes, headers, Certificate(c, blocks, height, bytes, headers))
  {
    hide History;
    CertifiedStored(c, blocks, height, headers);
  }

  /** The first `n` blocks of the stream, and no more, are stored unchanged. */
  predicate Shared(blocks: map<nat, Data>, s: seq<StoredBlock>, n: nat) {
    && n <= |s| && (forall i :: 0 <= i < n ==> i in blocks && blocks[i] == s[i].bytes)
    && (n < |s| ==> n !in blocks || blocks[n] != s[n].bytes)
  }

  lemma SharedIs(blocks: map<nat, Data>, s: seq<StoredBlock>, n: nat)
    requires Contiguous(s) && Shared(blocks, s, n)
    ensures CommonHeight(blocks, s) == if n == 0 then None else Some(n - 1)
  {
    var m := CommonLength(blocks, s);
    CommonStops(blocks, s);
    if m > n {
      CommonMatches(blocks, s, n);
    }
  }

  lemma {:induction false} CommonStops(blocks: map<nat, Data>, s: seq<StoredBlock>)
    ensures var m := CommonLength(blocks, s); m < |s| ==> s[m].height !in blocks || blocks[s[m].height] != s[m].bytes
  {
    if s != [] && s[0].height in blocks && blocks[s[0].height] == s[0].bytes {
      CommonStops(blocks, s[1..]);
    }
  }

  predicate WritesAt(snapshot: Option<(nat, Data)>, h: nat) {
    snapshot.Some? && snapshot.value.0 == h
  }

  /** A replacement: snapshots and records stay exactly below the first block that differs, and
      the snapshot it brings, if any, has no record. */
  lemma ReplaceMeaning(c: Codec, db: Db, s: seq<StoredBlock>, mempool: seq<Data>, snapshot: Option<(nat, Data)>, n: nat)
    requires Contiguous(s) && Shared(db.blocks, s, n) && Outcome(c, db, ReplaceOp(s, mempool, snapshot)).Some?
    ensures var db' := Outcome(c, db, ReplaceOp(s, mempool, snapshot)).value;
            && (forall h: nat :: h in db'.snapshots <==> (h in db.snapshots && h < n) || WritesAt(snapshot, h))
            && (forall h :: h in db'.snapshots ==> db'.snapshots[h] == if WritesAt(snapshot, h) then snapshot.value.1 else db.snapshots[h])
            && (forall h: nat :: h in db'.checkpoints <==> h in db.checkpoints && h < n && !WritesAt(snapshot, h))
            && (forall h :: h in db'.checkpoints ==> db'.checkpoints[h] == db.checkpoints[h])
  {
    hide Filled, Context, CommonLength;
    SharedIs(db.blocks, s, n);
  }

  /** There is always such a first difference. */
  lemma {:induction false} SharedExists(blocks: map<nat, Data>, s: seq<StoredBlock>, from: nat) returns (n: nat)
    requires Contiguous(s) && from <= |s| && forall i :: 0 <= i < from ==> i in blocks && blocks[i] == s[i].bytes
    ensures Shared(blocks, s, n)
    decreases |s| - from
  {
    if from < |s| && from in blocks && blocks[from] == s[from].bytes {
      n := SharedExists(blocks, s, from + 1);
    } else {
      n := from;
    }
  }

  // ----- every run -----

  /** The transaction writes a snapshot at this height. */
  predicate Writes(op: Op, h: nat) {
    (op.PutOp? && op.height == h) || (op.ReplaceOp? && WritesAt(op.snapshot, h))
  }

  function WrittenBytes(op: Op, h: nat): Data
    requires Writes(op, h)
  {
    if op.PutOp? then op.bytes else op.snapshot.value.1
  }

  predicate Validated(op: Op) {
    op.PutOp? && op.headers.Some?
  }

  ghost predicate CommitsAt(c: Codec, ops: seq<Op>, k: nat)
    requires k < |ops|
  {
    Outcome(c, Run(c, ops[..k]), ops[k]).Some?
  }

  /** Transaction `k` is the last committed one of the run that writes at `h`. */
  ghost predicate LastWrite(c: Codec, ops: seq<Op>, h: nat, k: nat) {
    && k < |ops| && Writes(ops[k], h) && CommitsAt(c, ops, k)
    && forall j :: k < j < |ops| && Writes(ops[j], h) ==> !CommitsAt(c, ops, j)
  }

  /** One step: what the snapshot and the record at `h` are afterwards. */
  lemma StepMeaning(c: Codec, db: Db, op: Op, h: nat)
    requires Chained(op) && (h in db.checkpoints ==> h in db.snapshots)
    ensures var db' := Step(c, db, op);
            && (h in db'.checkpoints ==> h in db'.snapshots)
            && (h in db'.snapshots ==>
                  if Outcome(c, db, op).Some? && Writes(op, h) then
                    && db'.snapshots[h] == WrittenBytes(op, h)
                    && (h in db'.checkpoints <==> Validated(op))
                    && (Validated(op) ==> IsRecord(c, db.blocks, h, op.bytes, op.headers.value, db'.checkpoints[h]))
                  else
                    && h in db.snapshots && db'.snapshots[h] == db.snapshots[h]
                    && (h in db'.checkpoints <==> h in db.checkpoints)
                    && (h in db'.checkpoints ==> db'.checkpoints[h] == db.checkpoints[h]))
  {
    hide Appended, Reindexed, Replaced, Put, History;
    if Outcome(c, db, op).Some? {
      match op
      case AppendOp(b, m) => AppendFrame(c, db, b, m);
      case RebuildOp(s) => RebuildFrame(c, db, s);
      case ReplaceOp(s, m, p) =>
        var n := SharedExists(db.blocks, s, 0);
        ReplaceMeaning(c, db, s, m, p, n);
      case PutOp(height, bytes, headers) =>
        PutMeaning(c, db, height, bytes, headers);
    }
  }

  lemma AppendFrame(c: Codec, db: Db, b: StoredBlock, mempool: seq<Data>)
    requires Appended(c, db, b, mempool).Some?
    ensures var db' := Appended(c, db, b, mempool).value; db'.snapshots == db.snapshots && db'.checkpoints == db.checkpoints
  {
    hide Indexed;
  }

  lemma RebuildFrame(c: Codec, db: Db, s: seq<StoredBlock>)
    requires Reindexed(c, db, s).Some?
    ensures var db' := Reindexed(c, db, s).value; db'.snapshots == db.snapshots && db'.checkpoints == db.checkpoints
  {
    hide Rebuilt;
  }

  /** Over every run: no record is without its snapshot, and a stored snapshot is the one of the
      last committed write at its height and has a record if and only if that write was validated;
      the record is then of that snapshot and of the bodies stored at that moment. */
  lemma {:induction false} SnapshotsExact(c: Codec, ops: seq<Op>, h: nat) returns (k: nat)
    requires forall i :: 0 <= i < |ops| ==> Chained(ops[i])
    ensures h in Run(c, ops).checkpoints ==> h in Run(c, ops).snapshots
    ensures h in Run(c, ops).snapshots ==>
              && LastWrite(c, ops, h, k) && Run(c, ops).snapshots[h] == WrittenBytes(ops[k], h)
              && (h in Run(c, ops).checkpoints <==> Validated(ops[k]))
              && (Validated(ops[k]) ==> IsRecord(c, Run(c, ops[..k]).blocks, h, ops[k].bytes, ops[k].headers.value, Run(c, ops).checkpoints[h]))
  {
    k := 0;
    if ops != [] {
      hide Outcome, Step, IsRecord;
      var n := |ops| - 1;
      var before, op := ops[..n], ops[n];
      k := SnapshotsExact(c, before, h);
      StepMeaning(c, Run(c, before), op, h);
      if Outcome(c, Run(c, before), op).Some? && Writes(op, h) {
        k := n;
      } else if h in Run(c, ops).snapshots {
        WriteKept(c, ops, h, k);
      }
    }
  }

  lemma WriteKept(c: Codec, ops: seq<Op>, h: nat, k: nat)
    requires ops != [] && LastWrite(c, ops[..|ops| - 1], h, k)
    requires Writes(ops[|ops| - 1], h) ==> Outcome(c, Run(c, ops[..|ops| - 1]), ops[|ops| - 1]).None?
    ensures LastWrite(c, ops, h, k) && ops[..|ops| - 1][k] == ops[k] && ops[..|ops| - 1][..k] == ops[..k]
  {
    hide Outcome, Run;
    var before := ops[..|ops| - 1];
    forall j | 0 <= j < |before| ensures CommitsAt(c, before, j) <==> CommitsAt(c, ops, j) {
      assert before[..j] == ops[..j];
    }
  }
}
