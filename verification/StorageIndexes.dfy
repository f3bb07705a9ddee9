/** The incremental indexes against the stored bodies (runtime/src/storage.rs): what every transaction
    keeps, and that without a stale rebuild the four tables are those of the stored bodies. */
module StorageIndexes {
  import opened Wrappers
  import opened StorageModel
  import opened StorageRuns

  /** A body decodes to a block of this height with a hash. */
  predicate Decodes(c: Codec, bytes: Data, height: nat) {
    var d := c.decode(bytes);
    d.Some? && d.value.height == height && d.value.hash.Some?
  }

  /** The stored block that a body spells. */
  function Entry(c: Codec, bytes: Data, height: nat): StoredBlock
    requires Decodes(c, bytes, height)
  {
    var d := c.decode(bytes).value;
    StoredBlock(height, d.hash.value, bytes, d.transactions, d.activities)
  }

  predicate AllDecode(c: Codec, blocks: map<nat, Data>) {
    forall h :: h in blocks ==> Decodes(c, blocks[h], h)
  }

  /** The stored chain as a stream of blocks. */
  function Entries(c: Codec, blocks: map<nat, Data>, n: nat): (stream: seq<StoredBlock>)
    requires Stored(blocks, n) && AllDecode(c, blocks)
    ensures |stream| == n && forall i :: 0 <= i < n ==> stream[i] == Entry(c, blocks[i], i)
  {
    if n == 0 then [] else Entries(c, blocks, n - 1) + [Entry(c, blocks[n - 1], n - 1)]
  }

  /** No body lies above the recorded index height. */
  ghost predicate Bounded(db: Db) {
    db.meta.tipHeight.Some? && forall h :: h in db.blocks ==> h <= db.meta.tipHeight.value
  }

  /** The recorded index tip, height and hash, is the highest stored body. */
  ghost predicate AtTip(c: Codec, db: Db) {
    && Bounded(db) && db.meta.tipHeight.value in db.blocks
    && var d := c.decode(db.blocks[db.meta.tipHeight.value]);
       d.Some? && d.value.hash.Some? && db.meta.tipHash == d.value.hash
  }

  /** Bodies 0 to the recorded tip and no others, and tables as filled from them. */
  ghost predicate Agree(c: Codec, db: Db)
    requires db.meta.tipHeight.Some? && AllDecode(c, db.blocks)
  {
    var n := db.meta.tipHeight.value + 1;
    && (forall h :: h in db.blocks <==> 0 <= h < n)
    && Context(c, db.blocks[0]).Some?
    && Filled(c, Context(c, db.blocks[0]).value, Entries(c, db.blocks, n)) == Some((db.blocks, db.ix))
  }

  /** What holds of every reachable generation. */
  ghost predicate Rooted(c: Codec, db: Db) {
    && AllDecode(c, db.blocks)
    && (db.blocks == map[] ==> db.ix == NO_INDEXES && db.meta.tipHeight.None?)
    && (db.blocks != map[] ==> 0 in db.blocks)
  }

  /** What holds as long as no rebuild was given other bodies than the stored ones. */
  ghost predicate IndexInvariant(c: Codec, db: Db) {
    && Rooted(c, db)
    && (db.meta.tipHeight.Some? ==>
          && db.meta.tipHeight.value in db.blocks
          && db.meta.tipHash == c.decode(db.blocks[db.meta.tipHeight.value]).value.hash)
    && (Bounded(db) ==> Agree(c, db))
  }

  predicate AllDerived(c: Codec, s: seq<StoredBlock>) {
    forall i :: 0 <= i < |s| ==> Derived(c, s[i])
  }

  /** What callers hand over: entries derived from the bytes, and chains for a replacement and
      for a rebuild. A rebuild is asked for a loaded ledger, whose genesis is stored; its chain
      need not be the stored one. */
  ghost predicate Proper(c: Codec, db: Db, op: Op) {
    match op
    case AppendOp(b, _) => Derived(c, b)
    case ReplaceOp(s, _, _) => Contiguous(s) && AllDerived(c, s)
    case PutOp(_, _, _) => true
    case RebuildOp(s) => Contiguous(s) && AllDerived(c, s) && db.blocks != map[]
  }

  // ----- append -----

  lemma EntryOf(c: Codec, b: StoredBlock)
    requires Identified(c, b) && Derived(c, b)
    ensures Decodes(c, b.bytes, b.height) && Entry(c, b.bytes, b.height) == b
  {
  }

  lemma {:induction false} EntriesFrame(c: Codec, a: map<nat, Data>, b: map<nat, Data>, n: nat)
    requires Stored(a, n) && AllDecode(c, a) && AllDecode(c, b)
    requires forall i :: 0 <= i < n ==> i in b && b[i] == a[i]
    ensures Stored(b, n) && Entries(c, b, n) == Entries(c, a, n)
  {
    if n > 0 {
      EntriesFrame(c, a, b, n - 1);
    }
  }

  lemma AppendedParts(c: Codec, db: Db, b: StoredBlock, mempool: seq<Data>)
    requires Appended(c, db, b, mempool).Some?
    ensures var db' := Appended(c, db, b, mempool).value;
            && b.height !in db.blocks && db'.blocks == db.blocks[b.height := b.bytes] && 0 in db'.blocks
            && db'.meta == AppendedMeta(db.meta, b)
            && Identified(c, b)
            && Context(c, db'.blocks[0]).Some?
            && Indexed(c, Context(c, db'.blocks[0]).value, db.ix, b) == Some(db'.ix)
  {
  }

  /** The tables stay complete when the block that lands is the next one. */
  lemma ExtendAgree(c: Codec, db: Db, db': Db, b: StoredBlock)
    requires AllDecode(c, db.blocks) && db.meta.tipHeight == Some(b.height - 1) && b.height > 0 && Agree(c, db)
    requires Identified(c, b) && Derived(c, b) && db'.blocks == db.blocks[b.height := b.bytes]
    requires Indexed(c, Context(c, db.blocks[0]).value, db.ix, b) == Some(db'.ix)
    requires db'.meta.tipHeight == Some(b.height)
    ensures AllDecode(c, db'.blocks) && Agree(c, db')
  {
    hide Indexed, Context, Identified, Derived, AllDecode, Decodes, Filled, Entries, Entry;
    EntryOf(c, b);
    DecodedBodies(c, db.blocks, b);
    EntriesFrame(c, db.blocks, db'.blocks, b.height);
    EntriesSnoc(c, db'.blocks, b.height);
    FilledSnoc(c, Context(c, db.blocks[0]).value, Entries(c, db.blocks, b.height), b);
  }

  lemma EntriesSnoc(c: Codec, blocks: map<nat, Data>, n: nat)
    requires Stored(blocks, n + 1) && AllDecode(c, blocks)
    ensures Decodes(c, blocks[n], n)
    ensures Entries(c, blocks, n + 1) == Entries(c, blocks, n) + [Entry(c, blocks[n], n)]
  {
  }

  lemma FilledSnoc(c: Codec, context: Hash, stream: seq<StoredBlock>, b: StoredBlock)
    requires Filled(c, context, stream).Some?
    ensures var before := Filled(c, context, stream).value;
            Filled(c, context, stream + [b]) == FillOne(c, context, before.0, before.1, b)
  {
    assert (stream + [b])[..|stream|] == stream;
  }

  lemma FirstAgree(c: Codec, db: Db, b: StoredBlock)
    requires b.height == 0 && Identified(c, b) && Derived(c, b) && db.blocks == map[0 := b.bytes]
    requires Context(c, b.bytes).Some? && Indexed(c, Context(c, b.bytes).value, NO_INDEXES, b) == Some(db.ix)
    requires db.meta.tipHeight == Some(0)
    ensures AllDecode(c, db.blocks) && Agree(c, db)
  {
    hide Indexed, Context;
    EntryOf(c, b);
    assert Entries(c, db.blocks, 1) == [] + [b];
    FilledSnoc(c, Context(c, b.bytes).value, [], b);
  }

  lemma AppendKeepsRooted(c: Codec, db: Db, b: StoredBlock, mempool: seq<Data>)
    requires Rooted(c, db) && Appended(c, db, b, mempool).Some?
    ensures Rooted(c, Appended(c, db, b, mempool).value)
  {
    hide Appended, Indexed, Context, AllDecode;
    AppendedParts(c, db, b, mempool);
    DecodedBodies(c, db.blocks, b);
  }

  lemma AppendKeepsIndexes(c: Codec, db: Db, b: StoredBlock, mempool: seq<Data>)
    requires IndexInvariant(c, db) && Derived(c, b) && Appended(c, db, b, mempool).Some?
    ensures IndexInvariant(c, Appended(c, db, b, mempool).value)
  {
    hide Appended, Agree, Indexed, Context, Derived, AllDecode;
    var db' := Appended(c, db, b, mempool).value;
    AppendedParts(c, db, b, mempool);
    DecodedBodies(c, db.blocks, b);
    if b.height == 0 {
      assert db.blocks == map[];
      FirstAgree(c, db', b);
    } else if Bounded(db') {
      TipBelow(db, db', b);
      NoGap(c, db, db', b);
      ExtendAgree(c, db, db', b);
    }
  }

  lemma TipBelow(db: Db, db': Db, b: StoredBlock)
    requires b.height !in db.blocks && db'.blocks == db.blocks[b.height := b.bytes] && b.height > 0
    requires db'.meta == AppendedMeta(db.meta, b) && Bounded(db')
    ensures Bounded(db)
  {
    forall h | h in db.blocks ensures db.meta.tipHeight.Some? && h <= db.meta.tipHeight.value {
      assert h in db'.blocks;
    }
  }

  /** A block that fills no gap moved the recorded tip. */
  lemma NoGap(c: Codec, db: Db, db': Db, b: StoredBlock)
    requires AllDecode(c, db.blocks) && Bounded(db) && Agree(c, db)
    requires b.height !in db.blocks && b.height in db'.blocks && b.height > 0
    requires db'.meta == AppendedMeta(db.meta, b) && Bounded(db')
    ensures db.meta.tipHeight == Some(b.height - 1) && db'.meta.tipHeight == Some(b.height)
  {
    hide Filled;
    assert b.height <= db'.meta.tipHeight.value;
    assert b.height > db.meta.tipHeight.value;
  }

  lemma DecodedBodies(c: Codec, blocks: map<nat, Data>, b: StoredBlock)
    requires AllDecode(c, blocks) && Identified(c, b)
    ensures AllDecode(c, blocks[b.height := b.bytes])
    ensures c.decode(b.bytes).Some? && c.decode(b.bytes).value.hash == Some(b.hash)
    ensures forall h :: h in blocks ==> c.decode(blocks[h]).Some?
  {
  }

  // ----- replace -----

  lemma {:induction false} FilledIdentified(c: Codec, context: Hash, stream: seq<StoredBlock>, i: nat)
    requires Filled(c, context, stream).Some? && i < |stream|
    ensures Identified(c, stream[i])
  {
    hide Identified;
    if i < |stream| - 1 {
      FilledIdentified(c, context, stream[..|stream| - 1], i);
    }
  }

  lemma {:induction false} FilledAgree(c: Codec, db: Db, stream: seq<StoredBlock>, context: Hash)
    requires stream != [] && Contiguous(stream) && AllDerived(c, stream)
    requires Context(c, stream[0].bytes) == Some(context)
    requires Filled(c, context, stream) == Some((db.blocks, db.ix))
    requires db.meta.tipHeight == Some(stream[|stream| - 1].height) && db.meta.tipHash == Some(stream[|stream| - 1].hash)
    ensures IndexInvariant(c, db)
  {
    hide Context, Filled, Derived;
    FilledBodies(c, context, stream);
    forall h | h in db.blocks ensures Decodes(c, db.blocks[h], h) && Entry(c, db.blocks[h], h) == stream[h] {
      FilledIdentified(c, context, stream, h);
      EntryOf(c, stream[h]);
    }
    assert Entries(c, db.blocks, |stream|) == stream;
    FilledIdentified(c, context, stream, |stream| - 1);
  }

  lemma ReplaceKeepsIndexes(c: Codec, db: Db, stream: seq<StoredBlock>, mempool: seq<Data>, snapshot: Option<(nat, Data)>)
    requires Contiguous(stream) && AllDerived(c, stream)
    requires Replaced(c, db, stream, mempool, snapshot).Some?
    ensures IndexInvariant(c, Replaced(c, db, stream, mempool, snapshot).value)
  {
    hide Filled, Context, CommonLength, Derived, IndexInvariant;
    FilledAgree(c, Replaced(c, db, stream, mempool, snapshot).value, stream, Context(c, stream[0].bytes).value);
  }

  // ----- rebuild -----

  /** Where a rebuild succeeds it writes what filling writes. */
  lemma {:induction false} RebuiltIsFilled(c: Codec, context: Hash, stream: seq<StoredBlock>)
    requires Rebuilt(c, context, stream).Some?
    ensures Filled(c, context, stream).Some? && Filled(c, context, stream).value.1 == Rebuilt(c, context, stream).value
  {
    hide Indexed, Repeats;
    if stream != [] {
      RebuiltIsFilled(c, context, stream[..|stream| - 1]);
    }
  }

  /** The stream is exactly the stored bodies. */
  ghost predicate IsStored(c: Codec, blocks: map<nat, Data>, s: seq<StoredBlock>) {
    && AllDecode(c, blocks)
    && (forall h :: h in blocks <==> 0 <= h < |s|)
    && s == Entries(c, blocks, |s|)
  }

  /** A rebuild from the stored bodies leaves complete tables. */
  lemma RebuildKeepsIndexes(c: Codec, db: Db, stream: seq<StoredBlock>)
    requires IsStored(c, db.blocks, stream) && Reindexed(c, db, stream).Some?
    ensures IndexInvariant(c, Reindexed(c, db, stream).value)
  {
    hide Rebuilt, Filled, Context, IndexInvariant;
    var db' := Reindexed(c, db, stream).value;
    var context := Context(c, stream[0].bytes).value;
    RebuiltIsFilled(c, context, stream);
    forall i | 0 <= i < |stream| ensures stream[i].height == i && Derived(c, stream[i]) {
      assert stream[i] == Entry(c, db.blocks[i], i);
    }
    FilledBodies(c, context, stream);
    assert Filled(c, context, stream).value.0 == db.blocks;
    FilledAgree(c, db', stream, context);
  }

  // ----- runs -----

  ghost predicate AllProper(c: Codec, ops: seq<Op>) {
    forall i :: 0 <= i < |ops| ==> Proper(c, Run(c, ops[..i]), ops[i])
  }

  lemma {:induction false} ProperPrefix(c: Codec, ops: seq<Op>)
    requires AllProper(c, ops) && ops != []
    ensures AllProper(c, ops[..|ops| - 1]) && Proper(c, Run(c, ops[..|ops| - 1]), ops[|ops| - 1])
  {
    hide Proper, Run;
    var before := ops[..|ops| - 1];
    forall i | 0 <= i < |before| ensures Proper(c, Run(c, before[..i]), before[i]) {
      assert before[..i] == ops[..i];
    }
  }

  /** The last committed rebuild since the last committed replacement, if there is one, was given
      exactly the bodies stored then. */
  ghost predicate Current(c: Codec, ops: seq<Op>) {
    ops == [] ||
    var before, op := ops[..|ops| - 1], ops[|ops| - 1];
    var db := Run(c, before);
    if Outcome(c, db, op).None? then Current(c, before)
    else
      match op
      case ReplaceOp(_, _, _) => true
      case RebuildOp(s) => IsStored(c, db.blocks, s)
      case _ => Current(c, before)
  }

  lemma StepKeepsRooted(c: Codec, db: Db, op: Op)
    requires Rooted(c, db) && Proper(c, db, op)
    ensures Rooted(c, Step(c, db, op))
  {
    hide Appended, Replaced, Reindexed, Pruned, Certifies, Certificate, AllDerived, AllDecode, Context, Rebuilt;
    if Outcome(c, db, op).Some? {
      match op
      case AppendOp(b, m) => AppendKeepsRooted(c, db, b, m);
      case ReplaceOp(s, m, p) => ReplaceKeepsIndexes(c, db, s, m, p);
      case PutOp(h, b, hs) =>
      case RebuildOp(s) => RebuildOnlyTables(c, db, s);
    }
  }

  lemma RebuildOnlyTables(c: Codec, db: Db, s: seq<StoredBlock>)
    requires Reindexed(c, db, s).Some?
    ensures Reindexed(c, db, s).value.blocks == db.blocks
  {
  }

  lemma {:induction false} AlwaysRooted(c: Codec, ops: seq<Op>)
    requires AllProper(c, ops)
    ensures Rooted(c, Run(c, ops))
  {
    hide Rooted, Proper, Step, AllProper;
    if ops == [] {
      EmptyHolds(c);
    } else {
      ProperPrefix(c, ops);
      AlwaysRooted(c, ops[..|ops| - 1]);
      StepKeepsRooted(c, Run(c, ops[..|ops| - 1]), ops[|ops| - 1]);
    }
  }

  lemma {:induction false} StepKeepsIndexes(c: Codec, db: Db, op: Op)
    requires IndexInvariant(c, db) && Proper(c, db, op)
    requires op.RebuildOp? ==> IsStored(c, db.blocks, op.stream)
    ensures IndexInvariant(c, Step(c, db, op))
  {
    hide Appended, Replaced, Reindexed, Pruned, Certifies, Certificate, Agree, AllDerived, IsStored;
    if Outcome(c, db, op).Some? {
      match op
      case AppendOp(b, m) => AppendKeepsIndexes(c, db, b, m);
      case ReplaceOp(s, m, p) => ReplaceKeepsIndexes(c, db, s, m, p);
      case PutOp(h, b, hs) => IndexFrame(c, db, Step(c, db, op));
      case RebuildOp(s) => RebuildKeepsIndexes(c, db, s);
    }
  }

  lemma IndexFrame(c: Codec, a: Db, b: Db)
    requires IndexInvariant(c, a) && b.blocks == a.blocks && b.ix == a.ix && b.meta == a.meta
    ensures IndexInvariant(c, b)
  {
  }

  /** As long as the last rebuild was given the stored bodies, the index invariant holds. */
  lemma {:induction false} IndexesHold(c: Codec, ops: seq<Op>)
    requires AllProper(c, ops) && Current(c, ops)
    ensures IndexInvariant(c, Run(c, ops))
  {
    hide IndexInvariant, Proper, AllProper, Replaced, Reindexed, Appended, Put, IsStored;
    if ops == [] {
      EmptyHolds(c);
    } else {
      var before, op := ops[..|ops| - 1], ops[|ops| - 1];
      var db := Run(c, before);
      ProperPrefix(c, ops);
      if Outcome(c, db, op).None? {
        IndexesHold(c, before);
      } else if op.ReplaceOp? {
        ReplaceProper(c, db, op);
      } else if op.RebuildOp? {
        RebuildKeepsIndexes(c, db, op.stream);
      } else {
        IndexesHold(c, before);
        StepKeepsIndexes(c, db, op);
      }
    }
  }

  lemma ReplaceProper(c: Codec, db: Db, op: Op)
    requires op.ReplaceOp? && Proper(c, db, op) && Outcome(c, db, op).Some?
    ensures IndexInvariant(c, Outcome(c, db, op).value)
  {
    hide Replaced, IndexInvariant;
    ReplaceKeepsIndexes(c, db, op.stream, op.mempool, op.snapshot);
  }

  lemma EmptyHolds(c: Codec)
    ensures IndexInvariant(c, EMPTY) && Rooted(c, EMPTY)
  {
  }

  /** No two blocks share a hash, and no transaction id occurs twice. */
  predicate DistinctIds(stream: seq<StoredBlock>) {
    && (forall i, j :: 0 <= i < j < |stream| ==> stream[i].hash != stream[j].hash)
    && (forall i, j, p, q :: 0 <= i < j < |stream| && 0 <= p < |stream[i].transactions| && 0 <= q < |stream[j].transactions| ==>
          stream[i].transactions[p] != stream[j].transactions[q])
    && (forall i, p, q :: 0 <= i < |stream| && 0 <= p < q < |stream[i].transactions| ==>
          stream[i].transactions[p] != stream[i].transactions[q])
  }

  lemma {:induction false} TransactionKeys(m: map<nat, (nat, nat)>, ids: seq<nat>, height: nat, x: nat)
    ensures x in AddTransactions(m, ids, height) <==> x in m || x in ids
  {
    if ids != [] {
      TransactionKeys(m, ids[..|ids| - 1], height, x);
      assert ids == ids[..|ids| - 1] + [ids[|ids| - 1]];
    }
  }

  lemma {:induction false} FilledKeys(c: Codec, context: Hash, stream: seq<StoredBlock>, x: nat)
    requires Filled(c, context, stream).Some?
    ensures var ix := Filled(c, context, stream).value.1;
            && (x in ix.blocks ==> exists i :: 0 <= i < |stream| && stream[i].hash == x)
            && (x in ix.transactions ==> exists i :: 0 <= i < |stream| && x in stream[i].transactions)
  {
    hide Identified, AddTransactions, AddActivities, AddOrigins;
    if stream != [] {
      var before, b := stream[..|stream| - 1], stream[|stream| - 1];
      FilledKeys(c, context, before, x);
      var ix := Filled(c, context, before).value.1;
      TransactionKeys(ix.transactions, b.transactions, b.height, x);
      if x in ix.blocks {
        var i :| 0 <= i < |before| && before[i].hash == x;
        assert stream[i].hash == x;
      }
      if x in ix.transactions {
        var i :| 0 <= i < |before| && x in before[i].transactions;
        assert x in stream[i].transactions;
      }
    }
  }

  /** With distinct ids a rebuild succeeds wherever filling does, and writes the same tables. */
  lemma {:induction false} FilledIsRebuilt(c: Codec, context: Hash, stream: seq<StoredBlock>)
    requires Filled(c, context, stream).Some? && DistinctIds(stream)
    ensures Rebuilt(c, context, stream) == Some(Filled(c, context, stream).value.1)
  {
    if stream != [] {
      hide Indexed, DistinctIds, Repeats;
      var n := |stream| - 1;
      DistinctBefore(stream);
      FilledIsRebuilt(c, context, stream[..n]);
      LastIsNew(c, context, stream);
    }
  }

  lemma DistinctBefore(stream: seq<StoredBlock>)
    requires stream != [] && DistinctIds(stream)
    ensures DistinctIds(stream[..|stream| - 1])
  {
  }

  /** The last block repeats no id of the ones before it. */
  lemma LastIsNew(c: Codec, context: Hash, stream: seq<StoredBlock>)
    requires stream != [] && DistinctIds(stream) && Filled(c, context, stream[..|stream| - 1]).Some?
    ensures var b, ix := stream[|stream| - 1], Filled(c, context, stream[..|stream| - 1]).value.1;
            b.hash !in ix.blocks && !Repeats(ix.transactions, b.transactions)
  {
    hide Indexed, Filled;
    var n := |stream| - 1;
    var before, b := stream[..n], stream[n];
    var ix := Filled(c, context, before).value.1;
    FilledKeys(c, context, before, b.hash);
    forall p | 0 <= p < |b.transactions| ensures b.transactions[p] !in ix.transactions {
      FilledKeys(c, context, before, b.transactions[p]);
    }
  }
}
