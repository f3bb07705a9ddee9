/** Exactly when the index tables are those of the stored bodies (runtime/src/storage.rs). A rebuild
    is handed the chain of a ledger in memory (runtime/src/node/index.rs), which need not be the
    stored one any more; the tables then stay wrong, even at a matching tip, until the next
    replacement or rebuild. */
module StaleIndexes {
  import opened Wrappers
  import opened StorageModel
  import opened StorageRuns
  import opened StorageIndexes

  predicate SameHash(c: Codec, a: Data, b: Data) {
    && c.decode(a).Some? && c.decode(b).Some?
    && c.decode(a).value.hash.Some? && c.decode(a).value.hash == c.decode(b).value.hash
  }

  /** Among these encodings, a block hash belongs to one only. */
  ghost predicate HashPins(c: Codec, known: set<Data>) {
    forall a, b :: a in known && b in known && SameHash(c, a, b) ==> a == b
  }

  function StreamBytes(s: seq<StoredBlock>): set<Data> {
    set i | 0 <= i < |s| :: s[i].bytes
  }

  /** The encodings handed to the transactions of a run, committed or not. */
  function Handed(ops: seq<Op>): set<Data> {
    if ops == [] then {} else Handed(ops[..|ops| - 1]) + OpBytes(ops[|ops| - 1])
  }

  function OpBytes(op: Op): set<Data> {
    match op
    case AppendOp(b, _) => {b.bytes}
    case ReplaceOp(s, _, _) => StreamBytes(s)
    case RebuildOp(s) => StreamBytes(s)
    case PutOp(_, _, _) => {}
  }

  lemma {:induction false} FilledHanded(c: Codec, context: Hash, s: seq<StoredBlock>, h: nat)
    requires Filled(c, context, s).Some? && h in Filled(c, context, s).value.0
    ensures Filled(c, context, s).value.0[h] in StreamBytes(s)
  {
    hide Indexed;
    var last := s[|s| - 1];
    if h == last.height {
      assert s[|s| - 1].bytes in StreamBytes(s);
    } else {
      FilledHanded(c, context, s[..|s| - 1], h);
      BytesGrow(s);
    }
  }

  lemma BytesGrow(s: seq<StoredBlock>)
    requires s != []
    ensures StreamBytes(s[..|s| - 1]) <= StreamBytes(s)
  {
    var before := s[..|s| - 1];
    forall x | x in StreamBytes(before) ensures x in StreamBytes(s) {
      var i :| 0 <= i < |before| && before[i].bytes == x;
      assert s[i].bytes == x;
    }
  }

  /** Nothing is stored that the run was not handed. */
  lemma {:induction false} StoredHanded(c: Codec, ops: seq<Op>, h: nat)
    requires h in Run(c, ops).blocks
    ensures Run(c, ops).blocks[h] in Handed(ops)
  {
    hide Indexed, Filled, Rebuilt, Context, CommonLength, Pruned, Certifies, Certificate, StreamBytes;
    var before, op := ops[..|ops| - 1], ops[|ops| - 1];
    if op.ReplaceOp? && Outcome(c, Run(c, before), op).Some? {
      FilledHanded(c, Context(c, op.stream[0].bytes).value, op.stream, h);
    } else if h in Run(c, before).blocks {
      StoredHanded(c, before, h);
    }
  }

  /** Every block above genesis creates a coin, its emission. */
  ghost predicate Mints(c: Codec) {
    forall d: Canonical, context: Hash :: d.height > 0 && c.coins(d, context).Some? ==> c.coins(d, context).value != []
  }

  // ----- what filling leaves in the tables -----

  lemma {:induction false} OriginsKept(m: map<nat, nat>, coins: seq<(nat, nat)>, x: nat)
    requires AddOrigins(m, coins).Some?
    ensures x in m ==> x in AddOrigins(m, coins).value
    ensures coins != [] ==> coins[0].0 !in m && coins[0].0 in AddOrigins(m, coins).value
  {
    if coins != [] {
      OriginsKept(m, coins[..|coins| - 1], x);
    }
  }

  /** The first coin a block creates in this context, if any. */
  function FirstCoin(c: Codec, context: Hash, bytes: Data): Option<nat> {
    match c.decode(bytes)
    case None => None
    case Some(d) =>
      var coins := c.coins(d, context);
      if coins.None? || coins.value == [] then None else Some(coins.value[0].0)
  }

  /** One block indexed: its hash is in, its first coin was new and is in, nothing went away. */
  lemma IndexedLeaves(c: Codec, context: Hash, ix: Indexes, b: StoredBlock, x: nat)
    requires Indexed(c, context, ix, b).Some?
    ensures var ix' := Indexed(c, context, ix, b).value;
            && (x in ix'.blocks <==> x == b.hash || x in ix.blocks)
            && (x in ix.origins ==> x in ix'.origins)
            && (FirstCoin(c, context, b.bytes).Some? ==>
                  FirstCoin(c, context, b.bytes).value !in ix.origins && FirstCoin(c, context, b.bytes).value in ix'.origins)
  {
    hide AddTransactions, AddActivities, AddOrigins;
    OriginsKept(ix.origins, c.coins(c.decode(b.bytes).value, context).value, x);
  }

  lemma {:induction false} FilledLeaves(c: Codec, context: Hash, s: seq<StoredBlock>, i: nat)
    requires Filled(c, context, s).Some? && i < |s|
    ensures var ix := Filled(c, context, s).value.1;
            && s[i].hash in ix.blocks
            && (FirstCoin(c, context, s[i].bytes).Some? ==> FirstCoin(c, context, s[i].bytes).value in ix.origins)
  {
    hide Indexed, FirstCoin;
    var before, last := s[..|s| - 1], s[|s| - 1];
    var ix := Filled(c, context, before).value.1;
    IndexedLeaves(c, context, ix, last, s[i].hash);
    if i < |s| - 1 {
      FilledLeaves(c, context, before, i);
      if FirstCoin(c, context, s[i].bytes).Some? {
        IndexedLeaves(c, context, ix, last, FirstCoin(c, context, s[i].bytes).value);
      }
    }
  }

  // ----- since the last rebuild -----

  /** The generation `db` came by appends alone from a rebuild with the stream `s` over the
      bodies `was`: nothing stored or indexed then is gone, every hash in the table is of the
      stream or of a body that came since, and no body that came since repeats the stream. */
  ghost predicate Since(c: Codec, s: seq<StoredBlock>, was: map<nat, Data>, db: Db) {
    && AllDecode(c, db.blocks)
    && (forall h :: h in was ==> h in db.blocks && db.blocks[h] == was[h])
    && (forall i :: 0 <= i < |s| ==> s[i].hash in db.ix.blocks)
    && (forall x :: x in db.ix.blocks ==> InStream(s, x) || Newer(c, was, db.blocks, x))
    && (SameGenesis(s, was) ==> forall i :: 0 < i < |s| ==> Coined(c, s, i, db.ix))
    && (SameGenesis(s, was) ==> forall h :: h in db.blocks && h !in was && 0 < h < |s| ==> db.blocks[h] != s[h].bytes)
  }

  predicate InStream(s: seq<StoredBlock>, x: Hash) {
    exists i :: 0 <= i < |s| && s[i].hash == x
  }

  /** The hash of a body that is stored now and was not then. */
  ghost predicate Newer(c: Codec, was: map<nat, Data>, blocks: map<nat, Data>, x: Hash) {
    exists h :: h in blocks && h !in was && c.decode(blocks[h]).Some? && c.decode(blocks[h]).value.hash == Some(x)
  }

  predicate SameGenesis(s: seq<StoredBlock>, was: map<nat, Data>) {
    s != [] && 0 in was && was[0] == s[0].bytes
  }

  /** Block `i` of the stream created a coin, and it is in the table. */
  ghost predicate Coined(c: Codec, s: seq<StoredBlock>, i: nat, ix: Indexes)
    requires i < |s|
  {
    && Context(c, s[0].bytes).Some?
    && var coin := FirstCoin(c, Context(c, s[0].bytes).value, s[i].bytes);
       coin.Some? && coin.value in ix.origins
  }

  lemma RebuildStarts(c: Codec, db: Db, s: seq<StoredBlock>)
    requires Mints(c) && AllDecode(c, db.blocks) && Contiguous(s) && Reindexed(c, db, s).Some?
    ensures Since(c, s, db.blocks, Reindexed(c, db, s).value)
    ensures forall i :: 0 <= i < |s| ==> Identified(c, s[i])
  {
    hide Filled, Rebuilt, FirstCoin, AllDecode;
    var context := Context(c, s[0].bytes).value;
    RebuiltIsFilled(c, context, s);
    var db' := Reindexed(c, db, s).value;
    forall i | 0 <= i < |s| ensures s[i].hash in db'.ix.blocks && Identified(c, s[i]) && (i > 0 ==> Coined(c, s, i, db'.ix)) {
      FilledLeaves(c, context, s, i);
      FilledIdentified(c, context, s, i);
      if i > 0 {
        StreamMints(c, context, s, i);
      }
    }
    forall x | x in db'.ix.blocks ensures InStream(s, x) {
      FilledKeys(c, context, s, x);
    }
  }

  lemma {:induction false} StreamMints(c: Codec, context: Hash, s: seq<StoredBlock>, i: nat)
    requires Mints(c) && Contiguous(s) && Filled(c, context, s).Some? && 0 < i < |s|
    ensures FirstCoin(c, context, s[i].bytes).Some?
  {
    if i == |s| - 1 {
      hide Filled, AddTransactions, AddActivities, AddOrigins;
      LastIndexed(c, context, s);
      var d := c.decode(s[i].bytes).value;
      assert d.height > 0 && c.coins(d, context).Some?;
    } else {
      StreamMints(c, context, s[..|s| - 1], i);
    }
  }

  lemma LastIndexed(c: Codec, context: Hash, s: seq<StoredBlock>)
    requires Filled(c, context, s).Some? && s != []
    ensures Filled(c, context, s[..|s| - 1]).Some?
    ensures Indexed(c, context, Filled(c, context, s[..|s| - 1]).value.1, s[|s| - 1]).Some?
  {
    hide Indexed;
  }

  lemma AppendContinues(c: Codec, s: seq<StoredBlock>, was: map<nat, Data>, db: Db, b: StoredBlock, mempool: seq<Data>)
    requires Since(c, s, was, db) && 0 in was && Appended(c, db, b, mempool).Some?
    ensures Since(c, s, was, Appended(c, db, b, mempool).value)
  {
    hide Appended, Indexed, FirstCoin, AllDecode;
    var db' := Appended(c, db, b, mempool).value;
    AppendedParts(c, db, b, mempool);
    DecodedBodies(c, db.blocks, b);
    var context := Context(c, db'.blocks[0]).value;
    forall i | 0 <= i < |s| ensures s[i].hash in db'.ix.blocks {
      IndexedLeaves(c, context, db.ix, b, s[i].hash);
    }
    forall x | x in db'.ix.blocks ensures InStream(s, x) || Newer(c, was, db'.blocks, x) {
      IndexedLeaves(c, context, db.ix, b, x);
      if x == b.hash {
        assert b.height in db'.blocks && b.height !in was;
        assert db'.blocks[b.height] == b.bytes;
      } else if Newer(c, was, db.blocks, x) {
        var h :| h in db.blocks && h !in was && c.decode(db.blocks[h]).Some? && c.decode(db.blocks[h]).value.hash == Some(x);
        assert h in db'.blocks && db'.blocks[h] == db.blocks[h];
      }
    }
    if SameGenesis(s, was) {
      forall i | 0 < i < |s| ensures Coined(c, s, i, db'.ix) {
        assert Coined(c, s, i, db.ix);
        IndexedLeaves(c, context, db.ix, b, FirstCoin(c, Context(c, s[0].bytes).value, s[i].bytes).value);
      }
      if 0 < b.height < |s| && b.bytes == s[b.height].bytes {
        assert Coined(c, s, b.height, db.ix);
        IndexedLeaves(c, context, db.ix, b, 0);
        assert false;
      }
    }
  }

  // ----- tables that agree come from the stored bodies -----

  lemma AgreeHashes(c: Codec, db: Db, x: Hash)
    requires AllDecode(c, db.blocks) && db.meta.tipHeight.Some? && Agree(c, db)
    ensures x in db.ix.blocks <==> exists h :: h in db.blocks && c.decode(db.blocks[h]).value.hash == Some(x)
  {
    hide Filled, Context;
    var n := db.meta.tipHeight.value + 1;
    var s := Entries(c, db.blocks, n);
    var context := Context(c, db.blocks[0]).value;
    FilledKeys(c, context, s, x);
    if x in db.ix.blocks {
      var i :| 0 <= i < |s| && s[i].hash == x;
      assert i in db.blocks && c.decode(db.blocks[i]).value.hash == Some(x);
    }
    if h :| h in db.blocks && c.decode(db.blocks[h]).value.hash == Some(x) {
      FilledLeaves(c, context, s, h);
    }
  }

  /** The known encodings include the stream's and the stored ones. */
  ghost predicate Within(known: set<Data>, s: seq<StoredBlock>, blocks: map<nat, Data>) {
    (forall i :: 0 <= i < |s| ==> s[i].bytes in known) && forall h :: h in blocks ==> blocks[h] in known
  }

  /** Where a hash of the stream is stored, it is the same body at the same height. */
  lemma SameBody(c: Codec, known: set<Data>, s: seq<StoredBlock>, i: nat, blocks: map<nat, Data>, h: nat)
    requires Within(known, s, blocks) && HashPins(c, known)
    requires AllDecode(c, blocks) && Contiguous(s) && i < |s| && Identified(c, s[i])
    requires h in blocks && c.decode(blocks[h]).value.hash == Some(s[i].hash)
    ensures h == i && blocks[h] == s[i].bytes
  {
    assert Decodes(c, blocks[h], h);
    assert SameHash(c, blocks[h], s[i].bytes);
  }

  lemma SameHeight(c: Codec, known: set<Data>, blocks: map<nat, Data>, h: nat, k: nat)
    requires Within(known, [], blocks) && HashPins(c, known)
    requires AllDecode(c, blocks) && h in blocks && k in blocks
    requires c.decode(blocks[h]).value.hash == c.decode(blocks[k]).value.hash
    ensures h == k
  {
    assert Decodes(c, blocks[h], h) && Decodes(c, blocks[k], k);
    assert SameHash(c, blocks[h], blocks[k]);
  }

  /** If the tables agree with the bodies now, the rebuild was given the bodies stored then. */
  lemma AgreeMeansStored(c: Codec, known: set<Data>, s: seq<StoredBlock>, was: map<nat, Data>, db: Db)
    requires Within(known, s, db.blocks) && HashPins(c, known)
    requires Since(c, s, was, db) && AllDecode(c, was) && 0 in was
    requires s != [] && Contiguous(s) && AllDerived(c, s) && forall i :: 0 <= i < |s| ==> Identified(c, s[i])
    requires db.meta.tipHeight.Some? && Agree(c, db)
    ensures IsStored(c, was, s)
  {
    hide Agree, HashPins, Identified, Derived;
    forall i | 0 <= i < |s| ensures i in db.blocks && db.blocks[i] == s[i].bytes {
      AgreeHashes(c, db, s[i].hash);
      var h :| h in db.blocks && c.decode(db.blocks[h]).value.hash == Some(s[i].hash);
      SameBody(c, known, s, i, db.blocks, h);
    }
    assert SameGenesis(s, was);
    forall h | h in was ensures h < |s| {
      StoredInStream(c, known, s, was, db, h);
    }
    forall i | 0 <= i < |s| ensures i in was && was[i] == s[i].bytes && Entry(c, was[i], i) == s[i] {
      EntryOf(c, s[i]);
    }
    assert s == Entries(c, was, |s|);
  }

  lemma StoredInStream(c: Codec, known: set<Data>, s: seq<StoredBlock>, was: map<nat, Data>, db: Db, h: nat)
    requires Within(known, s, db.blocks) && HashPins(c, known)
    requires Since(c, s, was, db) && Contiguous(s) && (forall i :: 0 <= i < |s| ==> Identified(c, s[i]))
    requires db.meta.tipHeight.Some? && Agree(c, db) && h in was
    ensures h < |s|
  {
    hide Agree, Identified;
    assert Decodes(c, db.blocks[h], h);
    var x := c.decode(db.blocks[h]).value.hash.value;
    AgreeHashes(c, db, x);
    if InStream(s, x) {
      var i :| 0 <= i < |s| && s[i].hash == x;
      SameBody(c, known, s, i, db.blocks, h);
    } else {
      var k :| k in db.blocks && k !in was && c.decode(db.blocks[k]).Some? && c.decode(db.blocks[k]).value.hash == Some(x);
      SameHeight(c, known, db.blocks, h, k);
    }
  }

  /** A committed rebuild leaves tables that agree with the stored bodies exactly when its stream
      is those bodies. */
  lemma RebuildAgreesIff(c: Codec, db: Db, s: seq<StoredBlock>)
    requires HashPins(c, StreamBytes(s) + db.blocks.Values)
    requires Mints(c) && Rooted(c, db) && Proper(c, db, RebuildOp(s)) && Reindexed(c, db, s).Some?
    ensures var db' := Reindexed(c, db, s).value;
            Agree(c, db') <==> IsStored(c, db.blocks, s)
  {
    hide Agree, Reindexed, HashPins, Mints, Since, IsStored, AllDerived;
    var db' := Reindexed(c, db, s).value;
    RebuildStarts(c, db, s);
    RebuiltFacts(c, db, s);
    if Agree(c, db') {
      AgreeMeansStored(c, StreamBytes(s) + db.blocks.Values, s, db.blocks, db');
    }
    if IsStored(c, db.blocks, s) {
      RebuildKeepsIndexes(c, db, s);
      AllBelow(c, db, s);
    }
  }

  lemma RebuiltFacts(c: Codec, db: Db, s: seq<StoredBlock>)
    requires Reindexed(c, db, s).Some?
    ensures s != []
    ensures Reindexed(c, db, s).value.blocks == db.blocks
    ensures Reindexed(c, db, s).value.meta == Meta(Some(s[|s| - 1].height), Some(s[|s| - 1].hash), true, true)
  {
  }

  lemma AllBelow(c: Codec, db: Db, s: seq<StoredBlock>)
    requires IsStored(c, db.blocks, s) && Contiguous(s) && Reindexed(c, db, s).Some?
    ensures Bounded(Reindexed(c, db, s).value)
  {
    hide Rebuilt;
  }

  // ----- over every run -----

  /** After a rebuild with other bodies than the stored ones, and appends alone since. */
  ghost predicate Stale(c: Codec, s: seq<StoredBlock>, was: map<nat, Data>, db: Db) {
    && Since(c, s, was, db) && AllDecode(c, was) && 0 in was
    && s != [] && Contiguous(s) && AllDerived(c, s) && (forall i :: 0 <= i < |s| ==> Identified(c, s[i]))
    && !IsStored(c, was, s)
  }

  lemma {:induction false} StaleTrace(c: Codec, ops: seq<Op>) returns (s: seq<StoredBlock>, was: map<nat, Data>)
    requires Mints(c) && AllProper(c, ops) && !Current(c, ops)
    ensures Stale(c, s, was, Run(c, ops)) && StreamBytes(s) <= Handed(ops)
  {
    hide AllProper, Since, IsStored, Identified, AllDerived, Mints, Appended, Replaced, Reindexed, Pruned, Certifies, Certificate, StreamBytes;
    var before, op := ops[..|ops| - 1], ops[|ops| - 1];
    var db := Run(c, before);
    ProperPrefix(c, ops);
    AlwaysRooted(c, before);
    if op.RebuildOp? && Outcome(c, db, op).Some? {
      s, was := op.stream, db.blocks;
      RebuildStarts(c, db, s);
      RebuiltFacts(c, db, s);
    } else {
      s, was := StaleTrace(c, before);
      if op.AppendOp? && Outcome(c, db, op).Some? {
        AppendContinues(c, s, was, db, op.block, op.mempool);
      } else {
        SinceFrame(c, s, was, db, Run(c, ops));
      }
    }
  }

  lemma SinceFrame(c: Codec, s: seq<StoredBlock>, was: map<nat, Data>, a: Db, b: Db)
    requires Since(c, s, was, a) && b.blocks == a.blocks && b.ix == a.ix
    ensures Since(c, s, was, b)
  {
  }

  /** Exactly when the tables are right. In a reachable generation with no body above the recorded
      index height, the tables are those of the stored bodies if and only if the last committed
      rebuild since the last committed replacement, if any, was given the bodies stored then. */
  lemma {:induction false} AgreeIffCurrent(c: Codec, ops: seq<Op>)
    requires HashPins(c, Handed(ops)) && Mints(c) && AllProper(c, ops) && Bounded(Run(c, ops))
    ensures Rooted(c, Run(c, ops))
    ensures Agree(c, Run(c, ops)) <==> Current(c, ops)
    ensures Current(c, ops) ==> AtTip(c, Run(c, ops))
  {
    hide Run, Current, Agree, HashPins, Mints, AllProper, IsStored;
    AlwaysRooted(c, ops);
    if Current(c, ops) {
      IndexesHold(c, ops);
      TopDecodes(c, Run(c, ops));
    } else {
      var s, was := StaleTrace(c, ops);
      if Agree(c, Run(c, ops)) {
        RunWithin(c, ops, s);
        AgreeMeansStored(c, Handed(ops), s, was, Run(c, ops));
      }
    }
  }

  lemma RunWithin(c: Codec, ops: seq<Op>, s: seq<StoredBlock>)
    requires StreamBytes(s) <= Handed(ops)
    ensures Within(Handed(ops), s, Run(c, ops).blocks)
  {
    hide Run, Handed;
    forall h | h in Run(c, ops).blocks ensures Run(c, ops).blocks[h] in Handed(ops) {
      StoredHanded(c, ops, h);
    }
    forall i | 0 <= i < |s| ensures s[i].bytes in Handed(ops) {
      assert s[i].bytes in StreamBytes(s);
    }
  }

  lemma TopDecodes(c: Codec, db: Db)
    requires IndexInvariant(c, db) && Bounded(db)
    ensures AtTip(c, db)
  {
    hide Agree;
    assert Decodes(c, db.blocks[db.meta.tipHeight.value], db.meta.tipHeight.value);
  }

  /** What a reader compares: the reported tip is the highest stored body, height and hash. */
  ghost predicate ReportedAtTip(c: Codec, db: Db) {
    && ReportedTip(db.meta).Some?
    && var (height, hash) := ReportedTip(db.meta).value;
       && height in db.blocks && (forall h :: h in db.blocks ==> h <= height)
       && c.decode(db.blocks[height]).Some? && c.decode(db.blocks[height]).value.hash == Some(hash)
  }

  /** The theorem for readers: when the reported tip is the highest stored body, the tables are
      those of the stored bodies exactly if no rebuild since the last replacement was given other
      ones. Then the bodies are a chain, and rebuilding from them (which succeeds when block and
      transaction ids are distinct) changes no table; otherwise such a rebuild does change one. */
  lemma {:induction false} IncrementalEqualsRebuild(c: Codec, ops: seq<Op>)
    requires HashPins(c, Handed(ops)) && Mints(c) && AllProper(c, ops) && ReportedAtTip(c, Run(c, ops))
    ensures var db := Run(c, ops);
            var n := db.meta.tipHeight.value + 1;
            var chain := forall h :: h in db.blocks <==> 0 <= h < n;
            && AllDecode(c, db.blocks)
            && (Current(c, ops) ==> chain)
            && (chain ==>
                  var again := Reindexed(c, db, Entries(c, db.blocks, n));
                  && (again.Some? ==> (again.value.ix == db.ix <==> Current(c, ops)))
                  && (Current(c, ops) && DistinctIds(Entries(c, db.blocks, n)) ==> again.Some?))
  {
    hide Run, Rebuilt, Filled, DistinctIds, HashPins, Mints, AllProper, Current;
    var db := Run(c, ops);
    AgreeIffCurrent(c, ops);
    var n := db.meta.tipHeight.value + 1;
    if forall h :: h in db.blocks <==> 0 <= h < n {
      var stream := Entries(c, db.blocks, n);
      assert stream[0].bytes == db.blocks[0];
      AgreeIsRebuilt(c, db, n);
    }
  }

  lemma {:induction false} AgreeIsRebuilt(c: Codec, db: Db, n: nat)
    requires AllDecode(c, db.blocks) && db.meta.tipHeight == Some(n - 1) && n > 0
    requires forall h :: h in db.blocks <==> 0 <= h < n
    ensures var again := Reindexed(c, db, Entries(c, db.blocks, n));
            && (again.Some? ==> (again.value.ix == db.ix <==> Agree(c, db)))
            && (Agree(c, db) && DistinctIds(Entries(c, db.blocks, n)) ==> again.Some?)
  {
    hide Rebuilt, Filled, DistinctIds;
    var stream := Entries(c, db.blocks, n);
    assert stream[0].bytes == db.blocks[0];
    var context := Context(c, db.blocks[0]);
    if context.Some? && Rebuilt(c, context.value, stream).Some? {
      RebuiltIsFilled(c, context.value, stream);
      FilledBodies(c, context.value, stream);
      assert Filled(c, context.value, stream).value.0 == db.blocks;
    }
    if Agree(c, db) && DistinctIds(stream) {
      FilledIsRebuilt(c, context.value, stream);
    }
  }

  // ----- the reported tip -----

  /** Some replacement or rebuild of the run has committed. */
  ghost predicate Rewritten(c: Codec, ops: seq<Op>) {
    exists k :: 0 <= k < |ops| && Rewrites(c, ops, k)
  }

  ghost predicate Rewrites(c: Codec, ops: seq<Op>, k: nat)
    requires k < |ops|
  {
    (ops[k].ReplaceOp? || ops[k].RebuildOp?) && Outcome(c, Run(c, ops[..k]), ops[k]).Some?
  }

  lemma RewrittenStep(c: Codec, ops: seq<Op>)
    requires ops != []
    ensures Rewritten(c, ops) <==> Rewritten(c, ops[..|ops| - 1]) || Rewrites(c, ops, |ops| - 1)
  {
    hide Outcome, Run;
    var before := ops[..|ops| - 1];
    forall k | 0 <= k < |before| ensures Rewrites(c, ops, k) <==> Rewrites(c, before, k) {
      assert before[..k] == ops[..k];
    }
  }

  lemma MetaStep(c: Codec, db: Db, op: Op)
    requires Outcome(c, db, op).Some?
    ensures var m := Outcome(c, db, op).value.meta;
            if op.ReplaceOp? || op.RebuildOp? then ReportedTip(m).Some?
            else m == (if op.AppendOp? then AppendedMeta(db.meta, op.block) else db.meta)
  {
    hide Filled, Rebuilt, Indexed, Context, CommonLength, Pruned, Certifies, Certificate;
  }

  /** A tip is reported after exactly those runs in which a replacement or a rebuild has committed,
      and then it is the recorded pair. */
  lemma {:induction false} TipReportedIff(c: Codec, ops: seq<Op>)
    ensures var m := Run(c, ops).meta;
            && (ReportedTip(m).Some? <==> Rewritten(c, ops))
            && (m.programVersion <==> Rewritten(c, ops))
            && (ReportedTip(m).Some? ==> ReportedTip(m) == Some((m.tipHeight.value, m.tipHash.value)))
  {
    hide Outcome, Rewritten;
    if ops == [] {
      NothingRewritten(c);
    } else {
      var before, op := ops[..|ops| - 1], ops[|ops| - 1];
      var db := Run(c, before);
      TipReportedIff(c, before);
      RewrittenStep(c, ops);
      if Outcome(c, db, op).Some? {
        MetaStep(c, db, op);
      }
    }
  }

  lemma NothingRewritten(c: Codec)
    ensures !Rewritten(c, [])
  {
  }
}
