/** The storage write transactions as they run (runtime/src/storage.rs): each works on a private
    copy of the tables and either commits all of it or nothing. */
module Storage {
  import opened Wrappers
  import opened StorageModel

  datatype Status = Committed | Aborted

  method InsertOrigins(m: map<nat, nat>, coins: seq<(nat, nat)>) returns (o: Option<map<nat, nat>>)
    ensures o == AddOrigins(m, coins)
  {
    var table := m;
    assert coins[..0] == [];
    for i := 0 to |coins|
      invariant AddOrigins(m, coins[..i]) == Some(table)
    {
      assert coins[..i + 1][..i] == coins[..i];
      if coins[i].0 in table {
        RefusedStays(m, coins, i + 1);
        return None;
      }
      table := table[coins[i].0 := coins[i].1];
    }
    assert coins[..|coins|] == coins;
    o := Some(table);
  }

  lemma {:induction false} RefusedStays(m: map<nat, nat>, coins: seq<(nat, nat)>, i: nat)
    requires i <= |coins| && AddOrigins(m, coins[..i]) == None
    ensures AddOrigins(m, coins) == None
    decreases |coins| - i
  {
    if i < |coins| {
      assert coins[..i + 1][..i] == coins[..i];
      RefusedStays(m, coins, i + 1);
    } else {
      assert coins[..i] == coins;
    }
  }

  method InsertTransactions(m: map<nat, (nat, nat)>, ids: seq<nat>, height: nat) returns (table: map<nat, (nat, nat)>)
    ensures table == AddTransactions(m, ids, height)
  {
    table := m;
    assert ids[..0] == [];
    for position := 0 to |ids|
      invariant table == AddTransactions(m, ids[..position], height)
    {
      assert ids[..position + 1][..position] == ids[..position];
      table := table[ids[position] := (height, position)];
    }
    assert ids[..|ids|] == ids;
  }

  method InsertActivities(s: set<(nat, nat, Option<nat>)>, acts: seq<Activity>, height: nat)
    returns (table: set<(nat, nat, Option<nat>)>)
    ensures table == AddActivities(s, acts, height)
  {
    table := s;
    assert acts[..0] == [];
    for i := 0 to |acts|
      invariant table == AddActivities(s, acts[..i], height)
    {
      assert acts[..i + 1][..i] == acts[..i];
      table := table + {(acts[i].program, height, acts[i].transaction)};
    }
    assert acts[..|acts|] == acts;
  }

  /** One block into the four index tables. */
  method IndexBlock(c: Codec, context: Hash, ix: Indexes, b: StoredBlock) returns (o: Option<Indexes>)
    ensures o == Indexed(c, context, ix, b)
  {
    var decoded := c.decode(b.bytes);
    if decoded.None? || decoded.value.height != b.height || decoded.value.hash != Some(b.hash) {
      return None;
    }
    var coins := c.coins(decoded.value, context);
    if coins.None? {
      return None;
    }
    var origins := InsertOrigins(ix.origins, coins.value);
    if origins.None? {
      return None;
    }
    var blocks := ix.blocks[b.hash := b.height];
    var transactions := InsertTransactions(ix.transactions, b.transactions, b.height);
    var activities := InsertActivities(ix.activities, b.activities, b.height);
    o := Some(Indexes(blocks, transactions, activities, origins.value));
  }

  class Database {
    var db: Db

    constructor ()
      ensures db == EMPTY
    {
      db := EMPTY;
    }

    /** `append_block_and_replace_mempool`. `commits` says whether the transaction commits. */
    method Append(c: Codec, b: StoredBlock, mempool: seq<Data>, commits: bool) returns (s: Status)
      modifies this
      ensures s.Committed? <==> commits && Appended(c, old(db), b, mempool).Some?
      ensures db == if s.Committed? then Appended(c, old(db), b, mempool).value else old(db)
    {
      hide Indexed;
      if b.height in db.blocks {
        return Aborted;
      }
      var blocks := db.blocks[b.height := b.bytes];
      if 0 !in blocks {
        return Aborted;
      }
      var context := Context(c, blocks[0]);
      if context.None? {
        return Aborted;
      }
      var ix := IndexBlock(c, context.value, db.ix, b);
      if ix.None? {
        return Aborted;
      }
      var meta := db.meta;
      var complete := b.height == 0 ||
        (meta.tipHash.Some? && meta.originVersion && meta.tipHeight.Some? && meta.tipHeight.value + 1 == b.height);
      if complete {
        meta := meta.(tipHeight := Some(b.height), tipHash := Some(b.hash), originVersion := true);
      }
      if !commits {
        return Aborted;
      }
      db := db.(blocks := blocks, ix := ix.value, meta := meta, mempool := mempool);
      s := Committed;
    }

    /** `replace_blocks_mempool_and_snapshot_stream`. */
    method Replace(c: Codec, stream: seq<StoredBlock>, mempool: seq<Data>, snapshot: Option<(nat, Data)>, commits: bool)
      returns (s: Status)
      modifies this
      ensures s.Committed? <==> commits && Replaced(c, old(db), stream, mempool, snapshot).Some?
      ensures db == if s.Committed? then Replaced(c, old(db), stream, mempool, snapshot).value else old(db)
    {
      hide Indexed, CommonLength, Filled;
      if stream == [] {
        return Aborted;
      }
      var context := Context(c, stream[0].bytes);
      if context.None? {
        return Aborted;
      }
      var common := FindCommon(db.blocks, stream);
      var filled := Fill(c, context.value, stream);
      if filled.None? {
        return Aborted;
      }
      var (blocks, ix) := filled.value;
      var tip := stream[|stream| - 1];
      var meta := Meta(Some(tip.height), Some(tip.hash), true, true);
      var snapshots := map h | h in db.snapshots && common.Some? && h <= common.value :: db.snapshots[h];
      var checkpoints := map h | h in db.checkpoints && common.Some? && h <= common.value :: db.checkpoints[h];
      if snapshot.Some? {
        var (height, bytes) := snapshot.value;
        checkpoints := checkpoints - {height};
        if height != tip.height {
          return Aborted;
        }
        snapshots := snapshots[height := bytes];
      }
      if !commits {
        return Aborted;
      }
      db := Db(blocks, ix, meta, snapshots, checkpoints, mempool);
      s := Committed;
    }

    /** `rebuild_canonical_indexes_stream`. */
    method Rebuild(c: Codec, stream: seq<StoredBlock>, commits: bool) returns (s: Status)
      modifies this
      ensures s.Committed? <==> commits && Reindexed(c, old(db), stream).Some?
      ensures db == if s.Committed? then Reindexed(c, old(db), stream).value else old(db)
    {
      hide Indexed, Rebuilt;
      if stream == [] {
        return Aborted;
      }
      var context := Context(c, stream[0].bytes);
      if context.None? {
        return Aborted;
      }
      var ix := RebuildTables(c, context.value, stream);
      if ix.None? || !commits {
        return Aborted;
      }
      var tip := stream[|stream| - 1];
      db := db.(ix := ix.value, meta := Meta(Some(tip.height), Some(tip.hash), true, true));
      s := Committed;
    }

    /** `put_snapshot_inner`. */
    method PutSnapshot(c: Codec, height: nat, bytes: Data, headers: Option<seq<(nat, nat)>>, commits: bool) returns (s: Status)
      modifies this
      ensures s.Committed? <==> commits && Put(c, old(db), height, bytes, headers).Some?
      ensures db == if s.Committed? then Put(c, old(db), height, bytes, headers).value else old(db)
    {
      hide Certifies, Certificate, Pruned, Oldest;
      var checkpoints := db.checkpoints - {height};
      if headers.Some? {
        var record := Certify(c, db.blocks, height, bytes, headers.value);
        if record.None? {
          return Aborted;
        }
        checkpoints := checkpoints[height := record.value];
      }
      var snapshots := db.snapshots[height := bytes];
      snapshots, checkpoints := Prune(snapshots, checkpoints);
      if !commits {
        return Aborted;
      }
      db := db.(snapshots := snapshots, checkpoints := checkpoints);
      s := Committed;
    }
  }

  /** The comparison loop: the height of the last leading block stored unchanged. */
  method FindCommon(blocks: map<nat, Data>, stream: seq<StoredBlock>) returns (common: Option<nat>)
    ensures common == CommonHeight(blocks, stream)
  {
    common := None;
    var i := 0;
    assert stream[0..] == stream;
    while i < |stream|
      invariant 0 <= i <= |stream|
      invariant CommonLength(blocks, stream) == i + CommonLength(blocks, stream[i..])
      invariant common == if i == 0 then None else Some(stream[i - 1].height)
    {
      var b := stream[i];
      assert stream[i..][0] == b && stream[i..][1..] == stream[i + 1..];
      if b.height !in blocks || blocks[b.height] != b.bytes {
        return;
      }
      common := Some(b.height);
      i := i + 1;
    }
  }

  method Fill(c: Codec, context: Hash, stream: seq<StoredBlock>) returns (o: Option<(map<nat, Data>, Indexes)>)
    ensures o == Filled(c, context, stream)
  {
    hide Indexed;
    var blocks: map<nat, Data>, ix := map[], NO_INDEXES;
    assert stream[..0] == [];
    for i := 0 to |stream|
      invariant Filled(c, context, stream[..i]) == Some((blocks, ix))
    {
      assert stream[..i + 1][..i] == stream[..i];
      var next := IndexBlock(c, context, ix, stream[i]);
      if next.None? {
        FillStuck(c, context, stream, i + 1);
        return None;
      }
      ix := next.value;
      blocks := blocks[stream[i].height := stream[i].bytes];
    }
    assert stream[..|stream|] == stream;
    o := Some((blocks, ix));
  }

  lemma {:induction false} FillStuck(c: Codec, context: Hash, stream: seq<StoredBlock>, i: nat)
    requires i <= |stream| && Filled(c, context, stream[..i]) == None
    ensures Filled(c, context, stream) == None
    decreases |stream| - i
  {
    if i < |stream| {
      assert stream[..i + 1][..i] == stream[..i];
      FillStuck(c, context, stream, i + 1);
    } else {
      assert stream[..i] == stream;
    }
  }

  method RebuildTables(c: Codec, context: Hash, stream: seq<StoredBlock>) returns (o: Option<Indexes>)
    ensures o == Rebuilt(c, context, stream)
  {
    hide Indexed, Repeats;
    var ix := NO_INDEXES;
    assert stream[..0] == [];
    for i := 0 to |stream|
      invariant Rebuilt(c, context, stream[..i]) == Some(ix)
    {
      assert stream[..i + 1][..i] == stream[..i];
      var b := stream[i];
      var repeats := AnyRepeat(ix.transactions, b.transactions);
      var next := IndexBlock(c, context, ix, b);
      if next.None? || b.hash in ix.blocks || repeats {
        RebuildStuck(c, context, stream, i + 1);
        return None;
      }
      ix := next.value;
    }
    assert stream[..|stream|] == stream;
    o := Some(ix);
  }

  lemma {:induction false} RebuildStuck(c: Codec, context: Hash, stream: seq<StoredBlock>, i: nat)
    requires i <= |stream| && Rebuilt(c, context, stream[..i]) == None
    ensures Rebuilt(c, context, stream) == None
    decreases |stream| - i
  {
    if i < |stream| {
      assert stream[..i + 1][..i] == stream[..i];
      RebuildStuck(c, context, stream, i + 1);
    } else {
      assert stream[..i] == stream;
    }
  }

  method AnyRepeat(m: map<nat, (nat, nat)>, ids: seq<nat>) returns (r: bool)
    ensures r == Repeats(m, ids)
  {
    var seen: set<nat> := {};
    for i := 0 to |ids|
      invariant forall k :: 0 <= k < i ==> ids[k] !in m && ids[k] in seen
      invariant forall x :: x in seen ==> exists k :: 0 <= k < i && ids[k] == x
      invariant forall k, l :: 0 <= k < l < i ==> ids[k] != ids[l]
    {
      if ids[i] in m || ids[i] in seen {
        return true;
      }
      seen := seen + {ids[i]};
    }
    r := false;
  }

  /** The certification loop over the body prefix. */
  method Certify(c: Codec, blocks: map<nat, Data>, height: nat, bytes: Data, headers: seq<(nat, nat)>) returns (o: Option<Record>)
    ensures o.Some? <==> Certifies(c, blocks, height, headers)
    ensures o.Some? ==> o.value == Certificate(c, blocks, height, bytes, headers)
  {
    if |headers| != height + 1 {
      return None;
    }
    var digest := c.zero;
    for i := 0 to |headers|
      invariant forall k :: 0 <= k < i ==> Carries(c, blocks, headers, k)
      invariant Stored(blocks, i) && digest == History(c, blocks, i)
    {
      if headers[i].0 != i || i !in blocks {
        assert !Carries(c, blocks, headers, i);
        return None;
      }
      var decoded := c.admit(blocks[i]);
      if decoded.None? || decoded.value.height != i || decoded.value.header != headers[i].1 {
        assert !Carries(c, blocks, headers, i);
        return None;
      }
      digest := c.advance(digest, i, c.hash(blocks[i]));
    }
    var tip := c.headerHash(headers[height].1);
    if tip.None? {
      return None;
    }
    o := Some(Record(c.version, c.genesis, c.spec, height, tip.value, c.hash(bytes), digest));
  }

  method FindOldest(m: map<nat, Data>) returns (k: nat)
    requires m != map[]
    ensures IsOldest(m, k)
  {
    assert m.Keys != {};
    k :| k in m.Keys;
    var rest := m.Keys - {k};
    while rest != {}
      invariant k in m && rest <= m.Keys
      invariant forall j :: j in m && j !in rest ==> k <= j
      decreases |rest|
    {
      var x :| x in rest;
      if x < k {
        k := x;
      }
      rest := rest - {x};
    }
  }

  /** The pruning loop. */
  method Prune(s: map<nat, Data>, k: map<nat, Record>) returns (snapshots: map<nat, Data>, checkpoints: map<nat, Record>)
    ensures (snapshots, checkpoints) == Pruned(s, k)
  {
    snapshots, checkpoints := s, k;
    while |snapshots| > 2
      invariant Pruned(snapshots, checkpoints) == Pruned(s, k)
      decreases |snapshots|
    {
      var oldest := FindOldest(snapshots);
      OldestUnique(snapshots, oldest);
      snapshots := snapshots - {oldest};
      checkpoints := checkpoints - {oldest};
    }
  }

  lemma OldestUnique(m: map<nat, Data>, k: nat)
    requires IsOldest(m, k)
    ensures m != map[] && Oldest(m) == k
    ensures |m - {k}| < |m|
  {
    assert (m - {k}).Keys == m.Keys - {k};
  }
}
