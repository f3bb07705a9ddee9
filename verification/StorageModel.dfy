/** What each storage transaction writes (runtime/src/storage.rs), as functions on one database
    generation: canonical bodies, derived indexes, snapshots and validation checkpoints. */
module StorageModel {
  import opened Wrappers
  import opened Bytes

  type Data = seq<Byte>
  type Hash = nat

  /** Digests, rich enough for a hash without collisions: of nothing, of bytes, and of one
      step of the history. */
  datatype Digest = NoHistory | OfBytes(bytes: Data) | Extended(previous: Digest, height: nat, body: Digest)

  datatype Activity = Activity(program: nat, transaction: Option<nat>)

  /** A decoded block, with what the indexes take from it. */
  datatype Canonical = Canonical(height: nat, header: nat, hash: Option<Hash>, transactions: seq<nat>, activities: seq<Activity>, body: nat)

  /** `StoredCanonicalBlock`: encoded bytes with the identity and index entries derived from them. */
  datatype StoredBlock = StoredBlock(height: nat, hash: Hash, bytes: Data, transactions: seq<nat>, activities: seq<Activity>)

  /** Foreign primitives: hashing, one step of the history digest, block decoding (the plain
      one, and the one that also admits), header hashing, and the coins a block creates. */
  datatype Codec = Codec(
    hash: Data -> Digest,
    zero: Digest,
    advance: (Digest, nat, Digest) -> Digest,
    decode: Data -> Option<Canonical>,
    admit: Data -> Option<Canonical>,
    headerHash: nat -> Option<Hash>,
    coins: (Canonical, Hash) -> Option<seq<(nat, nat)>>,
    version: nat,
    genesis: Hash,
    spec: nat)

  /** `SnapshotValidationCheckpoint`. */
  datatype Record = Record(version: nat, genesis: Hash, spec: nat, height: nat, tipHash: Hash, snapshotHash: Digest, history: Digest)

  datatype Indexes = Indexes(
    blocks: map<Hash, nat>,
    transactions: map<nat, (nat, nat)>,
    activities: set<(nat, nat, Option<nat>)>,
    origins: map<nat, nat>)

  const NO_INDEXES := Indexes(map[], map[], {}, map[])

  datatype Meta = Meta(tipHeight: Option<nat>, tipHash: Option<Hash>, originVersion: bool, programVersion: bool)

  /** `canonical_index_tip`: the recorded pair, reported only once both index versions are written. */
  function ReportedTip(m: Meta): Option<(nat, Hash)> {
    if !m.programVersion || !m.originVersion || m.tipHeight.None? || m.tipHash.None? then None
    else Some((m.tipHeight.value, m.tipHash.value))
  }

  /** One committed generation. */
  datatype Db = Db(
    blocks: map<nat, Data>,
    ix: Indexes,
    meta: Meta,
    snapshots: map<nat, Data>,
    checkpoints: map<nat, Record>,
    mempool: seq<Data>)

  const EMPTY := Db(map[], NO_INDEXES, Meta(None, None, false, false), map[], map[], [])

  // ----- indexes -----

  /** `insert_coin_origins`: a coin may originate only once. */
  function AddOrigins(m: map<nat, nat>, coins: seq<(nat, nat)>): Option<map<nat, nat>> {
    if coins == [] then Some(m)
    else
      match AddOrigins(m, coins[..|coins| - 1])
      case None => None
      case Some(m') =>
        var last := coins[|coins| - 1];
        if last.0 in m' then None else Some(m'[last.0 := last.1])
  }

  function AddTransactions(m: map<nat, (nat, nat)>, ids: seq<nat>, height: nat): map<nat, (nat, nat)> {
    if ids == [] then m
    else AddTransactions(m, ids[..|ids| - 1], height)[ids[|ids| - 1] := (height, |ids| - 1)]
  }

  function AddActivities(s: set<(nat, nat, Option<nat>)>, acts: seq<Activity>, height: nat): set<(nat, nat, Option<nat>)> {
    if acts == [] then s
    else
      var last := acts[|acts| - 1];
      AddActivities(s, acts[..|acts| - 1], height) + {(last.program, height, last.transaction)}
  }

  /** The chain context: the hash of a genesis body. */
  function Context(c: Codec, bytes: Data): Option<Hash> {
    match c.decode(bytes)
    case None => None
    case Some(d) => if d.height == 0 then d.hash else None
  }

  /** A stored block is what its bytes say. */
  predicate Identified(c: Codec, b: StoredBlock) {
    var d := c.decode(b.bytes);
    d.Some? && d.value.height == b.height && d.value.hash == Some(b.hash)
  }

  /** The index entries handed over with a block are those of its bytes, as every caller
      computes them. */
  predicate Derived(c: Codec, b: StoredBlock) {
    var d := c.decode(b.bytes);
    d.Some? ==> b.transactions == d.value.transactions && b.activities == d.value.activities
  }

  /** One block added to the four tables, or refused. */
  function Indexed(c: Codec, context: Hash, ix: Indexes, b: StoredBlock): Option<Indexes> {
    if !Identified(c, b) then None
    else
      match c.coins(c.decode(b.bytes).value, context)
      case None => None
      case Some(coins) =>
        match AddOrigins(ix.origins, coins)
        case None => None
        case Some(origins) =>
          Some(Indexes(ix.blocks[b.hash := b.height], AddTransactions(ix.transactions, b.transactions, b.height),
                       AddActivities(ix.activities, b.activities, b.height), origins))
  }

  // ----- append -----

  /** Metadata after an append: the recorded tip moves only if it was just below. */
  function AppendedMeta(m: Meta, b: StoredBlock): Meta {
    if b.height == 0 || (m.tipHash.Some? && m.originVersion && m.tipHeight.Some? && m.tipHeight.value + 1 == b.height)
    then Meta(Some(b.height), Some(b.hash), true, m.programVersion)
    else m
  }

  /** `append_block_and_replace_mempool`: the next generation, or None where it fails. */
  function Appended(c: Codec, db: Db, b: StoredBlock, mempool: seq<Data>): Option<Db> {
    if b.height in db.blocks then None
    else
      var blocks := db.blocks[b.height := b.bytes];
      if 0 !in blocks then None
      else
        match Context(c, blocks[0])
        case None => None
        case Some(context) =>
          match Indexed(c, context, db.ix, b)
          case None => None
          case Some(ix) => Some(db.(blocks := blocks, ix := ix, meta := AppendedMeta(db.meta, b), mempool := mempool))
  }

  // ----- replace -----

  /** How many leading blocks of the stream are stored unchanged. */
  function CommonLength(blocks: map<nat, Data>, stream: seq<StoredBlock>): (n: nat)
    ensures n <= |stream|
  {
    if stream == [] || stream[0].height !in blocks || blocks[stream[0].height] != stream[0].bytes then 0
    else 1 + CommonLength(blocks, stream[1..])
  }

  function CommonHeight(blocks: map<nat, Data>, stream: seq<StoredBlock>): Option<nat> {
    var n := CommonLength(blocks, stream);
    if n == 0 then None else Some(stream[n - 1].height)
  }

  function FillOne(c: Codec, context: Hash, blocks: map<nat, Data>, ix: Indexes, b: StoredBlock): Option<(map<nat, Data>, Indexes)> {
    match Indexed(c, context, ix, b)
    case None => None
    case Some(ix') => Some((blocks[b.height := b.bytes], ix'))
  }

  /** Bodies and tables filled from the stream. */
  function Filled(c: Codec, context: Hash, stream: seq<StoredBlock>): Option<(map<nat, Data>, Indexes)> {
    if stream == [] then Some((map[], NO_INDEXES))
    else
      var before := Filled(c, context, stream[..|stream| - 1]);
      if before.None? then None
      else FillOne(c, context, before.value.0, before.value.1, stream[|stream| - 1])
  }

  function Below<V>(m: map<nat, V>, common: Option<nat>): map<nat, V> {
    map h | h in m && common.Some? && h <= common.value :: m[h]
  }

  /** `replace_blocks_mempool_and_snapshot_stream`. */
  function Replaced(c: Codec, db: Db, stream: seq<StoredBlock>, mempool: seq<Data>, snapshot: Option<(nat, Data)>): Option<Db> {
    if stream == [] then None
    else
      match Context(c, stream[0].bytes)
      case None => None
      case Some(context) =>
        match Filled(c, context, stream)
        case None => None
        case Some((blocks, ix)) =>
          var tip := stream[|stream| - 1];
          var common := CommonHeight(db.blocks, stream);
          var meta := Meta(Some(tip.height), Some(tip.hash), true, true);
          var snapshots, checkpoints := Below(db.snapshots, common), Below(db.checkpoints, common);
          match snapshot
          case None => Some(Db(blocks, ix, meta, snapshots, checkpoints, mempool))
          case Some((height, bytes)) =>
            if height != tip.height then None
            else Some(Db(blocks, ix, meta, snapshots[height := bytes], checkpoints - {height}, mempool))
  }

  // ----- rebuild -----

  /** The tables a rebuild from these bodies writes; it refuses repeated block or transaction ids. */
  function Rebuilt(c: Codec, context: Hash, stream: seq<StoredBlock>): Option<Indexes> {
    if stream == [] then Some(NO_INDEXES)
    else
      match Rebuilt(c, context, stream[..|stream| - 1])
      case None => None
      case Some(ix) =>
        var b := stream[|stream| - 1];
        if b.hash in ix.blocks || Repeats(ix.transactions, b.transactions) then None else Indexed(c, context, ix, b)
  }

  predicate Repeats(m: map<nat, (nat, nat)>, ids: seq<nat>) {
    || (exists i :: 0 <= i < |ids| && ids[i] in m)
    || (exists i, j :: 0 <= i < j < |ids| && ids[i] == ids[j])
  }

  /** `rebuild_canonical_indexes_stream`. */
  function Reindexed(c: Codec, db: Db, stream: seq<StoredBlock>): Option<Db> {
    if stream == [] then None
    else
      match Context(c, stream[0].bytes)
      case None => None
      case Some(context) =>
        match Rebuilt(c, context, stream)
        case None => None
        case Some(ix) =>
          var tip := stream[|stream| - 1];
          Some(db.(ix := ix, meta := Meta(Some(tip.height), Some(tip.hash), true, true)))
  }

  // ----- snapshots -----

  predicate Stored(blocks: map<nat, Data>, n: nat) {
    forall i :: 0 <= i < n ==> i in blocks
  }

  /** The history digest of the first `n` bodies. */
  function History(c: Codec, blocks: map<nat, Data>, n: nat): Digest
    requires Stored(blocks, n)
  {
    if n == 0 then c.zero else c.advance(History(c, blocks, n - 1), n - 1, c.hash(blocks[n - 1]))
  }

  /** Body `i` is stored, admits, and carries the expected header. */
  predicate Carries(c: Codec, blocks: map<nat, Data>, headers: seq<(nat, nat)>, i: nat)
    requires i < |headers|
  {
    && headers[i].0 == i && i in blocks
    && var d := c.admit(blocks[i]);
       d.Some? && d.value.height == i && d.value.header == headers[i].1
  }

  predicate Certifies(c: Codec, blocks: map<nat, Data>, height: nat, headers: seq<(nat, nat)>) {
    && |headers| == height + 1
    && (forall i :: 0 <= i < |headers| ==> Carries(c, blocks, headers, i))
    && c.headerHash(headers[height].1).Some?
  }

  lemma CertifiedStored(c: Codec, blocks: map<nat, Data>, height: nat, headers: seq<(nat, nat)>)
    requires Certifies(c, blocks, height, headers)
    ensures Stored(blocks, height + 1)
  {
    forall i | 0 <= i < height + 1 ensures i in blocks {
      assert Carries(c, blocks, headers, i);
    }
  }

  /** The record published for a snapshot of a certified prefix. */
  function Certificate(c: Codec, blocks: map<nat, Data>, height: nat, bytes: Data, headers: seq<(nat, nat)>): Record
    requires Certifies(c, blocks, height, headers)
  {
    CertifiedStored(c, blocks, height, headers);
    Record(c.version, c.genesis, c.spec, height, c.headerHash(headers[height].1).value, c.hash(bytes), History(c, blocks, height + 1))
  }

  ghost predicate IsOldest<V>(m: map<nat, V>, k: nat) {
    k in m && forall j :: j in m ==> k <= j
  }

  lemma {:induction false} Least(s: set<nat>) returns (k: nat)
    requires s != {}
    ensures k in s && forall j :: j in s ==> k <= j
  {
    var x :| x in s;
    var rest := s - {x};
    k := x;
    if rest != {} {
      var y := Least(rest);
      k := if y < x then y else x;
    }
    forall j | j in s ensures k <= j {
      assert j == x || j in rest;
    }
  }

  lemma OldestExists<V>(m: map<nat, V>)
    requires m != map[]
    ensures exists k :: IsOldest(m, k)
  {
    assert m.Keys != {};
    var k := Least(m.Keys);
    assert IsOldest(m, k);
  }

  ghost function Oldest(m: map<nat, Data>): (k: nat)
    requires m != map[]
    ensures IsOldest(m, k)
  {
    OldestExists(m);
    var k :| IsOldest(m, k);
    k
  }

  /** Only the two highest snapshots stay, and no checkpoint without its snapshot. */
  ghost function Pruned(snapshots: map<nat, Data>, checkpoints: map<nat, Record>): (map<nat, Data>, map<nat, Record>)
    decreases |snapshots|
  {
    if |snapshots| <= 2 then (snapshots, checkpoints)
    else
      var k := Oldest(snapshots);
      Pruned(snapshots - {k}, checkpoints - {k})
  }

  /** `put_snapshot_inner`. */
  ghost function Put(c: Codec, db: Db, height: nat, bytes: Data, headers: Option<seq<(nat, nat)>>): Option<Db> {
    if headers.Some? && !Certifies(c, db.blocks, height, headers.value) then None
    else
      var cleared := db.checkpoints - {height};
      var checkpoints :=
        if headers.None? then cleared else cleared[height := Certificate(c, db.blocks, height, bytes, headers.value)];
      var (s, k) := Pruned(db.snapshots[height := bytes], checkpoints);
      Some(db.(snapshots := s, checkpoints := k))
  }
}
