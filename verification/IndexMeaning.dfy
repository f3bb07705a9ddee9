/** The four index tables said of the stored bodies alone (runtime/src/storage.rs): which block,
    transaction, activity and coin is listed where; exactly when a transaction that fills them
    commits; and when the recorded tip moves on. */
module IndexMeaning {
  import opened Wrappers
  import opened StorageModel
  import opened StorageRuns
  import opened StorageIndexes

  // ----- tables of a stream -----

  predicate TxAt(s: seq<StoredBlock>, i: nat, p: nat, t: nat) {
    i < |s| && p < |s[i].transactions| && s[i].transactions[p] == t
  }

  /** The last place of a transaction id in the stream. */
  ghost predicate LastTx(s: seq<StoredBlock>, t: nat, i: nat, p: nat) {
    TxAt(s, i, p, t) && forall j: nat, q: nat :: TxAt(s, j, q, t) ==> j < i || (j == i && q <= p)
  }

  ghost predicate HasTx(s: seq<StoredBlock>, t: nat) {
    exists i: nat, p: nat :: TxAt(s, i, p, t)
  }

  ghost predicate TxTable(s: seq<StoredBlock>, m: map<nat, (nat, nat)>) {
    forall t :: (t in m <==> HasTx(s, t)) && (t in m ==> LastTx(s, t, m[t].0, m[t].1))
  }

  predicate ActAt(s: seq<StoredBlock>, i: nat, k: nat, x: (nat, nat, Option<nat>)) {
    i < |s| && k < |s[i].activities| && x == (s[i].activities[k].program, i, s[i].activities[k].transaction)
  }

  ghost predicate HasAct(s: seq<StoredBlock>, x: (nat, nat, Option<nat>)) {
    exists i: nat, k: nat :: ActAt(s, i, k, x)
  }

  ghost predicate ActTable(s: seq<StoredBlock>, m: set<(nat, nat, Option<nat>)>) {
    forall x :: x in m <==> HasAct(s, x)
  }

  predicate HashAt(s: seq<StoredBlock>, i: nat, x: Hash) {
    i < |s| && s[i].hash == x
  }

  ghost predicate HasHash(s: seq<StoredBlock>, x: Hash) {
    exists i: nat :: HashAt(s, i, x)
  }

  ghost predicate HashTable(s: seq<StoredBlock>, m: map<Hash, nat>) {
    forall x :: (x in m <==> HasHash(s, x)) && (x in m ==> HashAt(s, m[x], x) && forall i: nat :: HashAt(s, i, x) ==> i <= m[x])
  }

  /** The coins a body creates in this context. */
  function Coins(c: Codec, context: Hash, bytes: Data): Option<seq<(nat, nat)>> {
    match c.decode(bytes)
    case None => None
    case Some(d) => c.coins(d, context)
  }

  /** Coin `k` of block `i` is this one. */
  predicate CoinAt(c: Codec, context: Hash, s: seq<StoredBlock>, i: nat, k: nat, x: nat, o: nat) {
    && i < |s| && Coins(c, context, s[i].bytes).Some?
    && k < |Coins(c, context, s[i].bytes).value| && Coins(c, context, s[i].bytes).value[k] == (x, o)
  }

  ghost predicate HasCoin(c: Codec, context: Hash, s: seq<StoredBlock>, x: nat) {
    exists i: nat, k: nat, o: nat :: CoinAt(c, context, s, i, k, x, o)
  }

  ghost predicate CoinTable(c: Codec, context: Hash, s: seq<StoredBlock>, m: map<nat, nat>) {
    && (forall x :: x in m ==> HasCoin(c, context, s, x))
    && (forall i: nat, k: nat, x: nat, o: nat :: CoinAt(c, context, s, i, k, x, o) ==> x in m && m[x] == o)
  }

  ghost predicate Once(c: Codec, context: Hash, s: seq<StoredBlock>) {
    forall i: nat, k: nat, j: nat, l: nat, x: nat, o: nat, o': nat ::
      CoinAt(c, context, s, i, k, x, o) && CoinAt(c, context, s, j, l, x, o') ==> i == j && k == l
  }

  ghost predicate StreamTables(c: Codec, context: Hash, s: seq<StoredBlock>, ix: Indexes) {
    HashTable(s, ix.blocks) && TxTable(s, ix.transactions) && ActTable(s, ix.activities) && CoinTable(c, context, s, ix.origins)
  }

  // ----- one block more -----

  predicate LastIn(ids: seq<nat>, p: nat, t: nat) {
    p < |ids| && ids[p] == t && forall q :: p < q < |ids| ==> ids[q] != t
  }

  lemma {:induction false} AddedTransactions(m: map<nat, (nat, nat)>, ids: seq<nat>, height: nat, t: nat)
    ensures var r := AddTransactions(m, ids, height);
            && (t in r <==> t in m || t in ids)
            && (t in ids ==> r[t].0 == height && LastIn(ids, r[t].1, t))
            && (t in m && t !in ids ==> r[t] == m[t])
  {
    if ids != [] {
      var n := |ids| - 1;
      AddedTransactions(m, ids[..n], height, t);
      assert ids == ids[..n] + [ids[n]];
      assert forall q :: 0 <= q < n ==> ids[q] == ids[..n][q];
    }
  }

  predicate ActIn(acts: seq<Activity>, height: nat, k: nat, x: (nat, nat, Option<nat>)) {
    k < |acts| && x == (acts[k].program, height, acts[k].transaction)
  }

  lemma {:induction false} AddedActivities(s: set<(nat, nat, Option<nat>)>, acts: seq<Activity>, height: nat, x: (nat, nat, Option<nat>))
    ensures x in AddActivities(s, acts, height) <==> x in s || exists k: nat :: ActIn(acts, height, k, x)
  {
    if acts != [] {
      var n := |acts| - 1;
      AddedActivities(s, acts[..n], height, x);
      assert ActIn(acts, height, n, (acts[n].program, height, acts[n].transaction));
      assert forall k: nat :: k < n ==> (ActIn(acts, height, k, x) <==> ActIn(acts[..n], height, k, x));
    }
  }

  /** No coin is there already, or comes twice. */
  predicate AllNew(m: map<nat, nat>, coins: seq<(nat, nat)>) {
    && (forall k :: 0 <= k < |coins| ==> coins[k].0 !in m)
    && (forall k, l :: 0 <= k < l < |coins| ==> coins[k].0 != coins[l].0)
  }

  predicate CoinIn(coins: seq<(nat, nat)>, x: nat) {
    exists k :: 0 <= k < |coins| && coins[k].0 == x
  }

  lemma {:induction false} AddedOrigins(m: map<nat, nat>, coins: seq<(nat, nat)>)
    ensures AddOrigins(m, coins).Some? <==> AllNew(m, coins)
    ensures AddOrigins(m, coins).Some? ==>
              var r := AddOrigins(m, coins).value;
              && (forall x :: x in r <==> x in m || CoinIn(coins, x))
              && (forall x :: x in m ==> r[x] == m[x])
              && (forall k :: 0 <= k < |coins| ==> coins[k].0 in r && r[coins[k].0] == coins[k].1)
  {
    if coins != [] {
      hide AllNew;
      var n := |coins| - 1;
      var before, last := coins[..n], coins[n];
      AddedOrigins(m, before);
      CoinInSnoc(coins);
      AllNewSnoc(m, coins);
      assert forall k :: 0 <= k < n ==> coins[k] == before[k];
    }
  }

  lemma AllNewSnoc(m: map<nat, nat>, coins: seq<(nat, nat)>)
    requires coins != []
    ensures var n := |coins| - 1;
            AllNew(m, coins) <==> AllNew(m, coins[..n]) && coins[n].0 !in m && !CoinIn(coins[..n], coins[n].0)
  {
    var n := |coins| - 1;
    var before := coins[..n];
    assert forall k :: 0 <= k < n ==> coins[k] == before[k];
    if CoinIn(before, coins[n].0) {
      var k :| 0 <= k < n && before[k].0 == coins[n].0;
      assert coins[k].0 == coins[n].0;
    }
  }

  lemma CoinInSnoc(coins: seq<(nat, nat)>)
    requires coins != []
    ensures var n := |coins| - 1; forall x :: CoinIn(coins, x) <==> CoinIn(coins[..n], x) || x == coins[n].0
  {
    var n := |coins| - 1;
    var before := coins[..n];
    forall x ensures CoinIn(coins, x) <==> CoinIn(before, x) || x == coins[n].0 {
      if CoinIn(before, x) {
        var k :| 0 <= k < n && before[k].0 == x;
        assert coins[k].0 == x;
      }
      if CoinIn(coins, x) && x != coins[n].0 {
        var k :| 0 <= k < |coins| && coins[k].0 == x;
        assert before[k].0 == x;
      }
    }
  }

  // ----- a stream filled in -----

  /** The blocks are what they say, and their coins are defined and never created twice. */
  ghost predicate Fillable(c: Codec, context: Hash, s: seq<StoredBlock>) {
    && (forall i :: 0 <= i < |s| ==> Identified(c, s[i]) && Coins(c, context, s[i].bytes).Some?)
    && Once(c, context, s)
  }

  lemma HashSnoc(s: seq<StoredBlock>, b: StoredBlock, m: map<Hash, nat>)
    requires HashTable(s, m) && b.height == |s|
    ensures HashTable(s + [b], m[b.hash := b.height])
  {
    var longer := s + [b];
    forall x
      ensures x in m[b.hash := b.height] <==> HasHash(longer, x)
      ensures forall i: nat :: HashAt(longer, i, x) <==> HashAt(s, i, x) || (i == |s| && x == b.hash)
    {
      assert forall i: nat :: HashAt(longer, i, x) <==> HashAt(s, i, x) || (i == |s| && x == b.hash);
      if x == b.hash {
        assert HashAt(longer, |s|, x);
      }
      if HasHash(s, x) {
        var i: nat :| HashAt(s, i, x);
        assert HashAt(longer, i, x);
      }
    }
  }

  lemma TxSnoc(s: seq<StoredBlock>, b: StoredBlock, m: map<nat, (nat, nat)>)
    requires TxTable(s, m) && b.height == |s|
    ensures TxTable(s + [b], AddTransactions(m, b.transactions, b.height))
  {
    hide AddTransactions;
    var longer, r := s + [b], AddTransactions(m, b.transactions, b.height);
    forall t ensures (t in r <==> HasTx(longer, t)) && (t in r ==> LastTx(longer, t, r[t].0, r[t].1)) {
      AddedTransactions(m, b.transactions, b.height, t);
      TxPlaces(s, b, t);
    }
  }

  /** Where an id occurs with one block more. */
  lemma TxPlaces(s: seq<StoredBlock>, b: StoredBlock, t: nat)
    ensures var longer := s + [b];
            && (forall i: nat, p: nat :: TxAt(longer, i, p, t) <==> TxAt(s, i, p, t) || (i == |s| && p < |b.transactions| && b.transactions[p] == t))
            && (HasTx(longer, t) <==> HasTx(s, t) || t in b.transactions)
  {
    var longer := s + [b];
    assert forall i: nat, p: nat :: TxAt(longer, i, p, t) <==> TxAt(s, i, p, t) || (i == |s| && p < |b.transactions| && b.transactions[p] == t);
    if HasTx(s, t) {
      var i: nat, p: nat :| TxAt(s, i, p, t);
      assert TxAt(longer, i, p, t);
    }
    if t in b.transactions {
      var p: nat :| p < |b.transactions| && b.transactions[p] == t;
      assert TxAt(longer, |s|, p, t);
    }
  }

  lemma ActSnoc(s: seq<StoredBlock>, b: StoredBlock, m: set<(nat, nat, Option<nat>)>)
    requires ActTable(s, m) && b.height == |s|
    ensures ActTable(s + [b], AddActivities(m, b.activities, b.height))
  {
    hide AddActivities;
    var longer := s + [b];
    forall x ensures x in AddActivities(m, b.activities, b.height) <==> HasAct(longer, x) {
      AddedActivities(m, b.activities, b.height, x);
      assert forall i: nat, k: nat :: ActAt(longer, i, k, x) <==> ActAt(s, i, k, x) || (i == |s| && ActIn(b.activities, |s|, k, x));
      if HasAct(s, x) {
        var i: nat, k: nat :| ActAt(s, i, k, x);
        assert ActAt(longer, i, k, x);
      }
      if k: nat :| ActIn(b.activities, |s|, k, x) {
        assert ActAt(longer, |s|, k, x);
      }
    }
  }

  lemma CoinPlaces(c: Codec, context: Hash, s: seq<StoredBlock>, b: StoredBlock, coins: seq<(nat, nat)>)
    requires Coins(c, context, b.bytes) == Some(coins)
    ensures var longer := s + [b];
            forall i: nat, k: nat, x: nat, o: nat ::
              CoinAt(c, context, longer, i, k, x, o) <==>
              CoinAt(c, context, s, i, k, x, o) || (i == |s| && k < |coins| && coins[k] == (x, o))
  {
    hide Coins;
  }

  lemma CoinSnoc(c: Codec, context: Hash, s: seq<StoredBlock>, b: StoredBlock, coins: seq<(nat, nat)>, m: map<nat, nat>)
    requires CoinTable(c, context, s, m) && Coins(c, context, b.bytes) == Some(coins) && AllNew(m, coins)
    ensures AddOrigins(m, coins).Some? && CoinTable(c, context, s + [b], AddOrigins(m, coins).value)
  {
    hide AddOrigins, Coins, CoinAt;
    AddedOrigins(m, coins);
    CoinPlaces(c, context, s, b, coins);
    var longer, r := s + [b], AddOrigins(m, coins).value;
    forall x | x in r ensures HasCoin(c, context, longer, x) {
      if x in m {
        var i: nat, k: nat, o: nat :| CoinAt(c, context, s, i, k, x, o);
        assert CoinAt(c, context, longer, i, k, x, o);
      } else {
        var k :| 0 <= k < |coins| && coins[k].0 == x;
        assert CoinAt(c, context, longer, |s|, k, x, coins[k].1);
      }
    }
  }

  lemma OnceSnoc(c: Codec, context: Hash, s: seq<StoredBlock>, b: StoredBlock, coins: seq<(nat, nat)>, m: map<nat, nat>)
    requires CoinTable(c, context, s, m) && Coins(c, context, b.bytes) == Some(coins) && Once(c, context, s)
    ensures Once(c, context, s + [b]) <==> AllNew(m, coins)
  {
    hide Coins, CoinAt;
    CoinPlaces(c, context, s, b, coins);
    var longer := s + [b];
    if Once(c, context, longer) {
      forall k | 0 <= k < |coins| ensures coins[k].0 !in m {
        if coins[k].0 in m {
          var i: nat, l: nat, o: nat :| CoinAt(c, context, s, i, l, coins[k].0, o);
          assert CoinAt(c, context, longer, i, l, coins[k].0, o);
          assert CoinAt(c, context, longer, |s|, k, coins[k].0, coins[k].1);
          InRange(c, context, s, i, l, coins[k].0, o);
        }
      }
      forall k, l | 0 <= k < l < |coins| ensures coins[k].0 != coins[l].0 {
        assert CoinAt(c, context, longer, |s|, k, coins[k].0, coins[k].1);
        assert CoinAt(c, context, longer, |s|, l, coins[l].0, coins[l].1);
      }
    }
  }

  lemma InRange(c: Codec, context: Hash, s: seq<StoredBlock>, i: nat, k: nat, x: nat, o: nat)
    requires CoinAt(c, context, s, i, k, x, o)
    ensures i < |s|
  {
  }

  lemma OncePrefix(c: Codec, context: Hash, s: seq<StoredBlock>)
    requires s != [] && Once(c, context, s)
    ensures Once(c, context, s[..|s| - 1])
  {
    var before := s[..|s| - 1];
    assert forall i: nat, k: nat, x: nat, o: nat :: CoinAt(c, context, before, i, k, x, o) ==> CoinAt(c, context, s, i, k, x, o);
  }

  lemma NothingListed(c: Codec, context: Hash)
    ensures Fillable(c, context, []) && StreamTables(c, context, [], NO_INDEXES)
  {
  }

  /** Filling succeeds exactly for fillable streams, and then the tables list them. */
  lemma {:induction false} FilledMeaning(c: Codec, context: Hash, s: seq<StoredBlock>)
    requires Contiguous(s)
    ensures Filled(c, context, s).Some? <==> Fillable(c, context, s)
    ensures Filled(c, context, s).Some? ==> StreamTables(c, context, s, Filled(c, context, s).value.1)
  {
    if s == [] {
      NothingListed(c, context);
    } else {
      hide Fillable, StreamTables, Indexed;
      var n := |s| - 1;
      FilledMeaning(c, context, s[..n]);
      if Filled(c, context, s[..n]).Some? {
        IndexedMeaning(c, context, s[..n], s[n], Filled(c, context, s[..n]).value.1);
        assert s[..n] + [s[n]] == s;
      }
      FillablePrefix(c, context, s);
    }
  }

  lemma FillablePrefix(c: Codec, context: Hash, s: seq<StoredBlock>)
    requires s != []
    ensures Fillable(c, context, s) ==> Fillable(c, context, s[..|s| - 1])
  {
    hide Once, Coins, Identified;
    if Fillable(c, context, s) {
      OncePrefix(c, context, s);
    }
  }

  lemma IndexedMeaning(c: Codec, context: Hash, s: seq<StoredBlock>, b: StoredBlock, ix: Indexes)
    requires Fillable(c, context, s) && StreamTables(c, context, s, ix) && b.height == |s|
    ensures Indexed(c, context, ix, b).Some? <==> Fillable(c, context, s + [b])
    ensures Indexed(c, context, ix, b).Some? ==> StreamTables(c, context, s + [b], Indexed(c, context, ix, b).value)
  {
    hide HashTable, TxTable, ActTable, CoinTable, Once, AddTransactions, AddActivities, AddOrigins, AllNew;
    var longer := s + [b];
    assert longer[|s|] == b && forall i :: 0 <= i < |s| ==> longer[i] == s[i];
    if Identified(c, b) && Coins(c, context, b.bytes).Some? {
      var coins := Coins(c, context, b.bytes).value;
      OnceSnoc(c, context, s, b, coins, ix.origins);
      AddedOrigins(ix.origins, coins);
      if AllNew(ix.origins, coins) {
        HashSnoc(s, b, ix.blocks);
        TxSnoc(s, b, ix.transactions);
        ActSnoc(s, b, ix.activities);
        CoinSnoc(c, context, s, b, coins, ix.origins);
      }
    }
  }

  // ----- the tables of a reachable generation -----

  predicate Lists(c: Codec, blocks: map<nat, Data>, h: nat, p: nat, t: nat) {
    h in blocks && c.decode(blocks[h]).Some? &&
    var ids := c.decode(blocks[h]).value.transactions;
    p < |ids| && ids[p] == t
  }

  predicate Acts(c: Codec, blocks: map<nat, Data>, h: nat, k: nat, program: nat, transaction: Option<nat>) {
    h in blocks && c.decode(blocks[h]).Some? &&
    var acts := c.decode(blocks[h]).value.activities;
    k < |acts| && acts[k] == Activity(program, transaction)
  }

  predicate Hashes(c: Codec, blocks: map<nat, Data>, h: nat, x: Hash) {
    h in blocks && c.decode(blocks[h]).Some? && c.decode(blocks[h]).value.hash == Some(x)
  }

  predicate Creates(c: Codec, blocks: map<nat, Data>, h: nat, k: nat, x: nat, o: nat) {
    0 in blocks && h in blocks && c.decode(blocks[0]).Some? && c.decode(blocks[0]).value.hash.Some? && c.decode(blocks[h]).Some? &&
    var coins := c.coins(c.decode(blocks[h]).value, c.decode(blocks[0]).value.hash.value);
    coins.Some? && k < |coins.value| && coins.value[k] == (x, o)
  }

  ghost predicate HashesOf(c: Codec, blocks: map<nat, Data>, m: map<Hash, nat>) {
    && (forall x :: x in m <==> exists h: nat :: Hashes(c, blocks, h, x))
    && (forall x :: x in m ==> Hashes(c, blocks, m[x], x) && forall h: nat :: Hashes(c, blocks, h, x) ==> h <= m[x])
  }

  ghost predicate TransactionsOf(c: Codec, blocks: map<nat, Data>, m: map<nat, (nat, nat)>) {
    && (forall t :: t in m <==> exists h: nat, p: nat :: Lists(c, blocks, h, p, t))
    && (forall t :: t in m ==>
          Lists(c, blocks, m[t].0, m[t].1, t) && forall h: nat, p: nat :: Lists(c, blocks, h, p, t) ==> h < m[t].0 || (h == m[t].0 && p <= m[t].1))
  }

  ghost predicate ActivitiesOf(c: Codec, blocks: map<nat, Data>, m: set<(nat, nat, Option<nat>)>) {
    forall x :: x in m <==> exists k: nat :: Acts(c, blocks, x.1, k, x.0, x.2)
  }

  ghost predicate OriginsOf(c: Codec, blocks: map<nat, Data>, m: map<nat, nat>) {
    && (forall x :: x in m ==> exists h: nat, k: nat :: Creates(c, blocks, h, k, x, m[x]))
    && (forall h: nat, k: nat, x: nat, o: nat :: Creates(c, blocks, h, k, x, o) ==> x in m && m[x] == o)
    && (forall h: nat, k: nat, j: nat, l: nat, x: nat, o: nat, o': nat ::
          Creates(c, blocks, h, k, x, o) && Creates(c, blocks, j, l, x, o') ==> h == j && k == l)
  }

  /** The four tables, in terms of the bodies and what they decode to: every block hash with its
      last height, every transaction id with the last place it is listed at, every activity with
      its height, and every coin, created once, with its origin; and nothing else. */
  ghost predicate TablesOf(c: Codec, blocks: map<nat, Data>, ix: Indexes) {
    && HashesOf(c, blocks, ix.blocks) && TransactionsOf(c, blocks, ix.transactions)
    && ActivitiesOf(c, blocks, ix.activities) && OriginsOf(c, blocks, ix.origins)
  }

  lemma TxOfStream(c: Codec, blocks: map<nat, Data>, n: nat, m: map<nat, (nat, nat)>)
    requires AllDecode(c, blocks) && (forall h: nat :: h in blocks <==> h < n)
    requires TxTable(Entries(c, blocks, n), m)
    ensures TransactionsOf(c, blocks, m)
  {
    var s := Entries(c, blocks, n);
    assert forall h: nat, p: nat, t: nat :: TxAt(s, h, p, t) <==> Lists(c, blocks, h, p, t) by {
      forall h: nat, p: nat, t: nat ensures TxAt(s, h, p, t) <==> Lists(c, blocks, h, p, t) {
        assert h in blocks ==> Decodes(c, blocks[h], h);
      }
    }
    forall t ensures t in m <==> exists h: nat, p: nat :: Lists(c, blocks, h, p, t) {
      if HasTx(s, t) {
        var i: nat, p: nat :| TxAt(s, i, p, t);
        assert Lists(c, blocks, i, p, t);
      }
      if h: nat, p: nat :| Lists(c, blocks, h, p, t) {
        assert TxAt(s, h, p, t);
      }
    }
  }

  lemma HashesOfStream(c: Codec, blocks: map<nat, Data>, n: nat, m: map<Hash, nat>)
    requires AllDecode(c, blocks) && (forall h: nat :: h in blocks <==> h < n)
    requires HashTable(Entries(c, blocks, n), m)
    ensures HashesOf(c, blocks, m)
  {
    var s := Entries(c, blocks, n);
    assert forall h: nat, x: nat :: HashAt(s, h, x) <==> Hashes(c, blocks, h, x) by {
      forall h: nat, x: nat ensures HashAt(s, h, x) <==> Hashes(c, blocks, h, x) {
        assert h in blocks ==> Decodes(c, blocks[h], h);
      }
    }
    forall x ensures x in m <==> exists h: nat :: Hashes(c, blocks, h, x) {
      if HasHash(s, x) {
        var i: nat :| HashAt(s, i, x);
        assert Hashes(c, blocks, i, x);
      }
      if h: nat :| Hashes(c, blocks, h, x) {
        assert HashAt(s, h, x);
      }
    }
  }

  lemma ActsOfStream(c: Codec, blocks: map<nat, Data>, n: nat, m: set<(nat, nat, Option<nat>)>)
    requires AllDecode(c, blocks) && (forall h: nat :: h in blocks <==> h < n)
    requires ActTable(Entries(c, blocks, n), m)
    ensures ActivitiesOf(c, blocks, m)
  {
    var s := Entries(c, blocks, n);
    forall x ensures x in m <==> exists k: nat :: Acts(c, blocks, x.1, k, x.0, x.2) {
      assert x.1 in blocks ==> Decodes(c, blocks[x.1], x.1);
      if HasAct(s, x) {
        var i: nat, k: nat :| ActAt(s, i, k, x);
        assert Acts(c, blocks, x.1, k, x.0, x.2);
      }
      if k: nat :| Acts(c, blocks, x.1, k, x.0, x.2) {
        assert ActAt(s, x.1, k, x);
      }
    }
  }

  lemma CoinsOfStream(c: Codec, blocks: map<nat, Data>, n: nat, context: Hash, m: map<nat, nat>)
    requires AllDecode(c, blocks) && (forall h: nat :: h in blocks <==> h < n) && 0 in blocks && Context(c, blocks[0]) == Some(context)
    requires CoinTable(c, context, Entries(c, blocks, n), m) && Once(c, context, Entries(c, blocks, n))
    ensures OriginsOf(c, blocks, m)
  {
    var s := Entries(c, blocks, n);
    assert forall h: nat, k: nat, x: nat, o: nat :: CoinAt(c, context, s, h, k, x, o) <==> Creates(c, blocks, h, k, x, o) by {
      forall h: nat, k: nat, x: nat, o: nat ensures CoinAt(c, context, s, h, k, x, o) <==> Creates(c, blocks, h, k, x, o) {
        assert h in blocks ==> Decodes(c, blocks[h], h);
      }
    }
    hide Creates, CoinAt, Entries, Context;
    forall x | x in m ensures exists h: nat, k: nat :: Creates(c, blocks, h, k, x, m[x]) {
      var i: nat, k: nat, o: nat :| CoinAt(c, context, s, i, k, x, o);
      assert Creates(c, blocks, i, k, x, m[x]);
    }
  }

  lemma AgreeMeaning(c: Codec, db: Db)
    requires db.meta.tipHeight.Some? && AllDecode(c, db.blocks) && Agree(c, db)
    ensures TablesOf(c, db.blocks, db.ix)
  {
    hide Filled, HashTable, TxTable, ActTable, CoinTable, Once, HashesOf, TransactionsOf, ActivitiesOf, OriginsOf;
    var n := db.meta.tipHeight.value + 1;
    var s, context := Entries(c, db.blocks, n), Context(c, db.blocks[0]).value;
    FilledMeaning(c, context, s);
    HashesOfStream(c, db.blocks, n, db.ix.blocks);
    TxOfStream(c, db.blocks, n, db.ix.transactions);
    ActsOfStream(c, db.blocks, n, db.ix.activities);
    CoinsOfStream(c, db.blocks, n, context, db.ix.origins);
  }

  /** Over every run without a stale rebuild since the last replacement: where no body lies above
      the recorded height, the tables list exactly what the stored bodies say. */
  lemma {:induction false} TablesMeaning(c: Codec, ops: seq<Op>)
    requires AllProper(c, ops) && Current(c, ops) && Bounded(Run(c, ops))
    ensures TablesOf(c, Run(c, ops).blocks, Run(c, ops).ix)
  {
    hide Run, Current, AllProper, Agree, TablesOf;
    IndexesHold(c, ops);
    AgreeMeaning(c, Run(c, ops));
  }

  // ----- exactly when a transaction commits, and which bodies it leaves -----

  /** The bytes are those of a genesis block with this hash. */
  predicate Genesis(c: Codec, bytes: Data, context: Hash) {
    && c.decode(bytes).Some? && c.decode(bytes).value.height == 0
    && c.decode(bytes).value.hash == Some(context)
  }

  /** A new body, with genesis stored or being it, that is what it says and creates new coins only. */
  ghost predicate Appends(c: Codec, db: Db, b: StoredBlock) {
    && b.height !in db.blocks && Identified(c, b)
    && exists context ::
         && Genesis(c, if b.height == 0 then b.bytes else if 0 in db.blocks then db.blocks[0] else [], context)
         && (b.height == 0 || 0 in db.blocks)
         && Coins(c, context, b.bytes).Some? && AllNew(db.ix.origins, Coins(c, context, b.bytes).value)
  }

  lemma AppendCommits(c: Codec, db: Db, b: StoredBlock, mempool: seq<Data>)
    ensures Appended(c, db, b, mempool).Some? <==> Appends(c, db, b)
    ensures Appended(c, db, b, mempool).Some? ==>
              var db' := Appended(c, db, b, mempool).value;
              && db'.blocks == db.blocks[b.height := b.bytes] && db'.mempool == mempool
              && db'.snapshots == db.snapshots && db'.checkpoints == db.checkpoints
  {
    hide AddTransactions, AddActivities, AddOrigins, AllNew;
    if b.height !in db.blocks && (b.height == 0 || 0 in db.blocks) {
      var first := if b.height == 0 then b.bytes else db.blocks[0];
      assert db.blocks[b.height := b.bytes][0] == first;
      if Context(c, first).Some? && Coins(c, Context(c, first).value, b.bytes).Some? {
        assert Genesis(c, first, Context(c, first).value);
        AddedOrigins(db.ix.origins, Coins(c, Context(c, first).value, b.bytes).value);
      }
    }
  }

  /** A chain from a genesis block, fillable, with a snapshot of its tip or none. */
  ghost predicate Replaces(c: Codec, s: seq<StoredBlock>, snapshot: Option<(nat, Data)>) {
    && s != [] && (snapshot.Some? ==> snapshot.value.0 == |s| - 1)
    && exists context :: Genesis(c, s[0].bytes, context) && Fillable(c, context, s)
  }

  lemma ReplaceCommits(c: Codec, db: Db, s: seq<StoredBlock>, mempool: seq<Data>, snapshot: Option<(nat, Data)>)
    requires Contiguous(s)
    ensures Replaced(c, db, s, mempool, snapshot).Some? <==> Replaces(c, s, snapshot)
    ensures Replaced(c, db, s, mempool, snapshot).Some? ==>
              var db' := Replaced(c, db, s, mempool, snapshot).value;
              && (forall h: nat :: h in db'.blocks <==> h < |s|)
              && (forall h: nat :: h < |s| ==> db'.blocks[h] == s[h].bytes)
              && db'.mempool == mempool
              && db'.meta == Meta(Some(|s| - 1), Some(s[|s| - 1].hash), true, true)
  {
    hide Filled, CommonLength, Fillable;
    if s != [] && Context(c, s[0].bytes).Some? {
      var context := Context(c, s[0].bytes).value;
      assert Genesis(c, s[0].bytes, context);
      FilledMeaning(c, context, s);
      if Filled(c, context, s).Some? {
        FilledBodies(c, context, s);
      }
    }
  }

  /** A rebuild also refuses repeated block and transaction ids. */
  ghost predicate Rebuilds(c: Codec, s: seq<StoredBlock>) {
    && s != [] && DistinctIds(s)
    && exists context :: Genesis(c, s[0].bytes, context) && Fillable(c, context, s)
  }

  lemma {:induction false} RebuiltDistinct(c: Codec, context: Hash, s: seq<StoredBlock>)
    requires Contiguous(s) && Rebuilt(c, context, s).Some?
    ensures DistinctIds(s)
  {
    if s != [] {
      hide Indexed, DistinctIds, Repeats;
      var n := |s| - 1;
      RebuiltDistinct(c, context, s[..n]);
      RebuiltIsFilled(c, context, s[..n]);
      FilledMeaning(c, context, s[..n]);
      DistinctSnoc(c, context, s, Rebuilt(c, context, s[..n]).value);
    } else {
      NoneRepeat();
    }
  }

  lemma NoneRepeat()
    ensures DistinctIds([])
  {
  }

  lemma DistinctSnoc(c: Codec, context: Hash, s: seq<StoredBlock>, ix: Indexes)
    requires s != [] && StreamTables(c, context, s[..|s| - 1], ix) && DistinctIds(s[..|s| - 1])
    requires var b := s[|s| - 1]; b.hash !in ix.blocks && !Repeats(ix.transactions, b.transactions)
    ensures DistinctIds(s)
  {
    hide CoinTable, ActTable;
    var n := |s| - 1;
    var before, b := s[..n], s[n];
    assert forall i :: 0 <= i < n ==> before[i] == s[i];
    forall i | 0 <= i < n ensures s[i].hash != b.hash {
      assert HashAt(before, i, s[i].hash);
    }
    forall i, p, q | 0 <= i < n && 0 <= p < |s[i].transactions| && 0 <= q < |b.transactions|
      ensures s[i].transactions[p] != b.transactions[q]
    {
      assert TxAt(before, i, p, s[i].transactions[p]);
      assert HasTx(before, s[i].transactions[p]);
    }
  }

  lemma RebuildCommits(c: Codec, db: Db, s: seq<StoredBlock>)
    requires Contiguous(s)
    ensures Reindexed(c, db, s).Some? <==> Rebuilds(c, s)
    ensures Reindexed(c, db, s).Some? ==>
              && exists context :: Genesis(c, s[0].bytes, context) && StreamTables(c, context, s, Reindexed(c, db, s).value.ix)
    ensures Reindexed(c, db, s).Some? ==>
              Reindexed(c, db, s).value == db.(ix := Reindexed(c, db, s).value.ix, meta := Meta(Some(|s| - 1), Some(s[|s| - 1].hash), true, true))
  {
    hide Filled, Rebuilt, Fillable, DistinctIds, StreamTables;
    if s != [] && Context(c, s[0].bytes).Some? {
      var context := Context(c, s[0].bytes).value;
      assert Genesis(c, s[0].bytes, context);
      FilledMeaning(c, context, s);
      if Rebuilt(c, context, s).Some? {
        RebuiltIsFilled(c, context, s);
        RebuiltDistinct(c, context, s);
      } else if Filled(c, context, s).Some? && DistinctIds(s) {
        FilledIsRebuilt(c, context, s);
      }
    }
  }

  // ----- the recorded tip moves with the chain -----

  /** While the recorded tip is the highest body, the next block appended becomes the recorded tip,
      and so does a genesis block in an empty store. */
  lemma AppendAdvances(c: Codec, db: Db, b: StoredBlock, mempool: seq<Data>)
    requires Appended(c, db, b, mempool).Some?
    requires if b.height == 0 then db.blocks == map[] else AtTip(c, db) && db.meta.originVersion && db.meta.tipHeight == Some(b.height - 1)
    ensures var db' := Appended(c, db, b, mempool).value;
            AtTip(c, db') && db'.meta.tipHeight == Some(b.height) && db'.meta.tipHash == Some(b.hash) && db'.meta.originVersion
  {
    hide Indexed;
    AppendedParts(c, db, b, mempool);
  }

  /** The run consists of committed appends of blocks 0, 1, 2, and so on. */
  ghost predicate Growing(c: Codec, ops: seq<Op>) {
    forall i :: 0 <= i < |ops| ==>
      ops[i].AppendOp? && ops[i].block.height == i && Derived(c, ops[i].block) && Outcome(c, Run(c, ops[..i]), ops[i]).Some?
  }

  /** After such a run the recorded tip is the last block, and the tables list the whole chain. */
  lemma {:induction false} GrowingIndexed(c: Codec, ops: seq<Op>)
    requires Growing(c, ops) && ops != []
    ensures var db, b := Run(c, ops), ops[|ops| - 1].block;
            && (forall h: nat :: h in db.blocks <==> h < |ops|)
            && AtTip(c, db) && db.meta.tipHeight == Some(b.height) && db.meta.tipHash == Some(b.hash) && db.meta.originVersion
            && TablesOf(c, db.blocks, db.ix)
  {
    hide TablesOf, Current, AllProper, AtTip;
    GrowingTip(c, ops);
    GrowingProper(c, ops);
    AtTipBounded(c, Run(c, ops));
    TablesMeaning(c, ops);
  }

  lemma AtTipBounded(c: Codec, db: Db)
    requires AtTip(c, db)
    ensures Bounded(db)
  {
  }

  lemma {:induction false} GrowingTip(c: Codec, ops: seq<Op>)
    requires Growing(c, ops) && ops != []
    ensures var db, b := Run(c, ops), ops[|ops| - 1].block;
            && (forall h: nat :: h in db.blocks <==> h < |ops|)
            && AtTip(c, db) && db.meta.tipHeight == Some(b.height) && db.meta.tipHash == Some(b.hash) && db.meta.originVersion
  {
    hide Appended, Replaced, Reindexed, Put, AtTip, Derived;
    var n := |ops| - 1;
    var before, op := ops[..n], ops[n];
    assert ops[n].AppendOp? && Outcome(c, Run(c, before), op).Some?;
    GrowingPrefix(c, ops);
    if n > 0 {
      GrowingTip(c, before);
    }
    AppendAdvances(c, Run(c, before), op.block, op.mempool);
    AppendedParts(c, Run(c, before), op.block, op.mempool);
  }

  lemma GrowingPrefix(c: Codec, ops: seq<Op>)
    requires Growing(c, ops) && ops != []
    ensures Growing(c, ops[..|ops| - 1])
  {
    hide Outcome, Run, Derived;
    var before := ops[..|ops| - 1];
    forall i | 0 <= i < |before|
      ensures before[i].AppendOp? && before[i].block.height == i && Derived(c, before[i].block) && Outcome(c, Run(c, before[..i]), before[i]).Some?
    {
      assert before[..i] == ops[..i] && before[i] == ops[i];
    }
  }

  lemma {:induction false} GrowingProper(c: Codec, ops: seq<Op>)
    requires Growing(c, ops)
    ensures AllProper(c, ops) && Current(c, ops)
  {
    hide Run, Derived, Outcome;
    if ops != [] {
      GrowingPrefix(c, ops);
      GrowingProper(c, ops[..|ops| - 1]);
      assert ops[|ops| - 1].AppendOp?;
    }
  }
}
