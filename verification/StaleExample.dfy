/** Two concrete runs of the storage transactions: one after which the index tables are those of
    another branch although the recorded tip matches, and one after which a tip is recorded but
    not reported. */
module StaleExample {
  import opened Wrappers
  import opened Bytes
  import opened StorageModel
  import opened StorageRuns
  import opened StorageIndexes
  import opened StaleIndexes
  import opened BlockIdentity

  /** Block 0 is genesis; 1 and 2 are two children of it, and 3 is a child of 2. */
  function HeightOf(n: nat): nat {
    if n == 0 then 0 else if n <= 2 then 1 else 2
  }

  function Decoded(bytes: Data): Option<Canonical> {
    if |bytes| != 1 || bytes[0] > 3 then None
    else
      var n := bytes[0] as nat;
      Some(Canonical(HeightOf(n), n, Some(100 + n), [], [], n))
  }

  /** Every block above genesis creates one coin, named after it. */
  function Minted(d: Canonical, context: Hash): Option<seq<(nat, nat)>> {
    Some(if d.height == 0 then [] else [(d.body, d.height)])
  }

  const DEMO := Codec((b: Data) => OfBytes(b), NoHistory, (d: Digest, h: nat, b: Digest) => Extended(d, h, b),
                      Decoded, Decoded, (h: nat) => Some(100 + h), Minted, 1, 100, 0)

  function Block(n: nat): StoredBlock
    requires n <= 3
  {
    StoredBlock(HeightOf(n), 100 + n, [n as Byte], [], [])
  }

  lemma DemoCodec()
    ensures Mints(DEMO)
    ensures forall n: nat | n <= 3 :: Identified(DEMO, Block(n)) && Derived(DEMO, Block(n))
  {
  }

  /** Parents as drawn above; header and body of block `n` share its number. */
  const DEMO_LINKS := Links((n: nat) => if n == 0 then 0 else if n <= 2 then 100 else 102, (n: nat) => n, (n: nat) => n)

  lemma DemoIdeal()
    ensures Ideal(DEMO, DEMO_LINKS)
  {
  }

  lemma DemoChains()
    ensures Chains(DEMO, DEMO_LINKS, Handed(STALE))
  {
    hide Handed;
    HandedAll();
    assert IsParent(DEMO, DEMO_LINKS, Block(0).bytes, Block(1).bytes);
    assert IsParent(DEMO, DEMO_LINKS, Block(0).bytes, Block(2).bytes);
    assert IsParent(DEMO, DEMO_LINKS, Block(2).bytes, Block(3).bytes);
  }

  lemma HandedAll()
    ensures Handed(STALE) == {Block(0).bytes, Block(1).bytes, Block(2).bytes, Block(3).bytes}
  {
    assert STALE[..2][..1] == STALE[..1] && STALE[..1][..0] == [];
    PairBytes(2);
    PairBytes(1);
    assert Handed(STALE[..1]) == {Block(0).bytes, Block(2).bytes};
    assert Handed(STALE[..2]) == {Block(0).bytes, Block(2).bytes, Block(1).bytes};
  }

  lemma PairBytes(n: nat)
    requires n <= 3
    ensures StreamBytes([Block(0), Block(n)]) == {Block(0).bytes, Block(n).bytes}
  {
    var s := [Block(0), Block(n)];
    assert s[0].bytes in StreamBytes(s) && s[1].bytes in StreamBytes(s);
  }

  /** Tables after the blocks listed so far, in closed form: hashes with heights, coins with heights. */
  function Tables(blocks: map<Hash, nat>, origins: map<nat, nat>): Indexes {
    Indexes(blocks, map[], {}, origins)
  }

  lemma IndexBlock(blocks: map<Hash, nat>, origins: map<nat, nat>, n: nat)
    requires n <= 3 && n !in origins
    ensures Indexed(DEMO, 100, Tables(blocks, origins), Block(n)) ==
            Some(Tables(blocks[100 + n := HeightOf(n)], if n == 0 then origins else origins[n := HeightOf(n)]))
  {
    var d := DEMO.decode(Block(n).bytes).value;
    assert AddOrigins(origins, []) == Some(origins);
    if n > 0 {
      var coins: seq<(nat, nat)> := [(n, HeightOf(n))];
      assert coins[..0] == [];
      assert DEMO.coins(d, 100) == Some(coins);
    }
  }

  /** A two-block chain: what a replacement fills and what a rebuild writes. */
  lemma Pair(n: nat)
    requires 1 <= n <= 2
    ensures var s := [Block(0), Block(n)];
            var tables := Tables(map[100 := 0, 100 + n := 1], map[n := 1]);
            && Contiguous(s) && AllDerived(DEMO, s)
            && Context(DEMO, s[0].bytes) == Some(100)
            && Filled(DEMO, 100, s) == Some((map[0 := [0 as Byte], 1 := [n as Byte]], tables))
            && Rebuilt(DEMO, 100, s) == Some(tables)
  {
    hide Indexed;
    var s := [Block(0), Block(n)];
    var first := s[..1];
    assert first == [Block(0)] && first[..0] == [] && Tables(map[], map[]) == NO_INDEXES;
    IndexBlock(map[], map[], 0);
    assert Filled(DEMO, 100, first) == Some((map[0 := [0 as Byte]], Tables(map[100 := 0], map[])));
    assert Rebuilt(DEMO, 100, first) == Some(Tables(map[100 := 0], map[]));
    IndexBlock(map[100 := 0], map[], n);
  }

  const STALE: seq<Op> := [ReplaceOp([Block(0), Block(2)], [], None), RebuildOp([Block(0), Block(1)]), AppendOp(Block(3), [])]

  /** The branch 0, 2 replaces the store; a rebuild from the abandoned branch 0, 1 commits. */
  lemma AfterRebuild()
    ensures var db := Run(DEMO, STALE[..2]);
            && Outcome(DEMO, Run(DEMO, STALE[..1]), STALE[1]) == Some(db)
            && db.blocks == map[0 := [0 as Byte], 1 := [2 as Byte]]
            && db.ix == Tables(map[100 := 0, 101 := 1], map[1 := 1])
            && db.meta == Meta(Some(1), Some(101), true, true)
            && Run(DEMO, STALE[..1]).blocks == db.blocks
  {
    hide Filled, Rebuilt, Indexed, Context;
    Pair(2);
    Pair(1);
    assert STALE[..2][..1] == STALE[..1] && STALE[..1][..0] == [];
    assert Run(DEMO, STALE[..1]) == Step(DEMO, EMPTY, STALE[0]);
  }

  /** The append of block 3 checks only the recorded height, so the recorded tip becomes block 3. */
  lemma AfterAppend()
    ensures var db := Run(DEMO, STALE);
            && Outcome(DEMO, Run(DEMO, STALE[..2]), STALE[2]) == Some(db)
            && db.blocks == map[0 := [0 as Byte], 1 := [2 as Byte], 2 := [3 as Byte]]
            && db.ix == Tables(map[100 := 0, 101 := 1, 103 := 2], map[1 := 1, 3 := 2])
            && db.meta == Meta(Some(2), Some(103), true, true)
  {
    hide Filled, Rebuilt, Indexed;
    AfterRebuild();
    IndexBlock(map[100 := 0, 101 := 1], map[1 := 1], 3);
  }

  lemma StaleProper()
    ensures AllProper(DEMO, STALE) && !Current(DEMO, STALE)
  {
    hide Filled, Rebuilt, Indexed, Outcome;
    AfterRebuild();
    AfterAppend();
    Pair(1);
    Pair(2);
    assert STALE[..2][..1] == STALE[..1];
    assert !IsStored(DEMO, Run(DEMO, STALE[..1]).blocks, STALE[1].stream) by {
      assert STALE[1].stream[1].bytes == [1 as Byte];
    }
    assert !Current(DEMO, STALE[..2]);
  }

  /** Reported tip and highest body match in height and hash, yet the tables list the abandoned
      block 1 and miss the stored block 2. */
  lemma StaleAtMatchingTip()
    ensures Ideal(DEMO, DEMO_LINKS) && Chains(DEMO, DEMO_LINKS, Handed(STALE)) && HashPins(DEMO, Handed(STALE))
    ensures Mints(DEMO) && AllProper(DEMO, STALE)
    ensures var db := Run(DEMO, STALE);
            && ReportedAtTip(DEMO, db) && AtTip(DEMO, db) && AllDecode(DEMO, db.blocks)
            && 1 in db.blocks && db.blocks[1] == Block(2).bytes
            && Block(1).hash in db.ix.blocks && Block(2).hash !in db.ix.blocks
            && !Agree(DEMO, db)
  {
    hide Run, Filled, AllProper, HashPins, Mints, Handed, Ideal, Chains;
    DemoCodec();
    DemoIdeal();
    DemoChains();
    AdmittedPins(DEMO, DEMO_LINKS, Handed(STALE));
    AfterAppend();
    StaleProper();
    AgreeIffCurrent(DEMO, STALE);
  }

  /** A store that has only been appended to records a tip and reports none. */
  lemma RecordedNotReported()
    ensures var m := Run(DEMO, [AppendOp(Block(0), [])]).meta;
            m == Meta(Some(0), Some(100), true, false) && ReportedTip(m).None?
  {
    hide Indexed;
    IndexBlock(map[], map[], 0);
    assert [AppendOp(Block(0), [])][..0] == [];
    assert Tables(map[], map[]) == NO_INDEXES;
  }
}
