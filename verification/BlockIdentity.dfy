/** Why a block hash names one encoding among admitted blocks, although it is the hash of the
    header alone (kernel/src/blockchain/block.rs) and plain decoding makes no further check: the
    Merkle root in the header fixes the body, and the links down to genesis fix the height. */
module BlockIdentity {
  import opened Wrappers
  import opened StorageModel
  import opened StorageRuns
  import opened StorageIndexes
  import opened StaleIndexes

  const ZERO_HASH: Hash := 0

  /** What admission compares: the parent's hash and the Merkle root in a header, and the Merkle
      root of a body. */
  datatype Links = Links(previous: nat -> Hash, rootIn: nat -> nat, rootOf: nat -> nat)

  /** Header hashes and Merkle roots do not collide, no header hashes to zero, and a block has one
      encoding. */
  ghost predicate Ideal(c: Codec, l: Links) {
    && (forall a, b :: c.headerHash(a).Some? && c.headerHash(a) == c.headerHash(b) ==> a == b)
    && (forall a :: c.headerHash(a) != Some(ZERO_HASH))
    && (forall a, b :: l.rootOf(a) == l.rootOf(b) ==> a == b)
    && (forall a, b :: SameBlock(c, a, b) ==> a == b)
  }

  predicate SameBlock(c: Codec, a: Data, b: Data) {
    && c.decode(a).Some? && c.decode(b).Some?
    && var x, y := c.decode(a).value, c.decode(b).value;
       x.height == y.height && x.header == y.header && x.body == y.body
  }

  /** The hash is the header's, and the header carries the body's Merkle root. */
  predicate Admitted(c: Codec, l: Links, bytes: Data) {
    && c.decode(bytes).Some?
    && var d := c.decode(bytes).value;
       d.hash.Some? && d.hash == c.headerHash(d.header) && l.rootIn(d.header) == l.rootOf(d.body)
  }

  predicate IsParent(c: Codec, l: Links, p: Data, x: Data) {
    && c.decode(p).Some? && c.decode(x).Some?
    && c.decode(p).value.height + 1 == c.decode(x).value.height
    && c.decode(p).value.hash == Some(l.previous(c.decode(x).value.header))
  }

  /** Admitted blocks, each with its parent down to genesis. */
  ghost predicate Chains(c: Codec, l: Links, known: set<Data>) {
    forall x :: x in known ==>
      && Admitted(c, l, x)
      && if c.decode(x).value.height == 0 then l.previous(c.decode(x).value.header) == ZERO_HASH
         else exists p :: p in known && IsParent(c, l, p, x)
  }

  lemma ParentIn(c: Codec, l: Links, known: set<Data>, x: Data) returns (p: Data)
    requires Chains(c, l, known) && x in known && c.decode(x).Some? && c.decode(x).value.height > 0
    ensures p in known && IsParent(c, l, p, x) && Admitted(c, l, p)
  {
    p :| p in known && IsParent(c, l, p, x);
  }

  /** Only a genesis block has no parent. */
  lemma GenesisAlone(c: Codec, l: Links, known: set<Data>, x: Data)
    requires Ideal(c, l) && Chains(c, l, known) && x in known
    ensures c.decode(x).Some?
    ensures c.decode(x).value.height == 0 <==> l.previous(c.decode(x).value.header) == ZERO_HASH
  {
    if c.decode(x).value.height > 0 {
      var p := ParentIn(c, l, known, x);
    }
  }

  lemma SameHeader(c: Codec, l: Links, p: Data, q: Data)
    requires Ideal(c, l) && Admitted(c, l, p) && Admitted(c, l, q)
    requires c.decode(p).value.hash == c.decode(q).value.hash
    ensures c.decode(p).value.header == c.decode(q).value.header && c.decode(p).value.body == c.decode(q).value.body
  {
  }

  /** One header has one height. */
  lemma {:induction false} LinksFixHeight(c: Codec, l: Links, known: set<Data>, a: Data, b: Data)
    requires Ideal(c, l) && Chains(c, l, known) && a in known && b in known
    requires c.decode(a).Some? && c.decode(b).Some? && c.decode(a).value.header == c.decode(b).value.header
    ensures c.decode(a).value.height == c.decode(b).value.height
    decreases c.decode(a).value.height
  {
    hide Ideal, Chains;
    GenesisAlone(c, l, known, a);
    GenesisAlone(c, l, known, b);
    if c.decode(a).value.height > 0 {
      var p := ParentIn(c, l, known, a);
      var q := ParentIn(c, l, known, b);
      SameHeader(c, l, p, q);
      LinksFixHeight(c, l, known, p, q);
    }
  }

  /** Among admitted chains a block hash belongs to one encoding only. */
  lemma AdmittedPins(c: Codec, l: Links, known: set<Data>)
    requires Ideal(c, l) && Chains(c, l, known)
    ensures HashPins(c, known)
  {
    forall a, b | a in known && b in known && SameHash(c, a, b) ensures a == b {
      SameHeader(c, l, a, b);
      LinksFixHeight(c, l, known, a, b);
      assert SameBlock(c, a, b);
    }
  }

  /** So for a run that is handed admitted chains only, the tables at the reported tip are right
      exactly when no rebuild since the last replacement was given other bodies. */
  lemma AdmittedRuns(c: Codec, l: Links, ops: seq<Op>)
    requires Ideal(c, l) && Chains(c, l, Handed(ops))
    requires Mints(c) && AllProper(c, ops) && ReportedAtTip(c, Run(c, ops))
    ensures Rooted(c, Run(c, ops)) && (Agree(c, Run(c, ops)) <==> Current(c, ops))
  {
    hide Ideal, Chains, Mints, AllProper, Run, Handed, Agree, Current, HashPins;
    AdmittedPins(c, l, Handed(ops));
    AgreeIffCurrent(c, ops);
  }
}
