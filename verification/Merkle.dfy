/** Merkle roots and inclusion proofs with odd-node promotion
    (kernel/src/blockchain/merkle.rs).  The domain-separated hash of two children is a
    parameter `parent`; soundness asks that it be injective. */
module Merkle {
  import opened Powers
  import opened Wrappers

  datatype Proof<H> = Proof(leafIndex: nat, leafCount: nat, siblings: seq<H>)

  const U32_MAX := 0xffff_ffff
  const MAX_SIBLINGS := 64

  ghost predicate Injective<H(!new)>(parent: (H, H) -> H) {
    forall a, b, c, d :: parent(a, b) == parent(c, d) ==> a == c && b == d
  }

  // ----- reference definitions -----

  function ParentAt<H>(level: seq<H>, i: nat, parent: (H, H) -> H): H
    requires 2 * i < |level|
  {
    if 2 * i + 1 < |level| then parent(level[2 * i], level[2 * i + 1]) else level[2 * i]
  }

  function Parents<H>(level: seq<H>, parent: (H, H) -> H): seq<H> {
    seq((|level| + 1) / 2, i requires 0 <= i < (|level| + 1) / 2 => ParentAt(level, i, parent))
  }

  function Root<H>(level: seq<H>, parent: (H, H) -> H): H
    requires level != []
    decreases |level|
  {
    if |level| == 1 then level[0] else Root(Parents(level, parent), parent)
  }

  predicate HasSibling(index: nat, width: nat) {
    index % 2 == 1 || index + 1 < width
  }

  function SiblingIndex(index: nat): nat {
    if index % 2 == 0 then index + 1 else index - 1
  }

  /** The sibling path of one leaf, bottom up; a promoted node contributes nothing. */
  function Path<H>(level: seq<H>, index: nat, parent: (H, H) -> H): seq<H>
    requires index < |level|
    decreases |level|
  {
    if |level| == 1 then []
    else
      var rest := Path(Parents(level, parent), index / 2, parent);
      if HasSibling(index, |level|) then [level[SiblingIndex(index)]] + rest else rest
  }

  function Combine<H>(hash: H, sibling: H, index: nat, parent: (H, H) -> H): H {
    if index % 2 == 0 then parent(hash, sibling) else parent(sibling, hash)
  }

  /** What a proof computes for the root, if it has exactly the right length. */
  function Climb<H>(hash: H, index: nat, width: nat, siblings: seq<H>, parent: (H, H) -> H): Option<H>
    requires index < width
    decreases width
  {
    if width == 1 then
      if siblings == [] then Some(hash) else None
    else if !HasSibling(index, width) then
      Climb(hash, index / 2, (width + 1) / 2, siblings, parent)
    else if siblings == [] then None
    else Climb(Combine(hash, siblings[0], index, parent), index / 2, (width + 1) / 2, siblings[1..], parent)
  }

  // ----- the code -----

  method ParentLevel<H>(level: seq<H>, parent: (H, H) -> H) returns (parents: seq<H>)
    ensures parents == Parents(level, parent)
  {
    parents := [];
    var i := 0;
    while i + 1 < |level|
      invariant 0 <= i <= |level| && i % 2 == 0
      invariant parents == Parents(level, parent)[..i / 2]
    {
      parents := parents + [parent(level[i], level[i + 1])];
      i := i + 2;
    }
    if i < |level| {
      parents := parents + [level[i]];
    }
  }

  method MerkleRoot<H>(leaves: seq<H>, parent: (H, H) -> H) returns (root: Option<H>)
    ensures root == if leaves == [] then None else Some(Root(leaves, parent))
  {
    if leaves == [] {
      return None;
    }
    var level := leaves;
    while |level| > 1
      invariant level != [] && Root(level, parent) == Root(leaves, parent)
      decreases |level|
    {
      level := ParentLevel(level, parent);
    }
    root := Some(level[0]);
  }

  method Create<H>(leaves: seq<H>, leafIndex: nat, parent: (H, H) -> H) returns (proof: Option<Proof<H>>)
    ensures proof == if leafIndex < |leaves| <= U32_MAX then
                       Some(Proof(leafIndex, |leaves|, Path(leaves, leafIndex, parent)))
                     else None
  {
    if leaves == [] || leafIndex >= |leaves| || leafIndex > U32_MAX || |leaves| > U32_MAX {
      return None;
    }
    var level, index: nat, siblings := leaves, leafIndex, [];
    while |level| > 1
      invariant index < |level|
      invariant siblings + Path(level, index, parent) == Path(leaves, leafIndex, parent)
      decreases |level|
    {
      var sibling := SiblingIndex(index);
      ghost var rest := Path(Parents(level, parent), index / 2, parent);
      assert sibling < |level| <==> HasSibling(index, |level|);
      if sibling < |level| {
        assert siblings + ([level[sibling]] + rest) == siblings + [level[sibling]] + rest;
        siblings := siblings + [level[sibling]];
      }
      level := ParentLevel(level, parent);
      index := index / 2;
    }
    assert siblings + [] == siblings;
    proof := Some(Proof(leafIndex, |leaves|, siblings));
  }

  method Verify<H(==)>(proof: Proof<H>, leaf: H, root: H, parent: (H, H) -> H) returns (ok: bool)
    ensures ok <==> Accepts(proof, leaf, root, parent)
  {
    var index, width := proof.leafIndex, proof.leafCount;
    if width == 0 || index >= width || |proof.siblings| > MAX_SIBLINGS {
      return false;
    }
    var hash, used := leaf, 0;
    while width > 1
      invariant index < width && used <= |proof.siblings|
      invariant Climb(hash, index, width, proof.siblings[used..], parent) ==
                Climb(leaf, proof.leafIndex, proof.leafCount, proof.siblings, parent)
      decreases width
    {
      if index % 2 == 1 || index + 1 < width {
        if used == |proof.siblings| {
          return false;
        }
        var sibling := proof.siblings[used];
        used := used + 1;
        hash := if index % 2 == 0 then parent(hash, sibling) else parent(sibling, hash);
      }
      index := index / 2;
      width := (width + 1) / 2;
    }
    ok := used == |proof.siblings| && hash == root;
  }

  predicate Accepts<H(==)>(proof: Proof<H>, leaf: H, root: H, parent: (H, H) -> H) {
    && proof.leafIndex < proof.leafCount && |proof.siblings| <= MAX_SIBLINGS
    && Climb(leaf, proof.leafIndex, proof.leafCount, proof.siblings, parent) == Some(root)
  }

  // ----- the shape of the tree -----

  /** Taking parents works on the two parts of an evenly cut level separately. */
  lemma ParentsSplit<H>(level: seq<H>, cut: nat, parent: (H, H) -> H)
    requires cut % 2 == 0 && cut <= |level|
    ensures Parents(level, parent)[..cut / 2] == Parents(level[..cut], parent)
    ensures Parents(level, parent)[cut / 2..] == Parents(level[cut..], parent)
  {
    var front, back := level[..cut], level[cut..];
    assert forall i :: 0 <= i < cut / 2 ==> ParentAt(level, i, parent) == ParentAt(front, i, parent);
    forall i | 0 <= i < |Parents(back, parent)|
      ensures Parents(level, parent)[cut / 2..][i] == Parents(back, parent)[i]
    {
      assert 2 * (cut / 2 + i) == cut + 2 * i;
    }
  }

  /** One leaf, or one level up, the root is the same. */
  lemma RootUp<H>(level: seq<H>, parent: (H, H) -> H)
    requires level != []
    ensures Root(level, parent) == Root(Parents(level, parent), parent)
  {
    if |level| == 1 {
      assert Parents(level, parent) == level;
    }
  }

  /** The root of several leaves joins, in this order, the roots of the first 2^k of them, the
      largest power of two below their number, and of the rest. */
  lemma {:induction false} RootSplits<H>(leaves: seq<H>, k: nat, parent: (H, H) -> H)
    requires Pow2(k) < |leaves| <= 2 * Pow2(k)
    ensures Root(leaves, parent) == parent(Root(leaves[..Pow2(k)], parent), Root(leaves[Pow2(k)..], parent))
    decreases k
  {
    var cut := Pow2(k);
    RootUp(leaves, parent);
    if k == 0 {
      assert Parents(leaves, parent) == [parent(leaves[0], leaves[1])];
    } else {
      hide Root, Parents;
      var half := Pow2(k - 1);
      assert cut == 2 * half;
      ParentsLength(leaves, parent);
      ParentsSplit(leaves, cut, parent);
      RootSplits(Parents(leaves, parent), k - 1, parent);
      RootUp(leaves[..cut], parent);
      RootUp(leaves[cut..], parent);
    }
  }

  lemma ParentsLength<H>(level: seq<H>, parent: (H, H) -> H)
    ensures |Parents(level, parent)| == (|level| + 1) / 2
  {
  }

  // ----- completeness and soundness -----

  lemma {:induction false} PathClimbs<H>(level: seq<H>, index: nat, parent: (H, H) -> H)
    requires index < |level|
    ensures Climb(level[index], index, |level|, Path(level, index, parent), parent) == Some(Root(level, parent))
    decreases |level|
  {
    if |level| > 1 {
      PathClimbs(Parents(level, parent), index / 2, parent);
    }
  }

  lemma {:induction false} PathLength<H>(level: seq<H>, index: nat, parent: (H, H) -> H, bits: nat)
    requires index < |level| <= Pow2(bits)
    ensures |Path(level, index, parent)| <= bits
    decreases |level|
  {
    if |level| > 1 {
      PathLength(Parents(level, parent), index / 2, parent, bits - 1);
    }
  }

  lemma SplitParent<H(!new)>(leaf: H, sibling: H, level: seq<H>, index: nat, parent: (H, H) -> H)
    requires index < |level| && HasSibling(index, |level|) && Injective(parent)
    requires Combine(leaf, sibling, index, parent) == ParentAt(level, index / 2, parent)
    ensures leaf == level[index] && sibling == level[SiblingIndex(index)]
  {
    assert index == 2 * (index / 2) || index == 2 * (index / 2) + 1;
  }

  /** Whatever climbs to the true root is the leaf at that index, along the true path. */
  lemma {:induction false} ClimbIsUnique<H(!new)>(level: seq<H>, index: nat, leaf: H, siblings: seq<H>, parent: (H, H) -> H)
    requires index < |level| && Injective(parent)
    requires Climb(leaf, index, |level|, siblings, parent) == Some(Root(level, parent))
    ensures leaf == level[index] && siblings == Path(level, index, parent)
    decreases |level|
  {
    hide Injective;
    if |level| > 1 {
      var above := Parents(level, parent);
      if HasSibling(index, |level|) {
        var sibling := siblings[0];
        ClimbIsUnique(above, index / 2, Combine(leaf, sibling, index, parent), siblings[1..], parent);
        SplitParent(leaf, sibling, level, index, parent);
        assert siblings == [sibling] + siblings[1..];
      } else {
        ClimbIsUnique(above, index / 2, leaf, siblings, parent);
      }
    }
  }

  /** Completeness: for every leaf list that fits a u32 count and every index, the
      created proof is accepted for that leaf and the true root. */
  lemma {:induction false} ProofsComplete<H>(leaves: seq<H>, index: nat, parent: (H, H) -> H)
    requires index < |leaves| <= U32_MAX
    ensures Accepts(Proof(index, |leaves|, Path(leaves, index, parent)), leaves[index], Root(leaves, parent), parent)
  {
    hide Path, Climb, Root, Pow2;
    PathClimbs(leaves, index, parent);
    Pow2Of32();
    PathLength(leaves, index, parent, 32);
  }

  lemma Pow2Of32()
    ensures Pow2(32) == 0x1_0000_0000
  {
    assert Pow2(2) == 4;
    Pow2Add(2, 2);
    Pow2Add(4, 4);
    Pow2Add(8, 8);
    Pow2Add(16, 16);
  }

  /** Soundness, both ways: with the true leaf count, a proof is accepted against the
      true root exactly when it is the created proof of the leaf at its index. */
  lemma ProofsSound<H(!new)>(leaves: seq<H>, proof: Proof<H>, leaf: H, parent: (H, H) -> H)
    requires leaves != [] && |leaves| <= U32_MAX && proof.leafCount == |leaves| && Injective(parent)
    ensures Accepts(proof, leaf, Root(leaves, parent), parent) <==>
            && proof.leafIndex < |leaves|
            && leaf == leaves[proof.leafIndex]
            && proof.siblings == Path(leaves, proof.leafIndex, parent)
  {
    if Accepts(proof, leaf, Root(leaves, parent), parent) {
      ClimbIsUnique(leaves, proof.leafIndex, leaf, proof.siblings, parent);
    } else if proof.leafIndex < |leaves| {
      ProofsComplete(leaves, proof.leafIndex, parent);
    }
  }
}
