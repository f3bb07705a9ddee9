/** The copy-on-write heap under kernel/src/state_map.rs: `Arc` nodes with strong
    counts.  A node is rewritten in place when its count is one and cloned first
    otherwise.  The arena plays the allocator: it may hand out any address that is
    not live, so addresses are reused as soon as their node is dropped.

    Every method is specified by the function of the same name on AvlMap trees, and
    by what it leaves alone: the tree behind every other reference. */
module NodeArena {
  import opened Wrappers
  import opened AvlMap

  type Addr = int

  datatype Link = Nil | To(addr: Addr)

  datatype Side = OnLeft | OnRight

  datatype Cell<V> = Cell(key: Key, value: V, left: Link, right: Link, height: nat, len: nat)
  {
    function Child(side: Side): Link {
      if side.OnLeft? then left else right
    }

    function With(side: Side, link: Link): Cell<V> {
      if side.OnLeft? then this.(left := link) else this.(right := link)
    }
  }

  type Nodes<V> = map<Addr, Cell<V>>
  type Counts = map<Addr, nat>

  // ----- what a heap of nodes shows -----

  ghost function TreeAt<V>(trees: map<Addr, Tree<V>>, link: Link): Tree<V> {
    if link.To? && link.addr in trees then trees[link.addr] else Leaf
  }

  ghost function Label<V>(cell: Cell<V>, trees: map<Addr, Tree<V>>): Tree<V> {
    Node(cell.key, cell.value, TreeAt(trees, cell.left), TreeAt(trees, cell.right), cell.height, cell.len)
  }

  /** `trees` gives for every live node the tree one reads by following its links.
      Trees are finite, so a labelled heap has no cycle. */
  ghost predicate Labeled<V>(nodes: Nodes<V>, trees: map<Addr, Tree<V>>) {
    trees.Keys == nodes.Keys && forall a :: a in nodes ==> trees[a] == Label(nodes[a], trees)
  }

  lemma StoredFields<V>(link: Link, nodes: Nodes<V>, counts: Counts, roots: multiset<Addr>,
                        trees: map<Addr, Tree<V>>, soles: set<Addr>)
    requires Good(nodes, counts, roots, trees, soles)
    ensures Height(TreeAt(trees, link)) == if link.To? && link.addr in nodes then nodes[link.addr].height else 0
    ensures Len(TreeAt(trees, link)) == if link.To? && link.addr in nodes then nodes[link.addr].len else 0
  {
    if link.To? && link.addr in nodes {
      assert trees[link.addr] == Label(nodes[link.addr], trees);
    }
  }

  function Other(side: Side): Side {
    if side.OnLeft? then OnRight else OnLeft
  }

  function ChildOf<V>(t: Tree<V>, side: Side): Tree<V>
    requires t.Node?
  {
    if side.OnLeft? then t.left else t.right
  }

  function WithChild<V>(t: Tree<V>, side: Side, sub: Tree<V>): Tree<V>
    requires t.Node?
  {
    if side.OnLeft? then t.(left := sub) else t.(right := sub)
  }

  function Rotated<V>(t: Tree<V>, side: Side): Tree<V>
    requires t.Node? && ChildOf(t, side).Node?
  {
    if side.OnLeft? then RotateRight(t) else RotateLeft(t)
  }

  // ----- reference counts -----

  ghost function Ref(link: Link): multiset<Addr> {
    if link.To? then multiset{link.addr} else multiset{}
  }

  /** The node fields that point at `a`. */
  ghost function Slots<V>(nodes: Nodes<V>, a: Addr): set<(Addr, Side)> {
    set b, side: Side | b in nodes && nodes[b].Child(side) == To(a) :: (b, side)
  }

  ghost function Hit(link: Link, a: Addr): nat {
    if link == To(a) then 1 else 0
  }

  /** How many fields of node `b` point at `a`. */
  ghost function Out<V>(nodes: Nodes<V>, b: Addr, a: Addr): nat {
    if b in nodes then Hit(nodes[b].left, a) + Hit(nodes[b].right, a) else 0
  }

  ghost predicate Closed<V>(nodes: Nodes<V>) {
    forall b :: b in nodes ==>
      && (nodes[b].left.To? ==> nodes[b].left.addr in nodes)
      && (nodes[b].right.To? ==> nodes[b].right.addr in nodes)
  }

  /** `roots` is the multiset of references held outside the nodes: map handles,
      cached handles and the local variables of a running operation. */
  ghost predicate Counted<V>(nodes: Nodes<V>, counts: Counts, roots: multiset<Addr>) {
    && nodes.Keys == counts.Keys
    && (forall a :: a in roots ==> a in nodes)
    && Closed(nodes)
    && (forall a :: a in nodes ==> counts[a] == roots[a] + |Slots(nodes, a)|)
  }

  /** No node field points at `a`. */
  ghost predicate Unlinked<V>(nodes: Nodes<V>, a: Addr) {
    forall b :: b in nodes ==> nodes[b].left != To(a) && nodes[b].right != To(a)
  }

  lemma NoSlotsUnlinked<V>(nodes: Nodes<V>, a: Addr)
    ensures Unlinked(nodes, a) <==> Slots(nodes, a) == {}
  {
    forall b | b in nodes
      ensures nodes[b].left == To(a) <==> (b, OnLeft) in Slots(nodes, a)
      ensures nodes[b].right == To(a) <==> (b, OnRight) in Slots(nodes, a)
    {
    }
  }

  ghost predicate SameBut<V>(nodes: Nodes<V>, nodes': Nodes<V>, a: Addr) {
    forall b :: b != a ==> (b in nodes <==> b in nodes') && (b in nodes ==> nodes[b] == nodes'[b])
  }

  lemma SlotCount<V>(nodes: Nodes<V>, nodes': Nodes<V>, b: Addr, a: Addr)
    requires SameBut(nodes, nodes', b)
    ensures |Slots(nodes', a)| + Out(nodes, b, a) == |Slots(nodes, a)| + Out(nodes', b, a)
  {
    SlotsWithout(nodes, b, a);
    SlotsWithout(nodes', b, a);
    var here := {(b, OnLeft), (b, OnRight)};
    assert Slots(nodes, a) - here == Slots(nodes', a) - here by {
      forall c, side: Side
        ensures (c, side) in Slots(nodes, a) - here <==> (c, side) in Slots(nodes', a) - here
      {
        if c == b {
          assert side == OnLeft || side == OnRight;
        }
      }
    }
  }

  lemma SlotsWithout<V>(nodes: Nodes<V>, b: Addr, a: Addr)
    ensures |Slots(nodes, a)| == |Slots(nodes, a) - {(b, OnLeft), (b, OnRight)}| + Out(nodes, b, a)
  {
    var s := Slots(nodes, a);
    var x, y := (b, OnLeft), (b, OnRight);
    assert x in s <==> b in nodes && nodes[b].left == To(a);
    assert y in s <==> b in nodes && nodes[b].right == To(a);
    TwoLess(s, x, y);
  }

  lemma TwoLess<T>(s: set<T>, x: T, y: T)
    requires x != y
    ensures |s| == |s - {x, y}| + (if x in s then 1 else 0) + if y in s then 1 else 0
  {
    OneLess(s, x);
    OneLess(s - {x}, y);
    assert s - {x} - {y} == s - {x, y};
  }

  lemma OneLess<T>(s: set<T>, x: T)
    ensures |s| == |s - {x}| + if x in s then 1 else 0
  {
    assert x !in s ==> s - {x} == s;
  }

  /** A node with one reference, held outside: nothing points at it. */
  lemma SoleUnlinked<V>(nodes: Nodes<V>, counts: Counts, roots: multiset<Addr>, a: Addr)
    requires Counted(nodes, counts, roots) && a in roots && counts[a] == 1
    ensures roots[a] == 1 && Unlinked(nodes, a)
  {
    assert Slots(nodes, a) == {};
    NoSlotsUnlinked(nodes, a);
  }

  /** One more strong reference behind `link`. */
  function Share(counts: Counts, link: Link): Counts {
    if link.To? && link.addr in counts then counts[link.addr := counts[link.addr] + 1] else counts
  }

  lemma FreshAddress(live: set<Addr>)
    ensures exists a: Addr :: a !in live
  {
    var top := UpperBound(live);
    assert top !in live;
  }

  lemma {:induction false} UpperBound(live: set<Addr>) returns (top: Addr)
    ensures forall a :: a in live ==> a < top
    decreases live
  {
    if a: Addr :| a in live {
      var rest := UpperBound(live - {a});
      top := if a < rest then rest else a + 1;
      assert forall b :: b in live ==> b == a || b in live - {a};
    } else {
      top := 0;
    }
  }

  // ----- one node changes -----

  /** The step all operations reduce to: node `a`, which no node points at, is
      written, created or freed, and every count follows its references. */
  lemma NodeStep<V>(a: Addr, nodes: Nodes<V>, counts: Counts, roots: multiset<Addr>,
                    nodes': Nodes<V>, counts': Counts, roots': multiset<Addr>)
    requires Counted(nodes, counts, roots) && Unlinked(nodes, a) && SameBut(nodes, nodes', a)
    requires nodes'.Keys == counts'.Keys && Closed(nodes')
    requires forall b :: b in roots' ==> b in nodes'
    requires forall c :: c in nodes' && c in nodes ==>
               counts'[c] + roots[c] + Out(nodes, a, c) == counts[c] + roots'[c] + Out(nodes', a, c)
    requires a in nodes' && a !in nodes ==> counts'[a] == roots'[a] + Out(nodes', a, a)
    ensures Counted(nodes', counts', roots')
  {
    forall c | c in nodes'
      ensures counts'[c] == roots'[c] + |Slots(nodes', c)|
    {
      SlotCount(nodes, nodes', a, c);
      NoSlotsUnlinked(nodes, a);
    }
  }

  lemma LabelStep<V>(a: Addr, cell: Cell<V>, nodes: Nodes<V>, trees: map<Addr, Tree<V>>)
    requires Labeled(nodes, trees) && Unlinked(nodes, a)
    requires cell.left != To(a) && cell.right != To(a)
    ensures Labeled(nodes[a := cell], trees[a := Label(cell, trees)])
  {
  }

  /** References to `c` are neither created nor lost when `cell` replaces node `a`. */
  ghost predicate Moved<V>(a: Addr, cell: Cell<V>, nodes: Nodes<V>, roots: multiset<Addr>, roots': multiset<Addr>, c: Addr) {
    roots[c] + Out(nodes, a, c) == roots'[c] + Hit(cell.left, c) + Hit(cell.right, c)
  }

  /** Rewriting a node we alone refer to, with links moving between it and `roots`. */
  lemma WriteStep<V>(a: Addr, cell: Cell<V>, nodes: Nodes<V>, counts: Counts, roots: multiset<Addr>, roots': multiset<Addr>)
    requires Counted(nodes, counts, roots) && a in roots && counts[a] == 1
    requires cell.left != To(a) && cell.right != To(a)
    requires forall c :: Moved(a, cell, nodes, roots, roots', c)
    ensures Counted(nodes[a := cell], counts, roots') && roots'[a] == 1 && Unlinked(nodes, a)
  {
    var nodes' := nodes[a := cell];
    SoleUnlinked(nodes, counts, roots, a);
    forall c | c in roots'
      ensures c in nodes
    {
      assert Moved(a, cell, nodes, roots, roots', c);
    }
    assert cell.left.To? ==> Moved(a, cell, nodes, roots, roots', cell.left.addr);
    assert cell.right.To? ==> Moved(a, cell, nodes, roots, roots', cell.right.addr);
    forall c
      ensures roots[c] + Out(nodes, a, c) == roots'[c] + Out(nodes', a, c)
    {
      assert Moved(a, cell, nodes, roots, roots', c);
    }
    assert Moved(a, cell, nodes, roots, roots', a);
    NodeStep(a, nodes, counts, roots, nodes', counts, roots');
  }

  lemma ShareCount(counts: Counts, link: Link, c: Addr)
    requires c in counts
    ensures c in Share(counts, link) && Share(counts, link)[c] == counts[c] + Hit(link, c)
  {
  }

  /** A new node shares the children named in `cell`. */
  lemma AllocateStep<V>(a: Addr, cell: Cell<V>, nodes: Nodes<V>, counts: Counts, roots: multiset<Addr>)
    requires Counted(nodes, counts, roots) && a !in nodes
    requires cell.left.To? ==> cell.left.addr in nodes
    requires cell.right.To? ==> cell.right.addr in nodes
    ensures Counted(nodes[a := cell], Share(Share(counts, cell.left), cell.right)[a := 1], roots + multiset{a})
    ensures Unlinked(nodes, a) && roots[a] == 0
  {
    hide Slots;
    var nodes', roots' := nodes[a := cell], roots + multiset{a};
    var shared := Share(Share(counts, cell.left), cell.right);
    forall c | c in nodes
      ensures c in shared && shared[c] == counts[c] + Hit(cell.left, c) + Hit(cell.right, c)
    {
      ShareCount(counts, cell.left, c);
      ShareCount(Share(counts, cell.left), cell.right, c);
    }
    assert shared.Keys == nodes.Keys;
    NodeStep(a, nodes, counts, roots, nodes', shared[a := 1], roots');
  }

  /** The invariant of the heap.  `soles` are nodes a running operation holds the only
      reference to: the situation in which `Arc::make_mut` hands out the node itself. */
  ghost predicate Good<V>(nodes: Nodes<V>, counts: Counts, roots: multiset<Addr>, trees: map<Addr, Tree<V>>, soles: set<Addr>) {
    && Counted(nodes, counts, roots)
    && Labeled(nodes, trees)
    && forall a :: a in soles ==> a in counts && counts[a] == 1 && roots[a] == 1
  }

  lemma SolesUnlinked<V>(nodes: Nodes<V>, counts: Counts, roots: multiset<Addr>, trees: map<Addr, Tree<V>>, soles: set<Addr>)
    requires Good(nodes, counts, roots, trees, soles)
    ensures forall a :: a in soles ==> Unlinked(nodes, a)
  {
    forall a | a in soles
      ensures Unlinked(nodes, a)
    {
      SoleUnlinked(nodes, counts, roots, a);
    }
  }

  lemma Known<V>(a: Addr, nodes: Nodes<V>, counts: Counts, roots: multiset<Addr>, trees: map<Addr, Tree<V>>, soles: set<Addr>)
    requires Good(nodes, counts, roots, trees, soles) && (a in roots || a in soles)
    ensures nodes.Keys == trees.Keys
    ensures a in nodes && a in counts && a in trees && trees[a] == Label(nodes[a], trees)
    ensures nodes[a].left.To? ==> nodes[a].left.addr in nodes
    ensures nodes[a].left.To? <==> trees[a].left.Node?
    ensures nodes[a].right.To? ==> nodes[a].right.addr in nodes
    ensures nodes[a].right.To? <==> trees[a].right.Node?
  {
    hide Slots;
    assert nodes[a].left.To? ==> trees[nodes[a].left.addr] == Label(nodes[nodes[a].left.addr], trees);
    assert nodes[a].right.To? ==> trees[nodes[a].right.addr] == Label(nodes[nodes[a].right.addr], trees);
  }

  lemma Shown<V>(nodes: Nodes<V>, counts: Counts, roots: multiset<Addr>, trees: map<Addr, Tree<V>>, soles: set<Addr>)
    requires Good(nodes, counts, roots, trees, soles)
    ensures nodes.Keys == trees.Keys
    ensures forall a :: a in roots ==> a in trees
    ensures forall a :: a in soles ==> a in trees && a in counts && counts[a] == 1
  {
    hide Slots;
  }

  lemma TakeMoves<V>(a: Addr, side: Side, nodes: Nodes<V>, roots: multiset<Addr>)
    requires a in nodes
    ensures forall c :: Moved(a, nodes[a].With(side, Nil), nodes, roots, roots + Ref(nodes[a].Child(side)), c)
  {
    var link, cell := nodes[a].Child(side), nodes[a].With(side, Nil);
    forall c
      ensures Moved(a, cell, nodes, roots, roots + Ref(link), c)
    {
      assert (roots + Ref(link))[c] == roots[c] + Hit(link, c);
      assert Out(nodes, a, c) == Hit(cell.left, c) + Hit(cell.right, c) + Hit(link, c);
    }
  }

  lemma TakeStep<V>(a: Addr, side: Side, nodes: Nodes<V>, counts: Counts, roots: multiset<Addr>,
                    trees: map<Addr, Tree<V>>, soles: set<Addr>)
    requires Good(nodes, counts, roots, trees, soles) && a in soles
    ensures var link, cell := nodes[a].Child(side), nodes[a].With(side, Nil);
            var trees' := trees[a := WithChild(trees[a], side, Leaf)];
            && Good(nodes[a := cell], counts, roots + Ref(link), trees', soles)
            && TreeAt(trees', link) == ChildOf(trees[a], side)
            && (link.Nil? <==> ChildOf(trees[a], side).Leaf?)
            && (link.To? ==> link.addr !in soles)
  {
    var link, cell := nodes[a].Child(side), nodes[a].With(side, Nil);
    SolesUnlinked(nodes, counts, roots, trees, soles);
    TakeMoves(a, side, nodes, roots);
    WriteStep(a, cell, nodes, counts, roots, roots + Ref(link));
    LabelStep(a, cell, nodes, trees);
    assert trees[a] == Label(nodes[a], trees);
    assert Label(cell, trees) == WithChild(trees[a], side, Leaf);
  }

  lemma AttachStep<V>(a: Addr, side: Side, link: Link, nodes: Nodes<V>, counts: Counts, roots: multiset<Addr>,
                      trees: map<Addr, Tree<V>>, soles: set<Addr>)
    requires Good(nodes, counts, roots, trees, soles) && a in soles
    requires link.To? ==> link.addr in roots && link.addr !in soles
    requires ChildOf(trees[a], side).Leaf?
    ensures var cell := nodes[a].With(side, link);
            var trees' := trees[a := WithChild(trees[a], side, TreeAt(trees, link))];
            Good(nodes[a := cell], counts, roots - Ref(link), trees', soles)
  {
    var cell, roots' := nodes[a].With(side, link), roots - Ref(link);
    SolesUnlinked(nodes, counts, roots, trees, soles);
    forall c
      ensures Moved(a, cell, nodes, roots, roots', c)
    {
      assert roots[c] == roots'[c] + Hit(link, c);
    }
    WriteStep(a, cell, nodes, counts, roots, roots');
    LabelStep(a, cell, nodes, trees);
    assert Label(cell, trees) == WithChild(trees[a], side, TreeAt(trees, link));
  }

  lemma FieldStep<V>(a: Addr, cell: Cell<V>, nodes: Nodes<V>, counts: Counts, roots: multiset<Addr>,
                     trees: map<Addr, Tree<V>>, soles: set<Addr>)
    requires Good(nodes, counts, roots, trees, soles) && a in soles
    requires cell.left == nodes[a].left && cell.right == nodes[a].right
    ensures Good(nodes[a := cell], counts, roots, trees[a := Label(cell, trees)], soles)
  {
    SolesUnlinked(nodes, counts, roots, trees, soles);
    forall c
      ensures Moved(a, cell, nodes, roots, roots, c)
    {
    }
    WriteStep(a, cell, nodes, counts, roots, roots);
    LabelStep(a, cell, nodes, trees);
  }

  /** `Arc::new` for a leaf node. */
  lemma NewStep<V>(a: Addr, cell: Cell<V>, nodes: Nodes<V>, counts: Counts, roots: multiset<Addr>,
                   trees: map<Addr, Tree<V>>, soles: set<Addr>)
    requires Good(nodes, counts, roots, trees, soles) && a !in nodes
    requires cell.left.Nil? && cell.right.Nil?
    ensures Good(nodes[a := cell], counts[a := 1], roots + multiset{a}, trees[a := Label(cell, trees)], soles)
  {
    AllocateStep(a, cell, nodes, counts, roots);
    LabelStep(a, cell, nodes, trees);
  }

  lemma SoleStep<V>(a: Addr, nodes: Nodes<V>, counts: Counts, roots: multiset<Addr>,
                    trees: map<Addr, Tree<V>>, soles: set<Addr>)
    requires Good(nodes, counts, roots, trees, soles) && a in roots && counts[a] == 1
    ensures Good(nodes, counts, roots, trees, soles + {a})
  {
    SoleUnlinked(nodes, counts, roots, a);
  }

  /** One reference to `a` is dropped while others remain. */
  lemma ForgetStep<V>(a: Addr, nodes: Nodes<V>, counts: Counts, roots: multiset<Addr>)
    requires Counted(nodes, counts, roots) && a in roots
    ensures Counted(nodes, counts[a := counts[a] - 1], roots - multiset{a})
  {
  }

  /** The clone `make_mut` makes of a shared node: it shares both children, and the
      original loses the reference we held. */
  lemma CloneStep<V>(a: Addr, b: Addr, nodes: Nodes<V>, counts: Counts, roots: multiset<Addr>,
                     trees: map<Addr, Tree<V>>, soles: set<Addr>)
    requires Good(nodes, counts, roots, trees, soles) && a in roots && counts[a] != 1 && b !in nodes
    ensures var cell := nodes[a];
            var shared := Share(Share(counts, cell.left), cell.right)[b := 1];
            && a in shared && shared[a] > 1
            && Good(nodes[b := cell], shared[a := shared[a] - 1], roots - multiset{a} + multiset{b},
                    trees[b := trees[a]], soles + {b})
  {
    hide Share, Counted, Labeled;
    Known(a, nodes, counts, roots, trees, soles);
    var cell := nodes[a];
    SolesUnlinked(nodes, counts, roots, trees, soles);
    AllocateStep(b, cell, nodes, counts, roots);
    LabelStep(b, cell, nodes, trees);
    var shared := Share(Share(counts, cell.left), cell.right)[b := 1];
    forall c | c in counts && c != b
      ensures c in shared && shared[c] == counts[c] + Hit(cell.left, c) + Hit(cell.right, c)
    {
      ShareCount(counts, cell.left, c);
      ShareCount(Share(counts, cell.left), cell.right, c);
    }
    ForgetStep(a, nodes[b := cell], shared, roots + multiset{b});
    assert roots + multiset{b} - multiset{a} == roots - multiset{a} + multiset{b};
    CountPositive(a, nodes, counts, roots);
  }

  lemma CountPositive<V>(a: Addr, nodes: Nodes<V>, counts: Counts, roots: multiset<Addr>)
    requires Counted(nodes, counts, roots) && a in roots
    ensures counts[a] >= 1
  {
  }

  lemma FreeCounted<V>(a: Addr, kept: multiset<Addr>, nodes: Nodes<V>, counts: Counts)
    requires Counted(nodes, counts, kept + multiset{a}) && a in counts && counts[a] == 1
    ensures a !in kept && Unlinked(nodes, a)
    ensures Counted(nodes - {a}, counts - {a}, kept + Ref(nodes[a].left) + Ref(nodes[a].right))
  {
    hide Counted;
    var roots := kept + multiset{a};
    CountedFacts(nodes, counts, roots);
    SoleUnlinked(nodes, counts, roots, a);
    var c, nodes', counts' := nodes[a], nodes - {a}, counts - {a};
    var roots' := kept + Ref(c.left) + Ref(c.right);
    forall x
      ensures roots'[x] == kept[x] + Hit(c.left, x) + Hit(c.right, x)
      ensures x in roots' ==> x in nodes'
    {
    }
    NodeStep(a, nodes, counts, roots, nodes', counts', roots');
  }

  lemma CountedFacts<V>(nodes: Nodes<V>, counts: Counts, roots: multiset<Addr>)
    requires Counted(nodes, counts, roots)
    ensures nodes.Keys == counts.Keys && Closed(nodes) && forall a :: a in roots ==> a in nodes
  {
  }

  lemma FreeLabeled<V>(a: Addr, nodes: Nodes<V>, trees: map<Addr, Tree<V>>)
    requires Labeled(nodes, trees) && Unlinked(nodes, a) && a in nodes
    ensures Labeled(nodes - {a}, trees - {a}) && trees[a] == Label(nodes[a], trees - {a})
  {
    assert trees[a] == Label(nodes[a], trees);
    forall b | b in nodes - {a} ensures (trees - {a})[b] == Label((nodes - {a})[b], trees - {a}) {
      assert trees[b] == Label(nodes[b], trees) && nodes[b].left != To(a) && nodes[b].right != To(a);
    }
  }

  /** The last reference to `a` gives its node up: the children's references move out. */
  lemma FreeStep<V>(a: Addr, kept: multiset<Addr>, nodes: Nodes<V>, counts: Counts, trees: map<Addr, Tree<V>>, soles: set<Addr>)
    requires Good(nodes, counts, kept + multiset{a}, trees, soles) && a !in soles && a in counts && counts[a] == 1
    ensures var c := nodes[a];
            && Good(nodes - {a}, counts - {a}, kept + Ref(c.left) + Ref(c.right), trees - {a}, soles)
            && trees[a] == Label(c, trees - {a}) && a !in kept && LinksOut(c, trees - {a}, soles)
  {
    hide Counted, Labeled;
    Known(a, nodes, counts, kept + multiset{a}, trees, soles);
    SolesUnlinked(nodes, counts, kept + multiset{a}, trees, soles);
    FreeCounted(a, kept, nodes, counts);
    FreeLabeled(a, nodes, trees);
  }

  ghost predicate LinksOut<V>(c: Cell<V>, trees: map<Addr, Tree<V>>, soles: set<Addr>) {
    && (c.left.To? ==> c.left.addr in trees && c.left.addr !in soles)
    && (c.right.To? ==> c.right.addr in trees && c.right.addr !in soles)
  }

  lemma KeptFree<V>(trees: map<Addr, Tree<V>>, kept: multiset<Addr>, a: Addr)
    requires Kept(trees, trees, kept) && a !in kept
    ensures Kept(trees, trees - {a}, kept)
  {
  }

  /** One of several references to `a` goes away. */
  lemma DropStep<V>(a: Addr, kept: multiset<Addr>, nodes: Nodes<V>, counts: Counts, trees: map<Addr, Tree<V>>, soles: set<Addr>)
    requires Good(nodes, counts, kept + multiset{a}, trees, soles) && a !in soles && counts[a] != 1
    ensures counts[a] > 1 && Good(nodes, counts[a := counts[a] - 1], kept, trees, soles)
  {
    hide Slots;
    ForgetStep(a, nodes, counts, kept + multiset{a});
    CountPositive(a, nodes, counts, kept + multiset{a});
    assert kept + multiset{a} - multiset{a} == kept;
  }

  lemma ShareStep<V>(link: Link, nodes: Nodes<V>, counts: Counts, roots: multiset<Addr>, trees: map<Addr, Tree<V>>, soles: set<Addr>)
    requires Good(nodes, counts, roots, trees, soles)
    requires link.To? ==> link.addr in nodes && link.addr !in soles
    ensures Good(nodes, Share(counts, link), roots + Ref(link), trees, soles)
  {
    hide Slots, Labeled;
  }

  lemma CopyOutStep<V>(a: Addr, kept: multiset<Addr>, nodes: Nodes<V>, counts: Counts, trees: map<Addr, Tree<V>>, soles: set<Addr>)
    requires Good(nodes, counts, kept + multiset{a}, trees, soles) && a !in soles && counts[a] != 1
    ensures var c := nodes[a];
            var shared := Share(Share(counts, c.left), c.right);
            && a in shared && shared[a] > 1
            && Good(nodes, shared[a := shared[a] - 1], kept + Ref(c.left) + Ref(c.right), trees, soles)
            && trees[a] == Label(c, trees) && LinksOut(c, trees, soles)
  {
    hide Counted, Labeled, Share;
    var roots := kept + multiset{a};
    Known(a, nodes, counts, roots, trees, soles);
    var c := nodes[a];
    SolesUnlinked(nodes, counts, roots, trees, soles);
    var once := Share(counts, c.left);
    var shared := Share(once, c.right);
    ShareStep(c.left, nodes, counts, roots, trees, soles);
    ShareStep(c.right, nodes, once, roots + Ref(c.left), trees, soles);
    ShareCount(counts, c.left, a);
    ShareCount(once, c.right, a);
    var kept' := kept + Ref(c.left) + Ref(c.right);
    assert roots + Ref(c.left) + Ref(c.right) == kept' + multiset{a};
    CountPositive(a, nodes, counts, roots);
    DropStep(a, kept', nodes, shared, trees, soles);
  }

  function SideOf<V>(t: Tree<V>, key: Key): Side
    requires t.Node?
  {
    if key < t.key then OnLeft else OnRight
  }

  lemma InsertIntoLeaf<V>(key: Key, value: V)
    ensures AvlMap.Insert(Leaf, key, value) == Node(key, value, Leaf, Leaf, 1, 1)
    ensures Get<V>(Leaf, key) == None
  {
  }

  /** One unfolding of the functional insert, by side. */
  lemma InsertStep<V>(t: Tree<V>, key: Key, value: V)
    requires t.Node? && Shaped(t)
    ensures key == t.key ==> var u := t.(value := value);
              Rotatable(u) && AvlMap.Insert(t, key, value) == AvlMap.Rebalance(u) && Get(t, key) == Some(t.value)
    ensures key != t.key ==> var side := SideOf(t, key);
              && Shaped(ChildOf(t, side)) && Get(t, key) == Get(ChildOf(t, side), key)
              && var u := WithChild(t, side, AvlMap.Insert(ChildOf(t, side), key, value));
                 Rotatable(u) && AvlMap.Insert(t, key, value) == AvlMap.Rebalance(u)
  {
    if key == t.key {
      RebalanceShaped(t.(value := value));
    } else {
      RebalanceShaped(WithChild(t, SideOf(t, key), AvlMap.Insert(ChildOf(t, SideOf(t, key)), key, value)));
    }
  }

  lemma PopMinStep<V>(t: Tree<V>)
    requires t.Node? && Shaped(t)
    ensures t.left.Leaf? ==> AvlMap.PopMin(t) == t.right && MinEntry(t) == (t.key, t.value)
    ensures t.left.Node? ==>
              && Shaped(t.left) && MinEntry(t) == MinEntry(t.left)
              && var u := WithChild(t, OnLeft, AvlMap.PopMin(t.left));
                 Rotatable(u) && AvlMap.PopMin(t) == AvlMap.Rebalance(u)
  {
    if t.left.Node? {
      RebalanceShaped(t.(left := AvlMap.PopMin(t.left)));
    }
  }

  /** The node after its successor has taken its place, before rebalancing. */
  function Promoted<V>(t: Tree<V>): Tree<V>
    requires t.Node? && Shaped(t) && t.right.Node?
  {
    var (k, v) := MinEntry(t.right);
    t.(right := AvlMap.PopMin(t.right), key := k, value := v)
  }

  lemma PromotedRotatable<V>(t: Tree<V>)
    requires t.Node? && Shaped(t) && t.right.Node?
    ensures Shaped(t.right) && Rotatable(Promoted(t))
    ensures Promoted(t).left == t.left && Promoted(t).right == AvlMap.PopMin(t.right)
  {
    RebalanceShaped(Promoted(t));
  }

  /** One unfolding of the functional remove, by side. */
  lemma RemoveStep<V>(t: Tree<V>, key: Key)
    requires Shaped(t) && Get(t, key).Some?
    ensures t.Node?
    ensures key == t.key ==> Get(t, key) == Some(t.value)
    ensures key == t.key && t.left.Leaf? ==> AvlMap.Remove(t, key) == t.right
    ensures key == t.key && t.left.Node? && t.right.Leaf? ==> AvlMap.Remove(t, key) == t.left
    ensures key == t.key && t.left.Node? && t.right.Node? ==>
              Rotatable(Promoted(t)) && AvlMap.Remove(t, key) == AvlMap.Rebalance(Promoted(t))
    ensures key != t.key ==> var side := SideOf(t, key);
              && Shaped(ChildOf(t, side)) && ChildOf(t, side).Node? && Get(t, key) == Get(ChildOf(t, side), key)
              && var u := WithChild(t, side, AvlMap.Remove(ChildOf(t, side), key));
                 Rotatable(u) && AvlMap.Remove(t, key) == AvlMap.Rebalance(u)
  {
    if key != t.key {
      RebalanceShaped(WithChild(t, SideOf(t, key), AvlMap.Remove(ChildOf(t, SideOf(t, key)), key)));
    } else if t.left.Node? && t.right.Node? {
      RebalanceShaped(Promoted(t));
    }
  }

  /** Too tall on `side`, and tall enough there for the rotations. */
  predicate Leaning<V>(t: Tree<V>, side: Side) {
    && t.Node? && ChildOf(t, side).Node?
    && var c := ChildOf(t, side);
       Height(ChildOf(c, side)) < Height(ChildOf(c, Other(side))) ==> ChildOf(c, Other(side)).Node?
  }

  function Straightened<V>(t: Tree<V>, side: Side): Tree<V>
    requires Leaning(t, side)
  {
    var c := ChildOf(t, side);
    if Height(ChildOf(c, side)) < Height(ChildOf(c, Other(side))) then
      Rotated(WithChild(t, side, Rotated(c, Other(side))), side)
    else
      Rotated(t, side)
  }

  /** The stored heights of the grandchildren on `side`, as `rebalance` reads them. */
  lemma ChildFields<V>(a: Addr, side: Side, nodes: Nodes<V>, counts: Counts, roots: multiset<Addr>,
                       trees: map<Addr, Tree<V>>, soles: set<Addr>)
    requires Good(nodes, counts, roots, trees, soles) && a in roots
    requires a in trees && trees[a].Node? && ChildOf(trees[a], side).Node?
    ensures a in nodes && nodes[a].Child(side).To? && nodes[a].Child(side).addr in nodes
    ensures var c := nodes[nodes[a].Child(side).addr];
            forall s: Side :: Height(ChildOf(ChildOf(trees[a], side), s)) ==
              if c.Child(s).To? && c.Child(s).addr in nodes then nodes[c.Child(s).addr].height else 0
  {
    hide Slots;
    assert trees[a] == Label(nodes[a], trees);
    var b := nodes[a].Child(side).addr;
    assert trees[b] == Label(nodes[b], trees);
    StoredFields(nodes[b].left, nodes, counts, roots, trees, soles);
    StoredFields(nodes[b].right, nodes, counts, roots, trees, soles);
  }

  /** The tree behind every reference in `kept` is the same in both labellings. */
  ghost predicate Kept<V>(before: map<Addr, Tree<V>>, after: map<Addr, Tree<V>>, kept: multiset<Addr>) {
    forall a :: a in kept ==> a in before && a in after && after[a] == before[a]
  }

  lemma KeptAtFirst<V>(nodes: Nodes<V>, counts: Counts, roots: multiset<Addr>, trees: map<Addr, Tree<V>>,
                       soles: set<Addr>, kept: multiset<Addr>)
    requires Good(nodes, counts, roots, trees, soles) && kept <= roots
    ensures Kept(trees, trees, kept)
  {
  }

  lemma KeptBy<V>(before: map<Addr, Tree<V>>, after: map<Addr, Tree<V>>, kept: multiset<Addr>, a: Addr, t: Tree<V>)
    requires Kept(before, after, kept) && a !in kept
    ensures Kept(before, after[a := t], kept)
  {
  }

  lemma KeptThen<V>(before: map<Addr, Tree<V>>, after: map<Addr, Tree<V>>, last: map<Addr, Tree<V>>, kept: multiset<Addr>, more: multiset<Addr>)
    requires Kept(before, after, kept) && Kept(after, last, more) && kept <= more
    ensures Kept(before, last, kept)
  {
  }

  lemma KeptOne<V>(before: map<Addr, Tree<V>>, after: map<Addr, Tree<V>>, kept: multiset<Addr>, a: Addr)
    requires Kept(before, after, kept) && a in kept
    ensures a in before && a in after && after[a] == before[a]
  {
  }

  lemma GivenBack(a: multiset<Addr>, b: multiset<Addr>)
    ensures a + b - b == a
  {
  }

  /** A value write goes down one side. */
  lemma SetValueDown<V>(t: Tree<V>, key: Key, value: V)
    requires t.Node?
    ensures key == t.key ==> SetValue(t, key, value) == t.(value := value)
    ensures key != t.key ==>
              var side := if key < t.key then OnLeft else OnRight;
              && Get(t, key) == Get(ChildOf(t, side), key)
              && (Get(t, key).Some? ==> ChildOf(t, side).Node?)
              && ChildOf(t, side) < t
              && WithChild(t, side, Leaf).Node?
              && SetValue(t, key, value) == WithChild(WithChild(t, side, Leaf), side, SetValue(ChildOf(t, side), key, value))
  {
  }

  class Arena<V> {
    var nodes: Nodes<V>
    var counts: Counts
    ghost var roots: multiset<Addr>
    ghost var trees: map<Addr, Tree<V>>
    ghost var soles: set<Addr>

    ghost predicate Valid()
      reads this
    {
      Good(nodes, counts, roots, trees, soles)
    }

    constructor ()
      ensures Valid() && roots == multiset{} && soles == {}
    {
      nodes, counts, roots, trees, soles := map[], map[], multiset{}, map[], {};
    }

    // ----- single-node steps -----
    // `kept` stands for the references a step does not touch.

    /** `node.left.take()`: the reference moves out of the node. */
    method Take(a: Addr, side: Side, ghost kept: multiset<Addr>) returns (link: Link)
      requires Valid() && a in soles && roots == kept + multiset{a}
      modifies this
      ensures Valid() && soles == old(soles)
      ensures roots == kept + multiset{a} + Ref(link)
      ensures a in old(trees) && old(trees)[a].Node?
      ensures trees == old(trees)[a := WithChild(old(trees)[a], side, Leaf)]
      ensures TreeAt(trees, link) == ChildOf(old(trees)[a], side)
      ensures link.Nil? <==> ChildOf(old(trees)[a], side).Leaf?
      ensures link.To? ==> link.addr in trees && link.addr !in soles
    {
      hide Good;
      Known(a, nodes, counts, roots, trees, soles);
      TakeStep(a, side, nodes, counts, roots, trees, soles);
      link := nodes[a].Child(side);
      nodes := nodes[a := nodes[a].With(side, Nil)];
      roots := roots + Ref(link);
      trees := trees[a := WithChild(trees[a], side, Leaf)];
    }

    /** `node.left = link`, after the old child was taken. */
    method Attach(a: Addr, side: Side, link: Link, ghost kept: multiset<Addr>)
      requires Valid() && a in soles && a in trees && trees[a].Node? && ChildOf(trees[a], side).Leaf?
      requires roots == kept + multiset{a} + Ref(link)
      requires link.To? ==> link.addr !in soles
      modifies this
      ensures Valid() && soles == old(soles)
      ensures roots == kept + multiset{a}
      ensures trees == old(trees)[a := WithChild(old(trees)[a], side, TreeAt(old(trees), link))]
    {
      hide Good;
      Known(a, nodes, counts, roots, trees, soles);
      AttachStep(a, side, link, nodes, counts, roots, trees, soles);
      nodes := nodes[a := nodes[a].With(side, link)];
      GivenBack(kept + multiset{a}, Ref(link));
      roots := roots - Ref(link);
      trees := trees[a := WithChild(trees[a], side, TreeAt(trees, link))];
    }

    /** Assignment to the fields of a node that are not links. */
    method Write(a: Addr, key: Key, value: V, height: nat, len: nat)
      requires Valid() && a in soles
      modifies this`nodes, this`trees
      ensures Valid()
      ensures a in old(trees) && old(trees)[a].Node?
      ensures trees == old(trees)[a := old(trees)[a].(key := key, value := value, height := height, len := len)]
    {
      hide Good;
      Known(a, nodes, counts, roots, trees, soles);
      var cell := nodes[a].(key := key, value := value, height := height, len := len);
      FieldStep(a, cell, nodes, counts, roots, trees, soles);
      trees := trees[a := Label(cell, trees)];
      nodes := nodes[a := cell];
    }

    function HeightAt(link: Link): nat
      reads this
    {
      if link.To? && link.addr in nodes then nodes[link.addr].height else 0
    }

    function LenAt(link: Link): nat
      reads this
    {
      if link.To? && link.addr in nodes then nodes[link.addr].len else 0
    }

    method Refresh(a: Addr)
      requires Valid() && a in soles
      modifies this`nodes, this`trees
      ensures Valid()
      ensures a in old(trees) && old(trees)[a].Node?
      ensures trees == old(trees)[a := AvlMap.Refresh(old(trees)[a])]
    {
      hide Good;
      Known(a, nodes, counts, roots, trees, soles);
      var c := nodes[a];
      StoredFields(c.left, nodes, counts, roots, trees, soles);
      StoredFields(c.right, nodes, counts, roots, trees, soles);
      Write(a, c.key, c.value, 1 + Max(HeightAt(c.left), HeightAt(c.right)), 1 + LenAt(c.left) + LenAt(c.right));
    }

    /** `Arc::new` on a node without children: any address that is not live may come back. */
    method New(key: Key, value: V) returns (a: Addr)
      requires Valid()
      modifies this
      ensures Valid() && soles == old(soles) && a !in old(roots) && a !in old(soles)
      ensures roots == old(roots) + multiset{a}
      ensures trees == old(trees)[a := Node(key, value, Leaf, Leaf, 1, 1)]
    {
      hide Good;
      Shown(nodes, counts, roots, trees, soles);
      FreshAddress(nodes.Keys);
      a :| a !in nodes;
      var cell := Cell(key, value, Nil, Nil, 1, 1);
      NewStep(a, cell, nodes, counts, roots, trees, soles);
      nodes := nodes[a := cell];
      counts := counts[a := 1];
      roots := roots + multiset{a};
      trees := trees[a := Label(cell, trees)];
    }

    /** `Arc::make_mut`: the node itself if ours is the only reference, otherwise a
        clone that shares both children. */
    method MakeMut(a: Addr, ghost kept: multiset<Addr>) returns (b: Addr)
      requires Valid() && roots == kept + multiset{a} && a !in soles
      modifies this
      ensures Valid() && soles == old(soles) + {b} && b !in old(soles) && b !in kept
      ensures roots == kept + multiset{b}
      ensures a in old(trees) && old(trees)[a].Node? && trees == old(trees)[b := old(trees)[a]]
      ensures a in old(counts) && (b == a <==> old(counts)[a] == 1)
      ensures b == a ==> nodes == old(nodes)
    {
      hide Good;
      Known(a, nodes, counts, roots, trees, soles);
      Shown(nodes, counts, roots, trees, soles);
      if counts[a] == 1 {
        b := a;
        SoleStep(a, nodes, counts, roots, trees, soles);
        soles := soles + {a};
      } else {
        b := Copy(a, kept);
      }
    }

    /** A shared node: its fields in a new cell, one more reference to each child, one less to it. */
    method Copy(a: Addr, ghost kept: multiset<Addr>) returns (b: Addr)
      requires Valid() && roots == kept + multiset{a} && a !in soles && a in counts && counts[a] != 1
      modifies this
      ensures Valid() && b !in old(nodes) && soles == old(soles) + {b} && roots == kept + multiset{b}
      ensures a in old(trees) && trees == old(trees)[b := old(trees)[a]]
    {
      hide Good, Share;
      Known(a, nodes, counts, roots, trees, soles);
      FreshAddress(nodes.Keys);
      b :| b !in nodes;
      CloneStep(a, b, nodes, counts, roots, trees, soles);
      var cell := nodes[a];
      nodes := nodes[b := cell];
      counts := Share(Share(counts, cell.left), cell.right)[b := 1];
      counts := counts[a := counts[a] - 1];
      roots := roots - multiset{a} + multiset{b};
      assert roots == kept + multiset{b};
      trees := trees[b := trees[a]];
      soles := soles + {b};
    }

    /** The operation stops relying on holding the only reference to `a`. */
    ghost method Settle(a: Addr, others: set<Addr>)
      requires Valid() && soles == others + {a}
      modifies this`soles
      ensures Valid() && soles == others
    {
      soles := others;
    }

    /** `Arc::make_mut(&mut root).left.take()`: our own copy of the node, and the child
        out of it. */
    method Lift(root: Addr, side: Side, ghost kept: multiset<Addr>) returns (a: Addr, link: Link)
      requires Valid() && roots == kept + multiset{root} && root !in soles
      modifies this
      ensures Valid() && soles == old(soles) + {a} && a !in old(soles) && a !in kept
      ensures roots == kept + multiset{a} + Ref(link)
      ensures root in old(trees) && old(trees)[root].Node?
      ensures trees == old(trees)[a := WithChild(old(trees)[root], side, Leaf)]
      ensures TreeAt(trees, link) == ChildOf(old(trees)[root], side)
      ensures link.Nil? <==> ChildOf(old(trees)[root], side).Leaf?
      ensures link.To? ==> link.addr in trees && link.addr !in soles
    {
      hide Good;
      a := MakeMut(root, kept);
      link := Take(a, side, kept);
    }

    /** `node.left = link; node.refresh()`. */
    method Join(a: Addr, side: Side, link: Link, ghost kept: multiset<Addr>)
      requires Valid() && a in soles && a in trees && trees[a].Node? && ChildOf(trees[a], side).Leaf?
      requires roots == kept + multiset{a} + Ref(link)
      requires link.To? ==> link.addr !in soles
      modifies this
      ensures Valid() && soles == old(soles)
      ensures roots == kept + multiset{a}
      ensures trees == old(trees)[a := AvlMap.Refresh(WithChild(old(trees)[a], side, TreeAt(old(trees), link)))]
    {
      hide Good;
      Attach(a, side, link, kept);
      Refresh(a);
    }

    // ----- tree operations: each consumes the reference it is given -----

    /** Both rotations: the child on `side` becomes the root. */
    method Rotate(root: Addr, side: Side, ghost kept: multiset<Addr>) returns (pivot: Addr)
      requires Valid() && roots == kept + multiset{root} && root !in soles
      requires root in trees && trees[root].Node? && ChildOf(trees[root], side).Node?
      modifies this
      ensures Valid() && soles == old(soles) && pivot !in soles
      ensures roots == kept + multiset{pivot}
      ensures pivot in trees && trees[pivot] == Rotated(old(trees)[root], side)
      ensures Kept(old(trees), trees, kept)
    {
      hide Good, Kept;
      ghost var t0, others := trees, soles;
      KeptAtFirst(nodes, counts, roots, trees, soles, kept);
      var low, child := Lift(root, side, kept);
      ghost var t1 := trees;
      KeptBy(t0, t0, kept, low, t1[low]);
      var middle;
      pivot, middle := Lift(child.addr, Other(side), kept + multiset{low});
      ghost var t2 := trees;
      KeptBy(t0, t1, kept, pivot, t2[pivot]);
      assert roots == kept + multiset{pivot} + multiset{low} + Ref(middle);
      assert soles == others + {pivot} + {low};
      Join(low, side, middle, kept + multiset{pivot});
      ghost var t3 := trees;
      KeptBy(t0, t2, kept, low, t3[low]);
      Settle(low, others + {pivot});
      Join(pivot, Other(side), To(low), kept);
      KeptBy(t0, t3, kept, pivot, trees[pivot]);
      Settle(pivot, others);
    }

    /** `root.left = Some(rotate_left(root.left.take()))`. */
    method LeanOutward(a: Addr, side: Side, ghost kept: multiset<Addr>)
      requires Valid() && roots == kept + multiset{a} && a !in kept && a in soles
      requires a in trees && trees[a].Node? && ChildOf(trees[a], side).Node?
      requires ChildOf(ChildOf(trees[a], side), Other(side)).Node?
      modifies this
      ensures Valid() && soles == old(soles) && roots == kept + multiset{a}
      ensures a in trees && trees[a] == WithChild(old(trees)[a], side, Rotated(ChildOf(old(trees)[a], side), Other(side)))
      ensures Kept(old(trees), trees, kept)
    {
      hide Good, Kept;
      ghost var t0 := trees;
      KeptAtFirst(nodes, counts, roots, trees, soles, kept);
      var link := Take(a, side, kept);
      ghost var t1 := trees;
      KeptBy(t0, t0, kept, a, t1[a]);
      var leaned := Rotate(link.addr, Other(side), kept + multiset{a});
      ghost var t2 := trees;
      KeptThen(t0, t1, t2, kept, kept + multiset{a});
      KeptOne(t1, t2, kept + multiset{a}, a);
      Attach(a, side, To(leaned), kept);
      KeptBy(t0, t2, kept, a, trees[a]);
    }

    /** The branch of `rebalance` for a node too tall on `side`. */
    method Straighten(a: Addr, side: Side, ghost kept: multiset<Addr>, ghost others: set<Addr>) returns (out: Addr)
      requires Valid() && roots == kept + multiset{a} && a !in kept && soles == others + {a} && a !in others
      requires a in trees && Leaning(trees[a], side)
      modifies this
      ensures Valid() && soles == others && out !in soles
      ensures roots == kept + multiset{out}
      ensures out in trees && trees[out] == Straightened(old(trees)[a], side)
      ensures Kept(old(trees), trees, kept)
    {
      hide Good, Kept;
      ghost var t0 := trees;
      KeptAtFirst(nodes, counts, roots, trees, soles, kept);
      ChildFields(a, side, nodes, counts, roots, trees, soles);
      var child := nodes[nodes[a].Child(side).addr];
      if HeightAt(child.Child(side)) < HeightAt(child.Child(Other(side))) {
        LeanOutward(a, side, kept);
      }
      ghost var t1 := trees;
      Settle(a, others);
      out := Rotate(a, side, kept);
      KeptThen(t0, t1, trees, kept, kept);
    }

    method Rebalance(root: Addr, ghost kept: multiset<Addr>) returns (out: Addr)
      requires Valid() && roots == kept + multiset{root} && root !in soles
      requires root in trees && trees[root].Node? && Rotatable(trees[root])
      modifies this
      ensures Valid() && soles == old(soles) && out !in soles
      ensures roots == kept + multiset{out}
      ensures out in trees && trees[out] == AvlMap.Rebalance(old(trees)[root])
      ensures Kept(old(trees), trees, kept)
    {
      hide Good, Kept;
      ghost var t0, others := trees, soles;
      KeptAtFirst(nodes, counts, roots, trees, soles, kept);
      var a := MakeMut(root, kept);
      ghost var t1 := trees;
      KeptBy(t0, t0, kept, a, t1[a]);
      Refresh(a);
      ghost var t2 := trees;
      KeptBy(t0, t1, kept, a, t2[a]);
      Known(a, nodes, counts, roots, trees, soles);
      StoredFields(nodes[a].left, nodes, counts, roots, trees, soles);
      StoredFields(nodes[a].right, nodes, counts, roots, trees, soles);
      var left, right := HeightAt(nodes[a].left), HeightAt(nodes[a].right);
      if left > right + 1 {
        out := Straighten(a, OnLeft, kept, others);
        KeptThen(t0, t2, trees, kept, kept);
      } else if right > left + 1 {
        out := Straighten(a, OnRight, kept, others);
        KeptThen(t0, t2, trees, kept, kept);
      } else {
        out := a;
        Settle(a, others);
      }
    }

    /** `node.left = link; rebalance(root)`: how every descent ends. */
    method Finish(a: Addr, side: Side, link: Link, ghost kept: multiset<Addr>, ghost others: set<Addr>) returns (out: Addr)
      requires Valid() && soles == others + {a} && a !in others && a !in kept
      requires roots == kept + multiset{a} + Ref(link) && (link.To? ==> link.addr !in soles)
      requires a in trees && trees[a].Node? && ChildOf(trees[a], side).Leaf?
      requires Rotatable(WithChild(trees[a], side, TreeAt(trees, link)))
      modifies this
      ensures Valid() && soles == others && out !in soles
      ensures roots == kept + multiset{out}
      ensures out in trees && trees[out] == AvlMap.Rebalance(WithChild(old(trees)[a], side, TreeAt(old(trees), link)))
      ensures Kept(old(trees), trees, kept)
    {
      hide Good, Kept;
      ghost var t0 := trees;
      KeptAtFirst(nodes, counts, roots, trees, soles, kept);
      Attach(a, side, link, kept);
      ghost var t1 := trees;
      KeptBy(t0, t0, kept, a, t1[a]);
      Settle(a, others);
      out := Rebalance(a, kept);
      KeptThen(t0, t1, trees, kept, kept);
    }

    /** Our own copy of the node, with another value in it. */
    method Place(root: Addr, value: V, ghost kept: multiset<Addr>) returns (out: Addr, previous: V)
      requires Valid() && roots == kept + multiset{root} && root !in soles
      modifies this
      ensures Valid() && soles == old(soles) && out !in soles
      ensures roots == kept + multiset{out}
      ensures root in old(trees) && old(trees)[root].Node?
      ensures out in trees && trees[out] == old(trees)[root].(value := value)
      ensures previous == old(trees)[root].value
      ensures Kept(old(trees), trees, kept)
    {
      hide Good, Kept;
      ghost var t0, others := trees, soles;
      KeptAtFirst(nodes, counts, roots, trees, soles, kept);
      out := MakeMut(root, kept);
      ghost var t1 := trees;
      KeptBy(t0, t0, kept, out, t1[out]);
      Known(out, nodes, counts, roots, trees, soles);
      previous := nodes[out].value;
      Write(out, nodes[out].key, value, nodes[out].height, nodes[out].len);
      KeptBy(t0, t1, kept, out, trees[out]);
      Settle(out, others);
    }

    /** The equal branch of `insert`: `mem::replace(&mut node.value, value)`. */
    method Overwrite(root: Addr, value: V, ghost kept: multiset<Addr>) returns (out: Addr, previous: V)
      requires Valid() && roots == kept + multiset{root} && root !in soles
      requires root in trees && trees[root].Node? && Rotatable(trees[root].(value := value))
      modifies this
      ensures Valid() && soles == old(soles) && out !in soles
      ensures roots == kept + multiset{out}
      ensures out in trees && trees[out] == AvlMap.Rebalance(old(trees)[root].(value := value))
      ensures previous == old(trees)[root].value
      ensures Kept(old(trees), trees, kept)
    {
      hide Good, Kept;
      ghost var t0 := trees;
      var a;
      a, previous := Place(root, value, kept);
      ghost var t1 := trees;
      out := Rebalance(a, kept);
      KeptThen(t0, t1, trees, kept, kept);
    }

    /** `insert`: one recursive descent; every node on the path is ours before it changes. */
    method Insert(link: Link, key: Key, value: V, ghost kept: multiset<Addr>) returns (out: Addr, previous: Option<V>)
      requires Valid() && roots == kept + Ref(link) && (link.To? ==> link.addr !in soles)
      requires Shaped(TreeAt(trees, link))
      modifies this
      ensures Valid() && soles == old(soles) && out !in soles
      ensures roots == kept + multiset{out}
      ensures out in trees && trees[out] == AvlMap.Insert(TreeAt(old(trees), link), key, value)
      ensures previous == Get(TreeAt(old(trees), link), key)
      ensures Kept(old(trees), trees, kept)
      decreases TreeAt(trees, link), 1
    {
      hide Good, Kept, Shaped, Get, Rotatable, AvlMap.Insert, AvlMap.Rebalance;
      ghost var t0 := trees;
      KeptAtFirst(nodes, counts, roots, trees, soles, kept);
      InsertIntoLeaf(key, value);
      if link.Nil? {
        out := New(key, value);
        previous := None;
        KeptBy(t0, t0, kept, out, trees[out]);
        return;
      }
      Known(link.addr, nodes, counts, roots, trees, soles);
      InsertStep(trees[link.addr], key, value);
      var found := nodes[link.addr].key;
      if key == found {
        var replaced;
        out, replaced := Overwrite(link.addr, value, kept);
        previous := Some(replaced);
      } else {
        out, previous := InsertBelow(link.addr, key, value, kept);
      }
    }

    /** The descent below a node whose key is another one. */
    method InsertBelow(at: Addr, key: Key, value: V, ghost kept: multiset<Addr>) returns (out: Addr, previous: Option<V>)
      requires Valid() && roots == kept + multiset{at} && at !in soles
      requires at in trees && trees[at].Node? && Shaped(trees[at]) && at in nodes && nodes[at].key == trees[at].key != key
      modifies this
      ensures Valid() && soles == old(soles) && out !in soles
      ensures roots == kept + multiset{out}
      ensures out in trees && trees[out] == AvlMap.Insert(old(trees)[at], key, value)
      ensures previous == Get(old(trees)[at], key)
      ensures Kept(old(trees), trees, kept)
      decreases trees[at], 0
    {
      hide Good, Kept, Shaped, Get, Rotatable, AvlMap.Insert, AvlMap.Rebalance;
      ghost var t0, others := trees, soles;
      KeptAtFirst(nodes, counts, roots, trees, soles, kept);
      InsertStep(trees[at], key, value);
      var side := if key < nodes[at].key then OnLeft else OnRight;
      var a, child := Lift(at, side, kept);
      ghost var t1 := trees;
      KeptBy(t0, t0, kept, a, t1[a]);
      var next;
      next, previous := Insert(child, key, value, kept + multiset{a});
      ghost var t2 := trees;
      KeptThen(t0, t1, t2, kept, kept + multiset{a});
      KeptOne(t1, t2, kept + multiset{a}, a);
      out := Finish(a, side, To(next), kept, others);
      KeptThen(t0, t2, trees, kept, kept);
    }

    /** `owned`: the node by value, moved out of its `Arc` when ours is the only
        reference and copied out otherwise. */
    method Unwrap(a: Addr, ghost kept: multiset<Addr>) returns (cell: Cell<V>)
      requires Valid() && roots == kept + multiset{a} && a !in soles
      modifies this
      ensures Valid() && soles == old(soles)
      ensures roots == kept + Ref(cell.left) + Ref(cell.right)
      ensures a in old(trees) && old(trees)[a] == Label(cell, trees)
      ensures a in old(nodes) && cell == old(nodes)[a]
      ensures cell.left.To? ==> cell.left.addr in trees && cell.left.addr !in soles
      ensures cell.right.To? ==> cell.right.addr in trees && cell.right.addr !in soles
      ensures Kept(old(trees), trees, kept)
    {
      hide Good, Kept;
      Known(a, nodes, counts, roots, trees, soles);
      KeptAtFirst(nodes, counts, roots, trees, soles, kept);
      cell := nodes[a];
      if counts[a] == 1 {
        FreeStep(a, kept, nodes, counts, trees, soles);
        KeptFree(trees, kept, a);
        nodes, counts, trees := nodes - {a}, counts - {a}, trees - {a};
      } else {
        CopyOutStep(a, kept, nodes, counts, trees, soles);
        counts := Share(Share(counts, cell.left), cell.right);
        counts := counts[a := counts[a] - 1];
      }
      roots := kept + Ref(cell.left) + Ref(cell.right);
    }

    /** Dropping a reference; the last one frees the node and drops its children. */
    method Release(link: Link, ghost kept: multiset<Addr>)
      requires Valid() && roots == kept + Ref(link) && (link.To? ==> link.addr !in soles)
      modifies this
      ensures Valid() && soles == old(soles) && roots == kept
      ensures Kept(old(trees), trees, kept)
      ensures nodes.Keys <= old(nodes.Keys)
      decreases nodes.Keys
    {
      hide Good, Kept;
      ghost var t0 := trees;
      KeptAtFirst(nodes, counts, roots, trees, soles, kept);
      if link.Nil? {
        return;
      }
      var a := link.addr;
      Known(a, nodes, counts, roots, trees, soles);
      if counts[a] == 1 {
        var cell := nodes[a];
        FreeStep(a, kept, nodes, counts, trees, soles);
        KeptFree(trees, kept, a);
        nodes, counts, trees := nodes - {a}, counts - {a}, trees - {a};
        roots := kept + Ref(cell.left) + Ref(cell.right);
        ghost var t1 := trees;
        assert roots == kept + Ref(cell.right) + Ref(cell.left);
        Release(cell.left, kept + Ref(cell.right));
        ghost var t2 := trees;
        KeptThen(t0, t1, t2, kept, kept + Ref(cell.right));
        Release(cell.right, kept);
        KeptThen(t0, t2, trees, kept, kept);
      } else {
        DropStep(a, kept, nodes, counts, trees, soles);
        counts := counts[a := counts[a] - 1];
        roots := kept;
      }
    }

    /** A node with at most one child gives way to it: `node.left.or(node.right)`. */
    method Collapse(root: Addr, ghost kept: multiset<Addr>) returns (out: Link, key: Key, value: V)
      requires Valid() && roots == kept + multiset{root} && root !in soles
      requires root in trees && trees[root].Node? && (trees[root].left.Leaf? || trees[root].right.Leaf?)
      modifies this
      ensures Valid() && soles == old(soles) && (out.To? ==> out.addr !in soles)
      ensures roots == kept + Ref(out)
      ensures TreeAt(trees, out) == if old(trees)[root].left.Leaf? then old(trees)[root].right else old(trees)[root].left
      ensures key == old(trees)[root].key && value == old(trees)[root].value
      ensures Kept(old(trees), trees, kept)
    {
      hide Good, Kept;
      Known(root, nodes, counts, roots, trees, soles);
      var cell := Unwrap(root, kept);
      out, key, value := if cell.left.Nil? then cell.right else cell.left, cell.key, cell.value;
      assert kept + Ref(cell.left) + Ref(cell.right) == kept + Ref(out);
    }

    method PopMin(root: Addr, ghost kept: multiset<Addr>) returns (out: Link, key: Key, value: V)
      requires Valid() && roots == kept + multiset{root} && root !in soles
      requires root in trees && Shaped(trees[root])
      modifies this
      ensures Valid() && soles == old(soles) && (out.To? ==> out.addr !in soles)
      ensures roots == kept + Ref(out)
      ensures old(trees)[root].Node? && TreeAt(trees, out) == AvlMap.PopMin(old(trees)[root])
      ensures (key, value) == MinEntry(old(trees)[root])
      ensures Kept(old(trees), trees, kept)
      decreases trees[root]
    {
      hide Good, Kept, Shaped, Rotatable, AvlMap.PopMin, MinEntry, AvlMap.Rebalance;
      ghost var t0, others := trees, soles;
      KeptAtFirst(nodes, counts, roots, trees, soles, kept);
      Known(root, nodes, counts, roots, trees, soles);
      PopMinStep(trees[root]);
      if nodes[root].left.Nil? {
        out, key, value := Collapse(root, kept);
      } else {
        var a, child := Lift(root, OnLeft, kept);
        ghost var t1 := trees;
        KeptBy(t0, t0, kept, a, t1[a]);
        var left;
        left, key, value := PopMin(child.addr, kept + multiset{a});
        ghost var t2 := trees;
        KeptThen(t0, t1, t2, kept, kept + multiset{a});
        KeptOne(t1, t2, kept + multiset{a}, a);
        var top := Finish(a, OnLeft, left, kept, others);
        KeptThen(t0, t2, trees, kept, kept);
        out := To(top);
      }
    }

    /** `node.key = key; replace(&mut node.value, value); node.right = right; rebalance(root)`. */
    method Install(a: Addr, key: Key, value: V, right: Link, ghost kept: multiset<Addr>, ghost others: set<Addr>)
      returns (out: Addr, previous: V)
      requires Valid() && soles == others + {a} && a !in others && a !in kept
      requires roots == kept + multiset{a} + Ref(right) && (right.To? ==> right.addr !in soles && right.addr != a)
      requires a in trees && trees[a].Node? && trees[a].right.Leaf?
      requires Rotatable(trees[a].(key := key, value := value, right := TreeAt(trees, right)))
      modifies this
      ensures Valid() && soles == others && out !in soles
      ensures roots == kept + multiset{out}
      ensures out in trees
      ensures trees[out] == AvlMap.Rebalance(old(trees)[a].(key := key, value := value, right := TreeAt(old(trees), right)))
      ensures previous == old(trees)[a].value
      ensures Kept(old(trees), trees, kept)
    {
      hide Good, Kept, Rotatable, AvlMap.Rebalance;
      ghost var t0 := trees;
      KeptAtFirst(nodes, counts, roots, trees, soles, kept);
      Known(a, nodes, counts, roots, trees, soles);
      previous := nodes[a].value;
      Write(a, key, value, nodes[a].height, nodes[a].len);
      ghost var t1 := trees;
      KeptBy(t0, t0, kept, a, t1[a]);
      out := Finish(a, OnRight, right, kept, others);
      KeptThen(t0, t1, trees, kept, kept);
    }

    /** The equal branch of `remove` with two children: the successor takes the node. */
    method ReplaceByMin(root: Addr, ghost kept: multiset<Addr>) returns (out: Addr, previous: V)
      requires Valid() && roots == kept + multiset{root} && root !in soles
      requires root in trees && trees[root].Node? && Shaped(trees[root]) && trees[root].right.Node?
      modifies this
      ensures Valid() && soles == old(soles) && out !in soles
      ensures roots == kept + multiset{out}
      ensures Rotatable(Promoted(old(trees)[root]))
      ensures out in trees && trees[out] == AvlMap.Rebalance(Promoted(old(trees)[root]))
      ensures previous == old(trees)[root].value
      ensures Kept(old(trees), trees, kept)
    {
      hide Good, Kept, Shaped, Rotatable, AvlMap.PopMin, MinEntry, AvlMap.Rebalance;
      ghost var t0, others := trees, soles;
      KeptAtFirst(nodes, counts, roots, trees, soles, kept);
      PromotedRotatable(trees[root]);
      var a, child := Lift(root, OnRight, kept);
      ghost var t1 := trees;
      KeptBy(t0, t0, kept, a, t1[a]);
      var right, key, value := PopMin(child.addr, kept + multiset{a});
      ghost var t2 := trees;
      KeptThen(t0, t1, t2, kept, kept + multiset{a});
      KeptOne(t1, t2, kept + multiset{a}, a);
      out, previous := Install(a, key, value, right, kept, others);
      KeptThen(t0, t2, trees, kept, kept);
    }

    method Remove(root: Addr, key: Key, ghost kept: multiset<Addr>) returns (out: Link, previous: V)
      requires Valid() && roots == kept + multiset{root} && root !in soles
      requires root in trees && Shaped(trees[root]) && Get(trees[root], key).Some?
      modifies this
      ensures Valid() && soles == old(soles) && (out.To? ==> out.addr !in soles)
      ensures roots == kept + Ref(out)
      ensures TreeAt(trees, out) == AvlMap.Remove(old(trees)[root], key)
      ensures Get(old(trees)[root], key) == Some(previous)
      ensures Kept(old(trees), trees, kept)
      decreases trees[root], 1
    {
      hide Good, Kept, Shaped, Get, Rotatable, Promoted, AvlMap.Remove, AvlMap.Rebalance;
      Known(root, nodes, counts, roots, trees, soles);
      RemoveStep(trees[root], key);
      var found := nodes[root];
      if key == found.key && (found.left.Nil? || found.right.Nil?) {
        var k;
        out, k, previous := Collapse(root, kept);
      } else if key == found.key {
        var top;
        top, previous := ReplaceByMin(root, kept);
        out := To(top);
      } else {
        out, previous := RemoveBelow(root, key, kept);
      }
    }

    /** The branches of `remove` that go further down. */
    method RemoveBelow(at: Addr, key: Key, ghost kept: multiset<Addr>) returns (out: Link, previous: V)
      requires Valid() && roots == kept + multiset{at} && at !in soles
      requires at in trees && trees[at].Node? && Shaped(trees[at]) && Get(trees[at], key).Some?
      requires at in nodes && nodes[at].key == trees[at].key != key
      modifies this
      ensures Valid() && soles == old(soles) && (out.To? ==> out.addr !in soles)
      ensures roots == kept + Ref(out)
      ensures TreeAt(trees, out) == AvlMap.Remove(old(trees)[at], key)
      ensures Get(old(trees)[at], key) == Some(previous)
      ensures Kept(old(trees), trees, kept)
      decreases trees[at], 0
    {
      hide Good, Kept, Shaped, Get, Rotatable, Promoted, AvlMap.Remove, AvlMap.Rebalance;
      ghost var t0, others := trees, soles;
      KeptAtFirst(nodes, counts, roots, trees, soles, kept);
      RemoveStep(trees[at], key);
      var side := if key < nodes[at].key then OnLeft else OnRight;
      var a, child := Lift(at, side, kept);
      ghost var t1 := trees;
      KeptBy(t0, t0, kept, a, t1[a]);
      var next;
      next, previous := Remove(child.addr, key, kept + multiset{a});
      ghost var t2 := trees;
      KeptThen(t0, t1, t2, kept, kept + multiset{a});
      KeptOne(t1, t2, kept + multiset{a}, a);
      var top := Finish(a, side, next, kept, others);
      KeptThen(t0, t2, trees, kept, kept);
      out := To(top);
    }

    /** Writing through `get_mut`: the path is detached down to the key, and only the
        value changes. */
    method Update(root: Addr, key: Key, value: V, ghost kept: multiset<Addr>) returns (out: Addr)
      requires Valid() && roots == kept + multiset{root} && root !in soles
      requires root in trees && Get(trees[root], key).Some?
      modifies this
      ensures Valid() && soles == old(soles) && out !in soles
      ensures roots == kept + multiset{out}
      ensures out in trees && trees[out] == SetValue(old(trees)[root], key, value)
      ensures Kept(old(trees), trees, kept)
      decreases trees[root], 1
    {
      hide Good, Kept, Get, SetValue;
      Known(root, nodes, counts, roots, trees, soles);
      SetValueDown(trees[root], key, value);
      if key == nodes[root].key {
        var previous;
        out, previous := Place(root, value, kept);
      } else {
        out := UpdateBelow(root, key, value, kept);
      }
    }

    /** The branches of `get_mut` that go further down. */
    method UpdateBelow(at: Addr, key: Key, value: V, ghost kept: multiset<Addr>) returns (out: Addr)
      requires Valid() && roots == kept + multiset{at} && at !in soles
      requires at in trees && trees[at].Node? && Get(trees[at], key).Some?
      requires at in nodes && nodes[at].key == trees[at].key != key
      modifies this
      ensures Valid() && soles == old(soles) && out !in soles
      ensures roots == kept + multiset{out}
      ensures out in trees && trees[out] == SetValue(old(trees)[at], key, value)
      ensures Kept(old(trees), trees, kept)
      decreases trees[at], 0
    {
      hide Good, Kept, Get, SetValue;
      ghost var t0, others := trees, soles;
      KeptAtFirst(nodes, counts, roots, trees, soles, kept);
      SetValueDown(trees[at], key, value);
      var side := if key < nodes[at].key then OnLeft else OnRight;
      var child;
      out, child := Lift(at, side, kept);
      ghost var t1 := trees;
      KeptBy(t0, t0, kept, out, t1[out]);
      var next := Update(child.addr, key, value, kept + multiset{out});
      ghost var t2 := trees;
      KeptThen(t0, t1, t2, kept, kept + multiset{out});
      KeptOne(t1, t2, kept + multiset{out}, out);
      Attach(out, side, To(next), kept);
      KeptBy(t0, t2, kept, out, trees[out]);
      Settle(out, others);
    }

    /** `Arc::clone`. */
    method Retain(link: Link)
      requires Valid() && (link.To? ==> link.addr in roots && link.addr !in soles)
      modifies this`counts, this`roots
      ensures Valid() && roots == old(roots) + Ref(link)
    {
      hide Good;
      if link.To? { Known(link.addr, nodes, counts, roots, trees, soles); }
      ShareStep(link, nodes, counts, roots, trees, soles);
      counts := Share(counts, link);
      roots := roots + Ref(link);
    }

    /** `get`: a search that touches no count. */
    method Lookup(link: Link, key: Key) returns (value: Option<V>)
      requires Valid() && (link.To? ==> link.addr in nodes)
      ensures value == Get(TreeAt(trees, link), key)
    {
      hide Counted;
      CountedFacts(nodes, counts, roots);
      var current := link;
      while current.To?
        invariant current.To? ==> current.addr in nodes
        invariant Get(TreeAt(trees, current), key) == Get(TreeAt(trees, link), key)
        decreases TreeAt(trees, current)
      {
        var cell := nodes[current.addr];
        assert trees[current.addr] == Label(cell, trees);
        if key < cell.key {
          current := cell.left;
        } else if cell.key < key {
          current := cell.right;
        } else {
          return Some(cell.value);
        }
      }
      value := None;
    }
  }
}
