/** Ordered iteration over a state map (kernel/src/state_map.rs): an explicit stack of
    nodes whose own entry and right subtree are still to come.  A borrowed map cannot
    change, so an iterator reads one fixed set of nodes. */
module MapIter {
  import opened Wrappers
  import opened AvlMap
  import opened NodeArena

  /** What `Known` says of a node, for every node of a borrowed map. */
  ghost predicate Readable<V>(nodes: Nodes<V>, trees: map<Addr, Tree<V>>) {
    && Labeled(nodes, trees)
    && Closed(nodes)
  }

  ghost function Waiting<V>(a: Addr, nodes: Nodes<V>, trees: map<Addr, Tree<V>>): seq<Entry<V>>
    requires a in nodes
  {
    [(nodes[a].key, nodes[a].value)] + Entries(TreeAt(trees, nodes[a].right))
  }

  /** The entries an iterator will still yield; the last element of the stack is the top. */
  ghost function Pending<V>(stack: seq<Addr>, nodes: Nodes<V>, trees: map<Addr, Tree<V>>): seq<Entry<V>>
    requires forall a :: a in stack ==> a in nodes
  {
    if stack == [] then []
    else Waiting(stack[|stack| - 1], nodes, trees) + Pending(stack[..|stack| - 1], nodes, trees)
  }

  ghost function AtLeast<V>(s: seq<Entry<V>>, bound: Key): seq<Entry<V>> {
    if s == [] then []
    else if s[0].0 < bound then AtLeast(s[1..], bound)
    else [s[0]] + AtLeast(s[1..], bound)
  }

  lemma {:induction false} FromAppend<V>(a: seq<Entry<V>>, b: seq<Entry<V>>, bound: Key)
    ensures AtLeast(a + b, bound) == AtLeast(a, bound) + AtLeast(b, bound)
  {
    if a == [] {
      assert a + b == b;
    } else {
      FromAppend(a[1..], b, bound);
      var s, x, y := a + b, AtLeast(a[1..], bound), AtLeast(b, bound);
      assert s[0] == a[0] && s[1..] == a[1..] + b;
      hide AtLeast;
      if a[0].0 >= bound {
        assert [a[0]] + (x + y) == [a[0]] + x + y;
      }
    }
  }

  lemma {:induction false} FromNone<V>(s: seq<Entry<V>>, bound: Key)
    requires forall e :: e in s ==> e.0 < bound
    ensures AtLeast(s, bound) == []
  {
    if s != [] {
      FromNone(s[1..], bound);
    }
  }

  lemma {:induction false} FromAll<V>(s: seq<Entry<V>>, bound: Key)
    requires forall e :: e in s ==> bound <= e.0
    ensures AtLeast(s, bound) == s
  {
    if s != [] {
      FromAll(s[1..], bound);
    }
  }

  /** Of a sorted listing, the entries from `bound` on are a suffix. */
  lemma {:induction false} FromIsSuffix<V>(s: seq<Entry<V>>, bound: Key) returns (k: nat)
    requires Sorted(s)
    ensures k <= |s| && AtLeast(s, bound) == s[k..]
    ensures forall i :: 0 <= i < |s| ==> (s[i].0 < bound <==> i < k)
  {
    if s == [] {
      k := 0;
    } else if s[0].0 < bound {
      k := FromIsSuffix(s[1..], bound);
      assert forall i :: 1 <= i < |s| ==> s[i] == s[1..][i - 1];
      k := k + 1;
    } else {
      k := 0;
      FromAll(s, bound);
    }
  }

  class Iter<V> {
    const nodes: Nodes<V>
    ghost const trees: map<Addr, Tree<V>>
    var stack: seq<Addr>
    /** The exact size hint, which `iter_from` does not keep. */
    const counting: bool
    var remaining: nat

    ghost predicate Reads()
      reads this
    {
      Readable(nodes, trees) && forall a :: a in stack ==> a in nodes
    }

    ghost predicate Valid()
      reads this
    {
      Reads() && (counting ==> remaining == |Rest()|)
    }

    ghost function Rest(): seq<Entry<V>>
      requires Reads()
      reads this
    {
      Pending(stack, nodes, trees)
    }

    /** `iter`: the whole map is pending. */
    constructor (nodes: Nodes<V>, link: Link, ghost trees: map<Addr, Tree<V>>)
      requires Readable(nodes, trees) && (link.To? ==> link.addr in nodes)
      requires Shaped(TreeAt(trees, link))
      ensures this.nodes == nodes && this.trees == trees
      ensures Valid() && counting && Rest() == Entries(TreeAt(trees, link))
    {
      this.nodes, this.trees, stack := nodes, trees, [];
      counting, remaining := true, LenOf(nodes, link);
      new;
      hide Shaped, Entries;
      StoredLen(nodes, trees, link);
      PushLeft(link);
    }

    /** `iter_from`: exactly the entries with keys at least `bound` are pending. */
    constructor From(nodes: Nodes<V>, link: Link, bound: Key, ghost trees: map<Addr, Tree<V>>)
      requires Readable(nodes, trees) && (link.To? ==> link.addr in nodes)
      requires Sorted(Entries(TreeAt(trees, link)))
      ensures this.nodes == nodes && this.trees == trees
      ensures Valid() && Rest() == AtLeast(Entries(TreeAt(trees, link)), bound)
    {
      this.nodes, this.trees, stack := nodes, trees, [];
      counting, remaining := false, 0;
      new;
      Descend(link, bound);
    }

    method PushLeft(link: Link)
      requires Reads() && (link.To? ==> link.addr in nodes)
      modifies this`stack
      ensures Reads() && Rest() == Entries(TreeAt(trees, link)) + old(Rest())
    {
      hide Pending, Entries, Waiting, Labeled;
      var current := link;
      ghost var goal := Entries(TreeAt(trees, link)) + Rest();
      while current.To?
        invariant Reads() && (current.To? ==> current.addr in nodes)
        invariant Entries(TreeAt(trees, current)) + Rest() == goal
        decreases TreeAt(trees, current)
      {
        var a := current.addr;
        StepLeft(stack, a, nodes, trees);
        stack := stack + [a];
        current := nodes[a].left;
      }
      LeafListsNothing<V>(0);
      assert [] + Rest() == goal;
    }

    /** The loop of `iter_from`: skip smaller keys to the right, stack the others. */
    method Descend(link: Link, bound: Key)
      requires Reads() && (link.To? ==> link.addr in nodes) && stack == []
      requires Sorted(Entries(TreeAt(trees, link)))
      modifies this`stack
      ensures Reads() && Rest() == AtLeast(Entries(TreeAt(trees, link)), bound)
    {
      hide Pending, Entries, AtLeast, Waiting, Labeled, Sorted;
      var current := link;
      ghost var goal := AtLeast(Entries(TreeAt(trees, link)), bound);
      NothingPending(nodes, trees);
      assert goal + [] == goal;
      while current.To?
        invariant Reads() && (current.To? ==> current.addr in nodes)
        invariant Sorted(Entries(TreeAt(trees, current)))
        invariant AtLeast(Entries(TreeAt(trees, current)), bound) + Rest() == goal
        decreases TreeAt(trees, current)
      {
        var a := current.addr;
        StepFrom(stack, a, bound, nodes, trees);
        if nodes[a].key < bound {
          current := nodes[a].right;
        } else {
          stack := stack + [a];
          current := nodes[a].left;
        }
      }
      LeafListsNothing<V>(bound);
      assert [] + Rest() == goal;
    }

    /** `next`: the first pending entry, and it is no longer pending. */
    method Next() returns (e: Option<Entry<V>>)
      requires Valid()
      modifies this
      ensures Valid()
      ensures old(Rest()) == if e.Some? then [e.value] + Rest() else []
      ensures e.None? ==> Rest() == []
    {
      hide Pending, Entries, Labeled;
      NothingPending(nodes, trees);
      if stack == [] {
        return None;
      }
      Popped(stack, nodes, trees);
      var a := stack[|stack| - 1];
      stack := stack[..|stack| - 1];
      PushLeft(nodes[a].right);
      if counting {
        remaining := remaining - 1;
      }
      e := Some((nodes[a].key, nodes[a].value));
    }
  }

  lemma Regroup<V>(l: seq<Entry<V>>, e: Entry<V>, r: seq<Entry<V>>, p: seq<Entry<V>>)
    ensures l + ([e] + r + p) == l + [e] + r + p
  {
  }

  /** One turn of `push_left`. */
  lemma StepLeft<V>(stack: seq<Addr>, a: Addr, nodes: Nodes<V>, trees: map<Addr, Tree<V>>)
    requires Readable(nodes, trees) && a in nodes && forall b :: b in stack ==> b in nodes
    ensures Entries(TreeAt(trees, nodes[a].left)) + Pending(stack + [a], nodes, trees) ==
            Entries(TreeAt(trees, To(a))) + Pending(stack, nodes, trees)
    ensures a in trees && trees[a].Node? && trees[a].left == TreeAt(trees, nodes[a].left)
    ensures nodes[a].left.To? ==> nodes[a].left.addr in nodes
  {
    hide Pending;
    assert trees[a] == Label(nodes[a], trees);
    Pushed(stack, a, nodes, trees);
    Regroup(Entries(trees[a].left), (trees[a].key, trees[a].value),
            Entries(trees[a].right), Pending(stack, nodes, trees));
  }

  /** One turn of the `iter_from` loop. */
  lemma StepFrom<V>(stack: seq<Addr>, a: Addr, bound: Key, nodes: Nodes<V>, trees: map<Addr, Tree<V>>)
    requires Readable(nodes, trees) && a in nodes && forall b :: b in stack ==> b in nodes
    requires Sorted(Entries(TreeAt(trees, To(a))))
    ensures a in trees && trees[a].Node?
    ensures trees[a].left == TreeAt(trees, nodes[a].left) && trees[a].right == TreeAt(trees, nodes[a].right)
    ensures Sorted(Entries(trees[a].left)) && Sorted(Entries(trees[a].right))
    ensures nodes[a].left.To? ==> nodes[a].left.addr in nodes
    ensures nodes[a].right.To? ==> nodes[a].right.addr in nodes
    ensures nodes[a].key < bound ==> AtLeast(Entries(trees[a]), bound) == AtLeast(Entries(trees[a].right), bound)
    ensures bound <= nodes[a].key ==>
              AtLeast(Entries(trees[a].left), bound) + Pending(stack + [a], nodes, trees) ==
              AtLeast(Entries(trees[a]), bound) + Pending(stack, nodes, trees)
  {
    hide Pending, AtLeast, Entries, Sorted;
    assert trees[a] == Label(nodes[a], trees);
    FromAtNode(trees[a], bound);
    Pushed(stack, a, nodes, trees);
    Regroup(AtLeast(Entries(trees[a].left), bound), (trees[a].key, trees[a].value),
            Entries(trees[a].right), Pending(stack, nodes, trees));
  }

  lemma NothingPending<V>(nodes: Nodes<V>, trees: map<Addr, Tree<V>>)
    ensures Pending([], nodes, trees) == []
  {
  }

  lemma LeafListsNothing<V>(bound: Key)
    ensures AtLeast(Entries(Tree<V>.Leaf), bound) == [] && Entries(Tree<V>.Leaf) == []
  {
  }

  lemma Popped<V>(stack: seq<Addr>, nodes: Nodes<V>, trees: map<Addr, Tree<V>>)
    requires stack != [] && forall b :: b in stack ==> b in nodes
    ensures var a := stack[|stack| - 1];
            Pending(stack, nodes, trees) ==
            [(nodes[a].key, nodes[a].value)] + (Entries(TreeAt(trees, nodes[a].right)) + Pending(stack[..|stack| - 1], nodes, trees))
  {
  }

  lemma Pushed<V>(stack: seq<Addr>, a: Addr, nodes: Nodes<V>, trees: map<Addr, Tree<V>>)
    requires a in nodes && forall b :: b in stack ==> b in nodes
    ensures Pending(stack + [a], nodes, trees) == Waiting(a, nodes, trees) + Pending(stack, nodes, trees)
  {
    assert (stack + [a])[..|stack|] == stack;
  }

  lemma FromAtNode<V>(t: Tree<V>, bound: Key)
    requires t.Node? && Sorted(Entries(t))
    ensures Sorted(Entries(t.left)) && Sorted(Entries(t.right))
    ensures AtLeast(Entries(t), bound) ==
            if t.key < bound then AtLeast(Entries(t.right), bound)
            else AtLeast(Entries(t.left), bound) + [(t.key, t.value)] + Entries(t.right)
  {
    var a, e, b := Entries(t.left), (t.key, t.value), Entries(t.right);
    SplitSorted(a, e, b);
    FromAppend(a + [e], b, bound);
    FromAppend(a, [e], bound);
    if t.key < bound {
      FromNone(a, bound);
      FromNone([e], bound);
    } else {
      FromAll([e], bound);
      FromAll(b, bound);
    }
  }

  /** `PartialEq`: same pointer, or same length and same entries in order. */
  method Equal<V(==)>(nodes: Nodes<V>, left: Link, right: Link, ghost trees: map<Addr, Tree<V>>) returns (same: bool)
    requires Readable(nodes, trees)
    requires left.To? ==> left.addr in nodes
    requires right.To? ==> right.addr in nodes
    requires Shaped(TreeAt(trees, left)) && Shaped(TreeAt(trees, right))
    ensures same <==> Entries(TreeAt(trees, left)) == Entries(TreeAt(trees, right))
  {
    hide Pending, Entries, Shaped;
    if left.To? && left == right {
      return true;
    }
    StoredLen(nodes, trees, left);
    StoredLen(nodes, trees, right);
    if LenOf(nodes, left) != LenOf(nodes, right) {
      return false;
    }
    var a := new Iter(nodes, left, trees);
    var b := new Iter(nodes, right, trees);
    ghost var seen: seq<Entry<V>> := [];
    ghost var s, u := Entries(TreeAt(trees, left)), Entries(TreeAt(trees, right));
    while true
      invariant a.Valid() && b.Valid() && a.nodes == nodes == b.nodes && a.trees == trees == b.trees
      invariant seen + a.Rest() == s && seen + b.Rest() == u
      decreases |a.Rest()|
    {
      ghost var ra, rb := a.Rest(), b.Rest();
      var x := a.Next();
      var y := b.Next();
      assert ra == rb ==> x == y by {
        assert x.Some? ==> ra[0] == x.value;
        assert y.Some? ==> rb[0] == y.value;
      }
      if x != y {
        CommonPrefix(seen, ra, rb);
        return false;
      }
      if x.None? {
        return true;
      }
      Shift(seen, x.value, ra, a.Rest());
      Shift(seen, x.value, rb, b.Rest());
      seen := seen + [x.value];
    }
  }

  function LenOf<V>(nodes: Nodes<V>, link: Link): nat {
    if link.To? && link.addr in nodes then nodes[link.addr].len else 0
  }

  lemma StoredLen<V>(nodes: Nodes<V>, trees: map<Addr, Tree<V>>, link: Link)
    requires Readable(nodes, trees) && Shaped(TreeAt(trees, link))
    ensures LenOf(nodes, link) == |Entries(TreeAt(trees, link))|
  {
    LenIsCount(TreeAt(trees, link));
    if link.To? && link.addr in nodes {
      assert trees[link.addr] == Label(nodes[link.addr], trees);
    }
  }

  lemma Shift<T>(seen: seq<T>, x: T, rest: seq<T>, rest': seq<T>)
    requires rest == [x] + rest'
    ensures seen + [x] + rest' == seen + rest
  {
  }

  lemma CommonPrefix<T>(p: seq<T>, a: seq<T>, b: seq<T>)
    ensures p + a == p + b <==> a == b
  {
    assert (p + a)[|p|..] == a && (p + b)[|p|..] == b;
  }

  /** `BorshSerialize`: the count, then every key and value in order.  `word` encodes
      the u32 count and `encode` one entry. */
  method Serialize<V>(nodes: Nodes<V>, link: Link, word: nat -> seq<int>, encode: Entry<V> -> seq<int>,
                      ghost trees: map<Addr, Tree<V>>) returns (bytes: Option<seq<int>>)
    requires Readable(nodes, trees) && (link.To? ==> link.addr in nodes)
    requires Shaped(TreeAt(trees, link))
    ensures bytes == Encoding(Entries(TreeAt(trees, link)), word, encode)
  {
    hide Pending, Entries, Shaped, Flat;
    var len := LenOf(nodes, link);
    StoredLen(nodes, trees, link);
    if len >= 0x1_0000_0000 {
      return None;
    }
    var out := word(len);
    var iter := new Iter(nodes, link, trees);
    ghost var goal := word(len) + Flat(iter.Rest(), encode);
    var done := false;
    while !done
      invariant iter.Valid() && iter.nodes == nodes && iter.trees == trees
      invariant out + Flat(iter.Rest(), encode) == goal
      invariant done ==> iter.Rest() == []
      decreases !done, |iter.Rest()|
    {
      ghost var rest := iter.Rest();
      FlatStep(rest, encode);
      var next := iter.Next();
      if next.Some? {
        assert rest[1..] == iter.Rest();
        out := out + encode(next.value);
      } else {
        done := true;
      }
    }
    FlatStep(iter.Rest(), encode);
    assert out + [] == out;
    bytes := Some(out);
  }

  lemma FlatStep<V>(s: seq<Entry<V>>, encode: Entry<V> -> seq<int>)
    ensures s == [] ==> Flat(s, encode) == []
    ensures s != [] ==> forall p: seq<int> :: p + Flat(s, encode) == p + encode(s[0]) + Flat(s[1..], encode)
  {
    if s != [] {
      forall p: seq<int>
        ensures p + Flat(s, encode) == p + encode(s[0]) + Flat(s[1..], encode)
      {
        assert p + (encode(s[0]) + Flat(s[1..], encode)) == p + encode(s[0]) + Flat(s[1..], encode);
      }
    }
  }

  function Flat<V>(s: seq<Entry<V>>, encode: Entry<V> -> seq<int>): seq<int> {
    if s == [] then [] else encode(s[0]) + Flat(s[1..], encode)
  }

  /** The encoding of an ordered map as a function of its listing alone. */
  function Encoding<V>(s: seq<Entry<V>>, word: nat -> seq<int>, encode: Entry<V> -> seq<int>): Option<seq<int>> {
    if |s| < 0x1_0000_0000 then Some(word(|s|) + Flat(s, encode)) else None
  }

  /** Shape never shows: two well-formed trees of one dictionary list, and so encode,
      identically. */
  lemma ShapeIndependent<V>(t: Tree<V>, u: Tree<V>, word: nat -> seq<int>, encode: Entry<V> -> seq<int>)
    requires AvlMap.Valid(t) && AvlMap.Valid(u) && Dict(Entries(t)) == Dict(Entries(u))
    ensures Entries(t) == Entries(u)
    ensures Encoding(Entries(t), word, encode) == Encoding(Entries(u), word, encode)
  {
    ListingUnique(Entries(t), Entries(u));
  }
}
