/** The ordered map of kernel/src/state_map.rs as a value: the AVL tree without
    its reference counts.  Every function follows the Rust function of the same
    name; NodeArena proves that the copy-on-write heap computes exactly these. */
module AvlMap {
  import opened Powers
  import opened Wrappers

  /** Keys are integers: every key type of the ledger is a fixed-width byte array
      (or a tuple of them), whose order is the order of the number it spells. */
  type Key = int

  /** `height` and `len` are stored fields, as in the source: nothing in the type
      says they are right. */
  datatype Tree<V> =
    | Leaf
    | Node(key: Key, value: V, left: Tree<V>, right: Tree<V>, height: nat, len: nat)

  // ----- operations -----

  function Height<V>(t: Tree<V>): nat {
    if t.Leaf? then 0 else t.height
  }

  function Len<V>(t: Tree<V>): nat {
    if t.Leaf? then 0 else t.len
  }

  function Max(a: nat, b: nat): nat {
    if a < b then b else a
  }

  function Refresh<V>(t: Tree<V>): Tree<V>
    requires t.Node?
  {
    t.(height := 1 + Max(Height(t.left), Height(t.right)),
       len := 1 + Len(t.left) + Len(t.right))
  }

  function RotateLeft<V>(t: Tree<V>): Tree<V>
    requires t.Node? && t.right.Node?
  {
    Refresh(t.right.(left := Refresh(t.(right := t.right.left))))
  }

  function RotateRight<V>(t: Tree<V>): Tree<V>
    requires t.Node? && t.left.Node?
  {
    Refresh(t.left.(right := Refresh(t.(left := t.left.right))))
  }

  /** The stored heights only mean something if taller than one implies a node and
      a taller grandchild is one: what `unwrap` and `expect` rely on. */
  predicate Rotatable<V>(t: Tree<V>) {
    t.Node? ==>
      && (Height(t.left) > Height(t.right) + 1 ==>
            t.left.Node? && (Height(t.left.left) < Height(t.left.right) ==> t.left.right.Node?))
      && (Height(t.right) > Height(t.left) + 1 ==>
            t.right.Node? && (Height(t.right.right) < Height(t.right.left) ==> t.right.left.Node?))
  }

  function Rebalance<V>(t: Tree<V>): Tree<V>
    requires t.Node? && Rotatable(t)
  {
    var t := Refresh(t);
    if Height(t.left) > Height(t.right) + 1 then
      if Height(t.left.left) < Height(t.left.right) then
        RotateRight(t.(left := RotateLeft(t.left)))
      else
        RotateRight(t)
    else if Height(t.right) > Height(t.left) + 1 then
      if Height(t.right.right) < Height(t.right.left) then
        RotateLeft(t.(right := RotateRight(t.right)))
      else
        RotateLeft(t)
    else
      t
  }

  function Insert<V>(t: Tree<V>, key: Key, value: V): (u: Tree<V>)
    requires Shaped(t)
    ensures Shaped(u) && Near(Height(u), Height(t), 1)
  {
    if t.Leaf? then Node(key, value, Leaf, Leaf, 1, 1)
    else
      var u :=
        if key < t.key then t.(left := Insert(t.left, key, value))
        else if t.key < key then t.(right := Insert(t.right, key, value))
        else t.(value := value);
      RebalanceShaped(u);
      Rebalance(u)
  }

  function Get<V>(t: Tree<V>, key: Key): Option<V> {
    if t.Leaf? then None
    else if key < t.key then Get(t.left, key)
    else if t.key < key then Get(t.right, key)
    else Some(t.value)
  }

  function MinEntry<V>(t: Tree<V>): (Key, V)
    requires t.Node?
  {
    if t.left.Leaf? then (t.key, t.value) else MinEntry(t.left)
  }

  function PopMin<V>(t: Tree<V>): (u: Tree<V>)
    requires Shaped(t) && t.Node?
    ensures Shaped(u) && Near(Height(u), Height(t), 1)
  {
    if t.left.Leaf? then t.right
    else
      var u := t.(left := PopMin(t.left));
      RebalanceShaped(u);
      Rebalance(u)
  }

  /** Called only after `get` has found the key, so the search never runs off the tree. */
  function Remove<V>(t: Tree<V>, key: Key): (u: Tree<V>)
    requires Shaped(t) && Get(t, key).Some?
    ensures Shaped(u) && Near(Height(u), Height(t), 1)
  {
    if key == t.key && t.left.Leaf? then t.right
    else if key == t.key && t.right.Leaf? then t.left
    else
      var u :=
        if key < t.key then t.(left := Remove(t.left, key))
        else if t.key < key then t.(right := Remove(t.right, key))
        else
          var (k, v) := MinEntry(t.right);
          t.(right := PopMin(t.right), key := k, value := v);
      RebalanceShaped(u);
      Rebalance(u)
  }

  /** What writing through `get_mut` leaves behind: one value changes, no link moves. */
  function SetValue<V>(t: Tree<V>, key: Key, value: V): Tree<V> {
    if t.Leaf? then Leaf
    else if key < t.key then t.(left := SetValue(t.left, key, value))
    else if t.key < key then t.(right := SetValue(t.right, key, value))
    else t.(value := value)
  }

  // ----- balance and stored fields -----

  predicate Near(a: nat, b: nat, slack: nat) {
    a <= b + slack && b <= a + slack
  }

  /** AVL balance and exact height and length fields at every node. */
  ghost predicate Shaped<V>(t: Tree<V>) {
    t.Node? ==>
      && Shaped(t.left) && Shaped(t.right)
      && Near(Height(t.left), Height(t.right), 1)
      && t == Refresh(t)
  }

  lemma RefreshShaped<V>(t: Tree<V>)
    requires t.Node? && Shaped(t.left) && Shaped(t.right) && Near(Height(t.left), Height(t.right), 1)
    ensures Shaped(Refresh(t))
  {
  }

  lemma RotateRightShaped<V>(t: Tree<V>)
    requires t.Node? && t.left.Node?
    requires Shaped(t.left.left) && Shaped(t.left.right) && Shaped(t.right)
    requires Near(Height(t.left.right), Height(t.right), 1)
    requires Near(Height(t.left.left), 1 + Max(Height(t.left.right), Height(t.right)), 1)
    ensures Shaped(RotateRight(t))
  {
    var low := t.(left := t.left.right);
    RefreshShaped(low);
    RefreshShaped(t.left.(right := Refresh(low)));
  }

  lemma RotateLeftShaped<V>(t: Tree<V>)
    requires t.Node? && t.right.Node?
    requires Shaped(t.right.right) && Shaped(t.right.left) && Shaped(t.left)
    requires Near(Height(t.right.left), Height(t.left), 1)
    requires Near(Height(t.right.right), 1 + Max(Height(t.right.left), Height(t.left)), 1)
    ensures Shaped(RotateLeft(t))
  {
    var low := t.(right := t.right.left);
    RefreshShaped(low);
    RefreshShaped(t.right.(left := Refresh(low)));
  }

  lemma RebalanceLeftHeavy<V>(t: Tree<V>)
    requires t.Node? && Shaped(t.left) && Shaped(t.right)
    requires Height(t.left) == Height(t.right) + 2
    ensures Rotatable(t)
    ensures Shaped(Rebalance(t))
    ensures Height(t.left) <= Height(Rebalance(t)) <= Height(t.left) + 1
  {
    var u := Refresh(t);
    if Height(t.left.left) < Height(t.left.right) {
      var l := RotateLeft(t.left);
      RefreshShaped(t.left.(right := t.left.right.left));
      RotateRightShaped(u.(left := l));
    } else {
      RotateRightShaped(u);
    }
  }

  lemma RebalanceRightHeavy<V>(t: Tree<V>)
    requires t.Node? && Shaped(t.left) && Shaped(t.right)
    requires Height(t.right) == Height(t.left) + 2
    ensures Rotatable(t)
    ensures Shaped(Rebalance(t))
    ensures Height(t.right) <= Height(Rebalance(t)) <= Height(t.right) + 1
  {
    var u := Refresh(t);
    if Height(t.right.right) < Height(t.right.left) {
      var r := RotateRight(t.right);
      RefreshShaped(t.right.(left := t.right.left.right));
      RotateLeftShaped(u.(right := r));
    } else {
      RotateLeftShaped(u);
    }
  }

  lemma RebalanceShaped<V>(t: Tree<V>)
    requires t.Node? && Shaped(t.left) && Shaped(t.right)
    requires Near(Height(t.left), Height(t.right), 2)
    ensures Rotatable(t)
    ensures Shaped(Rebalance(t))
    ensures var m := Max(Height(t.left), Height(t.right)); m <= Height(Rebalance(t)) <= m + 1
  {
    if Height(t.left) == Height(t.right) + 2 {
      RebalanceLeftHeavy(t);
    } else if Height(t.right) == Height(t.left) + 2 {
      RebalanceRightHeavy(t);
    } else {
      RefreshShaped(t);
    }
  }

  // ----- the plain ordered map -----

  type Entry<V> = (Key, V)

  /** In-order listing: the meaning of a tree. */
  function Entries<V>(t: Tree<V>): seq<Entry<V>> {
    if t.Leaf? then [] else Entries(t.left) + [(t.key, t.value)] + Entries(t.right)
  }

  ghost predicate Sorted<V>(s: seq<Entry<V>>) {
    forall i, j :: 0 <= i < j < |s| ==> s[i].0 < s[j].0
  }

  ghost predicate Valid<V>(t: Tree<V>) {
    Shaped(t) && Sorted(Entries(t))
  }

  /** The dictionary a list of entries stands for. */
  ghost function Dict<V>(s: seq<Entry<V>>): map<Key, V> {
    if s == [] then map[] else Dict(s[1..])[s[0].0 := s[0].1]
  }

  /** Insertion and removal on an association list kept in key order. */
  ghost function Put<V>(s: seq<Entry<V>>, key: Key, value: V): seq<Entry<V>> {
    if s == [] || key < s[0].0 then [(key, value)] + s
    else if key == s[0].0 then [(key, value)] + s[1..]
    else [s[0]] + Put(s[1..], key, value)
  }

  ghost function Drop<V>(s: seq<Entry<V>>, key: Key): seq<Entry<V>> {
    if s == [] then []
    else if key == s[0].0 then s[1..]
    else [s[0]] + Drop(s[1..], key)
  }

  lemma {:induction false} PutSorted<V>(s: seq<Entry<V>>, key: Key, value: V)
    requires Sorted(s)
    ensures Sorted(Put(s, key, value))
    ensures forall e :: e in Put(s, key, value) ==> e == (key, value) || e in s
  {
    if s != [] {
      SplitSorted([], s[0], s[1..]);
      assert s == [] + [s[0]] + s[1..];
    }
    if s != [] && s[0].0 < key {
      PutSorted(s[1..], key, value);
      ConsSorted(s[0], Put(s[1..], key, value));
    } else if s != [] && s[0].0 == key {
      ConsSorted((key, value), s[1..]);
    } else {
      ConsSorted((key, value), s);
    }
  }

  /** On a sorted list both are what the names promise, and no order is lost. */
  lemma {:induction false} PutMeaning<V>(s: seq<Entry<V>>, key: Key, value: V)
    requires Sorted(s)
    ensures Sorted(Put(s, key, value)) && Dict(Put(s, key, value)) == Dict(s)[key := value]
  {
    PutSorted(s, key, value);
    hide Sorted;
    if s != [] && s[0].0 < key {
      assert Sorted(s[1..]) by { TailSorted(s); }
      PutMeaning(s[1..], key, value);
      assert Put(s, key, value)[1..] == Put(s[1..], key, value);
    } else if s != [] && key == s[0].0 {
      assert Put(s, key, value)[1..] == s[1..];
    } else {
      assert Put(s, key, value)[1..] == s;
    }
  }

  lemma TailSorted<V>(s: seq<Entry<V>>)
    requires s != [] && Sorted(s)
    ensures Sorted(s[1..]) && forall e :: e in s[1..] ==> s[0].0 < e.0
  {
  }

  lemma {:induction false} DictKeys<V>(s: seq<Entry<V>>, key: Key)
    ensures key in Dict(s) <==> exists i :: 0 <= i < |s| && s[i].0 == key
  {
    if s != [] {
      DictKeys(s[1..], key);
      assert forall i :: 0 <= i < |s[1..]| ==> s[1..][i] == s[i + 1];
      if i :| 0 <= i < |s| && s[i].0 == key && s[0].0 != key {
        assert s[1..][i - 1].0 == key;
      }
    }
  }

  lemma ConsSorted<V>(e: Entry<V>, s: seq<Entry<V>>)
    requires Sorted(s) && forall x :: x in s ==> e.0 < x.0
    ensures Sorted([e] + s)
  {
  }

  lemma {:induction false} DropSorted<V>(s: seq<Entry<V>>, key: Key)
    requires Sorted(s)
    ensures Sorted(Drop(s, key))
    ensures forall e :: e in Drop(s, key) ==> e in s
  {
    if s != [] && key != s[0].0 {
      DropSorted(s[1..], key);
      assert forall e :: e in s[1..] ==> s[0].0 < e.0;
      ConsSorted(s[0], Drop(s[1..], key));
    }
  }

  lemma {:induction false} DropMeaning<V>(s: seq<Entry<V>>, key: Key)
    requires Sorted(s)
    ensures Sorted(Drop(s, key)) && Dict(Drop(s, key)) == Dict(s) - {key}
  {
    DropSorted(s, key);
    if s != [] {
      DropMeaning(s[1..], key);
      DictKeys(s[1..], key);
      if key == s[0].0 {
        assert Dict(s) - {key} == Dict(s[1..]);
      } else {
        assert Drop(s, key)[1..] == Drop(s[1..], key);
        assert Dict(s) - {key} == (Dict(s[1..]) - {key})[s[0].0 := s[0].1];
      }
    }
  }

  // ----- refinement: the tree computes the ordered list -----

  /** Sequence concatenation regrouped around two single elements. */
  lemma Regroup<T>(a: seq<T>, x: T, b: seq<T>, y: T, c: seq<T>)
    ensures a + [x] + (b + [y] + c) == (a + [x] + b) + [y] + c
  {
  }

  lemma ConsGroup<T>(x: T, a: seq<T>, b: seq<T>)
    ensures [x] + (a + b) == ([x] + a) + b
  {
  }

  lemma ConsAround<T>(x: T, a: seq<T>, e: T, b: seq<T>)
    ensures [x] + (a + [e] + b) == ([x] + a) + [e] + b
  {
  }

  /** The first element of a nonempty left part comes first and below the pivot. */
  lemma HeadOfSplit<V>(a: seq<Entry<V>>, e: Entry<V>, b: seq<Entry<V>>)
    requires a != [] && Sorted(a + [e] + b)
    ensures var s := a + [e] + b; s[0] == a[0] && s[1..] == a[1..] + [e] + b && a[0].0 < e.0 && Sorted(a[1..] + [e] + b)
    ensures a == [a[0]] + a[1..]
  {
    var s := a + [e] + b;
    assert s[|a|] == e;
    assert s[1..] == a[1..] + [e] + b;
    TailSorted(s);
  }

  lemma {:induction false} PutSplit<V>(a: seq<Entry<V>>, e: Entry<V>, b: seq<Entry<V>>, key: Key, value: V)
    requires Sorted(a + [e] + b)
    ensures Put(a + [e] + b, key, value) ==
            if key < e.0 then Put(a, key, value) + [e] + b
            else if key == e.0 then a + [(key, value)] + b
            else a + [e] + Put(b, key, value)
  {
    hide Sorted;
    var s := a + [e] + b;
    if a == [] {
      assert s == [e] + b && s[1..] == b;
      assert Put(a, key, value) == [(key, value)];
    } else {
      HeadOfSplit(a, e, b);
      PutSplit(a[1..], e, b, key, value);
      var x := (key, value);
      if key < a[0].0 {
        ConsAround(x, a, e, b);
      } else if key == a[0].0 {
        ConsAround(x, a[1..], e, b);
      } else if key < e.0 {
        ConsAround(a[0], Put(a[1..], key, value), e, b);
      } else if key == e.0 {
        ConsAround(a[0], a[1..], x, b);
      } else {
        ConsAround(a[0], a[1..], e, Put(b, key, value));
      }
    }
  }

  lemma {:induction false} DropSplit<V>(a: seq<Entry<V>>, e: Entry<V>, b: seq<Entry<V>>, key: Key)
    requires Sorted(a + [e] + b)
    ensures Drop(a + [e] + b, key) ==
            if key < e.0 then Drop(a, key) + [e] + b
            else if key == e.0 then a + b
            else a + [e] + Drop(b, key)
  {
    var s := a + [e] + b;
    if a == [] {
      SplitSorted(a, e, b);
      assert s == [e] + b && s[1..] == b;
      if key < e.0 {
        DropAbsent(b, key);
      }
    } else {
      HeadOfSplit(a, e, b);
      hide Sorted;
      DropSplit(a[1..], e, b, key);
      if a[0].0 != key {
        if key < e.0 {
          ConsAround(a[0], Drop(a[1..], key), e, b);
        } else if key == e.0 {
          ConsGroup(a[0], a[1..], b);
        } else {
          ConsAround(a[0], a[1..], e, Drop(b, key));
        }
      }
    }
  }

  lemma {:induction false} DropAbsent<V>(s: seq<Entry<V>>, key: Key)
    requires forall e :: e in s ==> e.0 != key
    ensures Drop(s, key) == s
  {
    if s != [] {
      DropAbsent(s[1..], key);
    }
  }

  lemma SplitSorted<V>(a: seq<Entry<V>>, e: Entry<V>, b: seq<Entry<V>>)
    requires Sorted(a + [e] + b)
    ensures Sorted(a) && Sorted(b)
    ensures forall x :: x in a ==> x.0 < e.0
    ensures forall x :: x in b ==> e.0 < x.0
  {
    var s := a + [e] + b;
    assert forall i :: 0 <= i < |a| ==> s[i] == a[i];
    assert s[|a|] == e;
    assert forall i :: 0 <= i < |b| ==> s[|a| + 1 + i] == b[i];
  }

  lemma RotateRightKeepsEntries<V>(t: Tree<V>)
    requires t.Node? && t.left.Node?
    ensures Entries(RotateRight(t)) == Entries(t)
  {
    var p := t.left;
    var low := Refresh(t.(left := p.right));
    assert Entries(low) == Entries(p.right) + [(t.key, t.value)] + Entries(t.right);
    hide Entries;
    Regroup(Entries(p.left), (p.key, p.value), Entries(p.right), (t.key, t.value), Entries(t.right));
  }

  lemma RotateLeftKeepsEntries<V>(t: Tree<V>)
    requires t.Node? && t.right.Node?
    ensures Entries(RotateLeft(t)) == Entries(t)
  {
    var p := t.right;
    var low := Refresh(t.(right := p.left));
    assert Entries(low) == Entries(t.left) + [(t.key, t.value)] + Entries(p.left);
    hide Entries;
    Regroup(Entries(t.left), (t.key, t.value), Entries(p.left), (p.key, p.value), Entries(p.right));
  }

  lemma RotationsKeepEntries<V>(t: Tree<V>)
    requires t.Node?
    ensures t.left.Node? ==> Entries(RotateRight(t)) == Entries(t)
    ensures t.right.Node? ==> Entries(RotateLeft(t)) == Entries(t)
  {
    hide Entries;
    if t.left.Node? { RotateRightKeepsEntries(t); }
    if t.right.Node? { RotateLeftKeepsEntries(t); }
  }

  lemma RebalanceKeepsEntries<V>(t: Tree<V>)
    requires t.Node? && Rotatable(t)
    ensures Entries(Rebalance(t)) == Entries(t)
  {
    var u := Refresh(t);
    RotationsKeepEntries(u);
    if u.left.Node? {
      RotationsKeepEntries(u.left);
      if u.left.right.Node? {
        RotationsKeepEntries(u.(left := RotateLeft(u.left)));
      }
    }
    if u.right.Node? {
      RotationsKeepEntries(u.right);
      if u.right.left.Node? {
        RotationsKeepEntries(u.(right := RotateRight(u.right)));
      }
    }
  }

  lemma RebalanceStep<V>(t: Tree<V>)
    requires t.Node? && Shaped(t.left) && Shaped(t.right) && Near(Height(t.left), Height(t.right), 2)
    ensures Rotatable(t) && Entries(Rebalance(t)) == Entries(t)
  {
    RebalanceShaped(t);
    RebalanceKeepsEntries(t);
  }

  lemma {:induction false} InsertRefinesPut<V>(t: Tree<V>, key: Key, value: V)
    requires Valid(t)
    ensures Entries(Insert(t, key, value)) == Put(Entries(t), key, value)
  {
    if t.Node? {
      hide Put, Sorted, Rebalance;
      SplitSorted(Entries(t.left), (t.key, t.value), Entries(t.right));
      PutSplit(Entries(t.left), (t.key, t.value), Entries(t.right), key, value);
      var u := t.(value := value);
      if key < t.key {
        InsertRefinesPut(t.left, key, value);
        u := t.(left := Insert(t.left, key, value));
      } else if t.key < key {
        InsertRefinesPut(t.right, key, value);
        u := t.(right := Insert(t.right, key, value));
      }
      RebalanceStep(u);
    }
  }

  lemma {:induction false} PopMinSplits<V>(t: Tree<V>)
    requires Valid(t) && t.Node?
    ensures Entries(t) == [MinEntry(t)] + Entries(PopMin(t))
  {
    var l, e, r := Entries(t.left), (t.key, t.value), Entries(t.right);
    SplitSorted(l, e, r);
    if t.left.Node? {
      PopMinSplits(t.left);
      RebalanceStep(t.(left := PopMin(t.left)));
      var rest := Entries(PopMin(t.left));
      ConsGroup(MinEntry(t.left), rest, [e]);
      ConsGroup(MinEntry(t.left), rest + [e], r);
    } else {
      assert l + [e] + r == [e] + r;
    }
  }

  lemma {:induction false} RemoveRefinesDrop<V>(t: Tree<V>, key: Key)
    requires Valid(t) && Get(t, key).Some?
    ensures Entries(Remove(t, key)) == Drop(Entries(t), key)
  {
    hide Drop, Sorted, Rebalance, PopMin, MinEntry;
    var a, e, b := Entries(t.left), (t.key, t.value), Entries(t.right);
    SplitSorted(a, e, b);
    DropSplit(a, e, b, key);
    if key < t.key {
      RemoveRefinesDrop(t.left, key);
      RebalanceStep(t.(left := Remove(t.left, key)));
    } else if t.key < key {
      RemoveRefinesDrop(t.right, key);
      RebalanceStep(t.(right := Remove(t.right, key)));
    } else if t.left.Node? && t.right.Node? {
      PopMinSplits(t.right);
      var (k, v) := MinEntry(t.right);
      RebalanceStep(t.(right := PopMin(t.right), key := k, value := v));
    }
  }

  lemma {:induction false} SetValueKeepsShape<V>(t: Tree<V>, key: Key, value: V)
    requires Shaped(t)
    ensures Shaped(SetValue(t, key, value))
    ensures Height(SetValue(t, key, value)) == Height(t) && Len(SetValue(t, key, value)) == Len(t)
  {
    if t.Node? {
      SetValueKeepsShape(t.left, key, value);
      SetValueKeepsShape(t.right, key, value);
    }
  }

  lemma {:induction false} SetValueRefinesPut<V>(t: Tree<V>, key: Key, value: V)
    requires Valid(t) && Get(t, key).Some?
    ensures Entries(SetValue(t, key, value)) == Put(Entries(t), key, value)
  {
    var a, e, b := Entries(t.left), (t.key, t.value), Entries(t.right);
    SplitSorted(a, e, b);
    PutSplit(a, e, b, key, value);
    if key < t.key {
      SetValueRefinesPut(t.left, key, value);
    } else if t.key < key {
      SetValueRefinesPut(t.right, key, value);
    }
  }

  lemma {:induction false} DictMember<V>(s: seq<Entry<V>>, key: Key)
    requires Sorted(s) && key in Dict(s)
    ensures (key, Dict(s)[key]) in s
  {
    if s[0].0 != key {
      DictMember(s[1..], key);
    }
  }

  lemma {:induction false} GetFindsEntry<V>(t: Tree<V>, key: Key)
    requires Sorted(Entries(t))
    ensures forall e :: e in Entries(t) && e.0 == key ==> Get(t, key) == Some(e.1)
    ensures Get(t, key).Some? ==> (key, Get(t, key).value) in Entries(t)
  {
    if t.Node? {
      SplitSorted(Entries(t.left), (t.key, t.value), Entries(t.right));
      GetFindsEntry(t.left, key);
      GetFindsEntry(t.right, key);
    }
  }

  /** Lookup by search is lookup in the dictionary. */
  lemma GetIsLookup<V>(t: Tree<V>, key: Key)
    requires Sorted(Entries(t))
    ensures Get(t, key) == if key in Dict(Entries(t)) then Some(Dict(Entries(t))[key]) else None
  {
    var s := Entries(t);
    GetFindsEntry(t, key);
    DictKeys(s, key);
    if key in Dict(s) {
      DictMember(s, key);
    }
  }

  // ----- the map theorems -----

  /** `insert` keeps every invariant and changes the dictionary at one key only. */
  lemma InsertCorrect<V>(t: Tree<V>, key: Key, value: V)
    requires Valid(t)
    ensures Valid(Insert(t, key, value))
    ensures Dict(Entries(Insert(t, key, value))) == Dict(Entries(t))[key := value]
  {
    InsertRefinesPut(t, key, value);
    PutMeaning(Entries(t), key, value);
  }

  lemma RemoveCorrect<V>(t: Tree<V>, key: Key)
    requires Valid(t) && Get(t, key).Some?
    ensures Valid(Remove(t, key))
    ensures Dict(Entries(Remove(t, key))) == Dict(Entries(t)) - {key}
  {
    RemoveRefinesDrop(t, key);
    DropMeaning(Entries(t), key);
  }

  lemma {:induction false} PopMinCorrect<V>(t: Tree<V>)
    requires Valid(t) && t.Node?
    ensures Valid(PopMin(t))
    ensures MinEntry(t) == Entries(t)[0] && Entries(PopMin(t)) == Entries(t)[1..]
    ensures forall e :: e in Entries(PopMin(t)) ==> MinEntry(t).0 < e.0
  {
    PopMinSplits(t);
    TailSorted(Entries(t));
    hide Sorted;
    assert Entries(t)[1..] == Entries(PopMin(t));
  }

  lemma SetValueCorrect<V>(t: Tree<V>, key: Key, value: V)
    requires Valid(t) && Get(t, key).Some?
    ensures Valid(SetValue(t, key, value))
    ensures Dict(Entries(SetValue(t, key, value))) == Dict(Entries(t))[key := value]
  {
    SetValueKeepsShape(t, key, value);
    SetValueRefinesPut(t, key, value);
    PutMeaning(Entries(t), key, value);
  }

  /** Two sorted listings of one dictionary are the same listing, whatever trees
      they come from. */
  lemma {:induction false} ListingUnique<V>(s: seq<Entry<V>>, u: seq<Entry<V>>)
    requires Sorted(s) && Sorted(u) && Dict(s) == Dict(u)
    ensures s == u
  {
    DictEmpty(s);
    DictEmpty(u);
    if s != [] {
      FirstIsLeast(s, u);
      FirstIsLeast(u, s);
      assert s[0].0 == u[0].0 && s[0].1 == Dict(s)[s[0].0] == Dict(u)[u[0].0] == u[0].1;
      DictTail(s);
      DictTail(u);
      ListingUnique(s[1..], u[1..]);
      assert s == [s[0]] + s[1..] && u == [u[0]] + u[1..];
    }
  }

  lemma DictEmpty<V>(s: seq<Entry<V>>)
    ensures Dict(s) == map[] <==> s == []
  {
    if s != [] {
      assert s[0].0 in Dict(s);
    }
  }

  lemma FirstIsLeast<V>(s: seq<Entry<V>>, u: seq<Entry<V>>)
    requires s != [] && u != [] && Sorted(s) && Dict(s) == Dict(u)
    ensures s[0].0 <= u[0].0
  {
    DictKeys(u, u[0].0);
    DictKeys(s, u[0].0);
  }

  lemma DictTail<V>(s: seq<Entry<V>>)
    requires s != [] && Sorted(s)
    ensures Dict(s[1..]) == Dict(s) - {s[0].0}
  {
    DictKeys(s[1..], s[0].0);
  }

  // ----- the bulk build -----

  /** `From<BTreeMap>`: the middle entry becomes the root. */
  function Build<V>(items: seq<Entry<V>>): Tree<V>
    decreases |items|
  {
    if items == [] then Leaf
    else
      var mid := |items| / 2;
      Refresh(Node(items[mid].0, items[mid].1, Build(items[..mid]), Build(items[mid + 1..]), 0, 0))
  }

  function Bits(n: nat): nat {
    if n == 0 then 0 else 1 + Bits(n / 2)
  }

  lemma {:induction false} BitsStep(n: nat)
    ensures Bits(n) <= Bits(n + 1) <= Bits(n) + 1
  {
    if n > 0 {
      BitsStep(n / 2);
      assert (n + 1) / 2 == n / 2 || (n + 1) / 2 == n / 2 + 1;
    }
  }

  lemma {:induction false} BuildShaped<V>(items: seq<Entry<V>>)
    ensures Shaped(Build(items)) && Height(Build(items)) == Bits(|items|)
    decreases |items|
  {
    if items != [] {
      hide Shaped, Height;
      var mid := |items| / 2;
      BuildShaped(items[..mid]);
      BuildShaped(items[mid + 1..]);
      var right := |items| - mid - 1;
      assert right == mid || right + 1 == mid;
      BitsStep(right);
      JoinShaped(items[mid].0, items[mid].1, Build(items[..mid]), Build(items[mid + 1..]));
    }
  }

  lemma JoinShaped<V>(key: Key, value: V, left: Tree<V>, right: Tree<V>)
    requires Shaped(left) && Shaped(right) && Height(right) <= Height(left) <= Height(right) + 1
    ensures var t := Refresh(Node(key, value, left, right, 0, 0));
            Shaped(t) && Height(t) == 1 + Height(left)
  {
    RefreshShaped(Node(key, value, left, right, 0, 0));
  }

  lemma {:induction false} BuildLists<V>(items: seq<Entry<V>>)
    ensures Entries(Build(items)) == items
    decreases |items|
  {
    if items != [] {
      var mid := |items| / 2;
      BuildLists(items[..mid]);
      BuildLists(items[mid + 1..]);
      assert items == items[..mid] + [items[mid]] + items[mid + 1..];
    }
  }

  /** A bulk build of a sorted listing is a valid tree with exactly those entries. */
  lemma BuildCorrect<V>(items: seq<Entry<V>>)
    requires Sorted(items)
    ensures Valid(Build(items)) && Entries(Build(items)) == items
  {
    BuildShaped(items);
    BuildLists(items);
  }

  // ----- stored fields cannot overflow -----

  lemma {:induction false} LenIsCount<V>(t: Tree<V>)
    requires Shaped(t)
    ensures Len(t) == |Entries(t)|
  {
    if t.Node? {
      LenIsCount(t.left);
      LenIsCount(t.right);
    }
  }

  lemma {:induction false} HeightIsLogarithmic<V>(t: Tree<V>)
    requires Shaped(t)
    ensures Pow2(Height(t) / 2) <= Len(t) + 1
  {
    if t.Node? {
      HeightIsLogarithmic(t.left);
      HeightIsLogarithmic(t.right);
      if Height(t) >= 2 {
        Pow2Monotone(Height(t) / 2 - 1, Height(t.left) / 2);
        Pow2Monotone(Height(t) / 2 - 1, Height(t.right) / 2);
      }
    }
  }

  /** With fewer than 2^64 entries (`len` is a usize) no height reaches 130, so the
      u16 height field never wraps. */
  lemma HeightFitsU16<V>(t: Tree<V>)
    requires Shaped(t) && Len(t) < 0x1_0000_0000_0000_0000
    ensures Height(t) < 130
  {
    HeightIsLogarithmic(t);
    if Height(t) >= 130 {
      Pow2Monotone(65, Height(t) / 2);
      assert Pow2(65) == 0x2_0000_0000_0000_0000 by { Pow2At65(); }
    }
  }
}
