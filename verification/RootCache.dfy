/** The state-root cache of kernel/src/ledger/state.rs over the copy-on-write maps:
    any number of ledger states share one cache cell, and a cached root is taken to be
    valid when the map roots are the same pointers and the scalars are equal. */
module RootCache {
  import opened Wrappers
  import opened AvlMap
  import opened NodeArena
  import MapIter

  /** The canonical maps of a ledger state: coins, programs, asset records and shares. */
  const MAPS := 4

  /** Total value of the coin set, and the two counters of the coin record. */
  datatype Scalars = Scalars(totalValue: nat, mined: nat, burned: nat)

  /** What the canonical encoding of a state is a function of. */
  datatype View<V> = View(maps: seq<seq<Entry<V>>>, scalars: Scalars)

  /** The maps of state `i` are the four handles from position 4 * i. */
  function At(i: nat, m: nat): nat {
    MAPS * i + m
  }

  ghost function Contents<V>(trees: map<Addr, Tree<V>>, link: Link): seq<Entry<V>> {
    Entries(TreeAt(trees, link))
  }

  ghost function Seen<V>(trees: map<Addr, Tree<V>>, handles: seq<Link>, scalars: seq<Scalars>, i: nat): View<V>
    requires |handles| == MAPS * |scalars| && i < |scalars|
  {
    View([Contents(trees, handles[At(i, 0)]), Contents(trees, handles[At(i, 1)]),
          Contents(trees, handles[At(i, 2)]), Contents(trees, handles[At(i, 3)])], scalars[i])
  }

  ghost function Refs(handles: seq<Link>): multiset<Addr> {
    if handles == [] then multiset{} else Ref(handles[0]) + Refs(handles[1..])
  }

  lemma {:induction false} RefsAt(handles: seq<Link>, k: nat)
    requires k < |handles|
    ensures Refs(handles) == Refs(handles[k := Nil]) + Ref(handles[k])
  {
    if k > 0 {
      RefsAt(handles[1..], k - 1);
      assert handles[k := Nil][1..] == handles[1..][k - 1 := Nil];
    } else {
      assert handles[k := Nil][1..] == handles[1..];
    }
  }

  lemma RefsUpdate(handles: seq<Link>, k: nat, link: Link)
    requires k < |handles|
    ensures Refs(handles[k := link]) == Refs(handles[k := Nil]) + Ref(link)
  {
    hide Refs;
    RefsAt(handles[k := link], k);
    assert handles[k := link][k := Nil] == handles[k := Nil];
  }

  lemma {:induction false} RefsAppendNils(handles: seq<Link>, nils: seq<Link>)
    requires forall k :: 0 <= k < |nils| ==> nils[k] == Nil
    ensures Refs(handles + nils) == Refs(handles)
  {
    if handles == [] {
      assert handles + nils == nils;
      NoRefs(nils);
    } else {
      RefsAppendNils(handles[1..], nils);
      assert (handles + nils)[1..] == handles[1..] + nils;
    }
  }

  lemma {:induction false} NoRefs(handles: seq<Link>)
    requires forall k :: 0 <= k < |handles| ==> handles[k] == Nil
    ensures Refs(handles) == multiset{}
  {
    if handles != [] {
      NoRefs(handles[1..]);
    }
  }

  lemma {:induction false} RefInRefs(handles: seq<Link>, k: nat)
    requires k < |handles|
    ensures handles[k].To? ==> handles[k].addr in Refs(handles)
  {
    RefsAt(handles, k);
  }

  /** A handle that is not the one being changed still shows the same map. */
  lemma HandleKept<V>(before: map<Addr, Tree<V>>, after: map<Addr, Tree<V>>, handles: seq<Link>, k: nat, j: nat)
    requires k < |handles| && j < |handles| && j != k
    requires Kept(before, after, Refs(handles[k := Nil]))
    ensures TreeAt(after, handles[j]) == TreeAt(before, handles[j])
  {
    RefInRefs(handles[k := Nil], j);
  }

  /** Every handle shows a well-formed ordered map. */
  ghost predicate Sound<V>(trees: map<Addr, Tree<V>>, handles: seq<Link>) {
    forall k :: 0 <= k < |handles| ==> AvlMap.Valid(TreeAt(trees, handles[k]))
  }

  lemma SoundAt<V>(trees: map<Addr, Tree<V>>, handles: seq<Link>, k: nat)
    requires Sound(trees, handles) && k < |handles|
    ensures AvlMap.Valid(TreeAt(trees, handles[k])) && Shaped(TreeAt(trees, handles[k]))
    ensures Sorted(Entries(TreeAt(trees, handles[k])))
  {
  }

  lemma SeenSame<V>(trees: map<Addr, Tree<V>>, handles: seq<Link>, scalars: seq<Scalars>, i: nat, m: nat)
    requires |handles| == MAPS * |scalars| && i < |scalars| && m < MAPS
    ensures var v := Seen(trees, handles, scalars, i);
            v.maps[m] == Contents(trees, handles[At(i, m)]) && v == v.(maps := v.maps[m := Contents(trees, handles[At(i, m)])])
  {
  }

  /** One handle is replaced; every other one was kept by the operation. */
  lemma {:induction false} Replaced<V>(before: map<Addr, Tree<V>>, after: map<Addr, Tree<V>>, handles: seq<Link>, k: nat, link: Link)
    requires k < |handles| && Sound(before, handles)
    requires Kept(before, after, Refs(handles[k := Nil]))
    requires AvlMap.Valid(TreeAt(after, link))
    ensures Sound(after, handles[k := link])
    ensures forall j :: 0 <= j < |handles| && j != k ==> Contents(after, handles[j]) == Contents(before, handles[j])
  {
    hide Kept, Refs, AvlMap.Valid;
    forall j | 0 <= j < |handles| && j != k
      ensures TreeAt(after, handles[j]) == TreeAt(before, handles[j])
    {
      HandleKept(before, after, handles, k, j);
    }
  }

  /** ... so only one map of one state looks different. */
  lemma OneMapDiffers<V>(before: map<Addr, Tree<V>>, after: map<Addr, Tree<V>>, handles: seq<Link>, scalars: seq<Scalars>,
                         i: nat, m: nat, link: Link)
    requires |handles| == MAPS * |scalars| && i < |scalars| && m < MAPS
    requires forall j :: 0 <= j < |handles| && j != At(i, m) ==> Contents(after, handles[j]) == Contents(before, handles[j])
    ensures forall j :: 0 <= j < |scalars| && j != i ==>
              Seen(after, handles[At(i, m) := link], scalars, j) == Seen(before, handles, scalars, j)
    ensures var v := Seen(before, handles, scalars, i);
            Seen(after, handles[At(i, m) := link], scalars, i) == v.(maps := v.maps[m := Contents(after, link)])
  {
  }

  lemma FourMaps<V>(trees: map<Addr, Tree<V>>, handles: seq<Link>, scalars: seq<Scalars>, i: nat)
    requires |handles| == MAPS * |scalars| && i < |scalars|
    ensures |Seen(trees, handles, scalars, i).maps| == MAPS && Seen(trees, handles, scalars, i).scalars == scalars[i]
  {
  }

  lemma Extended<V>(trees: map<Addr, Tree<V>>, handles: seq<Link>, scalars: seq<Scalars>, s: Scalars)
    requires |handles| == MAPS * |scalars| && Sound(trees, handles)
    ensures var handles' := handles + [Nil, Nil, Nil, Nil];
            && Refs(handles') == Refs(handles) && Sound(trees, handles')
            && forall n :: 0 <= n < |scalars| ==> Seen(trees, handles', scalars + [s], n) == Seen(trees, handles, scalars, n)
  {
    hide Refs, AvlMap.Valid;
    RefsAppendNils(handles, [Nil, Nil, Nil, Nil]);
    LeafValid<V>();
    assert forall k :: 0 <= k < |handles| ==> (handles + [Nil, Nil, Nil, Nil])[k] == handles[k];
    forall n | 0 <= n < |scalars|
      ensures Seen(trees, handles + [Nil, Nil, Nil, Nil], scalars + [s], n) == Seen(trees, handles, scalars, n)
    {
    }
  }

  lemma LeafValid<V>()
    ensures AvlMap.Valid(Tree<V>.Leaf)
  {
  }

  lemma SwapRefs(a: multiset<Addr>, b: multiset<Addr>, c: multiset<Addr>)
    ensures a + b + c == a + c + b
  {
  }

  lemma KeptPart<V>(before: map<Addr, Tree<V>>, after: map<Addr, Tree<V>>, kept: multiset<Addr>, link: Link)
    requires Kept(before, after, kept + Ref(link))
    ensures Kept(before, after, kept) && TreeAt(after, link) == TreeAt(before, link)
  {
  }

  lemma {:induction false} SameValue<V>(t: Tree<V>, key: Key)
    requires AvlMap.Valid(t) && Get(t, key).Some?
    ensures Put(Entries(t), key, Get(t, key).value) == Entries(t)
  {
    SetValueRefinesPut(t, key, Get(t, key).value);
    SetSame(t, key);
  }

  lemma {:induction false} SetSame<V>(t: Tree<V>, key: Key)
    requires Get(t, key).Some?
    ensures SetValue(t, key, Get(t, key).value) == t
  {
    if key < t.key {
      SetSame(t.left, key);
    } else if t.key < key {
      SetSame(t.right, key);
    }
  }

  lemma MissingKey<V>(t: Tree<V>, key: Key)
    requires AvlMap.Valid(t) && Get(t, key).None?
    ensures Drop(Entries(t), key) == Entries(t)
  {
    GetFindsEntry(t, key);
    DropAbsent(Entries(t), key);
  }

  /** The effect of one map operation on all states: everything the callers need. */
  lemma Commit<V>(before: map<Addr, Tree<V>>, after: map<Addr, Tree<V>>, handles: seq<Link>, scalars: seq<Scalars>,
                  i: nat, m: nat, link: Link)
    requires |handles| == MAPS * |scalars| && i < |scalars| && m < MAPS
    requires Sound(before, handles)
    requires Kept(before, after, Refs(handles[At(i, m) := Nil]))
    requires AvlMap.Valid(TreeAt(after, link))
    ensures var handles' := handles[At(i, m) := link];
            && Sound(after, handles') && Refs(handles') == Refs(handles[At(i, m) := Nil]) + Ref(link)
            && (forall j :: 0 <= j < |scalars| && j != i ==> Seen(after, handles', scalars, j) == Seen(before, handles, scalars, j))
            && var v := Seen(before, handles, scalars, i);
               v.maps[m] == Contents(before, handles[At(i, m)]) &&
               Seen(after, handles', scalars, i) == v.(maps := v.maps[m := Contents(after, link)])
  {
    hide Kept, Refs, AvlMap.Valid;
    Replaced(before, after, handles, At(i, m), link);
    OneMapDiffers(before, after, handles, scalars, i, m, link);
    RefsUpdate(handles, At(i, m), link);
  }

  // ----- the states as independent values -----

  /** One atomic action of some thread on state `i`; states are numbered from one. A call of
      `state_root` takes two: the lookup in the cell, and later the rest of the call. */
  datatype Step<V> =
    | Insert(i: nat, m: nat, key: Key, value: V)
    | Remove(i: nat, m: nat, key: Key)
    | Set(i: nat, m: nat, key: Key, value: V)
    | Assign(i: nat, m: nat, j: nat)
    | Counters(i: nat, s: Scalars)
    | Clone(i: nat)
    | Ask(i: nat)
    | Answer(call: nat)
  {
    predicate Writes() {
      Insert? || Remove? || Set? || Assign? || Counters?
    }

    /** The state or call exists, and a state is not written while a call has it borrowed. */
    predicate Applies(states: nat, calls: seq<nat>) {
      if Answer? then call < |calls| && calls[call] != 0
      else
        && 1 <= i <= states
        && (Writes() ==> i !in calls)
        && (Insert? || Remove? || Set? || Assign? ==> m < MAPS)
        && (Assign? ==> 1 <= j <= states)
    }
  }

  /** States that share nothing and are never cached, and for each call of `state_root` so far
      the state it has borrowed, or zero once it has returned. */
  datatype World<V> = World(views: seq<View<V>>, calls: seq<nat>) {
    ghost predicate Valid() {
      (forall v :: v in views ==> |v.maps| == MAPS) && forall q :: 0 <= q < |calls| ==> calls[q] <= |views|
    }
  }

  /** One action on one such state. */
  ghost function Changed<V>(views: seq<View<V>>, step: Step<V>): (r: seq<View<V>>)
    requires step.Writes() && step.Applies(|views|, []) && forall v :: v in views ==> |v.maps| == MAPS
    ensures |r| == |views| && forall v :: v in r ==> |v.maps| == MAPS
    ensures forall n :: 0 <= n < |views| && n != step.i - 1 ==> r[n] == views[n]
  {
    var v := views[step.i - 1];
    match step
    case Insert(i, m, key, value) => views[i - 1 := v.(maps := v.maps[m := Put(v.maps[m], key, value)])]
    case Remove(i, m, key) => views[i - 1 := v.(maps := v.maps[m := Drop(v.maps[m], key)])]
    case Set(i, m, key, value) =>
      if key in Dict(v.maps[m]) then views[i - 1 := v.(maps := v.maps[m := Put(v.maps[m], key, value)])] else views
    case Assign(i, m, j) => views[i - 1 := v.(maps := v.maps[m := views[j - 1].maps[m]])]
    case Counters(i, s) => views[i - 1 := v.(scalars := s)]
  }

  ghost function After<V>(w: World<V>, step: Step<V>): (r: World<V>)
    requires w.Valid()
    ensures r.Valid()
  {
    if !step.Applies(|w.views|, w.calls) then w
    else if step.Clone? then w.(views := w.views + [w.views[step.i - 1]])
    else if step.Ask? then w.(calls := w.calls + [step.i])
    else if step.Answer? then w.(calls := w.calls[step.call := 0])
    else w.(views := Changed(w.views, step))
  }

  ghost predicate IsEmpty<V>(v: View<V>) {
    v.maps == [[], [], [], []] && v.scalars.mined == 0 && v.scalars.burned == 0
  }

  /** Full hashing of the components, with the special case of the empty state; encoding may fail. */
  ghost function FullHash<V, R>(v: View<V>, hash: View<V> -> Option<R>, zero: R): Option<R> {
    if IsEmpty(v) then Some(zero) else hash(v)
  }

  ghost function Reply<V, R>(w: World<V>, step: Step<V>, hash: View<V> -> Option<R>, zero: R): seq<Option<R>>
    requires w.Valid()
  {
    if step.Answer? && step.Applies(|w.views|, w.calls) then [FullHash(w.views[w.calls[step.call] - 1], hash, zero)] else []
  }

  ghost function AfterAll<V>(w: World<V>, steps: seq<Step<V>>): (r: World<V>)
    requires w.Valid()
    ensures r.Valid()
  {
    if steps == [] then w else After(AfterAll(w, steps[..|steps| - 1]), steps[|steps| - 1])
  }

  ghost function Replies<V, R>(w: World<V>, steps: seq<Step<V>>, hash: View<V> -> Option<R>, zero: R): seq<Option<R>>
    requires w.Valid()
  {
    if steps == [] then []
    else
      var n := |steps| - 1;
      Replies(w, steps[..n], hash, zero) + Reply(AfterAll(w, steps[..n]), steps[n], hash, zero)
  }

  lemma {:induction false} RunStep<V, R>(w: World<V>, steps: seq<Step<V>>, k: nat, hash: View<V> -> Option<R>, zero: R)
    requires k < |steps| && w.Valid()
    ensures AfterAll(w, steps[..k + 1]) == After(AfterAll(w, steps[..k]), steps[k])
    ensures Replies(w, steps[..k + 1], hash, zero) ==
            Replies(w, steps[..k], hash, zero) + Reply(AfterAll(w, steps[..k]), steps[k], hash, zero)
  {
    assert steps[..k + 1][..k] == steps[..k];
  }

  ghost function AllSeen<V>(trees: map<Addr, Tree<V>>, handles: seq<Link>, scalars: seq<Scalars>): (r: seq<View<V>>)
    requires |handles| == MAPS * |scalars| && |scalars| > 0
    ensures |r| == |scalars| - 1 && forall n :: 0 <= n < |r| ==> r[n] == Seen(trees, handles, scalars, n + 1)
    ensures forall v :: v in r ==> |v.maps| == MAPS
  {
    seq(|scalars| - 1, n requires 0 <= n < |scalars| - 1 => Seen(trees, handles, scalars, n + 1))
  }

  lemma StartsEmpty<V>(trees: map<Addr, Tree<V>>, handles: seq<Link>, scalars: seq<Scalars>)
    requires handles == [Nil, Nil, Nil, Nil, Nil, Nil, Nil, Nil] && scalars == [Scalars(0, 0, 0), Scalars(0, 0, 0)]
    ensures Refs(handles) == multiset{} && Sound(trees, handles)
    ensures Seen(trees, handles, scalars, 1) == View([[], [], [], []], Scalars(0, 0, 0))
  {
    hide Refs;
    NoRefs(handles);
  }

  lemma SeenIs<V>(trees: map<Addr, Tree<V>>, handles: seq<Link>, scalars: seq<Scalars>, i: nat, maps: seq<seq<Entry<V>>>)
    requires |handles| == MAPS * |scalars| && i < |scalars| && |maps| == MAPS
    requires forall m :: 0 <= m < MAPS ==> maps[m] == Contents(trees, handles[At(i, m)])
    ensures Seen(trees, handles, scalars, i) == View(maps, scalars[i])
  {
    hide Contents;
    assert maps == [maps[0], maps[1], maps[2], maps[3]];
  }

  lemma AllFour<T>(a: seq<T>, b: seq<T>)
    requires |a| == MAPS && |b| == MAPS
    ensures a[0 := b[0]][1 := b[1]][2 := b[2]][3 := b[3]] == b
  {
  }

  lemma OneDiffers<T>(a: seq<T>, b: seq<T>, i: nat)
    requires |a| == |b| && i < |a| && forall n :: 0 <= n < |a| && n != i ==> a[n] == b[n]
    ensures b == a[i := b[i]]
  {
  }

  /** The value of a key in a listing. */
  ghost function Found<V>(s: seq<Entry<V>>, key: Key): Option<V> {
    if key in Dict(s) then Some(Dict(s)[key]) else None
  }

  /** What the lookup compares with the cell's copy: map roots by pointer, scalars by value. */
  predicate SameRoots(handles: seq<Link>, scalars: seq<Scalars>, i: nat)
    requires |handles| == MAPS * |scalars| && i < |scalars|
  {
    && scalars[0] == scalars[i]
    && handles[At(0, 0)] == handles[At(i, 0)] && handles[At(0, 1)] == handles[At(i, 1)]
    && handles[At(0, 2)] == handles[At(i, 2)] && handles[At(0, 3)] == handles[At(i, 3)]
  }

  lemma SameRootsFrame(before: seq<Link>, after: seq<Link>, scalars: seq<Scalars>, i: nat, m: nat)
    requires |before| == |after| == MAPS * |scalars| && 0 < i < |scalars| && m < MAPS
    requires forall k :: 0 <= k < |after| && k != At(i, m) ==> after[k] == before[k]
    ensures forall n :: 0 < n < |scalars| && n != i && SameRoots(before, scalars, n) ==> SameRoots(after, scalars, n)
  {
  }

  lemma CountersFrame(handles: seq<Link>, scalars: seq<Scalars>, i: nat, s: Scalars)
    requires |handles| == MAPS * |scalars| && 0 < i < |scalars|
    ensures forall n :: 0 < n < |scalars| && n != i && SameRoots(handles, scalars, n) ==> SameRoots(handles, scalars[i := s], n)
  {
  }

  class Ledgers<V(==), R> {
    const hash: View<V> -> Option<R>
    const zero: R
    const arena: Arena<V>
    /** Handle 4 * i + m is map m of state i.  State 0 is the copy the cache cell owns. */
    var handles: seq<Link>
    var scalars: seq<Scalars>
    var cached: Option<R>

    constructor (hash: View<V> -> Option<R>, zero: R)
      ensures Valid() && fresh(arena) && |scalars| == 2
      ensures Look(1) == View([[], [], [], []], Scalars(0, 0, 0))
    {
      this.hash, this.zero := hash, zero;
      arena := new Arena();
      handles := [Nil, Nil, Nil, Nil, Nil, Nil, Nil, Nil];
      scalars := [Scalars(0, 0, 0), Scalars(0, 0, 0)];
      cached := None;
      new;
      hide Good, Refs, Sound, Seen;
      StartsEmpty(arena.trees, handles, scalars);
    }

    ghost predicate Valid()
      reads this, arena
    {
      && arena.Valid() && arena.soles == {}
      && |handles| == MAPS * |scalars| && |scalars| > 0
      && arena.roots == Refs(handles)
      && Sound(arena.trees, handles)
      && (cached.Some? ==> cached == FullRoot(Look(0)))
    }

    ghost function Look(i: nat): View<V>
      requires |handles| == MAPS * |scalars| && i < |scalars|
      reads this, arena
    {
      Seen(arena.trees, handles, scalars, i)
    }

    ghost function FullRoot(v: View<V>): Option<R> {
      FullHash(v, hash, zero)
    }

    /** The cell holds the root of state `i`. */
    predicate Warm(i: nat)
      requires |handles| == MAPS * |scalars| && i < |scalars|
      reads this
    {
      cached.Some? && SameRoots(handles, scalars, i)
    }

    /** `StateMap::insert` on one map of one state: that map gains the entry, and no
        other state, nor the cached copy, sees any difference. */
    method Insert(i: nat, m: nat, key: Key, value: V) returns (previous: Option<V>)
      requires Valid() && 0 < i < |scalars| && m < MAPS
      modifies this`handles, arena
      ensures Valid() && |handles| == old(|handles|)
      ensures forall k :: 0 <= k < |handles| && k != At(i, m) ==> handles[k] == old(handles)[k]
      ensures previous == Found(old(Look(i)).maps[m], key)
      ensures forall j :: 0 <= j < |scalars| && j != i ==> Look(j) == old(Look(j))
      ensures var v := old(Look(i)); Look(i) == v.(maps := v.maps[m := Put(v.maps[m], key, value)])
    {
      hide Good, Kept, Refs, AvlMap.Valid, Shaped, Put, Sound, Seen;
      var k := At(i, m);
      ghost var kept, t0 := Refs(handles[k := Nil]), arena.trees;
      ghost var t := TreeAt(t0, handles[k]);
      RefsAt(handles, k);
      SoundAt(t0, handles, k);
      HandleLive(k);
      var out;
      out, previous := arena.Insert(handles[k], key, value, kept);
      GetIsLookup(t, key);
      SeenSame(t0, handles, scalars, i, m);
      InsertRefinesPut(t, key, value);
      InsertCorrect(t, key, value);
      Commit(t0, arena.trees, handles, scalars, i, m, To(out));
      handles := handles[k := To(out)];
    }

    /** `StateMap::remove`: a missing key leaves every pointer and count as it was. */
    method Remove(i: nat, m: nat, key: Key) returns (previous: Option<V>)
      requires Valid() && 0 < i < |scalars| && m < MAPS
      modifies this`handles, arena
      ensures Valid() && |handles| == old(|handles|)
      ensures forall k :: 0 <= k < |handles| && k != At(i, m) ==> handles[k] == old(handles)[k]
      ensures previous == Found(old(Look(i)).maps[m], key)
      ensures forall j :: 0 <= j < |scalars| && j != i ==> Look(j) == old(Look(j))
      ensures var v := old(Look(i)); Look(i) == v.(maps := v.maps[m := Drop(v.maps[m], key)])
      ensures previous.None? ==> handles == old(handles) && arena.nodes == old(arena.nodes) && arena.counts == old(arena.counts)
    {
      hide Good, Kept, Refs, AvlMap.Valid, Shaped, Drop, Sound, Seen;
      var k := At(i, m);
      ghost var kept, t0 := Refs(handles[k := Nil]), arena.trees;
      ghost var t := TreeAt(t0, handles[k]);
      RefsAt(handles, k);
      SoundAt(t0, handles, k);
      HandleLive(k);
      previous := arena.Lookup(handles[k], key);
      GetIsLookup(t, key);
      SeenSame(t0, handles, scalars, i, m);
      if previous.None? {
        MissingKey(t, key);
        return;
      }
      var out, removed := arena.Remove(handles[k].addr, key, kept);
      RemoveRefinesDrop(t, key);
      RemoveCorrect(t, key);
      Commit(t0, arena.trees, handles, scalars, i, m, out);
      handles := handles[k := out];
    }

    lemma HandleLive(k: nat)
      requires Valid() && k < |handles|
      ensures handles[k].To? ==> handles[k].addr in arena.nodes && handles[k].addr in arena.roots
      ensures handles[k].To? ==> handles[k].addr in arena.trees && handles[k].addr !in arena.soles
      ensures TreeAt(arena.trees, handles[k]).Node? ==> handles[k].To?
    {
      RefInRefs(handles, k);
    }

    /** A write through `get_mut`, as `set_state` and `set_storage` make it: nothing is
        detached when the key is missing or the value is already there. */
    method Set(i: nat, m: nat, key: Key, value: V) returns (previous: Option<V>)
      requires Valid() && 0 < i < |scalars| && m < MAPS
      modifies this`handles, arena
      ensures Valid() && |handles| == old(|handles|)
      ensures forall k :: 0 <= k < |handles| && k != At(i, m) ==> handles[k] == old(handles)[k]
      ensures previous == Found(old(Look(i)).maps[m], key)
      ensures forall j :: 0 <= j < |scalars| && j != i ==> Look(j) == old(Look(j))
      ensures var v := old(Look(i));
              Look(i) == if key !in Dict(v.maps[m]) then v else v.(maps := v.maps[m := Put(v.maps[m], key, value)])
      ensures previous.None? || previous.value == value ==>
                handles == old(handles) && arena.nodes == old(arena.nodes) && arena.counts == old(arena.counts)
    {
      hide Good, Kept, Refs, AvlMap.Valid, Shaped, Put, Sound, Seen;
      var k := At(i, m);
      ghost var kept, t0 := Refs(handles[k := Nil]), arena.trees;
      ghost var t := TreeAt(t0, handles[k]);
      RefsAt(handles, k);
      SoundAt(t0, handles, k);
      HandleLive(k);
      previous := arena.Lookup(handles[k], key);
      GetIsLookup(t, key);
      SeenSame(t0, handles, scalars, i, m);
      if previous.None? {
        return;
      }
      SetValueRefinesPut(t, key, value);
      if previous.value == value {
        SameValue(t, key);
        return;
      }
      var out := arena.Update(handles[k].addr, key, value, kept);
      SetValueCorrect(t, key, value);
      Commit(t0, arena.trees, handles, scalars, i, m, To(out));
      handles := handles[k := To(out)];
    }

    /** `state.map = other.map.clone()`: also how a state is cloned and how the cache
        cell takes its copy. */
    method Assign(i: nat, m: nat, j: nat)
      requires Valid() && i < |scalars| && j < |scalars| && m < MAPS && (i == 0 ==> cached.None?)
      modifies this`handles, arena
      ensures Valid() && |handles| == old(|handles|)
      ensures handles == old(handles)[At(i, m) := old(handles)[At(j, m)]]
      ensures forall n :: 0 <= n < |scalars| && n != i ==> Look(n) == old(Look(n))
      ensures var v := old(Look(i)); Look(i) == v.(maps := v.maps[m := old(Look(j)).maps[m]])
    {
      hide Good, Kept, Refs, AvlMap.Valid, Shaped, Sound, Seen;
      var k, q := At(i, m), At(j, m);
      ghost var kept, t0 := Refs(handles[k := Nil]), arena.trees;
      RefsAt(handles, k);
      SoundAt(t0, handles, q);
      SeenSame(t0, handles, scalars, j, m);
      HandleLive(k);
      HandleLive(q);
      arena.Retain(handles[q]);
      SwapRefs(kept, Ref(handles[k]), Ref(handles[q]));
      arena.Release(handles[k], kept + Ref(handles[q]));
      KeptPart(t0, arena.trees, kept, handles[q]);
      Commit(t0, arena.trees, handles, scalars, i, m, handles[q]);
      handles := handles[k := handles[q]];
    }

    /** Direct assignment to the counters of a state. */
    method SetScalars(i: nat, s: Scalars)
      requires Valid() && 0 < i < |scalars|
      modifies this`scalars
      ensures Valid() && scalars == old(scalars)[i := s]
      ensures forall n :: 0 <= n < |scalars| && n != i ==> Look(n) == old(Look(n))
      ensures Look(i) == old(Look(i)).(scalars := s)
    {
      scalars := scalars[i := s];
    }

    /** All four maps of state `i` become clones of those of state `j`. */
    method CopyMaps(i: nat, j: nat)
      requires Valid() && i < |scalars| && 0 < j < |scalars| && i != j && (i == 0 ==> cached.None?)
      modifies this`handles, arena
      ensures Valid() && |handles| == old(|handles|)
      ensures forall n :: 0 <= n < |scalars| && n != i ==> Look(n) == old(Look(n))
      ensures Look(i) == old(Look(j)).(scalars := scalars[i])
      ensures forall m :: 0 <= m < MAPS ==> handles[At(i, m)] == old(handles)[At(j, m)]
      ensures forall n, m :: 0 <= n < |scalars| && n != i && 0 <= m < MAPS ==> handles[At(n, m)] == old(handles)[At(n, m)]
    {
      hide Good, Refs, Sound, Seen, Contents, Kept;
      ghost var v, w := Look(i), Look(j);
      FourMaps(arena.trees, handles, scalars, i);
      FourMaps(arena.trees, handles, scalars, j);
      CopyTwo(i, 0, j);
      CopyTwo(i, 2, j);
      AllFour(v.maps, w.maps);
    }

    /** Two of the four. */
    method CopyTwo(i: nat, m: nat, j: nat)
      requires Valid() && i < |scalars| && 0 < j < |scalars| && i != j && (i == 0 ==> cached.None?) && m + 1 < MAPS
      modifies this`handles, arena
      ensures Valid() && |handles| == old(|handles|)
      ensures forall n :: 0 <= n < |scalars| && n != i ==> Look(n) == old(Look(n))
      ensures |old(Look(i)).maps| == MAPS && |old(Look(j)).maps| == MAPS
      ensures Look(i) == old(Look(i)).(maps := old(Look(i)).maps[m := old(Look(j)).maps[m]][m + 1 := old(Look(j)).maps[m + 1]])
      ensures forall k :: 0 <= k < |handles| && k != At(i, m) && k != At(i, m + 1) ==> handles[k] == old(handles)[k]
      ensures handles[At(i, m)] == old(handles)[At(j, m)] && handles[At(i, m + 1)] == old(handles)[At(j, m + 1)]
    {
      hide Good, Refs, Sound, Seen, Contents, Kept;
      FourMaps(arena.trees, handles, scalars, i);
      FourMaps(arena.trees, handles, scalars, j);
      Assign(i, m, j);
      Assign(i, m + 1, j);
    }

    /** A new state with empty maps. */
    method AddState(s: Scalars) returns (i: nat)
      requires Valid()
      modifies this`handles, this`scalars
      ensures Valid() && i == old(|scalars|) && scalars == old(scalars) + [s]
      ensures |handles| == old(|handles|) + MAPS && handles[..old(|handles|)] == old(handles)
      ensures forall n :: 0 <= n < i ==> Look(n) == old(Look(n))
    {
      hide Good, Refs, Sound, Seen;
      i := |scalars|;
      Extended(arena.trees, handles, scalars, s);
      handles, scalars := handles + [Nil, Nil, Nil, Nil], scalars + [s];
    }

    /** `LedgerState::clone`: a new state sharing every map, and the cache cell. */
    method CloneState(j: nat) returns (i: nat)
      requires Valid() && 0 < j < |scalars|
      modifies this`handles, this`scalars, arena
      ensures Valid() && i == old(|scalars|) && |scalars| == i + 1
      ensures forall n :: 0 <= n < i ==> Look(n) == old(Look(n))
      ensures Look(i) == old(Look(j))
      ensures scalars == old(scalars) + [old(scalars)[j]]
      ensures forall m :: 0 <= m < MAPS ==> handles[At(i, m)] == old(handles)[At(j, m)]
      ensures forall n, m :: 0 <= n < i && 0 <= m < MAPS ==> handles[At(n, m)] == old(handles)[At(n, m)]
    {
      hide Good, Refs, Sound, Seen;
      FourMaps(arena.trees, handles, scalars, j);
      i := AddState(scalars[j]);
      CopyMaps(i, j);
    }

    /** `cached_state_root`: compares map roots by pointer and scalars by value. */
    method CachedRoot(i: nat) returns (root: Option<R>)
      requires Valid() && 0 < i < |scalars|
      ensures root.Some? ==> root == FullRoot(Look(i))
      ensures root == if Warm(i) then cached else None
    {
      if cached.Some? && scalars[0] == scalars[i]
         && handles[At(0, 0)] == handles[At(i, 0)] && handles[At(0, 1)] == handles[At(i, 1)]
         && handles[At(0, 2)] == handles[At(i, 2)] && handles[At(0, 3)] == handles[At(i, 3)]
      {
        root := cached;
      } else {
        root := None;
      }
    }

    /** The entries of a map in key order, as the canonical encoder walks them. */
    method Listing(k: nat) returns (s: seq<Entry<V>>)
      requires Valid() && k < |handles|
      ensures s == Contents(arena.trees, handles[k])
    {
      hide MapIter.Pending, Entries;
      HandleLive(k);
      SoundAt(arena.trees, handles, k);
      s := [];
      var iter := new MapIter.Iter(arena.nodes, handles[k], arena.trees);
      ghost var goal := iter.Rest();
      var done := false;
      assert s + iter.Rest() == goal;
      while !done
        invariant iter.Valid() && s + iter.Rest() == goal && (done ==> iter.Rest() == [])
        decreases !done, |iter.Rest()|
      {
        ghost var rest := iter.Rest();
        var e := iter.Next();
        if e.Some? {
          MapIter.Shift(s, e.value, rest, iter.Rest());
          s := s + [e.value];
        } else {
          done := true;
        }
      }
      assert s + [] == s;
    }

    /** Everything the hash is taken over. */
    method ReadView(i: nat) returns (view: View<V>)
      requires Valid() && i < |scalars|
      ensures view == Look(i)
    {
      hide Good, Refs, Sound, Contents, Seen;
      var a := Listing(At(i, 0));
      var b := Listing(At(i, 1));
      var c := Listing(At(i, 2));
      var d := Listing(At(i, 3));
      SeenIs(arena.trees, handles, scalars, i, [a, b, c, d]);
      view := View([a, b, c, d], scalars[i]);
    }

    /** `cache_state_root`: the cell takes its own clone of every map. */
    method CacheRoot(i: nat, root: R)
      requires Valid() && 0 < i < |scalars| && Some(root) == FullRoot(Look(i))
      modifies this`handles, this`scalars, this`cached, arena
      ensures Valid() && |scalars| == old(|scalars|) && cached == Some(root) && Warm(i)
      ensures forall n :: 0 < n < |scalars| ==> Look(n) == old(Look(n))
    {
      hide Good, Refs, Sound, Seen;
      FourMaps(arena.trees, handles, scalars, i);
      cached := None;
      assert forall n :: 0 < n < |scalars| ==> Look(n) == old(Look(n));
      CopyMaps(0, i);
      assert forall n :: 0 < n < |scalars| ==> Look(n) == old(Look(n));
      CacheScalars(scalars[i]);
      assert forall n :: 0 < n < |scalars| ==> Look(n) == old(Look(n));
      cached := Some(root);
    }

    /** The rest of `application_state_root` after a miss: zero for an empty state, or hashed and
        then cached; nothing is cached when the encoding fails. */
    method FinishRoot(i: nat) returns (root: Option<R>)
      requires Valid() && 0 < i < |scalars|
      modifies this`handles, this`scalars, this`cached, arena
      ensures Valid() && |scalars| == old(|scalars|)
      ensures root == FullRoot(old(Look(i)))
      ensures forall n :: 0 < n < |scalars| ==> Look(n) == old(Look(n))
      ensures root.None? || IsEmpty(old(Look(i))) ==> unchanged(this, arena)
      ensures root.Some? && !IsEmpty(old(Look(i))) ==> cached == root && Warm(i)
    {
      hide Good, Refs, Sound, Seen;
      var view := ReadView(i);
      FourMaps(arena.trees, handles, scalars, i);
      if view.maps == [[], [], [], []] && view.scalars.mined == 0 && view.scalars.burned == 0 {
        return Some(zero);
      }
      root := hash(view);
      if root.Some? {
        CacheRoot(i, root.value);
      }
    }

    /** The scalar part of the cached copy. */
    method CacheScalars(s: Scalars)
      requires Valid() && cached.None?
      modifies this`scalars
      ensures Valid() && scalars == old(scalars)[0 := s]
      ensures forall n :: 0 < n < |scalars| ==> Look(n) == old(Look(n))
      ensures Look(0) == old(Look(0)).(scalars := s)
    {
      scalars := scalars[0 := s];
    }

    /** What all states look like, the cached copy apart. */
    ghost function Views(): (r: seq<View<V>>)
      requires |handles| == MAPS * |scalars| && |scalars| > 0
      reads this, arena
      ensures |r| == |scalars| - 1 && forall n :: 0 <= n < |r| ==> r[n] == Look(n + 1)
      ensures forall v :: v in r ==> |v.maps| == MAPS
    {
      AllSeen(arena.trees, handles, scalars)
    }

    method DoWrite(step: Step<V>)
      requires Valid() && step.Applies(|scalars| - 1, []) && (step.Insert? || step.Remove? || step.Set?)
      modifies this`handles, arena
      ensures Valid()
      ensures Views() == Changed(old(Views()), step)
      ensures |handles| == old(|handles|) && forall k :: 0 <= k < |handles| && k != At(step.i, step.m) ==> handles[k] == old(handles)[k]
    {
      hide Good, Refs, Sound, Seen, AllSeen;
      ghost var before := Views();
      match step
      case Insert(i, m, key, value) =>
        var _ := Insert(i, m, key, value);
      case Remove(i, m, key) =>
        var _ := Remove(i, m, key);
      case Set(i, m, key, value) =>
        var _ := Set(i, m, key, value);
      OneDiffers(before, Views(), step.i - 1);
    }

    /** A write to one state. */
    method DoChange(step: Step<V>)
      requires Valid() && step.Applies(|scalars| - 1, []) && step.Writes()
      modifies this`handles, this`scalars, arena
      ensures Valid()
      ensures Views() == Changed(old(Views()), step)
      ensures |scalars| == old(|scalars|)
      ensures forall n :: 0 < n < |scalars| && n != step.i && old(Warm(n)) ==> Warm(n)
    {
      hide Good, Refs, Sound, Seen, AllSeen, SameRoots;
      ghost var before, links := Views(), handles;
      if step.Assign? {
        Assign(step.i, step.m, step.j);
        OneDiffers(before, Views(), step.i - 1);
        SameRootsFrame(links, handles, scalars, step.i, step.m);
      } else if step.Counters? {
        CountersFrame(handles, scalars, step.i, step.s);
        SetScalars(step.i, step.s);
        OneDiffers(before, Views(), step.i - 1);
      } else {
        DoWrite(step);
        SameRootsFrame(links, handles, scalars, step.i, step.m);
      }
    }

    /** Every call still open that found a root found the one of the state it has borrowed. */
    ghost predicate Open(calls: seq<nat>, hits: seq<Option<R>>)
      requires Valid()
      reads this, arena
    {
      && |hits| == |calls|
      && forall q :: 0 <= q < |calls| ==>
           && calls[q] < |scalars|
           && (calls[q] != 0 && hits[q].Some? ==> hits[q] == FullRoot(Look(calls[q])))
    }

    /** A write or a clone leaves the states that calls have borrowed as they are. */
    method DoState(step: Step<V>, ghost calls: seq<nat>, ghost hits: seq<Option<R>>)
      requires Valid() && Open(calls, hits) && step.Applies(|scalars| - 1, calls) && (step.Writes() || step.Clone?)
      modifies this`handles, this`scalars, arena
      ensures Valid() && Open(calls, hits)
      ensures old(World(Views(), calls)).Valid()
      ensures World(Views(), calls) == After(old(World(Views(), calls)), step)
      ensures forall n :: 0 < n < old(|scalars|) && old(Warm(n)) && !(step.Writes() && step.i == n) ==> n < |scalars| && Warm(n)
      ensures step.Clone? && old(Warm(step.i)) ==> Warm(|scalars| - 1)
    {
      hide Good, Refs, Sound, Seen, AllSeen, FullHash, Changed;
      ghost var before := Views();
      if step.Clone? {
        var _ := CloneState(step.i);
      } else {
        DoChange(step);
      }
      forall q | 0 <= q < |calls| && calls[q] != 0 ensures Look(calls[q]) == old(Look(calls[q])) {
        assert Views()[calls[q] - 1] == before[calls[q] - 1];
      }
    }

    /** The two halves of a root query. */
    method DoCall(step: Step<V>, calls: seq<nat>, hits: seq<Option<R>>)
      returns (calls': seq<nat>, hits': seq<Option<R>>, reply: seq<Option<R>>)
      requires Valid() && Open(calls, hits) && step.Applies(|scalars| - 1, calls) && (step.Ask? || step.Answer?)
      modifies this`handles, this`scalars, this`cached, arena
      ensures Valid() && Open(calls', hits') && Views() == old(Views())
      ensures calls' == if step.Ask? then calls + [step.i] else calls[step.call := 0]
      ensures reply == if step.Ask? then [] else [FullRoot(old(Look(calls[step.call])))]
      ensures step.Ask? || hits[step.call].Some? ==> unchanged(this, arena)
      ensures step.Ask? ==> hits' == hits + [if Warm(step.i) then cached else None]
      ensures step.Answer? && hits[step.call].None? && reply[0].Some? && !IsEmpty(old(Look(calls[step.call]))) ==> Warm(calls[step.call])
    {
      hide Good, Refs, Sound, Seen, AllSeen, FullHash;
      if step.Ask? {
        var hit := CachedRoot(step.i);
        calls', hits', reply := calls + [step.i], hits + [hit], [];
      } else {
        var root := hits[step.call];
        if root.None? {
          root := FinishRoot(calls[step.call]);
        }
        calls', hits', reply := calls[step.call := 0], hits, [root];
      }
    }

    /** One atomic action: the sharing, caching states do what independent values do. */
    method Do(step: Step<V>, calls: seq<nat>, hits: seq<Option<R>>)
      returns (calls': seq<nat>, hits': seq<Option<R>>, reply: seq<Option<R>>)
      requires Valid() && Open(calls, hits)
      modifies this`handles, this`scalars, this`cached, arena
      ensures Valid() && Open(calls', hits')
      ensures old(World(Views(), calls)).Valid()
      ensures World(Views(), calls') == After(old(World(Views(), calls)), step)
      ensures reply == Reply(old(World(Views(), calls)), step, hash, zero)
      ensures |scalars| >= old(|scalars|) && (!step.Answer? ==> cached == old(cached))
      ensures forall n :: 0 < n < old(|scalars|) && old(Warm(n)) && !step.Answer? && !(step.Writes() && step.i == n) ==> Warm(n)
    {
      hide Good, Refs, Sound, Seen, AllSeen, FullHash, Changed;
      calls', hits', reply := calls, hits, [];
      if !step.Applies(|scalars| - 1, calls) {
      } else if step.Ask? || step.Answer? {
        calls', hits', reply := DoCall(step, calls, hits);
      } else {
        DoState(step, calls, hits);
      }
    }

    /** The cache is of use: after a root was computed, whatever is cloned, asked or written to other
        states, the next lookup for the same state hits, as long as no other root is put in. */
    method AskAgain(i: nat, steps: seq<Step<V>>) returns (hit: Option<R>)
      requires Valid() && 0 < i < |scalars| && !IsEmpty(Look(i)) && FullRoot(Look(i)).Some?
      requires forall k :: 0 <= k < |steps| ==> !steps[k].Answer? && !(steps[k].Writes() && steps[k].i == i)
      modifies this`handles, this`scalars, this`cached, arena
      ensures Valid() && i < |scalars| && hit == FullRoot(old(Look(i))) == FullRoot(Look(i))
    {
      hide Good, Refs, Sound, Seen, AllSeen, FullHash, After, Reply;
      ghost var view := Look(i);
      var root := FinishRoot(i);
      var calls: seq<nat>, hits: seq<Option<R>> := [], [];
      for k := 0 to |steps|
        invariant Valid() && Open(calls, hits) && i < |scalars| && Warm(i) && cached == root
      {
        var reply;
        calls, hits, reply := Do(steps[k], calls, hits);
      }
      hit := CachedRoot(i);
    }

    /** Root-cache soundness over whole runs: for every interleaving of writes, clones and
        replacements with the lookups and the later fills of root queries, on states sharing one
        cache cell, each query is answered with the full hash of the state asked about. */
    method Run(steps: seq<Step<V>>) returns (calls: seq<nat>, replies: seq<Option<R>>)
      requires Valid()
      modifies this`handles, this`scalars, this`cached, arena
      ensures Valid()
      ensures old(World(Views(), [])).Valid()
      ensures World(Views(), calls) == AfterAll(old(World(Views(), [])), steps)
      ensures replies == Replies(old(World(Views(), [])), steps, hash, zero)
    {
      hide Good, Refs, Sound, Seen, AllSeen, After, Reply;
      calls, replies := [], [];
      var hits: seq<Option<R>> := [];
      ghost var first := World(Views(), []);
      for k := 0 to |steps|
        invariant Valid() && Open(calls, hits)
        invariant World(Views(), calls) == AfterAll(first, steps[..k])
        invariant replies == Replies(first, steps[..k], hash, zero)
      {
        var reply;
        calls, hits, reply := Do(steps[k], calls, hits);
        RunStep(first, steps, k, hash, zero);
        replies := replies + reply;
      }
      assert steps[..|steps|] == steps;
    }
  }
}
