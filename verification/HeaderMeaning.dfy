/** What an accepted header chain is, said of the whole chain: every header links to the one
    before it and carries the difficulty computed from the full history. The windowed loop
    accepts exactly these chains, and its totals are capped sums. */
module HeaderMeaning {
  import opened Wrappers
  import opened Bytes
  import opened Integers
  import opened HeaderChain
  import opened HeaderGenesis

  function WeightsOf(xs: seq<Placed>): (ws: seq<nat>)
    ensures |ws| == |xs|
  {
    if xs == [] then [] else [xs[0].header.blockWeight] + WeightsOf(xs[1..])
  }

  /** The difficulty of header `i`, from the headers before it. */
  function BitsAt(r: Rules, hs: seq<Placed>, i: nat): Option<nat>
    requires 0 < i < |hs|
  {
    if i == 1 then Some(r.startBits)
    else if !Boundary(i) then Some(hs[i - 1].header.targetBits)
    else r.adjust(hs[i - 1].header.targetBits, WeightsOf(hs[i - WBDA_WINDOW..i]))
  }

  predicate Linked(r: Rules, hs: seq<Placed>, i: nat)
    requires 0 < i < |hs|
  {
    var h := hs[i].header;
    && hs[i].height == i
    && 0 < h.blockWeight <= 0x20_0000
    && r.hash(hs[i - 1].header) == Some(h.previousHash)
    && BitsAt(r, hs, i) == Some(h.targetBits)
    && r.pow(h, h.targetBits)
    && r.work(h.targetBits).Some?
    && r.hash(h).Some?
  }

  predicate ValidChain(r: Rules, hs: seq<Placed>, genesis: Hash) {
    Rooted(r, hs, genesis) && forall i {:trigger Linked(r, hs, i)} :: 0 < i < |hs| ==> Linked(r, hs, i)
  }

  function WorkOf(r: Rules, h: Header): nat {
    match r.work(h.targetBits)
    case None => 0
    case Some(w) => w
  }

  /** Total work and weight after genesis, without any cap. */
  function SumWork(r: Rules, hs: seq<Placed>): nat {
    if |hs| <= 1 then 0 else SumWork(r, hs[..|hs| - 1]) + WorkOf(r, hs[|hs| - 1].header)
  }

  function SumWeight(hs: seq<Placed>): nat {
    if |hs| <= 1 then 0 else SumWeight(hs[..|hs| - 1]) + hs[|hs| - 1].header.blockWeight
  }

  function Cap(n: nat, max: nat): nat {
    if n > max then max else n
  }

  // ----- when difficulty changes -----

  lemma {:induction false} WeightsAt(xs: seq<Placed>, j: nat)
    requires j < |xs|
    ensures WeightsOf(xs)[j] == xs[j].header.blockWeight
  {
    if j > 0 {
      WeightsAt(xs[1..], j - 1);
    }
  }

  /** In a valid chain difficulty starts at the given bits and changes only at the headers after
      every 2500th block. */
  lemma RetargetHeights(r: Rules, hs: seq<Placed>, genesis: Hash, i: nat)
    requires ValidChain(r, hs, genesis) && 0 < i < |hs|
    ensures i == 1 ==> hs[i].header.targetBits == r.startBits
    ensures i > 1 && (forall k :: k >= 1 ==> i != 2500 * k + 1) ==> hs[i].header.targetBits == hs[i - 1].header.targetBits
  {
    assert Linked(r, hs, i);
    if Boundary(i) {
      var k := (i - 1) / 2500;
      assert i == 2500 * k + 1 && k >= 1;
    }
  }

  /** There it is the adjustment of the parent's bits by the weights of the 2500 blocks before. */
  lemma RetargetAt(r: Rules, hs: seq<Placed>, genesis: Hash, k: nat, weights: seq<nat>)
    requires ValidChain(r, hs, genesis) && k >= 1 && 2500 * k + 1 < |hs| && |weights| == 2500
    requires forall j :: 0 <= j < 2500 ==> weights[j] == hs[2500 * (k - 1) + 1 + j].header.blockWeight
    ensures r.adjust(hs[2500 * k].header.targetBits, weights) == Some(hs[2500 * k + 1].header.targetBits)
  {
    var i := 2500 * k + 1;
    assert Linked(r, hs, i) && Boundary(i);
    var window := hs[i - WBDA_WINDOW..i];
    forall j | 0 <= j < 2500 ensures WeightsOf(window)[j] == weights[j] {
      WeightsAt(window, j);
    }
    assert WeightsOf(window) == weights;
  }

  // ----- the window suffices -----

  predicate Numbered(s: seq<Placed>, base: nat) {
    forall i :: 0 <= i < |s| ==> s[i].height == base + i
  }

  lemma {:induction false} FindNumbered(s: seq<Placed>, base: nat, j: nat)
    requires Numbered(s, base) && j < |s|
    ensures Find(s, base + j) == Some(s[j])
  {
    if j > 0 {
      FindNumbered(s[1..], base + 1, j - 1);
    }
  }

  lemma {:induction false} WeightsNumbered(s: seq<Placed>, base: nat, i: nat, j: nat)
    requires Numbered(s, base) && i <= j <= |s|
    ensures Weights(s, base + i, base + j) == Ok(WeightsOf(s[i..j]))
    decreases j - i
  {
    if i < j {
      FindNumbered(s, base, i);
      WeightsNumbered(s, base, i + 1, j);
      assert s[i..j] == [s[i]] + s[i + 1..j];
    }
  }

  lemma SliceOfLast<T>(hs: seq<T>, k: nat, w: nat, from: nat)
    requires k <= |hs| && from <= k <= from + w
    ensures var recent := LastN(hs[..k], w);
            var base := k - |recent|;
            from >= base && recent[from - base..] == hs[from..k]
  {
  }

  /** The sliding window gives the difficulty that the full history gives. */
  lemma WindowSuffices(r: Rules, hs: seq<Placed>, k: nat)
    requires 0 < k < |hs| && Numbered(hs[..k], 0)
    ensures Expected(r, k, hs[k - 1].header.targetBits, LastN(hs[..k], RECENT_HEADER_WINDOW)) ==
            match BitsAt(r, hs, k) case None => Err(InvalidDifficulty) case Some(bits) => Ok(bits)
  {
    hide Weights, WeightsOf;
    if k > 1 && Boundary(k) {
      var recent := LastN(hs[..k], RECENT_HEADER_WINDOW);
      var base := k - |recent|;
      var from := k - WBDA_WINDOW;
      SliceOfLast(hs, k, RECENT_HEADER_WINDOW, from);
      NumberedLast(hs[..k], RECENT_HEADER_WINDOW);
      WeightsNumbered(recent, base, from - base, |recent|);
      assert recent[from - base..|recent|] == recent[from - base..];
    }
  }

  lemma NumberedLast(s: seq<Placed>, w: nat)
    requires Numbered(s, 0)
    ensures Numbered(LastN(s, w), |s| - |LastN(s, w)|)
  {
  }

  // ----- what the loop computes -----

  /** The loop variables after `k` headers. */
  function CursorAt(r: Rules, hs: seq<Placed>, k: nat): Cursor
    requires 0 < k <= |hs| && r.hash(hs[k - 1].header).Some?
  {
    Cursor(k - 1, hs[k - 1].header.targetBits, r.hash(hs[k - 1].header).value,
           Cap(SumWork(r, hs[..k]), MaxWork()), LastN(hs[..k], RECENT_HEADER_WINDOW))
  }

  predicate LinkedBelow(r: Rules, hs: seq<Placed>, k: nat)
    requires k <= |hs|
  {
    forall i {:trigger Linked(r, hs, i)} :: 0 < i < k ==> Linked(r, hs, i)
  }

  lemma NumberedBelow(r: Rules, hs: seq<Placed>, k: nat)
    requires 0 < k <= |hs| && hs[0].height == 0 && LinkedBelow(r, hs, k)
    ensures Numbered(hs[..k], 0)
  {
    forall i | 0 <= i < k ensures hs[..k][i].height == i {
      if i > 0 {
        assert Linked(r, hs, i);
      }
    }
  }

  lemma SumsStep(r: Rules, hs: seq<Placed>, k: nat)
    requires 0 < k < |hs|
    ensures SumWork(r, hs[..k + 1]) == SumWork(r, hs[..k]) + WorkOf(r, hs[k].header)
    ensures SumWeight(hs[..k + 1]) == SumWeight(hs[..k]) + hs[k].header.blockWeight
  {
    assert hs[..k + 1][..k] == hs[..k];
  }

  lemma SlideStep(hs: seq<Placed>, k: nat)
    requires k < |hs|
    ensures Slide(LastN(hs[..k], RECENT_HEADER_WINDOW), hs[k]) == LastN(hs[..k + 1], RECENT_HEADER_WINDOW)
  {
    var w := RECENT_HEADER_WINDOW;
    SlideIsLastN(LastN(hs[..k], w), hs[k]);
    LastNAppend(hs[..k], [hs[k]], w);
    assert hs[..k] + [hs[k]] == hs[..k + 1];
  }

  /** One header passes the loop exactly when it is linked, and moves the loop on by one. */
  lemma StepIsLinked(r: Rules, hs: seq<Placed>, k: nat)
    requires 0 < k < |hs| <= MAX_U64 && Numbered(hs[..k], 0) && r.hash(hs[k - 1].header).Some?
    ensures var o := Step(r, CursorAt(r, hs, k), hs[k]);
            && (o.Ok? <==> Linked(r, hs, k))
            && (o.Ok? ==> o.value == CursorAt(r, hs, k + 1))
  {
    hide Expected, BitsAt, LastN, Slide, SumWork, Pow256, MaxWork;
    WindowSuffices(r, hs, k);
    SumsStep(r, hs, k);
    SlideStep(hs, k);
  }

  lemma {:induction false} LoopMeaning(r: Rules, hs: seq<Placed>, k: nat)
    requires 0 < k <= |hs| <= MAX_U64 && hs[0].height == 0 && r.hash(hs[0].header).Some?
    ensures var o := Fold(r, CursorAt(r, hs, 1), hs[1..k]);
            && (o.Ok? <==> LinkedBelow(r, hs, k))
            && (o.Ok? ==> r.hash(hs[k - 1].header).Some? && o.value == CursorAt(r, hs, k))
  {
    if k == 1 {
      assert hs[1..1] == [];
    } else {
      hide Fold, CursorAt, Linked, Step, LinkedBelow;
      LoopMeaning(r, hs, k - 1);
      var start, before, x := CursorAt(r, hs, 1), hs[1..k - 1], hs[k - 1];
      assert hs[1..k] == before + [x];
      FoldAppend(r, start, before, [x]);
      BelowStep(r, hs, k);
      if LinkedBelow(r, hs, k - 1) {
        FoldOne(r, CursorAt(r, hs, k - 1), x);
        NumberedBelow(r, hs, k - 1);
        StepIsLinked(r, hs, k - 1);
        if Linked(r, hs, k - 1) {
          LinkedHash(r, hs, k - 1);
        }
      }
    }
  }

  lemma BelowStep(r: Rules, hs: seq<Placed>, k: nat)
    requires 1 < k <= |hs|
    ensures LinkedBelow(r, hs, k) <==> LinkedBelow(r, hs, k - 1) && Linked(r, hs, k - 1)
  {
    hide Linked;
  }

  lemma LinkedHash(r: Rules, hs: seq<Placed>, i: nat)
    requires 0 < i < |hs| && Linked(r, hs, i)
    ensures r.hash(hs[i].header).Some?
  {
  }

  lemma FoldOne(r: Rules, c: Cursor, x: Placed)
    ensures Fold(r, c, [x]) == Step(r, c, x)
  {
    assert [x][1..] == [];
  }

  lemma {:induction false} WeightsMeaning(hs: seq<Placed>, k: nat)
    requires 0 < k <= |hs|
    ensures AddWeights(0, hs[1..k]) == Cap(SumWeight(hs[..k]), MAX_U64)
  {
    if k > 1 {
      WeightsMeaning(hs, k - 1);
      assert hs[1..k] == hs[1..k - 1] + [hs[k - 1]];
      AddWeightsAppend(0, hs[1..k - 1], [hs[k - 1]]);
      assert hs[..k][..k - 1] == hs[..k - 1];
    }
  }

  /** The state of a chain, read off the whole chain. */
  function StateOf(r: Rules, hs: seq<Placed>): State
    requires hs != []
  {
    State(|hs| - 1, hs[|hs| - 1].header, Cap(SumWork(r, hs), MaxWork()), Cap(SumWeight(hs), MAX_U64),
          AnchorOf(hs), LastN(hs, RECENT_HEADER_WINDOW))
  }

  /** Work saturates at the largest number of its 64 bytes. */
  lemma WorkRange(s: seq<Byte>)
    requires |s| == 64
    ensures Value(s) <= MaxWork()
    ensures (forall i :: 0 <= i < |s| ==> s[i] == 255) ==> Value(s) == MaxWork()
  {
    hide Value, Pow256;
    ValueBound(s);
    ValueFull(s);
  }

  lemma {:induction false} ValueFull(s: seq<Byte>)
    ensures (forall i :: 0 <= i < |s| ==> s[i] == 255) ==> Value(s) == Pow256(|s|) - 1
  {
    if s != [] {
      ValueFull(s[..|s| - 1]);
    }
  }

  /** `header_validation_state` succeeds on exactly the valid chains, with exactly their state. */
  lemma StateMeaning(r: Rules, hs: seq<Placed>, genesis: Hash)
    requires |hs| <= MAX_U64
    ensures HeaderState(r, hs, genesis).Ok? <==> ValidChain(r, hs, genesis)
    ensures ValidChain(r, hs, genesis) ==> HeaderState(r, hs, genesis) == Ok(StateOf(r, hs))
  {
    hide Fold, Linked, SumWork, SumWeight, Pow256, MaxWork, AddWeights;
    if Rooted(r, hs, genesis) {
      var n := |hs|;
      GenesisIsExtension(r, hs, genesis);
      LoopMeaning(r, hs, n);
      WeightsMeaning(hs, n);
      assert hs[..n] == hs && hs[1..n] == hs[1..] && [hs[0]] + hs[1..] == hs;
      StartMeaning(r, hs, genesis);
      if ValidChain(r, hs, genesis) {
        NumberedBelow(r, hs, n);
        assert hs[..n][n - 1].height == n - 1;
      }
    }
  }

  lemma StartMeaning(r: Rules, hs: seq<Placed>, genesis: Hash)
    requires Rooted(r, hs, genesis)
    ensures Start(r, GenesisState(hs[0])) == Ok(CursorAt(r, hs, 1))
  {
    assert hs[..1] == [hs[0]];
  }

  /** `verify_header_chain` accepts exactly the valid chains, and returns the tip's hash and
      the capped total work. */
  lemma VerifyMeaning(r: Rules, hs: seq<Placed>, genesis: Hash)
    requires |hs| <= MAX_U64
    ensures ChainResult(r, hs, genesis).Ok? <==> ValidChain(r, hs, genesis)
    ensures ChainResult(r, hs, genesis).Ok? ==>
              && r.hash(hs[|hs| - 1].header) == Some(ChainResult(r, hs, genesis).value.0)
              && ChainResult(r, hs, genesis).value.1 == Cap(SumWork(r, hs), MaxWork())
  {
    hide Fold, ChainFold, Linked, SumWork, Pow256, MaxWork;
    if Rooted(r, hs, genesis) {
      LoopMeaning(r, hs, |hs|);
      LoopsAgree(r, Tail(hs[0], 0, [hs[0]]), genesis, hs[1..]);
      StartMeaning(r, hs, genesis);
      assert hs[..|hs|] == hs && hs[1..|hs|] == hs[1..];
    }
  }
}
