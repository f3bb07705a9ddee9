/** Header validation from genesis (kernel/src/consensus/header.rs): what the windowed loop
    accepts, said without a window, and its agreement with resumable validation. */
module HeaderGenesis {
  import opened Wrappers
  import opened Integers
  import opened HeaderChain

  // ----- the loop of `verify_header_chain` -----

  datatype Tail = Tail(previous: Placed, work: nat, recent: seq<Placed>)

  function ChainStep(r: Rules, t: Tail, x: Placed): Outcome<Tail> {
    if !WeightOk(x.header) then Err(InvalidHeader)
    else if x.height != Next(t.previous.height) then Err(InvalidCommonAncestor)
    else
      match r.hash(t.previous.header)
      case None => Err(Serialization)
      case Some(hash) =>
        if x.header.previousHash != hash then Err(InvalidCommonAncestor)
        else
          match Judge(r, Next(t.previous.height), t.previous.header.targetBits, t.recent, x.header)
          case Err(e) => Err(e)
          case Ok(w) => Ok(Tail(x, SatAdd(t.work, w, MaxWork()), Slide(t.recent, x)))
  }

  function ChainFold(r: Rules, t: Tail, xs: seq<Placed>): Outcome<Tail>
    decreases xs
  {
    if xs == [] then Ok(t)
    else
      match ChainStep(r, t, xs[0])
      case Err(e) => Err(e)
      case Ok(t') => ChainFold(r, t', xs[1..])
  }

  function Finish(r: Rules, o: Outcome<Tail>): Outcome<(Hash, nat)> {
    match o
    case Err(e) => Err(e)
    case Ok(t) =>
      match r.hash(t.previous.header)
      case None => Err(Serialization)
      case Some(hash) => Ok((hash, t.work))
  }

  function ChainResult(r: Rules, hs: seq<Placed>, genesis: Hash): Outcome<(Hash, nat)> {
    if hs == [] then Err(EmptyHeaderChain)
    else if hs[0].height != 0 then Err(WrongGenesis)
    else
      match r.hash(hs[0].header)
      case None => Err(Serialization)
      case Some(hash) =>
        if hash != genesis then Err(WrongGenesis)
        else Finish(r, ChainFold(r, Tail(hs[0], 0, [hs[0]]), hs[1..]))
  }

  /** `verify_header_chain`. */
  method VerifyChain(r: Rules, headers: seq<Placed>, genesis: Hash) returns (o: Outcome<(Hash, nat)>)
    ensures o == ChainResult(r, headers, genesis)
  {
    if headers == [] {
      return Err(EmptyHeaderChain);
    }
    var first := headers[0];
    if first.height != 0 {
      return Err(WrongGenesis);
    }
    var hash := r.hash(first.header);
    if hash.None? {
      return Err(Serialization);
    }
    if hash.value != genesis {
      return Err(WrongGenesis);
    }
    var previous, work, recent := first, 0, [first];
    for i := 1 to |headers|
      invariant Finish(r, ChainFold(r, Tail(previous, work, recent), headers[i..])) == ChainResult(r, headers, genesis)
    {
      var x := headers[i];
      assert headers[i..][0] == x && headers[i..][1..] == headers[i + 1..];
      if !WeightOk(x.header) {
        return Err(InvalidHeader);
      }
      if x.height != Next(previous.height) {
        return Err(InvalidCommonAncestor);
      }
      var parent := r.hash(previous.header);
      if parent.None? {
        return Err(Serialization);
      }
      if x.header.previousHash != parent.value {
        return Err(InvalidCommonAncestor);
      }
      var judged := Judge(r, Next(previous.height), previous.header.targetBits, recent, x.header);
      if judged.Err? {
        return Err(judged.error);
      }
      work := SatAdd(work, judged.value, MaxWork());
      previous := x;
      recent := recent + [x];
      if |recent| > RECENT_HEADER_WINDOW {
        recent := recent[1..];
      }
    }
    var tip := r.hash(previous.header);
    o := if tip.None? then Err(Serialization) else Ok((tip.value, work));
  }

  /** `header_validation_state`. */
  function HeaderState(r: Rules, hs: seq<Placed>, genesis: Hash): Outcome<State> {
    match ChainResult(r, hs, genesis)
    case Err(e) => Err(e)
    case Ok((_, work)) =>
      var tip := hs[|hs| - 1];
      var anchor := if tip.height > 0 then 1 else 0;
      if anchor >= |hs| then Err(EmptyHeaderChain)
      else
        Ok(State(tip.height, tip.header, work, AddWeights(0, hs[1..]), hs[anchor],
                 LastN(hs, RECENT_HEADER_WINDOW)))
  }

  // ----- from genesis is an extension of genesis -----

  ghost predicate TotalHash(r: Rules) {
    forall h :: r.hash(h).Some?
  }

  function CursorOf(t: Tail, hash: Hash): Cursor {
    Cursor(t.previous.height, t.previous.header.targetBits, hash, t.work, t.recent)
  }

  /** The two loops differ only in when they hash: they accept the same runs with the same
      result, and where hashing cannot fail they also report the same errors. */
  lemma {:induction false} LoopsAgree(r: Rules, t: Tail, hash: Hash, xs: seq<Placed>)
    requires r.hash(t.previous.header) == Some(hash)
    ensures var a, b := Finish(r, ChainFold(r, t, xs)), Fold(r, CursorOf(t, hash), xs);
            && (a.Ok? <==> b.Ok?)
            && (b.Ok? ==> a.value == (b.value.hash, b.value.work))
            && (TotalHash(r) && a.Err? ==> b == Err(a.error))
    decreases xs
  {
    hide Judge, Slide;
    if xs != [] {
      var step := ChainStep(r, t, xs[0]);
      if step.Ok? {
        match r.hash(xs[0].header) {
          case Some(next) =>
            LoopsAgree(r, step.value, next, xs[1..]);
          case None =>
            StuckOnUnhashable(r, step.value, xs[1..]);
        }
      }
    }
  }

  lemma StuckOnUnhashable(r: Rules, t: Tail, xs: seq<Placed>)
    requires r.hash(t.previous.header) == None
    ensures Finish(r, ChainFold(r, t, xs)).Err?
  {
    if xs != [] {
      assert ChainStep(r, t, xs[0]).Err?;
    }
  }

  function GenesisState(g: Placed): State {
    State(0, g.header, 0, 0, g, [g])
  }

  predicate Rooted(r: Rules, hs: seq<Placed>, genesis: Hash) {
    hs != [] && hs[0].height == 0 && r.hash(hs[0].header) == Some(genesis)
  }

  function AnchorOf(hs: seq<Placed>): Placed
    requires hs != []
  {
    if |hs| > 1 then hs[1] else hs[0]
  }

  lemma {:induction false} LastIsAbove(r: Rules, c: Cursor, xs: seq<Placed>)
    requires Fold(r, c, xs).Ok? && xs != []
    ensures xs[0].height == Next(c.height) && xs[|xs| - 1].height > 0
    decreases xs
  {
    if |xs| > 1 {
      LastIsAbove(r, Step(r, c, xs[0]).value, xs[1..]);
    }
  }

  /** Validating from genesis is extending the state of genesis alone, but for the anchor. */
  lemma GenesisIsExtension(r: Rules, hs: seq<Placed>, genesis: Hash)
    requires Rooted(r, hs, genesis)
    ensures var a, b := HeaderState(r, hs, genesis), Advance(r, GenesisState(hs[0]), hs[1..]);
            && (a.Ok? <==> b.Ok?)
            && (b.Ok? ==> a.value == b.value.(anchor := AnchorOf(hs)))
            && (TotalHash(r) && a.Err? ==> b == Err(a.error))
  {
    hide Fold, ChainFold;
    var t := Tail(hs[0], 0, [hs[0]]);
    LoopsAgree(r, t, genesis, hs[1..]);
    assert Start(r, GenesisState(hs[0])) == Ok(CursorOf(t, genesis));
    assert hs == [hs[0]] + hs[1..];
    if Fold(r, CursorOf(t, genesis), hs[1..]).Ok? && |hs| > 1 {
      LastIsAbove(r, CursorOf(t, genesis), hs[1..]);
    }
  }

  lemma AnchorIrrelevant(r: Rules, s: State, xs: seq<Placed>, x: Placed)
    ensures Advance(r, s.(anchor := x), xs) == match Advance(r, s, xs)
                                               case Err(e) => Err(e)
                                               case Ok(s') => Ok(s'.(anchor := x))
  {
  }

  /** Path independence. Resuming from the state of a validated prefix accepts exactly what
      validating everything from genesis accepts, with the same tip, work, weight and window. The
      whole states are equal exactly when the prefix reaches past genesis or nothing is added:
      only then does the anchor, which resuming never moves, agree. */
  lemma {:induction false} PathIndependent(r: Rules, hs: seq<Placed>, xs: seq<Placed>, genesis: Hash)
    requires HeaderState(r, hs, genesis).Ok?
    ensures var s := HeaderState(r, hs, genesis).value;
            var a, b := HeaderState(r, hs + xs, genesis), Advance(r, s, xs);
            && (a.Ok? <==> b.Ok?)
            && (a.Ok? ==> b.value == a.value.(anchor := s.anchor))
            && (a.Ok? ==> (a == b <==> |hs| > 1 || xs == []))
            && (TotalHash(r) && a.Err? ==> b == Err(a.error))
  {
    hide Advance;
    var g := GenesisState(hs[0]);
    assert Rooted(r, hs, genesis) && Rooted(r, hs + xs, genesis);
    GenesisIsExtension(r, hs, genesis);
    GenesisIsExtension(r, hs + xs, genesis);
    assert (hs + xs)[0] == hs[0] && (hs + xs)[1..] == hs[1..] + xs;
    ChunksCompose(r, g, hs[1..], xs);
    AnchorIrrelevant(r, Advance(r, g, hs[1..]).value, xs, AnchorOf(hs));
    if Advance(r, g, hs[1..] + xs).Ok? {
      AnchorKept(r, g, hs[1..]);
      AnchorKept(r, g, hs[1..] + xs);
    }
  }

  lemma AnchorKept(r: Rules, s: State, xs: seq<Placed>)
    requires Advance(r, s, xs).Ok?
    ensures Advance(r, s, xs).value.anchor == s.anchor
    ensures xs != [] ==> xs[0].height == Next(s.height)
  {
    if xs != [] {
      LastIsAbove(r, Start(r, s).value, xs);
    }
  }

  /** Rules that know two headers and accept any proof of work. */
  function EasyRules(): Rules {
    Rules((h: Header) => if h == FIRST.header then Some(7) else if h == SECOND.header then Some(8) else None, 5, (bits: nat, ws: seq<nat>) => None, (h: Header, bits: nat) => true, (bits: nat) => Some(1))
  }

  const FIRST := Placed(0, Header(0, 5, 1, 7))
  const SECOND := Placed(1, Header(7, 5, 1, 8))

  lemma SecondFollows()
    ensures Step(EasyRules(), Cursor(0, 5, 7, 0, [FIRST]), SECOND).Ok?
  {
    hide Slide, MaxWork;
    assert Expected(EasyRules(), 1, 5, [FIRST]) == Ok(5);
  }

  /** The anchor does differ when a first chunk is added to genesis alone. */
  lemma AnchorExample()
    ensures HeaderState(EasyRules(), [FIRST], 7) == Ok(GenesisState(FIRST))
    ensures var whole, resumed := HeaderState(EasyRules(), [FIRST, SECOND], 7), Advance(EasyRules(), GenesisState(FIRST), [SECOND]);
            whole.Ok? && resumed.Ok? && whole.value.anchor == SECOND && resumed.value.anchor == FIRST
  {
    hide Step, HeaderState;
    var r, c := EasyRules(), Cursor(0, 5, 7, 0, [FIRST]);
    SecondFollows();
    assert [SECOND][1..] == [] && [FIRST][1..] == [] && [FIRST, SECOND][1..] == [SECOND];
    assert Start(r, GenesisState(FIRST)) == Ok(c);
    assert Fold(r, c, [SECOND]).Ok? && Fold(r, c, []) == Ok(c);
    assert [FIRST] + [] == [FIRST];
    GenesisIsExtension(r, [FIRST], 7);
    GenesisIsExtension(r, [FIRST, SECOND], 7);
  }
}
