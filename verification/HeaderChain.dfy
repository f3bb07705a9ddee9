/** Header-only validation (kernel/src/consensus/header.rs) with the difficulty rule
    (kernel/src/consensus/policy/difficulty.rs): a chain of headers checked from genesis with
    a sliding window, and the resumable state that lets it be checked in chunks. */
module HeaderChain {
  import opened Wrappers
  import opened Bytes
  import opened Integers

  const WBDA_WINDOW := 2500
  const RECENT_HEADER_WINDOW := 2 * WBDA_WINDOW
  const MAX_BLOCK_SIZE := 0x20_0000

  type Hash = nat

  /** The header fields that validation looks at, and `rest` for the others. */
  datatype Header = Header(previousHash: Hash, targetBits: nat, blockWeight: nat, rest: nat)

  /** `HeaderAtHeight`. */
  datatype Placed = Placed(height: nat, header: Header)

  datatype Error =
    | EmptyHeaderChain
    | WrongGenesis
    | InvalidCommonAncestor
    | Serialization
    | InvalidHeader
    | InvalidDifficulty
    | MissingParent
    | InvalidProofOfWork

  datatype Outcome<T> = Ok(value: T) | Err(error: Error)

  /** The primitives of consensus: header hashing (which may fail to serialize), the starting
      difficulty, the adjustment from a window of block weights, the proof-of-work check and
      the work of a difficulty. */
  datatype Rules = Rules(
    hash: Header -> Option<Hash>,
    startBits: nat,
    adjust: (nat, seq<nat>) -> Option<nat>,
    pow: (Header, nat) -> bool,
    work: nat -> Option<nat>)

  function MaxWork(): nat {
    Pow256(64) - 1
  }

  function Next(height: nat): nat {
    SatAdd(height, 1, MAX_U64)
  }

  // ----- expected difficulty -----

  predicate Boundary(height: nat) {
    height > 1 && (height - 1) % WBDA_WINDOW == 0
  }

  /** The first header of the window at this height. */
  function Find(recent: seq<Placed>, height: nat): Option<Placed> {
    if recent == [] then None
    else if recent[0].height == height then Some(recent[0])
    else Find(recent[1..], height)
  }

  function Weights(recent: seq<Placed>, from: nat, to: nat): Outcome<seq<nat>>
    decreases to - from
  {
    if from >= to then Ok([])
    else
      match Find(recent, from)
      case None => Err(MissingParent)
      case Some(x) =>
        match Weights(recent, from + 1, to)
        case Err(e) => Err(e)
        case Ok(ws) => Ok([x.header.blockWeight] + ws)
  }

  function Expected(r: Rules, height: nat, parentBits: nat, recent: seq<Placed>): Outcome<nat> {
    if height == 1 then Ok(r.startBits)
    else if !Boundary(height) then Ok(parentBits)
    else
      match Weights(recent, height - WBDA_WINDOW, height)
      case Err(e) => Err(e)
      case Ok(ws) =>
        match r.adjust(parentBits, ws)
        case None => Err(InvalidDifficulty)
        case Some(bits) => Ok(bits)
  }

  predicate WeightOk(h: Header) {
    0 < h.blockWeight <= MAX_BLOCK_SIZE
  }

  // ----- one header, and a run of headers -----

  /** The loop variables of the extension check. */
  datatype Cursor = Cursor(height: nat, bits: nat, hash: Hash, work: nat, recent: seq<Placed>)

  function Slide(recent: seq<Placed>, x: Placed): seq<Placed> {
    var longer := recent + [x];
    if |longer| > RECENT_HEADER_WINDOW then longer[1..] else longer
  }

  /** Difficulty, proof of work and work of one header: the checks both loops share. */
  function Judge(r: Rules, height: nat, parentBits: nat, recent: seq<Placed>, h: Header): Outcome<nat> {
    match Expected(r, height, parentBits, recent)
    case Err(e) => Err(e)
    case Ok(bits) =>
      if h.targetBits != bits then Err(InvalidDifficulty)
      else if !r.pow(h, bits) then Err(InvalidProofOfWork)
      else
        match r.work(bits)
        case None => Err(InvalidDifficulty)
        case Some(w) => Ok(w)
  }

  function Step(r: Rules, c: Cursor, x: Placed): Outcome<Cursor> {
    if !WeightOk(x.header) then Err(InvalidHeader)
    else if x.height != Next(c.height) || x.header.previousHash != c.hash then Err(InvalidCommonAncestor)
    else
      match Judge(r, x.height, c.bits, c.recent, x.header)
      case Err(e) => Err(e)
      case Ok(w) =>
        match r.hash(x.header)
        case None => Err(Serialization)
        case Some(hash) =>
          Ok(Cursor(x.height, x.header.targetBits, hash, SatAdd(c.work, w, MaxWork()), Slide(c.recent, x)))
  }

  function Fold(r: Rules, c: Cursor, xs: seq<Placed>): Outcome<Cursor>
    decreases xs
  {
    if xs == [] then Ok(c)
    else
      match Step(r, c, xs[0])
      case Err(e) => Err(e)
      case Ok(c') => Fold(r, c', xs[1..])
  }

  // ----- resumable validation -----

  /** `HeaderValidationState`. */
  datatype State = State(
    height: nat, header: Header, work: nat, weight: nat, anchor: Placed, recent: seq<Placed>)

  /** What the extension check reads off a state before its loop. */
  function Start(r: Rules, s: State): Outcome<Cursor> {
    match r.hash(s.header)
    case None => Err(Serialization)
    case Some(hash) =>
      if s.recent == [] || |s.recent| > RECENT_HEADER_WINDOW || s.recent[|s.recent| - 1].header != s.header
      then Err(InvalidCommonAncestor)
      else Ok(Cursor(s.height, s.header.targetBits, hash, s.work, s.recent))
  }

  function Extension(r: Rules, s: State, xs: seq<Placed>): Outcome<Cursor> {
    match Start(r, s)
    case Err(e) => Err(e)
    case Ok(c) => Fold(r, c, xs)
  }

  /** `verify_header_chain_extension`. */
  method VerifyExtension(r: Rules, s: State, headers: seq<Placed>) returns (o: Outcome<(Hash, nat)>)
    ensures o == match Extension(r, s, headers)
                 case Err(e) => Err(e)
                 case Ok(c) => Ok((c.hash, c.work))
  {
    var start := r.hash(s.header);
    if start.None? {
      return Err(Serialization);
    }
    if s.recent == [] || |s.recent| > RECENT_HEADER_WINDOW || s.recent[|s.recent| - 1].header != s.header {
      return Err(InvalidCommonAncestor);
    }
    var height, bits, hash, work, recent := s.height, s.header.targetBits, start.value, s.work, s.recent;
    assert headers[0..] == headers;
    for i := 0 to |headers|
      invariant Fold(r, Cursor(height, bits, hash, work, recent), headers[i..]) == Extension(r, s, headers)
    {
      var x := headers[i];
      assert headers[i..][0] == x && headers[i..][1..] == headers[i + 1..];
      if !WeightOk(x.header) {
        return Err(InvalidHeader);
      }
      if x.height != Next(height) || x.header.previousHash != hash {
        return Err(InvalidCommonAncestor);
      }
      var judged := Judge(r, x.height, bits, recent, x.header);
      if judged.Err? {
        return Err(judged.error);
      }
      work := SatAdd(work, judged.value, MaxWork());
      var next := r.hash(x.header);
      if next.None? {
        return Err(Serialization);
      }
      hash, height, bits := next.value, x.height, x.header.targetBits;
      recent := recent + [x];
      if |recent| > RECENT_HEADER_WINDOW {
        recent := recent[1..];
      }
    }
    o := Ok((hash, work));
  }

  function LastN<T>(s: seq<T>, n: nat): seq<T> {
    if |s| > n then s[|s| - n..] else s
  }

  function AddWeights(total: nat, xs: seq<Placed>): nat
    decreases xs
  {
    if xs == [] then total
    else AddWeights(SatAdd(total, xs[0].header.blockWeight, MAX_U64), xs[1..])
  }

  /** `advanced_header_validation_state`. */
  function Advanced(s: State, xs: seq<Placed>, work: nat): State {
    var tip := if xs == [] then Placed(s.height, s.header) else xs[|xs| - 1];
    State(tip.height, tip.header, work, AddWeights(s.weight, xs), s.anchor,
          LastN(s.recent + xs, RECENT_HEADER_WINDOW))
  }

  /** `advance_header_validation_state`. */
  function Advance(r: Rules, s: State, xs: seq<Placed>): Outcome<State> {
    match Extension(r, s, xs)
    case Err(e) => Err(e)
    case Ok(c) => Ok(Advanced(s, xs, c.work))
  }

  // ----- chunks -----

  lemma {:induction false} FoldAppend(r: Rules, c: Cursor, a: seq<Placed>, b: seq<Placed>)
    ensures Fold(r, c, a + b) == match Fold(r, c, a)
                                 case Err(e) => Err(e)
                                 case Ok(c') => Fold(r, c', b)
    decreases a
  {
    if a == [] {
      assert a + b == b;
    } else {
      assert (a + b)[0] == a[0] && (a + b)[1..] == a[1..] + b;
      match Step(r, c, a[0])
      case Err(_) =>
      case Ok(c') => FoldAppend(r, c', a[1..], b);
    }
  }

  lemma {:induction false} AddWeightsAppend(total: nat, a: seq<Placed>, b: seq<Placed>)
    ensures AddWeights(total, a + b) == AddWeights(AddWeights(total, a), b)
    decreases a
  {
    if a == [] {
      assert a + b == b;
    } else {
      assert (a + b)[0] == a[0] && (a + b)[1..] == a[1..] + b;
      AddWeightsAppend(SatAdd(total, a[0].header.blockWeight, MAX_U64), a[1..], b);
    }
  }

  lemma LastNAppend<T>(a: seq<T>, b: seq<T>, n: nat)
    ensures LastN(LastN(a, n) + b, n) == LastN(a + b, n)
  {
  }

  /** What the loop holds after a run is what the advanced state holds. */
  lemma {:induction false} FoldTracks(r: Rules, c: Cursor, xs: seq<Placed>)
    requires xs != [] && |c.recent| <= RECENT_HEADER_WINDOW && Fold(r, c, xs).Ok?
    ensures var c' := Fold(r, c, xs).value;
            var tip := xs[|xs| - 1];
            && c'.height == tip.height
            && c'.bits == tip.header.targetBits
            && r.hash(tip.header) == Some(c'.hash)
            && c'.recent == LastN(c.recent + xs, RECENT_HEADER_WINDOW)
    decreases xs
  {
    hide LastN, Slide, Judge;
    var c1 := Step(r, c, xs[0]).value;
    SlideIsLastN(c.recent, xs[0]);
    if |xs| > 1 {
      FoldTracks(r, c1, xs[1..]);
      LastNAppend(c.recent + [xs[0]], xs[1..], RECENT_HEADER_WINDOW);
      Uncons(c.recent, xs);
    } else {
      assert xs == [xs[0]];
    }
  }

  lemma SlideIsLastN(recent: seq<Placed>, x: Placed)
    requires |recent| <= RECENT_HEADER_WINDOW
    ensures Slide(recent, x) == LastN(recent + [x], RECENT_HEADER_WINDOW)
    ensures |Slide(recent, x)| <= RECENT_HEADER_WINDOW
  {
  }

  lemma Uncons<T>(a: seq<T>, b: seq<T>)
    requires b != []
    ensures a + [b[0]] + b[1..] == a + b
  {
  }

  /** A state reached by an extension restarts exactly where the loop stopped. */
  lemma AdvancedRestarts(r: Rules, s: State, a: seq<Placed>)
    requires Extension(r, s, a).Ok?
    ensures var c := Extension(r, s, a).value;
            Start(r, Advanced(s, a, c.work)) == Ok(c)
  {
    var c := Extension(r, s, a).value;
    if a == [] {
      assert s.recent + a == s.recent;
    } else {
      FoldTracks(r, Start(r, s).value, a);
      assert (s.recent + a)[|s.recent + a| - 1] == a[|a| - 1];
    }
  }

  lemma AdvancedTwice(s: State, a: seq<Placed>, b: seq<Placed>, w: nat, w': nat)
    ensures Advanced(Advanced(s, a, w), b, w') == Advanced(s, a + b, w')
  {
    AddWeightsAppend(s.weight, a, b);
    LastNAppend(s.recent + a, b, RECENT_HEADER_WINDOW);
    assert s.recent + a + b == s.recent + (a + b);
    if b == [] {
      assert a + b == a;
    } else {
      assert (a + b)[|a + b| - 1] == b[|b| - 1];
    }
  }

  /** Two chunks are one: the same acceptance, the same error, the same state, from any state. */
  lemma ChunksCompose(r: Rules, s: State, a: seq<Placed>, b: seq<Placed>)
    ensures Advance(r, s, a + b) == match Advance(r, s, a)
                                    case Err(e) => Err(e)
                                    case Ok(s') => Advance(r, s', b)
  {
    match Start(r, s)
    case Err(_) =>
    case Ok(c) =>
      FoldAppend(r, c, a, b);
      if Fold(r, c, a).Ok? {
        var c' := Fold(r, c, a).value;
        AdvancedRestarts(r, s, a);
        if Fold(r, c', b).Ok? {
          AdvancedTwice(s, a, b, c'.work, Fold(r, c', b).value.work);
        }
      }
  }

  function Concat<T>(chunks: seq<seq<T>>): seq<T> {
    if chunks == [] then [] else chunks[0] + Concat(chunks[1..])
  }

  function AdvanceAll(r: Rules, s: State, chunks: seq<seq<Placed>>): Outcome<State>
    decreases chunks
  {
    if chunks == [] then Ok(s)
    else
      match Advance(r, s, chunks[0])
      case Err(e) => Err(e)
      case Ok(s') => AdvanceAll(r, s', chunks[1..])
  }

  /** However a run of headers is cut into chunks, validating chunk by chunk is validating
      the concatenation at once. (With no chunk at all nothing is checked.) */
  lemma {:induction false} AnyChunking(r: Rules, s: State, chunks: seq<seq<Placed>>)
    requires chunks != []
    ensures AdvanceAll(r, s, chunks) == Advance(r, s, Concat(chunks))
    decreases chunks
  {
    ChunksCompose(r, s, chunks[0], Concat(chunks[1..]));
    if |chunks| == 1 {
      assert chunks[0] + Concat(chunks[1..]) == chunks[0];
    } else {
      match Advance(r, s, chunks[0])
      case Err(_) =>
      case Ok(s') => AnyChunking(r, s', chunks[1..]);
    }
  }
}
