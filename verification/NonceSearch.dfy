/** The multi-worker nonce search (runtime/src/miner.rs) as a state machine over the atomic steps of
    its workers and of the thread that cancels and joins them. */
module NonceSearch {
  import opened Bytes
  import opened Wrappers

  const NONCES := 0x1_0000_0000_0000_0000

  datatype Verdict = Fails(error: nat) | Misses | Meets

  /** The number of workers asked for, and what hashing each nonce gives against the target. */
  datatype Search = Search(asked: nat, judge: nat -> Verdict)

  function Count(p: Search): (n: nat)
    ensures n > 0
  {
    if p.asked == 0 then 1 else p.asked
  }

  /** A worker between two of its shared accesses. `index` counts its tests so far. */
  datatype Worker =
    | Fresh
    | Looping(index: nat)
    | Hashing(index: nat)
    | Failing(error: nat)
    | Found(nonce: nat)
    | Announcing
    | Finished
    | Erred(error: nat)

  datatype Main =
    | Polling
    | Asking
    | Cancelling
    | Stopping
    | Joining(next: nat, error: Option<nat>)
    | Returned(result: Outcome)

  datatype Outcome = Ok(nonce: Option<nat>) | Err(error: nat)

  /** One test: who, its how-manieth, and the nonce. */
  datatype Test = Test(worker: nat, index: nat, nonce: nat)

  /** Shared and private state, with a history: the tests made, the writes of the winner, and
      whether cancellation was asked for. */
  datatype State = State(
    workers: seq<Worker>,
    main: Main,
    stopped: bool,
    winner: Option<nat>,
    hashes: nat,
    tests: seq<Test>,
    writes: nat,
    cancelled: bool)

  datatype Action = Work(worker: nat) | Watch | Answer(cancel: bool)

  function Init(p: Search): State {
    State(seq(Count(p), i => Fresh), Polling, false, None, 0, [], 0, false)
  }

  /** The nonce of a worker's `index`-th test: its lane, wrapping at 64 bits. */
  function Nonce(p: Search, worker: nat, index: nat): nat {
    (worker + index * Count(p)) % NONCES
  }

  /** The next atomic step of one worker. */
  function WorkerStep(p: Search, s: State, w: nat): State
    requires w < |s.workers|
  {
    match s.workers[w]
    case Fresh => s.(workers := s.workers[w := if s.stopped then Finished else Looping(0)])
    case Looping(i) => s.(workers := s.workers[w := if s.stopped then Finished else Hashing(i)])
    case Hashing(i) =>
      var nonce := Nonce(p, w, i);
      var tested := s.(tests := s.tests + [Test(w, i, nonce)]);
      (match p.judge(nonce)
       case Fails(e) => tested.(workers := s.workers[w := Failing(e)])
       case Misses => tested.(workers := s.workers[w := Looping(i + 1)], hashes := s.hashes + 1)
       case Meets => tested.(workers := s.workers[w := Found(nonce)], hashes := s.hashes + 1))
    case Failing(e) => s.(workers := s.workers[w := Erred(e)], stopped := true)
    case Found(nonce) =>
      var after := s.(workers := s.workers[w := Announcing]);
      if s.winner.None? then after.(winner := Some(nonce), writes := s.writes + 1) else after
    case Announcing => s.(workers := s.workers[w := Finished], stopped := true)
    case Finished => s
    case Erred(_) => s
  }

  /** The next atomic step of the watching thread; joining waits for the worker. */
  function MainStep(s: State): State {
    match s.main
    case Polling => s.(main := if s.stopped then Stopping else Asking)
    case Asking => s
    case Cancelling => s.(main := Stopping, stopped := true)
    case Stopping => s.(main := Joining(0, None), stopped := true)
    case Joining(k, error) =>
      if k < |s.workers| then
        match s.workers[k]
        case Finished => s.(main := Joining(k + 1, error))
        case Erred(e) => s.(main := Joining(k + 1, if error.None? then Some(e) else error))
        case _ => s
      else
        s.(main := Returned(if error.Some? then Err(error.value) else Ok(s.winner)))
    case Returned(_) => s
  }

  function Step(p: Search, s: State, a: Action): State {
    match a
    case Work(w) => if w < |s.workers| then WorkerStep(p, s, w) else s
    case Watch => MainStep(s)
    case Answer(cancel) =>
      if !s.main.Asking? then s
      else if cancel then s.(main := Cancelling, cancelled := true)
      else s.(main := Polling)
  }

  /** Every interleaving is a sequence of actions. */
  function Run(p: Search, acts: seq<Action>): State {
    if acts == [] then Init(p) else Step(p, Run(p, acts[..|acts| - 1]), acts[|acts| - 1])
  }

  // ----- the invariant -----

  predicate Ended(w: Worker) {
    w.Finished? || w.Erred?
  }

  /** Someone has asked the search to end, and why. */
  predicate Reason(s: State) {
    s.cancelled || s.winner.Some? || exists w :: 0 <= w < |s.workers| && s.workers[w].Erred?
  }

  predicate Winners(p: Search, s: State) {
    && (s.winner.Some? ==> p.judge(s.winner.value) == Meets)
    && s.writes == (if s.winner.Some? then 1 else 0)
    && (forall w :: 0 <= w < |s.workers| && s.workers[w].Found? ==> p.judge(s.workers[w].nonce) == Meets)
    && (forall w :: 0 <= w < |s.workers| && s.workers[w].Announcing? ==> s.winner.Some?)
  }

  predicate Stops(s: State) {
    && (s.stopped ==> Reason(s))
    && (forall w :: 0 <= w < |s.workers| && Ended(s.workers[w]) ==> s.stopped)
    && (s.main.Cancelling? ==> s.cancelled)
    && (s.main.Stopping? ==> s.stopped)
    && (s.main.Joining? || s.main.Returned? ==> s.stopped)
  }

  predicate Joins(s: State) {
    match s.main
    case Joining(k, error) =>
      && k <= |s.workers|
      && (forall w :: 0 <= w < k ==> Ended(s.workers[w]))
      && (error.None? ==> forall w :: 0 <= w < k ==> s.workers[w].Finished?)
      && (error.Some? ==> exists w :: 0 <= w < k && s.workers[w] == Erred(error.value))
    case Returned(result) =>
      && (forall w :: 0 <= w < |s.workers| ==> Ended(s.workers[w]))
      && (match result
          case Ok(n) => n == s.winner && forall w :: 0 <= w < |s.workers| ==> s.workers[w].Finished?
          case Err(e) => exists w :: 0 <= w < |s.workers| && s.workers[w] == Erred(e))
    case _ => true
  }

  /** How many tests a worker has made. */
  function Made(s: State, w: nat): Option<nat>
    requires w < |s.workers|
  {
    match s.workers[w]
    case Fresh => Some(0)
    case Looping(i) => Some(i)
    case Hashing(i) => Some(i)
    case _ => None
  }

  predicate Lanes(p: Search, s: State) {
    && (forall t :: 0 <= t < |s.tests| ==>
          s.tests[t].worker < |s.workers| && s.tests[t].nonce == Nonce(p, s.tests[t].worker, s.tests[t].index))
    && (forall t :: 0 <= t < |s.tests| && Made(s, s.tests[t].worker).Some? ==> s.tests[t].index < Made(s, s.tests[t].worker).value)
    && (forall t, u :: 0 <= t < u < |s.tests| && s.tests[t].worker == s.tests[u].worker ==> s.tests[t].index < s.tests[u].index)
  }

  /** What a test's verdict has led to: an error is held by its worker, and a nonce that meets the
      target by its worker or, it or another one, by the shared cell. */
  predicate Followed(p: Search, s: State, t: Test) {
    t.worker < |s.workers| &&
    match p.judge(t.nonce)
    case Fails(e) => s.workers[t.worker] == Failing(e) || s.workers[t.worker] == Erred(e)
    case Meets => s.winner.Some? || s.workers[t.worker] == Found(t.nonce)
    case Misses => true
  }

  /** The worker has made this test. */
  predicate Tested(tests: seq<Test>, w: nat, nonce: nat) {
    exists t :: 0 <= t < |tests| && tests[t].worker == w && tests[t].nonce == nonce
  }

  /** Some test of the worker failed with this error. */
  predicate FailedWith(p: Search, tests: seq<Test>, w: nat, e: nat) {
    exists t :: 0 <= t < |tests| && tests[t].worker == w && p.judge(tests[t].nonce) == Fails(e)
  }

  /** Errors held and nonces found come from tests. */
  predicate Backed(p: Search, s: State) {
    && (forall w :: 0 <= w < |s.workers| && s.workers[w].Failing? ==> FailedWith(p, s.tests, w, s.workers[w].error))
    && (forall w :: 0 <= w < |s.workers| && s.workers[w].Erred? ==> FailedWith(p, s.tests, w, s.workers[w].error))
    && (forall w :: 0 <= w < |s.workers| && s.workers[w].Found? ==> Tested(s.tests, w, s.workers[w].nonce))
    && (s.winner.Some? ==> exists w :: 0 <= w < |s.workers| && Tested(s.tests, w, s.winner.value))
  }

  /** How many of the tests gave a hash. */
  function Hashed(p: Search, tests: seq<Test>): nat {
    if tests == [] then 0
    else Hashed(p, tests[..|tests| - 1]) + if p.judge(tests[|tests| - 1].nonce).Fails? then 0 else 1
  }

  /** Every verdict is acted on, nothing is acted on without one, every hash is counted, and no
      nonce of a lane is passed over. */
  predicate Accounts(p: Search, s: State) {
    Heard(p, s) && Backed(p, s) && s.hashes == Hashed(p, s.tests) && Gapless(s)
  }

  predicate Heard(p: Search, s: State) {
    forall t :: 0 <= t < |s.tests| ==> Followed(p, s, s.tests[t])
  }

  predicate Gapless(s: State) {
    && (forall w, i :: 0 <= w < |s.workers| && Made(s, w).Some? && 0 <= i < Made(s, w).value ==> TestedAt(s.tests, w, i))
    && (forall t, i :: 0 <= t < |s.tests| && 0 <= i < s.tests[t].index ==> TestedAt(s.tests, s.tests[t].worker, i))
  }

  /** The worker's `i`-th test has been made. */
  predicate TestedAt(tests: seq<Test>, w: nat, i: nat) {
    exists t :: 0 <= t < |tests| && tests[t].worker == w && tests[t].index == i
  }

  predicate Inv(p: Search, s: State) {
    && |s.workers| == Count(p)
    && Winners(p, s) && Stops(s) && Joins(s) && Lanes(p, s) && Accounts(p, s)
  }

  lemma InitHolds(p: Search)
    ensures Inv(p, Init(p))
  {
  }

  lemma WinnersKept(p: Search, s: State, w: nat)
    requires Inv(p, s) && w < |s.workers|
    ensures Winners(p, WorkerStep(p, s, w))
  {
    hide Stops, Joins, Lanes, Nonce, Accounts;
  }

  lemma StopsKept(p: Search, s: State, w: nat)
    requires Inv(p, s) && w < |s.workers|
    ensures Stops(WorkerStep(p, s, w))
  {
    hide Joins, Lanes, Nonce, Accounts;
    var s' := WorkerStep(p, s, w);
    if s.stopped && !s.cancelled && s.winner.None? {
      var v :| 0 <= v < |s.workers| && s.workers[v].Erred?;
      assert s'.workers[v].Erred?;
    }
    if s.workers[w].Failing? {
      assert s'.workers[w].Erred?;
    }
  }

  lemma JoinsKept(p: Search, s: State, w: nat)
    requires Inv(p, s) && w < |s.workers|
    ensures Joins(WorkerStep(p, s, w))
  {
    hide Winners, Stops, Lanes, Nonce, Accounts;
    var s' := WorkerStep(p, s, w);
    assert Ended(s.workers[w]) ==> s' == s;
    if s.main.Joining? && s.main.error.Some? {
      var v :| 0 <= v < s.main.next && s.workers[v] == Erred(s.main.error.value);
      assert s'.workers[v] == s.workers[v];
    }
    if s.main.Returned? {
      assert Ended(s.workers[w]);
    }
  }

  /** Nothing tested, and no worker's count moved. */
  lemma LanesFrame(p: Search, s: State, s': State)
    requires Lanes(p, s) && s'.tests == s.tests && |s'.workers| == |s.workers|
    requires forall v :: 0 <= v < |s.workers| ==> Made(s', v).None? || Made(s', v) == Made(s, v)
    ensures Lanes(p, s')
  {
    hide Nonce;
  }

  /** One more test by `w`, its count raised past it or given up. */
  lemma LanesExtend(p: Search, s: State, s': State, w: nat, i: nat)
    requires Lanes(p, s) && w < |s.workers| && Made(s, w) == Some(i)
    requires s'.tests == s.tests + [Test(w, i, Nonce(p, w, i))] && |s'.workers| == |s.workers|
    requires Made(s', w).None? || Made(s', w) == Some(i + 1)
    requires forall v :: 0 <= v < |s.workers| && v != w ==> Made(s', v) == Made(s, v)
    ensures Lanes(p, s')
  {
    hide Nonce;
    var n := |s.tests|;
    assert s'.tests[n] == Test(w, i, Nonce(p, w, i));
    assert forall t :: 0 <= t < n ==> s'.tests[t] == s.tests[t];
  }

  lemma LanesKept(p: Search, s: State, w: nat)
    requires Inv(p, s) && w < |s.workers|
    ensures Lanes(p, WorkerStep(p, s, w))
  {
    hide Winners, Stops, Joins, Lanes, Nonce, Accounts;
    var s' := WorkerStep(p, s, w);
    if s.workers[w].Hashing? {
      LanesExtend(p, s, s', w, s.workers[w].index);
    } else {
      LanesFrame(p, s, s');
    }
  }

  /** Tests are only added. */
  lemma Grows(p: Search, before: seq<Test>, after: seq<Test>)
    requires after == before || (after != [] && after[..|after| - 1] == before)
    ensures forall w, n :: Tested(before, w, n) ==> Tested(after, w, n)
    ensures forall w, e :: FailedWith(p, before, w, e) ==> FailedWith(p, after, w, e)
    ensures forall w, i :: TestedAt(before, w, i) ==> TestedAt(after, w, i)
  {
    assert forall t :: 0 <= t < |before| ==> after[t] == before[t];
  }

  lemma OneMore(p: Search, s: State, w: nat)
    requires w < |s.workers|
    ensures var s' := WorkerStep(p, s, w);
            if s.workers[w].Hashing? then
              var i := s.workers[w].index;
              && s'.tests == s.tests + [Test(w, i, Nonce(p, w, i))]
              && s'.tests[..|s'.tests| - 1] == s.tests
            else s'.tests == s.tests
  {
  }

  lemma HeardKept(p: Search, s: State, w: nat)
    requires Heard(p, s) && w < |s.workers|
    ensures Heard(p, WorkerStep(p, s, w))
  {
    hide Nonce;
    OneMore(p, s, w);
    var s' := WorkerStep(p, s, w);
    forall t | 0 <= t < |s'.tests| ensures Followed(p, s', s'.tests[t]) {
      if t < |s.tests| {
        assert s'.tests[t] == s.tests[t] && Followed(p, s, s.tests[t]);
      }
    }
  }

  /** The test a worker makes is on record. */
  lemma JustTested(p: Search, s: State, w: nat)
    requires w < |s.workers| && s.workers[w].Hashing?
    ensures var nonce, tests := Nonce(p, w, s.workers[w].index), WorkerStep(p, s, w).tests;
            && Tested(tests, w, nonce)
            && (p.judge(nonce).Fails? ==> FailedWith(p, tests, w, p.judge(nonce).error))
  {
    hide Nonce;
    var tests := WorkerStep(p, s, w).tests;
    assert tests[|s.tests|].worker == w;
  }

  lemma {:induction false} BackedKept(p: Search, s: State, w: nat)
    requires Backed(p, s) && w < |s.workers|
    ensures Backed(p, WorkerStep(p, s, w))
  {
    hide Nonce, Tested, FailedWith;
    OneMore(p, s, w);
    var s' := WorkerStep(p, s, w);
    Grows(p, s.tests, s'.tests);
    if s.workers[w].Hashing? {
      JustTested(p, s, w);
    }
    if s'.winner.Some? {
      var v :| 0 <= v < |s.workers| && Tested(s.tests, v, s'.winner.value);
      assert Tested(s'.tests, v, s'.winner.value);
    }
  }

  lemma {:induction false} CountedKept(p: Search, s: State, w: nat)
    requires s.hashes == Hashed(p, s.tests) && w < |s.workers|
    ensures var s' := WorkerStep(p, s, w); s'.hashes == Hashed(p, s'.tests)
  {
    hide Nonce;
    OneMore(p, s, w);
  }

  lemma GaplessKept(p: Search, s: State, w: nat)
    requires Gapless(s) && w < |s.workers|
    ensures Gapless(WorkerStep(p, s, w))
  {
    hide Nonce;
    OneMore(p, s, w);
    var s' := WorkerStep(p, s, w);
    Grows(p, s.tests, s'.tests);
    forall v, i | 0 <= v < |s'.workers| && Made(s', v).Some? && 0 <= i < Made(s', v).value ensures TestedAt(s'.tests, v, i) {
      if TestedAt(s.tests, v, i) {
      } else {
        assert s'.tests[|s'.tests| - 1].index == i;
      }
    }
    forall t, i | 0 <= t < |s'.tests| && 0 <= i < s'.tests[t].index ensures TestedAt(s'.tests, s'.tests[t].worker, i) {
      if t < |s.tests| {
        assert s'.tests[t] == s.tests[t];
      } else {
        assert Made(s, w).Some?;
      }
    }
  }

  lemma AccountsKept(p: Search, s: State, w: nat)
    requires Inv(p, s) && w < |s.workers|
    ensures Accounts(p, WorkerStep(p, s, w))
  {
    hide WorkerStep, Heard, Backed, Gapless;
    HeardKept(p, s, w);
    BackedKept(p, s, w);
    CountedKept(p, s, w);
    GaplessKept(p, s, w);
  }

  lemma AccountsFrame(p: Search, s: State, s': State)
    requires Accounts(p, s) && s'.workers == s.workers && s'.tests == s.tests && s'.winner == s.winner && s'.hashes == s.hashes
    ensures Accounts(p, s')
  {
    forall t | 0 <= t < |s'.tests| ensures Followed(p, s', s'.tests[t]) {
      assert Followed(p, s, s.tests[t]);
    }
    forall w | 0 <= w < |s.workers| ensures Made(s', w) == Made(s, w) {
    }
  }

  lemma MainKeeps(p: Search, s: State)
    requires Inv(p, s)
    ensures Inv(p, MainStep(s))
  {
    hide Nonce, Lanes, Accounts;
    var s' := MainStep(s);
    assert s'.workers == s.workers && s'.tests == s.tests;
    LanesFrame(p, s, s');
    AccountsFrame(p, s, s');
    if s.stopped && !s.cancelled && s.winner.None? {
      var v :| 0 <= v < |s.workers| && s.workers[v].Erred?;
      assert s'.workers[v].Erred?;
    }
    if s.main.Joining? && s.main.error.Some? {
      var v :| 0 <= v < s.main.next && s.workers[v] == Erred(s.main.error.value);
      assert s'.workers[v] == Erred(s.main.error.value);
    }
    if s.main.Joining? && s.main.next < |s.workers| && s.workers[s.main.next].Erred? {
      assert s'.workers[s.main.next] == s.workers[s.main.next];
    }
  }

  lemma StepKeeps(p: Search, s: State, a: Action)
    requires Inv(p, s)
    ensures Inv(p, Step(p, s, a))
  {
    hide Winners, Stops, Joins, Lanes, Accounts, WorkerStep, MainStep;
    match a
    case Work(w) =>
      if w < |s.workers| {
        WinnersKept(p, s, w);
        StopsKept(p, s, w);
        JoinsKept(p, s, w);
        LanesKept(p, s, w);
        AccountsKept(p, s, w);
        SameWorkers(p, s, w);
      }
    case Watch => MainKeeps(p, s);
    case Answer(_) => AnswerKeeps(p, s, a);
  }

  lemma SameWorkers(p: Search, s: State, w: nat)
    requires w < |s.workers|
    ensures |WorkerStep(p, s, w).workers| == |s.workers|
  {
  }

  lemma AnswerKeeps(p: Search, s: State, a: Action)
    requires Inv(p, s) && a.Answer?
    ensures Inv(p, Step(p, s, a))
  {
    hide Nonce, Lanes, Accounts;
    var s' := Step(p, s, a);
    LanesFrame(p, s, s');
    AccountsFrame(p, s, s');
    if s.stopped && !s.cancelled && s.winner.None? {
      var v :| 0 <= v < |s.workers| && s.workers[v].Erred?;
      assert s'.workers[v].Erred?;
    }
  }

  lemma {:induction false} AlwaysInv(p: Search, acts: seq<Action>)
    ensures Inv(p, Run(p, acts))
  {
    hide Inv, Step, Init;
    if acts == [] {
      InitHolds(p);
    } else {
      AlwaysInv(p, acts[..|acts| - 1]);
      StepKeeps(p, Run(p, acts[..|acts| - 1]), acts[|acts| - 1]);
    }
  }

  /** A test whose lane has not wrapped around. */
  predicate Unwrapped(p: Search, t: Test) {
    t.worker + t.index * Count(p) < NONCES
  }

  lemma LaneInjective(n: nat, w: nat, i: nat, v: nat, j: nat)
    requires w < n && v < n && w + i * n == v + j * n
    ensures w == v && i == j
  {
    LeadingDigit(i, w, j, v, n);
    LeadingDigit(j, v, i, w, n);
  }

  lemma UnwrappedNonce(p: Search, t: Test)
    requires Unwrapped(p, t)
    ensures Nonce(p, t.worker, t.index) == t.worker + t.index * Count(p)
  {
    assert 0 <= t.index * Count(p);
  }

  /** Before a lane wraps, no nonce is tested twice, by one worker or by two. */
  lemma TestsDiffer(p: Search, s: State, t: nat, u: nat)
    requires Inv(p, s) && t < u < |s.tests| && Unwrapped(p, s.tests[t]) && Unwrapped(p, s.tests[u])
    ensures s.tests[t].nonce != s.tests[u].nonce
  {
    hide Winners, Stops, Joins, Nonce, Unwrapped, Accounts;
    var a, b := s.tests[t], s.tests[u];
    UnwrappedNonce(p, a);
    UnwrappedNonce(p, b);
    if a.nonce == b.nonce {
      LaneInjective(Count(p), a.worker, a.index, b.worker, b.index);
    }
  }

  /** Once written the winner stays. */
  lemma WinnerStays(p: Search, s: State, a: Action)
    requires s.winner.Some?
    ensures Step(p, s, a).winner == s.winner && Step(p, s, a).writes == s.writes
  {
  }

  /** Some test was judged to fail with this error. */
  predicate SomeFails(p: Search, tests: seq<Test>, e: nat) {
    exists t :: 0 <= t < |tests| && p.judge(tests[t].nonce) == Fails(e)
  }

  /** What a returned result means, said of the tests made and what hashing gives for their nonces:
      an error exactly when some test failed, and then the error of such a test; a nonce is one
      that was tested and meets the target; and without one every test missed and cancellation
      was asked for. */
  predicate Justified(p: Search, s: State, result: Outcome) {
    match result
    case Err(e) => SomeFails(p, s.tests, e)
    case Ok(None) => s.cancelled && forall t :: 0 <= t < |s.tests| ==> p.judge(s.tests[t].nonce) == Misses
    case Ok(Some(n)) =>
      && p.judge(n) == Meets
      && (exists t :: 0 <= t < |s.tests| && s.tests[t].nonce == n)
      && (forall t :: 0 <= t < |s.tests| ==> !p.judge(s.tests[t].nonce).Fails?)
  }

  lemma ResultJustified(p: Search, s: State)
    requires Inv(p, s) && s.main.Returned?
    ensures Justified(p, s, s.main.result)
  {
    hide Lanes, Gapless, Hashed, Count;
    forall t | 0 <= t < |s.tests| ensures Followed(p, s, s.tests[t]) && Ended(s.workers[s.tests[t].worker]) {
      assert Followed(p, s, s.tests[t]);
    }
    match s.main.result
    case Err(e) =>
      var w :| 0 <= w < |s.workers| && s.workers[w] == Erred(e);
      assert FailedWith(p, s.tests, w, e);
    case Ok(None) => NoneErred(s);
    case Ok(Some(n)) =>
      var w :| 0 <= w < |s.workers| && Tested(s.tests, w, n);
  }

  lemma NoneErred(s: State)
    requires Stops(s) && s.stopped && s.winner.None? && forall w :: 0 <= w < |s.workers| ==> s.workers[w].Finished?
    ensures s.cancelled
  {
  }

  /** At this point of the run the asked callback requests cancellation. */
  predicate Cancels(p: Search, acts: seq<Action>, i: nat) {
    i < |acts| && acts[i] == Answer(true) && Run(p, acts[..i]).main.Asking?
  }

  lemma StepCancels(p: Search, s: State, a: Action)
    ensures Step(p, s, a).cancelled <==> s.cancelled || (a == Answer(true) && s.main.Asking?)
    ensures (s.cancelled ==> s.main.Cancelling? || s.stopped) ==>
              (Step(p, s, a).cancelled ==> Step(p, s, a).main.Cancelling? || Step(p, s, a).stopped)
  {
  }

  /** The search counts as cancelled exactly if the callback, when asked, said so; and then it is
      being stopped or has been. */
  lemma {:induction false} CancelledMeans(p: Search, acts: seq<Action>)
    ensures Run(p, acts).cancelled <==> exists i: nat :: Cancels(p, acts, i)
    ensures Run(p, acts).cancelled ==> Run(p, acts).main.Cancelling? || Run(p, acts).stopped
  {
    hide Step;
    if acts != [] {
      var n := |acts| - 1;
      CancelledMeans(p, acts[..n]);
      StepCancels(p, Run(p, acts[..n]), acts[n]);
      forall i: nat | i < n ensures Cancels(p, acts, i) <==> Cancels(p, acts[..n], i) {
        assert acts[..n][..i] == acts[..i];
      }
      assert forall i: nat :: Cancels(p, acts[..n], i) ==> Cancels(p, acts, i);
      assert forall i: nat :: Cancels(p, acts, i) ==> Cancels(p, acts[..n], i) || i == n;
      assert Cancels(p, acts, n) <==> acts[n] == Answer(true) && Run(p, acts[..n]).main.Asking?;
    }
  }

  /** Safety of every interleaving. The winner is written at most once; nothing is returned before
      every worker has ended; the result is justified by the tests made; these are, lane by lane,
      the nonces in order without a gap, each hash counted; and before a lane wraps none is
      tested twice. */
  lemma SearchIsSafe(p: Search, acts: seq<Action>)
    ensures var s := Run(p, acts);
            && s.writes <= 1
            && (s.main.Returned? ==>
                  && (forall w :: 0 <= w < |s.workers| ==> Ended(s.workers[w]))
                  && Justified(p, s, s.main.result))
            && s.hashes == Hashed(p, s.tests) && Gapless(s)
            && (forall t :: 0 <= t < |s.tests| ==> s.tests[t].nonce == Nonce(p, s.tests[t].worker, s.tests[t].index))
            && (forall t, u :: 0 <= t < u < |s.tests| && Unwrapped(p, s.tests[t]) && Unwrapped(p, s.tests[u]) ==>
                  s.tests[t].nonce != s.tests[u].nonce)
            && (s.cancelled <==> exists i: nat :: Cancels(p, acts, i))
  {
    hide Run, Cancels, Unwrapped, Justified, Nonce, Hashed, Gapless, Heard, Backed;
    AlwaysInv(p, acts);
    CancelledMeans(p, acts);
    var s := Run(p, acts);
    if s.main.Returned? {
      ResultJustified(p, s);
    }
    forall t, u | 0 <= t < u < |s.tests| && Unwrapped(p, s.tests[t]) && Unwrapped(p, s.tests[u])
      ensures s.tests[t].nonce != s.tests[u].nonce
    {
      TestsDiffer(p, s, t, u);
    }
  }

  // ----- the search ends once stopped -----

  /** How many more steps a worker can take once it sees the search stopped. */
  function Left(w: Worker): nat {
    match w
    case Fresh => 1
    case Looping(_) => 1
    case Hashing(_) => 3
    case Failing(_) => 1
    case Found(_) => 2
    case Announcing => 1
    case Finished => 0
    case Erred(_) => 0
  }

  /** Once stopped the search stays stopped, and every step of a worker that has not ended brings
      it nearer to its end and leaves the others alone. */
  lemma StoppedDrains(p: Search, s: State, w: nat)
    requires s.stopped && w < |s.workers| && !Ended(s.workers[w])
    ensures var s' := WorkerStep(p, s, w);
            && s'.stopped && |s'.workers| == |s.workers| && Left(s'.workers[w]) < Left(s.workers[w])
            && forall v :: 0 <= v < |s.workers| && v != w ==> s'.workers[v] == s.workers[v]
  {
  }

  /** And when all have ended, each step of the watching thread brings it nearer to its return. */
  lemma StoppedReturns(p: Search, s: State)
    requires Inv(p, s) && s.stopped && !s.main.Returned? && !s.main.Asking?
    requires forall w :: 0 <= w < |s.workers| ==> Ended(s.workers[w])
    ensures Remaining(MainStep(s)) < Remaining(s)
  {
    hide Winners, Lanes, Accounts;
  }

  function Remaining(s: State): nat {
    match s.main
    case Polling => |s.workers| + 3
    case Asking => |s.workers| + 4
    case Cancelling => |s.workers| + 3
    case Stopping => |s.workers| + 2
    case Joining(k, _) => if k <= |s.workers| then |s.workers| - k + 1 else 0
    case Returned(_) => 0
  }
}
