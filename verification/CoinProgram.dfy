/** A whole coin transition (kernel/src/ledger/applied/coin.rs): run the transfer program on a
    host, and undo everything from the journal if it fails; and runs of transitions. */
module CoinProgram {
  import opened Integers
  import opened Wrappers
  import opened CoinLedger
  import opened CoinTransfer

  predicate Within(a: map<Id, Coin>, b: map<Id, Coin>) {
    forall id :: id in a ==> id in b && a[id] == b[id]
  }

  lemma {:induction false} SumWithin(a: map<Id, Coin>, b: map<Id, Coin>)
    requires Within(a, b)
    ensures Sum(a) <= Sum(b)
    decreases |a|
  {
    if a != map[] {
      var k :| k in a;
      Fewer(a, k);
      SumWithin(a - {k}, b - {k});
      SumRemove(a, k);
      SumRemove(b, k);
    }
  }

  /** The consumed coins put back, in journal order. */
  function Restored(base: map<Id, Coin>, consumed: seq<(Id, Coin)>): map<Id, Coin> {
    if consumed == [] then base
    else
      var last := consumed[|consumed| - 1];
      Restored(base, consumed[..|consumed| - 1])[last.0 := last.1]
  }

  lemma {:induction false} RestoredMembers(base: map<Id, Coin>, consumed: seq<(Id, Coin)>, id: Id)
    ensures id in Restored(base, consumed) <==> id in base || exists i :: 0 <= i < |consumed| && consumed[i].0 == id
  {
    if consumed != [] {
      var n := |consumed| - 1;
      RestoredMembers(base, consumed[..n], id);
      assert forall i :: 0 <= i < n ==> consumed[..n][i] == consumed[i];
      if id in Restored(base, consumed) && id !in base && id != consumed[n].0 {
        var i :| 0 <= i < n && consumed[..n][i].0 == id;
        assert consumed[i].0 == id;
      }
    }
  }

  lemma {:induction false} RestoredWithin(base: map<Id, Coin>, consumed: seq<(Id, Coin)>, was: map<Id, Coin>)
    requires Within(base, was) && forall i :: 0 <= i < |consumed| ==> consumed[i].0 in was && consumed[i].1 == was[consumed[i].0]
    ensures Within(Restored(base, consumed), was)
  {
    if consumed != [] {
      RestoredWithin(base, consumed[..|consumed| - 1], was);
    }
  }

  /** Taking out what was created leaves only coins that were there, none of the consumed. */
  lemma BaseWithin(was: map<Id, Coin>, now: map<Id, Coin>, consumed: seq<(Id, Coin)>, created: seq<Id>)
    requires Traces(was, now, consumed, created)
    ensures Within(now - Ids(created), was)
    ensures forall i :: 0 <= i < |consumed| ==> consumed[i].0 !in now - Ids(created)
  {
    assert forall id :: id in created <==> id in Ids(created);
  }

  /** Undoing the journal gives back exactly the coins there were. */
  lemma UndoRestores(was: map<Id, Coin>, now: map<Id, Coin>, consumed: seq<(Id, Coin)>, created: seq<Id>)
    requires Traces(was, now, consumed, created)
    ensures Restored(now - Ids(created), consumed) == was
  {
    var base := now - Ids(created);
    BaseWithin(was, now, consumed, created);
    RestoredWithin(base, consumed, was);
    assert forall id :: id in created <==> id in Ids(created);
    forall id ensures id in was <==> id in Restored(base, consumed) {
      RestoredMembers(base, consumed, id);
    }
  }

  /** What a journal must look like to be undone: distinct created coins that are there, and
      distinct consumed ones that are not, unless created meanwhile. */
  predicate Undoable(coins: map<Id, Coin>, consumed: seq<(Id, Coin)>, created: seq<Id>) {
    && Distinct(created) && (forall i :: 0 <= i < |created| ==> created[i] in coins)
    && (forall i, j :: 0 <= i < j < |consumed| ==> consumed[i].0 != consumed[j].0)
    && (forall i :: 0 <= i < |consumed| && consumed[i].0 in coins ==> consumed[i].0 in created)
  }

  /** The two checking loops. */
  method CheckJournal(coins: map<Id, Coin>, consumed: seq<(Id, Coin)>, created: seq<Id>) returns (ok: bool)
    ensures ok <==> Undoable(coins, consumed, created)
  {
    var made: set<Id> := {};
    for i := 0 to |created|
      invariant made == set k | 0 <= k < i :: created[k]
      invariant forall j, k :: 0 <= j < k < i ==> created[j] != created[k]
      invariant forall k :: 0 <= k < i ==> created[k] in coins
    {
      if created[i] in made || created[i] !in coins {
        return false;
      }
      made := made + {created[i]};
    }
    assert forall id :: id in made <==> id in created;
    var spent: set<Id> := {};
    for i := 0 to |consumed|
      invariant spent == set k | 0 <= k < i :: consumed[k].0
      invariant forall j, k :: 0 <= j < k < i ==> consumed[j].0 != consumed[k].0
      invariant forall k :: 0 <= k < i && consumed[k].0 in coins ==> consumed[k].0 in created
    {
      if consumed[i].0 in spent || (consumed[i].0 in coins && consumed[i].0 !in made) {
        return false;
      }
      spent := spent + {consumed[i].0};
    }
    ok := true;
  }

  /** `rollback_coin`: it cannot fail on a journal that traces the changes, and it restores
      coins, total and burn exactly. */
  method Rollback(host: Host) returns (ok: bool)
    requires host.Valid()
    modifies host.ledger
    ensures ok && host.ledger.Valid()
    ensures host.ledger.coins == host.was && host.ledger.totalBurned == host.wasBurned
  {
    hide Sum, Traces, Undoable;
    var ledger := host.ledger;
    ghost var now := ledger.coins;
    TracesUndoable(host.was, now, host.consumed, host.created);
    ok := CheckJournal(ledger.coins, host.consumed, host.created);
    ledger.totalBurned := ledger.totalBurned - host.burned;
    TakeOut(ledger, host.created, host.was, host.consumed);
    PutBack(ledger, host.consumed, host.was, now - Ids(host.created));
    UndoRestores(host.was, now, host.consumed, host.created);
  }

  lemma TracesUndoable(was: map<Id, Coin>, now: map<Id, Coin>, consumed: seq<(Id, Coin)>, created: seq<Id>)
    requires Traces(was, now, consumed, created)
    ensures Undoable(now, consumed, created)
  {
  }

  method TakeOut(ledger: Ledger, created: seq<Id>, ghost was: map<Id, Coin>, ghost consumed: seq<(Id, Coin)>)
    requires ledger.Valid() && Traces(was, ledger.coins, consumed, created)
    modifies ledger
    ensures ledger.Valid() && ledger.totalBurned == old(ledger.totalBurned)
    ensures ledger.coins == old(ledger.coins) - Ids(created)
    ensures Within(ledger.coins, was) && forall i :: 0 <= i < |consumed| ==> consumed[i].0 !in ledger.coins
    ensures forall i :: 0 <= i < |consumed| ==> consumed[i].0 in was && consumed[i].1 == was[consumed[i].0]
    ensures forall i, j :: 0 <= i < j < |consumed| ==> consumed[i].0 != consumed[j].0
  {
    hide Sum;
    ghost var now := ledger.coins;
    BaseWithin(was, now, consumed, created);
    assert created[..0] == [];
    for i := 0 to |created|
      invariant ledger.Valid() && ledger.totalBurned == old(ledger.totalBurned)
      invariant ledger.coins == now - Ids(created[..i])
    {
      OneOut(now, created, i);
      var coin := ledger.ConsumeCoin(created[i]);
      assert coin.Some?;
    }
    assert created[..|created|] == created;
  }

  lemma OneOut(now: map<Id, Coin>, created: seq<Id>, i: nat)
    requires Distinct(created) && i < |created| && created[i] in now
    ensures created[i] in now - Ids(created[..i])
    ensures now - Ids(created[..i]) - {created[i]} == now - Ids(created[..i + 1])
  {
    assert forall k :: 0 <= k < i ==> created[..i][k] == created[k] != created[i];
    assert Ids(created[..i + 1]) == Ids(created[..i]) + {created[i]} by {
      assert forall k :: 0 <= k < i ==> created[..i + 1][k] == created[..i][k];
      assert created[..i + 1][i] in Ids(created[..i + 1]);
      assert forall k :: 0 <= k < i ==> created[..i][k] in Ids(created[..i]);
    }
  }

  method PutBack(ledger: Ledger, consumed: seq<(Id, Coin)>, ghost was: map<Id, Coin>, ghost base: map<Id, Coin>)
    requires ledger.Valid() && ledger.coins == base && Within(base, was)
    requires Sum(was) <= MAX_U64 && forall id :: id in was ==> was[id].amount > 0
    requires forall i :: 0 <= i < |consumed| ==> consumed[i].0 !in base
    requires forall i :: 0 <= i < |consumed| ==> consumed[i].0 in was && consumed[i].1 == was[consumed[i].0]
    requires forall i, j :: 0 <= i < j < |consumed| ==> consumed[i].0 != consumed[j].0
    modifies ledger
    ensures ledger.Valid() && ledger.totalBurned == old(ledger.totalBurned)
    ensures ledger.coins == Restored(base, consumed)
  {
    hide Sum;
    assert consumed[..0] == [];
    for i := 0 to |consumed|
      invariant ledger.Valid() && ledger.totalBurned == old(ledger.totalBurned)
      invariant ledger.coins == Restored(base, consumed[..i])
    {
      var (id, coin) := consumed[i];
      Fits(base, consumed, i, was);
      var ok := ledger.InsertCoin(id, coin);
      assert ok;
      assert consumed[..i + 1][..i] == consumed[..i];
    }
    assert consumed[..|consumed|] == consumed;
  }

  /** The next coin to put back is absent, and there is room for it. */
  lemma Fits(base: map<Id, Coin>, consumed: seq<(Id, Coin)>, i: nat, was: map<Id, Coin>)
    requires i < |consumed| && Within(base, was) && consumed[i].0 !in base
    requires forall k :: 0 <= k < |consumed| ==> consumed[k].0 in was && consumed[k].1 == was[consumed[k].0]
    requires forall k, l :: 0 <= k < l < |consumed| ==> consumed[k].0 != consumed[l].0
    ensures var part := Restored(base, consumed[..i]);
            consumed[i].0 !in part && Sum(part) + consumed[i].1.amount <= Sum(was)
  {
    var part, id := Restored(base, consumed[..i]), consumed[i].0;
    RestoredMembers(base, consumed[..i], id);
    RestoredWithin(base, consumed[..i], was);
    SumInsert(part, id, consumed[i].1);
    SumWithin(part[id := consumed[i].1], was);
  }

  // ----- whole transitions -----

  /** `execute_coin_program`: exactly the payable transitions happen, each as a whole and
      with the live total plus the burned total unchanged; otherwise coins and burn are
      exactly as before. */
  method Execute(ledger: Ledger, t: Intent, miner: nat, newId: nat -> Id) returns (ok: bool)
    requires ledger.Valid()
    modifies ledger
    ensures ledger.Valid()
    ensures Sum(ledger.coins) + ledger.totalBurned == old(Sum(ledger.coins) + ledger.totalBurned)
    ensures ok <==> old(Payable(ledger.coins, ledger.totalBurned, t.inputs, t.outputs, miner, t.fee, newId))
    ensures ok ==>
              && ledger.coins == AddAll(old(ledger.coins) - Ids(t.inputs), newId, Planned(t.outputs, miner, t.fee))
              && ledger.totalBurned == old(ledger.totalBurned) + (Spent(old(ledger.coins), t.inputs) - Paid(t.outputs) - t.fee)
    ensures !ok ==> ledger.coins == old(ledger.coins) && ledger.totalBurned == old(ledger.totalBurned)
  {
    hide Sum, Traces, FreshIds;
    var total := SumCoins(ledger, t.inputs);
    var paid := Total(t.outputs);
    if total.None? || paid.None? || paid.value + t.fee > MAX_U64 || total.value < paid.value + t.fee {
      return false;
    }
    var host := new Host(ledger, t, miner, total.value - (paid.value + t.fee), newId);
    var r := ExecuteTransfer(host, t.inputs, t.outputs, miner, t.fee);
    if !r.Done? {
      var undone := Rollback(host);
      return false;
    }
    // The journal now has one entry per input and per planned coin, so the source's count
    // check on it cannot fail.
    assert |host.consumed| == |t.inputs| && |host.created| == |Planned(t.outputs, miner, t.fee)|;
    ok := true;
  }

  method SumCoins(ledger: Ledger, inputs: seq<Id>) returns (o: Option<nat>)
    ensures o.Some? <==> (forall i :: 0 <= i < |inputs| ==> inputs[i] in ledger.coins) && Spent(ledger.coins, inputs) <= MAX_U64
    ensures o.Some? ==> o.value == Spent(ledger.coins, inputs)
  {
    var total := 0;
    assert inputs[..0] == [];
    for i := 0 to |inputs|
      invariant total == Spent(ledger.coins, inputs[..i]) <= MAX_U64
      invariant forall k :: 0 <= k < i ==> inputs[k] in ledger.coins
    {
      assert inputs[..i + 1][..i] == inputs[..i];
      SpentGrows(ledger.coins, inputs, i + 1);
      if inputs[i] !in ledger.coins || total + ledger.coins[inputs[i]].amount > MAX_U64 {
        return None;
      }
      total := total + ledger.coins[inputs[i]].amount;
    }
    assert inputs[..|inputs|] == inputs;
    o := Some(total);
  }

  /** The coins, the burn total and the number of transitions committed so far. */
  datatype Settled = Settled(coins: map<Id, Coin>, burned: nat, committed: nat)

  /** What a run of transitions leaves: each that can be paid, at its turn, takes its inputs out and
      puts its coins in and burns the rest; the others do nothing. */
  function SettleAll(coins: map<Id, Coin>, burned: nat, intents: seq<Intent>, miners: seq<nat>, newIds: seq<nat -> Id>): Settled
    requires |miners| == |intents| && |newIds| == |intents|
  {
    if intents == [] then Settled(coins, burned, 0)
    else
      var n := |intents| - 1;
      var s, t := SettleAll(coins, burned, intents[..n], miners[..n], newIds[..n]), intents[n];
      if Payable(s.coins, s.burned, t.inputs, t.outputs, miners[n], t.fee, newIds[n]) then
        Settled(AddAll(s.coins - Ids(t.inputs), newIds[n], Planned(t.outputs, miners[n], t.fee)),
                s.burned + (Spent(s.coins, t.inputs) - Paid(t.outputs) - t.fee), s.committed + 1)
      else s
  }

  lemma SettleNext(coins: map<Id, Coin>, burned: nat, intents: seq<Intent>, miners: seq<nat>, newIds: seq<nat -> Id>, i: nat)
    requires |miners| == |intents| && |newIds| == |intents| && i < |intents|
    ensures var s, t := SettleAll(coins, burned, intents[..i], miners[..i], newIds[..i]), intents[i];
            SettleAll(coins, burned, intents[..i + 1], miners[..i + 1], newIds[..i + 1]) ==
            if Payable(s.coins, s.burned, t.inputs, t.outputs, miners[i], t.fee, newIds[i]) then
              Settled(AddAll(s.coins - Ids(t.inputs), newIds[i], Planned(t.outputs, miners[i], t.fee)),
                      s.burned + (Spent(s.coins, t.inputs) - Paid(t.outputs) - t.fee), s.committed + 1)
            else s
  {
    hide Payable, AddAll, Ids, Spent, Paid, Planned;
    assert intents[..i + 1][..i] == intents[..i] && miners[..i + 1][..i] == miners[..i] && newIds[..i + 1][..i] == newIds[..i];
  }

  /** Any run of transitions, committed or failed: exactly the payable ones take effect, and what
      is spent is never more or less than what is created and burned. */
  method Run(ledger: Ledger, intents: seq<Intent>, miners: seq<nat>, newIds: seq<nat -> Id>) returns (committed: nat)
    requires ledger.Valid() && |miners| == |intents| && |newIds| == |intents|
    modifies ledger
    ensures ledger.Valid()
    ensures Settled(ledger.coins, ledger.totalBurned, committed) ==
            SettleAll(old(ledger.coins), old(ledger.totalBurned), intents, miners, newIds)
    ensures Sum(ledger.coins) + ledger.totalBurned == old(Sum(ledger.coins) + ledger.totalBurned)
  {
    hide Sum, SettleAll, Payable, AddAll, Ids, Spent, Paid, Planned;
    committed := 0;
    SettleNone(ledger.coins, ledger.totalBurned);
    for i := 0 to |intents|
      invariant ledger.Valid()
      invariant Settled(ledger.coins, ledger.totalBurned, committed) ==
                SettleAll(old(ledger.coins), old(ledger.totalBurned), intents[..i], miners[..i], newIds[..i])
      invariant Sum(ledger.coins) + ledger.totalBurned == old(Sum(ledger.coins) + ledger.totalBurned)
    {
      SettleNext(old(ledger.coins), old(ledger.totalBurned), intents, miners, newIds, i);
      var ok := Execute(ledger, intents[i], miners[i], newIds[i]);
      committed := committed + if ok then 1 else 0;
    }
    assert intents[..|intents|] == intents && miners[..|intents|] == miners && newIds[..|intents|] == newIds;
  }

  lemma SettleNone(coins: map<Id, Coin>, burned: nat)
    ensures SettleAll(coins, burned, [], [], []) == Settled(coins, burned, 0)
  {
  }
}
