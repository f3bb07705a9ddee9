/** The coin transfer program against its kernel host (extension/src/monetary/mod.rs,
    kernel/src/ledger/applied/coin.rs) with rollback of a failed transition
    (kernel/src/ledger/applied/rollback.rs). */
module CoinTransfer {
  import opened Integers
  import opened Wrappers
  import opened CoinLedger

  /** A coin transition: what it spends, what it creates, and the miner fee. */
  datatype Intent = Intent(inputs: seq<Id>, outputs: seq<Coin>, fee: nat)

  predicate Distinct(ids: seq<Id>) {
    forall i, j :: 0 <= i < j < |ids| ==> ids[i] != ids[j]
  }

  /** Every coin a transition creates, the fee coin last. */
  function Planned(outputs: seq<Coin>, miner: nat, fee: nat): seq<Coin> {
    outputs + if fee > 0 then [Coin(fee, miner)] else []
  }

  function Spent(coins: map<Id, Coin>, ids: seq<Id>): nat {
    if ids == [] then 0
    else
      var id := ids[|ids| - 1];
      Spent(coins, ids[..|ids| - 1]) + if id in coins then coins[id].amount else 0
  }

  function Paid(outputs: seq<Coin>): nat {
    if outputs == [] then 0 else Paid(outputs[..|outputs| - 1]) + outputs[|outputs| - 1].amount
  }

  function Ids(ids: seq<Id>): set<Id> {
    set i | 0 <= i < |ids| :: ids[i]
  }

  /** The coins with the outputs added under their derived ids. */
  function AddAll(coins: map<Id, Coin>, newId: nat -> Id, outputs: seq<Coin>): map<Id, Coin> {
    if outputs == [] then coins
    else
      var n := |outputs| - 1;
      AddAll(coins, newId, outputs[..n])[newId(n) := outputs[n]]
  }

  /** The first `n` derived ids are new and differ from each other. */
  predicate FreshIds(coins: map<Id, Coin>, newId: nat -> Id, n: nat) {
    && (forall i: nat :: i < n ==> newId(i) !in coins)
    && (forall i: nat, j: nat :: i < j < n ==> newId(i) != newId(j))
  }

  lemma {:induction false} AddAllMembers(coins: map<Id, Coin>, newId: nat -> Id, outputs: seq<Coin>, id: Id)
    ensures id in AddAll(coins, newId, outputs) <==> id in coins || exists i: nat :: i < |outputs| && newId(i) == id
  {
    if outputs != [] {
      AddAllMembers(coins, newId, outputs[..|outputs| - 1], id);
    }
  }

  lemma FreshPrefix(coins: map<Id, Coin>, newId: nat -> Id, m: nat, n: nat)
    requires m <= n
    ensures FreshIds(coins, newId, n) ==> FreshIds(coins, newId, m)
  {
  }

  lemma FeeIsFresh(coins: map<Id, Coin>, newId: nat -> Id, outputs: seq<Coin>)
    requires FreshIds(coins, newId, |outputs|)
    ensures newId(|outputs|) !in AddAll(coins, newId, outputs) <==> FreshIds(coins, newId, |outputs| + 1)
  {
    AddAllMembers(coins, newId, outputs, newId(|outputs|));
  }

  lemma NoneYet(coins: map<Id, Coin>, newId: nat -> Id)
    ensures FreshIds(coins, newId, 0) && AllPositive([])
  {
  }

  lemma PositiveStep(outputs: seq<Coin>, i: nat)
    requires i < |outputs|
    ensures AllPositive(outputs[..i + 1]) <==> AllPositive(outputs[..i]) && outputs[i].amount > 0
    ensures AllPositive(outputs) ==> AllPositive(outputs[..i + 1])
  {
    var longer := outputs[..i + 1];
    assert longer[i] == outputs[i] && forall k :: 0 <= k < i ==> longer[k] == outputs[..i][k];
  }

  /** The journal says exactly how `now` came from `was`: `consumed` were taken out, `created`
      put in, nothing else changed. */
  ghost predicate Traces(was: map<Id, Coin>, now: map<Id, Coin>, consumed: seq<(Id, Coin)>, created: seq<Id>) {
    && Distinct(created) && (forall i :: 0 <= i < |created| ==> created[i] in now)
    && (forall i, j :: 0 <= i < j < |consumed| ==> consumed[i].0 != consumed[j].0)
    && (forall i :: 0 <= i < |consumed| ==> consumed[i].0 in was && consumed[i].1 == was[consumed[i].0])
    && (forall id :: id in now && id !in created ==> id in was && now[id] == was[id])
    && (forall i :: 0 <= i < |consumed| && consumed[i].0 in now ==> consumed[i].0 in created)
    && (forall id :: id in was && (forall i :: 0 <= i < |consumed| ==> consumed[i].0 != id) ==> id in now && id !in created && now[id] == was[id])
  }

  datatype Transfer = Done | HostRefused | AmountOverflow | InvalidBalance | OutputIndexOverflow

  /** How many output indices fit 32 bits. */
  const MAX_OUTPUTS := 0x1_0000_0000

  /** `KernelCoinHost`. */
  class Host {
    const ledger: Ledger
    const allowed: set<Id>
    const outputs: seq<Coin>
    const miner: nat
    const fee: nat
    const expectedBurn: nat
    const newId: nat -> Id
    var consumed: seq<(Id, Coin)>
    var created: seq<Id>
    var burned: nat
    ghost const was: map<Id, Coin>
    ghost const wasBurned: nat

    ghost predicate Valid()
      reads this, ledger
    {
      && ledger.Valid() && Sum(was) <= MAX_U64 && (forall id :: id in was ==> was[id].amount > 0)
      && Traces(was, ledger.coins, consumed, created)
      && ledger.totalBurned == wasBurned + burned
    }

    constructor (ledger: Ledger, t: Intent, miner: nat, expectedBurn: nat, newId: nat -> Id)
      requires ledger.Valid()
      ensures Valid() && this.ledger == ledger && was == ledger.coins && wasBurned == ledger.totalBurned
      ensures consumed == [] && created == [] && burned == 0
      ensures allowed == Ids(t.inputs) && outputs == t.outputs && this.miner == miner && fee == t.fee
      ensures this.expectedBurn == expectedBurn && this.newId == newId
    {
      this.ledger := ledger;
      allowed, outputs, this.miner, fee := Ids(t.inputs), t.outputs, miner, t.fee;
      this.expectedBurn, this.newId := expectedBurn, newId;
      consumed, created, burned := [], [], 0;
      was, wasBurned := ledger.coins, ledger.totalBurned;
    }

    /** `input_amount`. */
    method InputAmount(id: Id) returns (o: Option<nat>)
      ensures o == if id in allowed && id in ledger.coins then Some(ledger.coins[id].amount) else None
    {
      if id !in allowed || id !in ledger.coins {
        return None;
      }
      o := Some(ledger.coins[id].amount);
    }

    /** `consume`. */
    method Consume(id: Id) returns (ok: bool)
      requires Valid() && created == []
      modifies this`consumed, ledger
      ensures Valid() && ledger.totalBurned == old(ledger.totalBurned)
      ensures ok <==> id in allowed && id in old(ledger.coins)
      ensures ok ==>
                && ledger.coins == old(ledger.coins) - {id}
                && consumed == old(consumed) + [(id, old(ledger.coins)[id])]
                && ledger.totalValue == old(ledger.totalValue) - old(ledger.coins)[id].amount
      ensures !ok ==> unchanged(this, ledger)
    {
      hide Sum;
      if id !in allowed {
        return false;
      }
      ghost var before := ledger.coins;
      var coin := ledger.ConsumeCoin(id);
      if coin.None? {
        return false;
      }
      TracesConsumed(was, before, consumed, id);
      consumed := consumed + [(id, coin.value)];
      ok := true;
    }

    /** `create`: only the planned coin at each index. */
    method Create(index: nat, coin: Coin) returns (ok: bool)
      requires Valid()
      modifies this`created, ledger
      ensures Valid() && ledger.totalBurned == old(ledger.totalBurned)
      ensures ok <==>
                && index < |Planned(outputs, miner, fee)| && Planned(outputs, miner, fee)[index] == coin
                && coin.amount > 0 && newId(index) !in old(ledger.coins)
                && old(ledger.totalValue) + coin.amount <= MAX_U64
      ensures ok ==>
                && ledger.coins == old(ledger.coins)[newId(index) := coin]
                && created == old(created) + [newId(index)]
                && ledger.totalValue == old(ledger.totalValue) + coin.amount
      ensures !ok ==> unchanged(this, ledger)
    {
      hide Sum;
      if index < |outputs| {
        if outputs[index] != coin {
          return false;
        }
      } else if index == |outputs| && fee != 0 {
        if Coin(fee, miner) != coin {
          return false;
        }
      } else {
        return false;
      }
      ghost var before := ledger.coins;
      var id := newId(index);
      var inserted := ledger.InsertCoin(id, coin);
      if !inserted {
        return false;
      }
      TracesCreated(was, before, consumed, created, id, coin);
      created := created + [id];
      ok := true;
    }

    /** `burn`: once, and exactly what balances. */
    method Burn(amount: nat) returns (ok: bool)
      requires Valid()
      modifies this`burned, ledger
      ensures Valid() && ledger.coins == old(ledger.coins) && ledger.totalValue == old(ledger.totalValue)
      ensures ok <==> amount == expectedBurn && old(burned) == 0 && old(ledger.totalBurned) + amount <= MAX_U64
      ensures ok ==> ledger.totalBurned == old(ledger.totalBurned) + amount && burned == amount
      ensures !ok ==> unchanged(this, ledger)
    {
      hide Sum, Traces;
      if amount != expectedBurn || burned != 0 || ledger.totalBurned + amount > MAX_U64 {
        return false;
      }
      ledger.totalBurned := ledger.totalBurned + amount;
      burned := burned + amount;
      ok := true;
    }
  }

  lemma TracesConsumed(was: map<Id, Coin>, now: map<Id, Coin>, consumed: seq<(Id, Coin)>, id: Id)
    requires Traces(was, now, consumed, []) && id in now
    ensures Traces(was, now - {id}, consumed + [(id, now[id])], [])
  {
    var longer := consumed + [(id, now[id])];
    assert longer[|consumed|] == (id, now[id]);
    assert forall i :: 0 <= i < |consumed| ==> longer[i] == consumed[i];
  }

  lemma TracesCreated(was: map<Id, Coin>, now: map<Id, Coin>, consumed: seq<(Id, Coin)>, created: seq<Id>, id: Id, coin: Coin)
    requires Traces(was, now, consumed, created) && id !in now
    ensures Traces(was, now[id := coin], consumed, created + [id])
  {
    var longer := created + [id];
    assert longer[|created|] == id;
    assert forall i :: 0 <= i < |created| ==> longer[i] == created[i];
  }

  // ----- the transfer program -----

  predicate AllPositive(outputs: seq<Coin>) {
    forall i :: 0 <= i < |outputs| ==> outputs[i].amount > 0
  }

  /** Exactly when a transfer goes through: distinct live inputs, amounts that add up within
      64 bits and cover outputs and fee, positive outputs under fresh ids with 32-bit indices, and
      room in the burn total. */
  predicate Payable(coins: map<Id, Coin>, burned: nat, inputs: seq<Id>, outputs: seq<Coin>, miner: nat, fee: nat, newId: nat -> Id) {
    && Distinct(inputs) && (forall i :: 0 <= i < |inputs| ==> inputs[i] in coins)
    && Spent(coins, inputs) <= MAX_U64 && Paid(outputs) <= MAX_U64 && Paid(outputs) + fee <= Spent(coins, inputs)
    && AllPositive(outputs) && FreshIds(coins - Ids(inputs), newId, |Planned(outputs, miner, fee)|)
    && |Planned(outputs, miner, fee)| <= MAX_OUTPUTS
    && burned + (Spent(coins, inputs) - Paid(outputs) - fee) <= MAX_U64
  }

  /** `execute_transfer`. Every balance failure comes before the host is touched; a transfer
      that completes has taken out exactly its inputs, put in exactly the planned coins and
      burned the rest. */
  method ExecuteTransfer(host: Host, inputs: seq<Id>, outputs: seq<Coin>, miner: nat, fee: nat) returns (r: Transfer)
    requires host.Valid() && host.consumed == [] && host.created == [] && host.burned == 0
    requires outputs == host.outputs && miner == host.miner && fee == host.fee && host.allowed == Ids(inputs)
    modifies host, host.ledger
    ensures host.Valid()
    ensures r.Done? <==>
              && old(Payable(host.ledger.coins, host.ledger.totalBurned, inputs, outputs, miner, fee, host.newId))
              && host.expectedBurn == Spent(old(host.ledger.coins), inputs) - Paid(outputs) - fee
    ensures r.AmountOverflow? || r.InvalidBalance? ==> unchanged(host, host.ledger)
    ensures r.InvalidBalance? ==> Spent(old(host.ledger.coins), inputs) < Paid(outputs) + fee
    ensures Spent(old(host.ledger.coins), inputs) < Paid(outputs) + fee ==> !r.Done? && unchanged(host, host.ledger)
    ensures r.Done? ==>
              var was := old(host.ledger.coins);
              && host.ledger.coins == AddAll(was - Ids(inputs), host.newId, Planned(outputs, miner, fee))
              && |host.consumed| == |inputs| && |host.created| == |Planned(outputs, miner, fee)|
              && host.burned == Spent(was, inputs) - Paid(outputs) - fee
              && host.ledger.totalBurned == old(host.ledger.totalBurned) + host.burned
              && host.ledger.totalValue + host.burned == old(host.ledger.totalValue)
  {
    hide Sum, Traces, FreshIds;
    ghost var was := host.ledger.coins;
    var read, inputTotal := SumInputs(host, inputs);
    if !read.Done? {
      return read;
    }
    var outputTotal := Total(outputs);
    if outputTotal.None? {
      return AmountOverflow;
    }
    if inputTotal < outputTotal.value || inputTotal - outputTotal.value < fee {
      return InvalidBalance;
    }
    var burn := inputTotal - outputTotal.value - fee;
    var ok := ConsumeAll(host, inputs);
    if !ok {
      return HostRefused;
    }
    FreshPrefix(was - Ids(inputs), host.newId, |outputs|, |Planned(outputs, miner, fee)|);
    var created := CreateAll(host, outputs);
    if !created.Done? {
      return created;
    }
    if fee != 0 {
      if |outputs| >= MAX_OUTPUTS {
        return OutputIndexOverflow;
      }
      FeeIsFresh(was - Ids(inputs), host.newId, outputs);
      ok := host.Create(|outputs|, Coin(fee, miner));
      if !ok {
        return HostRefused;
      }
    }
    PlannedAdds(was - Ids(inputs), host.newId, outputs, miner, fee);
    ok := host.Burn(burn);
    r := if ok then Done else HostRefused;
  }

  /** The reading loop: nothing is touched. */
  method SumInputs(host: Host, inputs: seq<Id>) returns (r: Transfer, total: nat)
    requires host.allowed == Ids(inputs)
    ensures !r.InvalidBalance?
    ensures r.Done? <==> (forall k :: 0 <= k < |inputs| ==> inputs[k] in host.ledger.coins) && Spent(host.ledger.coins, inputs) <= MAX_U64
    ensures r.Done? ==> total == Spent(host.ledger.coins, inputs)
  {
    total := 0;
    assert inputs[..0] == [];
    for i := 0 to |inputs|
      invariant total == Spent(host.ledger.coins, inputs[..i]) <= MAX_U64
      invariant forall k :: 0 <= k < i ==> inputs[k] in host.ledger.coins
    {
      assert inputs[i] in Ids(inputs);
      var amount := host.InputAmount(inputs[i]);
      if amount.None? {
        return HostRefused, 0;
      }
      assert inputs[..i + 1][..i] == inputs[..i];
      if total + amount.value > MAX_U64 {
        SpentGrows(host.ledger.coins, inputs, i + 1);
        return AmountOverflow, 0;
      }
      total := total + amount.value;
    }
    assert inputs[..|inputs|] == inputs;
    r := Done;
  }

  lemma PlannedAdds(m: map<Id, Coin>, newId: nat -> Id, outputs: seq<Coin>, miner: nat, fee: nat)
    ensures AddAll(m, newId, Planned(outputs, miner, fee)) ==
            if fee > 0 then AddAll(m, newId, outputs)[newId(|outputs|) := Coin(fee, miner)] else AddAll(m, newId, outputs)
  {
    if fee > 0 {
      assert Planned(outputs, miner, fee)[..|outputs|] == outputs;
    } else {
      assert Planned(outputs, miner, fee) == outputs;
    }
  }

  method Total(outputs: seq<Coin>) returns (o: Option<nat>)
    ensures o == if Paid(outputs) <= MAX_U64 then Some(Paid(outputs)) else None
  {
    var sum := 0;
    assert outputs[..0] == [];
    for i := 0 to |outputs|
      invariant sum == Paid(outputs[..i]) <= MAX_U64
    {
      assert outputs[..i + 1][..i] == outputs[..i];
      if sum + outputs[i].amount > MAX_U64 {
        PaidGrows(outputs, i + 1);
        return None;
      }
      sum := sum + outputs[i].amount;
    }
    assert outputs[..|outputs|] == outputs;
    o := Some(sum);
  }

  lemma {:induction false} SpentGrows(coins: map<Id, Coin>, ids: seq<Id>, i: nat)
    requires i <= |ids|
    ensures Spent(coins, ids[..i]) <= Spent(coins, ids)
    decreases |ids| - i
  {
    if i < |ids| {
      assert ids[..i + 1][..i] == ids[..i];
      SpentGrows(coins, ids, i + 1);
    } else {
      assert ids[..i] == ids;
    }
  }

  lemma {:induction false} PaidGrows(outputs: seq<Coin>, i: nat)
    requires i <= |outputs|
    ensures Paid(outputs[..i]) <= Paid(outputs)
    decreases |outputs| - i
  {
    if i < |outputs| {
      assert outputs[..i + 1][..i] == outputs[..i];
      PaidGrows(outputs, i + 1);
    } else {
      assert outputs[..i] == outputs;
    }
  }

  method ConsumeAll(host: Host, inputs: seq<Id>) returns (ok: bool)
    requires host.Valid() && host.consumed == [] && host.created == [] && host.allowed == Ids(inputs)
    modifies host`consumed, host.ledger
    ensures host.Valid() && host.ledger.totalBurned == old(host.ledger.totalBurned)
    ensures ok <==> Distinct(inputs) && forall i :: 0 <= i < |inputs| ==> inputs[i] in old(host.ledger.coins)
    ensures ok ==>
              && |host.consumed| == |inputs|
              && host.ledger.coins == old(host.ledger.coins) - Ids(inputs)
              && host.ledger.totalValue == old(host.ledger.totalValue) - Spent(old(host.ledger.coins), inputs)
  {
    hide Sum, Traces;
    ghost var was := host.ledger.coins;
    assert inputs[..0] == [];
    for i := 0 to |inputs|
      invariant host.Valid() && host.created == [] && |host.consumed| == i
      invariant host.ledger.totalBurned == old(host.ledger.totalBurned)
      invariant Distinct(inputs[..i]) && host.ledger.coins == was - Ids(inputs[..i])
      invariant forall k :: 0 <= k < i ==> inputs[k] in was
      invariant host.ledger.totalValue == old(host.ledger.totalValue) - Spent(was, inputs[..i])
    {
      assert inputs[i] in Ids(inputs);
      var done := host.Consume(inputs[i]);
      if !done {
        assert inputs[i] !in was || exists k :: 0 <= k < i && inputs[..i][k] == inputs[k] == inputs[i];
        return false;
      }
      OneMore(was, inputs, i);
    }
    assert inputs[..|inputs|] == inputs;
    ok := true;
  }

  lemma OneMore(was: map<Id, Coin>, inputs: seq<Id>, i: nat)
    requires i < |inputs| && Distinct(inputs[..i]) && inputs[i] in was - Ids(inputs[..i])
    ensures Distinct(inputs[..i + 1])
    ensures was - Ids(inputs[..i]) - {inputs[i]} == was - Ids(inputs[..i + 1])
    ensures Spent(was, inputs[..i + 1]) == Spent(was, inputs[..i]) + was[inputs[i]].amount
  {
    assert inputs[..i + 1][..i] == inputs[..i];
    assert forall k :: 0 <= k < i ==> inputs[..i][k] in Ids(inputs[..i]);
    assert Ids(inputs[..i + 1]) == Ids(inputs[..i]) + {inputs[i]} by {
      assert forall k :: 0 <= k < i ==> inputs[..i + 1][k] == inputs[..i][k];
      assert inputs[..i + 1][i] in Ids(inputs[..i + 1]);
    }
  }

  method CreateAll(host: Host, outputs: seq<Coin>) returns (r: Transfer)
    requires host.Valid() && outputs == host.outputs && host.created == []
    modifies host`created, host.ledger
    ensures host.Valid() && host.ledger.totalBurned == old(host.ledger.totalBurned)
    ensures r.Done? || r.HostRefused? || r.OutputIndexOverflow?
    ensures r.Done? <==>
              && |outputs| <= MAX_OUTPUTS && AllPositive(outputs) && FreshIds(old(host.ledger.coins), host.newId, |outputs|)
              && old(host.ledger.totalValue) + Paid(outputs) <= MAX_U64
    ensures r.Done? ==>
              && |host.created| == |outputs|
              && host.ledger.coins == AddAll(old(host.ledger.coins), host.newId, outputs)
              && host.ledger.totalValue == old(host.ledger.totalValue) + Paid(outputs)
  {
    hide Sum, Traces, FreshIds, AllPositive;
    ghost var base := host.ledger.coins;
    assert outputs[..0] == [];
    NoneYet(base, host.newId);
    for i := 0 to |outputs|
      invariant host.Valid() && |host.created| == i <= MAX_OUTPUTS
      invariant host.ledger.totalBurned == old(host.ledger.totalBurned)
      invariant host.ledger.coins == AddAll(base, host.newId, outputs[..i])
      invariant FreshIds(base, host.newId, i) && AllPositive(outputs[..i])
      invariant host.ledger.totalValue == old(host.ledger.totalValue) + Paid(outputs[..i])
    {
      if i >= MAX_OUTPUTS {
        return OutputIndexOverflow;
      }
      assert outputs[..i + 1][..i] == outputs[..i];
      PaidGrows(outputs, i + 1);
      FeeIsFresh(base, host.newId, outputs[..i]);
      FreshPrefix(base, host.newId, i + 1, |outputs|);
      PositiveStep(outputs, i);
      var done := host.Create(i, outputs[i]);
      if !done {
        return HostRefused;
      }
    }
    assert outputs[..|outputs|] == outputs;
    r := Done;
  }
}
