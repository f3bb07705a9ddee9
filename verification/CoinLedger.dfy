/** The set of unspent coins with its running total (kernel/src/ledger/utxo/coin.rs) and the sum it
    stands for. */
module CoinLedger {
  import opened Integers
  import opened Wrappers

  type Id = nat

  datatype Coin = Coin(amount: nat, owner: nat)

  /** The total of all amounts. */
  ghost function Sum(m: map<Id, Coin>): nat
    decreases |m|
  {
    if m == map[] then 0
    else
      var k :| k in m;
      assert |m - {k}| < |m| by { Fewer(m, k); }
      m[k].amount + Sum(m - {k})
  }

  lemma Fewer(m: map<Id, Coin>, k: Id)
    requires k in m
    ensures |m - {k}| == |m| - 1
  {
    assert (m - {k}).Keys == m.Keys - {k};
  }

  lemma {:induction false} SumRemove(m: map<Id, Coin>, k: Id)
    requires k in m
    ensures Sum(m) == m[k].amount + Sum(m - {k})
    decreases |m|
  {
    var j :| j in m && Sum(m) == m[j].amount + Sum(m - {j});
    if j != k {
      Fewer(m, j);
      Fewer(m, k);
      SumRemove(m - {j}, k);
      SumRemove(m - {k}, j);
      assert m - {j} - {k} == m - {k} - {j};
    }
  }

  lemma SumInsert(m: map<Id, Coin>, k: Id, c: Coin)
    requires k !in m
    ensures Sum(m[k := c]) == Sum(m) + c.amount
  {
    SumRemove(m[k := c], k);
    assert m[k := c] - {k} == m;
  }

  class Ledger {
    var coins: map<Id, Coin>
    var totalValue: nat
    var totalBurned: nat

    ghost predicate Valid()
      reads this
    {
      && totalValue == Sum(coins) && totalValue <= MAX_U64 && totalBurned <= MAX_U64
      && forall id :: id in coins ==> coins[id].amount > 0
    }

    constructor ()
      ensures Valid() && coins == map[] && totalBurned == 0
    {
      coins, totalValue, totalBurned := map[], 0, 0;
    }

    /** `insert_coin`. */
    method InsertCoin(id: Id, coin: Coin) returns (ok: bool)
      requires Valid()
      modifies this
      ensures Valid() && totalBurned == old(totalBurned)
      ensures ok <==> coin.amount > 0 && id !in old(coins) && old(totalValue) + coin.amount <= MAX_U64
      ensures ok ==> coins == old(coins)[id := coin] && totalValue == old(totalValue) + coin.amount
      ensures !ok ==> unchanged(this)
    {
      if coin.amount == 0 || id in coins || totalValue + coin.amount > MAX_U64 {
        return false;
      }
      SumInsert(coins, id, coin);
      coins := coins[id := coin];
      totalValue := totalValue + coin.amount;
      ok := true;
    }

    /** `consume_coin`: the subtraction never underflows. */
    method ConsumeCoin(id: Id) returns (o: Option<Coin>)
      requires Valid()
      modifies this
      ensures Valid() && totalBurned == old(totalBurned)
      ensures o.Some? <==> id in old(coins)
      ensures o.Some? ==> o.value == old(coins)[id] && coins == old(coins) - {id} && totalValue == old(totalValue) - o.value.amount
      ensures o.None? ==> unchanged(this)
    {
      if id !in coins {
        return None;
      }
      SumRemove(coins, id);
      o := Some(coins[id]);
      totalValue := totalValue - coins[id].amount;
      coins := coins - {id};
    }
  }
}
