/**
 * The pure part of `fetchBalances`: from the MINE coins an address owns, the
 * id of a largest coin, the number of coins and their total balance.
 */
module Balances {
  import opened Messages

  /** One coin object as the RPC lists it. */
  datatype Coin = Coin(coinObjectId: string, balance: nat)

  /** What `fetchBalances` returns. */
  datatype Summary = Summary(coinObject: Option<string>, mineralObjects: nat, mineral: nat, sui: nat)

  /** Sum of the balances: the `reduce` over `BigInt(obj.balance)` starting at 0. */
  function Total(coins: seq<Coin>): nat
  {
    if coins == [] then 0 else coins[0].balance + Total(coins[1..])
  }

  /** Balances never increase along `coins`. */
  predicate Descending(coins: seq<Coin>)
  {
    forall i, j :: 0 <= i < j < |coins| ==> coins[i].balance >= coins[j].balance
  }

  /**
   * Places `c` in the descending sequence `sorted` ahead of every coin whose
   * balance is not larger, so that a coin keeps its place ahead of later
   * coins with the same balance.
   */
  function Insert(c: Coin, sorted: seq<Coin>): (r: seq<Coin>)
    ensures |r| == |sorted| + 1
  {
    if sorted == [] || sorted[0].balance <= c.balance then [c] + sorted
    else [sorted[0]] + Insert(c, sorted[1..])
  }

  /** Inserting keeps every coin, adds `c` and adds `c`'s balance to the total. */
  lemma {:induction false} InsertKeeps(c: Coin, sorted: seq<Coin>)
    ensures multiset(Insert(c, sorted)) == multiset(sorted) + multiset{c}
    ensures Total(Insert(c, sorted)) == c.balance + Total(sorted)
  {
    var r := Insert(c, sorted);
    if sorted == [] || sorted[0].balance <= c.balance {
      assert r[1..] == sorted;
    } else {
      InsertKeeps(c, sorted[1..]);
      assert r[1..] == Insert(c, sorted[1..]);
      assert sorted == [sorted[0]] + sorted[1..];
    }
  }

  /** A bound on every balance of `sorted` and on `c` bounds every balance after the insertion. */
  lemma {:induction false} InsertBounded(c: Coin, sorted: seq<Coin>, bound: nat)
    requires c.balance <= bound
    requires forall j :: 0 <= j < |sorted| ==> sorted[j].balance <= bound
    ensures forall j :: 0 <= j < |Insert(c, sorted)| ==> Insert(c, sorted)[j].balance <= bound
  {
    if sorted != [] && sorted[0].balance > c.balance {
      InsertBounded(c, sorted[1..], bound);
      assert Insert(c, sorted)[1..] == Insert(c, sorted[1..]);
    }
  }

  /** Inserting into a descending list gives a descending list. */
  lemma {:induction false} InsertSorted(c: Coin, sorted: seq<Coin>)
    requires Descending(sorted)
    ensures Descending(Insert(c, sorted))
  {
    var r := Insert(c, sorted);
    if sorted != [] && sorted[0].balance > c.balance {
      var tail := sorted[1..];
      InsertSorted(c, tail);
      InsertBounded(c, tail, sorted[0].balance);
      assert r[1..] == Insert(c, tail);
    }
  }

  /**
   * `mineralObjs.data.sort((a, b) => Number(b.balance) - Number(a.balance))`:
   * the stable sort by descending balance, i.e. the only descending
   * rearrangement that keeps coins of equal balance in their original order.
   */
  function SortByBalance(coins: seq<Coin>): (r: seq<Coin>)
    ensures |r| == |coins|
    ensures multiset(r) == multiset(coins)
    ensures Total(r) == Total(coins)
    ensures Descending(r)
  {
    if coins == [] then []
    else
      assert coins == [coins[0]] + coins[1..];
      InsertKeeps(coins[0], SortByBalance(coins[1..]));
      InsertSorted(coins[0], SortByBalance(coins[1..]));
      Insert(coins[0], SortByBalance(coins[1..]))
  }

  /**
   * Reference definition: the first position of a largest balance. Every coin
   * before it has a strictly smaller balance and none after it a larger one.
   */
  function FirstLargest(coins: seq<Coin>): (k: nat)
    requires coins != []
    ensures k < |coins|
    ensures forall j :: 0 <= j < |coins| ==> coins[j].balance <= coins[k].balance
    ensures forall j :: 0 <= j < k ==> coins[j].balance < coins[k].balance
  {
    if |coins| == 1 then 0
    else
      var k := FirstLargest(coins[1..]);
      if coins[0].balance >= coins[k + 1].balance then 0 else k + 1
  }

  /** The head of the sorted coins is the first coin of largest balance. */
  lemma {:induction false} SortedHead(coins: seq<Coin>)
    requires coins != []
    ensures SortByBalance(coins)[0] == coins[FirstLargest(coins)]
  {
    if |coins| > 1 {
      var rest := coins[1..];
      SortedHead(rest);
      var k := FirstLargest(rest);
      assert rest[k] == coins[k + 1];
    }
  }

  /**
   * `fetchBalances` after its two RPC reads: `coins` is the MINE coin list
   * and `sui` the SUI total balance, passed through. The summary names the
   * first coin of largest balance (none for an empty list), counts the coins
   * and adds up their balances.
   */
  function Summarize(coins: seq<Coin>, sui: nat): (s: Summary)
    ensures s.mineralObjects == |coins|
    ensures s.mineral == Total(coins)
    ensures s.sui == sui
    ensures s.coinObject.None? <==> coins == []
    ensures coins != [] ==> s.coinObject == Some(coins[FirstLargest(coins)].coinObjectId)
    ensures s.coinObject.Some? ==>
      exists k :: 0 <= k < |coins| && coins[k].coinObjectId == s.coinObject.value &&
        (forall j :: 0 <= j < |coins| ==> coins[j].balance <= coins[k].balance) &&
        (forall j :: 0 <= j < k ==> coins[j].balance < coins[k].balance)
  {
    var sorted := SortByBalance(coins);
    if sorted == [] then
      Summary(None, |sorted|, Total(sorted), sui)
    else
      SortedHead(coins);
      Summary(Some(sorted[0].coinObjectId), |sorted|, Total(sorted), sui)
  }
}
