/**
 * A customer's in-memory state and the pure parts of its behaviour: the
 * random draws, the friend lists built by main, and sums over all customers.
 */
module Customers {
  /** Every customer starts with this much money in the wallet. */
  const InitWallet: int := 5000
  /** A customer's run loop stops after this many rounds. */
  const MaxRounds: nat := 60
  const MaxInt32: int := 0x7fff_ffff

  /**
   * A Customer as main builds it.  `balance` is the customer's own mirror of
   * its bank balance; `friends` holds indices into main's `customers` slice.
   */
  datatype Customer = Customer(
    id: string,
    wallet: int,
    balance: int,
    friends: seq<nat>,
    working: bool)

  /**
   * rand.Int31n(bound): some value in [0, bound).  Which one is the caller's
   * choice `raw`; every value of the range is the result for raw equal to it.
   */
  function Int31n(bound: int, raw: nat): (v: nat)
    requires 0 < bound <= MaxInt32
    ensures v < bound
    ensures raw < bound ==> v == raw
  {
    raw % bound
  }

  /**
   * Customer.randomMoney: 0 when upper is 0, else a draw strictly below upper
   * (never upper itself).  A negative upper would make Int31n panic and a
   * value above MaxInt32 would be truncated by int32(upper).
   */
  function RandomMoney(upper: int, raw: nat): (n: int)
    requires 0 <= upper <= MaxInt32
    ensures upper == 0 ==> n == 0
    ensures upper > 0 ==> 0 <= n < upper
  {
    if upper == 0 then 0 else Int31n(upper, raw)
  }

  /** Every amount the generator can produce is reachable. */
  lemma RandomMoneyReaches(upper: int, n: nat)
    requires n < upper <= MaxInt32
    ensures RandomMoney(upper, n) == n
  {
  }

  /** Customer.randomFriend: one of the friends; Int31n panics when there are none. */
  function RandomFriend(friends: seq<nat>, raw: nat): (f: nat)
    requires 0 < |friends| <= MaxInt32
    ensures f in friends
  {
    friends[Int31n(|friends|, raw)]
  }

  // ---------------------------------------------------------------------------
  // Friend lists

  /** lo, lo+1, ..., hi-1. */
  function Range(lo: nat, hi: nat): seq<nat>
    decreases hi
  {
    if hi <= lo then [] else Range(lo, hi - 1) + [hi - 1]
  }

  lemma {:induction false} RangeSpec(lo: nat, hi: nat)
    ensures |Range(lo, hi)| == if hi <= lo then 0 else hi - lo
    ensures forall a :: 0 <= a < |Range(lo, hi)| ==> Range(lo, hi)[a] == lo + a
    ensures forall x :: x in Range(lo, hi) <==> lo <= x < hi
    decreases hi
  {
    if lo < hi {
      RangeSpec(lo, hi - 1);
      var r := Range(lo, hi);
      forall x | lo <= x < hi ensures x in r {
        assert r[x - lo] == x;
      }
    }
  }

  /** Everyone among customers 0..n-1 except k, in index order. */
  function Others(n: nat, k: nat): seq<nat> {
    Range(0, k) + Range(k + 1, n)
  }

  /** The friend list of customer k: persons-1 friends, never itself, no one twice. */
  lemma OthersSpec(n: nat, k: nat)
    requires k < n
    ensures |Others(n, k)| == n - 1
    ensures forall j: nat :: j in Others(n, k) <==> j < n && j != k
    ensures forall a, b :: 0 <= a < b < |Others(n, k)| ==> Others(n, k)[a] < Others(n, k)[b]
  {
    RangeSpec(0, k);
    RangeSpec(k + 1, n);
    var o := Others(n, k);
    forall j: nat ensures j in o <==> j < n && j != k {
      assert j in o <==> j in Range(0, k) || j in Range(k + 1, n);
    }
    forall a | 0 <= a < |o| ensures o[a] == if a < k then a else a + 1 {
      if a >= k {
        assert o[a] == Range(k + 1, n)[a - k];
      }
    }
  }

  /** Friendship is mutual. */
  lemma FriendsSymmetric(n: nat, j: nat, k: nat)
    requires j < n && k < n
    ensures j in Others(n, k) <==> k in Others(n, j)
  {
    OthersSpec(n, k);
    OthersSpec(n, j);
  }

  // ---------------------------------------------------------------------------
  // Money held by customers

  /** Σ (wallet + balance): the money the customers believe they own. */
  function Holdings(cs: seq<Customer>): int {
    if |cs| == 0 then 0 else cs[0].wallet + cs[0].balance + Holdings(cs[1..])
  }

  /** Σ balance: what the customers believe the bank holds for them. */
  function Mirrored(cs: seq<Customer>): int {
    if |cs| == 0 then 0 else cs[0].balance + Mirrored(cs[1..])
  }

  lemma {:induction false} HoldingsUpdate(cs: seq<Customer>, k: nat, c: Customer)
    requires k < |cs|
    ensures Holdings(cs[k := c]) == Holdings(cs) - (cs[k].wallet + cs[k].balance) + (c.wallet + c.balance)
    ensures Mirrored(cs[k := c]) == Mirrored(cs) - cs[k].balance + c.balance
  {
    if k > 0 {
      assert cs[k := c][1..] == cs[1..][k - 1 := c];
      HoldingsUpdate(cs[1..], k - 1, c);
    } else {
      assert cs[k := c][1..] == cs[1..];
    }
  }

  /** With nobody in debt, no single customer holds more than everyone together. */
  lemma {:induction false} HoldingsBound(cs: seq<Customer>, k: nat)
    requires k < |cs|
    requires forall j :: 0 <= j < |cs| ==> cs[j].wallet >= 0 && cs[j].balance >= 0
    ensures cs[k].wallet + cs[k].balance <= Holdings(cs)
  {
    if k > 0 {
      HoldingsBound(cs[1..], k - 1);
    } else {
      HoldingsNonNegative(cs[1..]);
    }
  }

  lemma {:induction false} HoldingsNonNegative(cs: seq<Customer>)
    requires forall j :: 0 <= j < |cs| ==> cs[j].wallet >= 0 && cs[j].balance >= 0
    ensures Holdings(cs) >= 0
  {
    if |cs| > 0 {
      HoldingsNonNegative(cs[1..]);
    }
  }

  /** Customers fresh from setup hold W each in the wallet and nothing in the bank. */
  lemma {:induction false} InitialHoldings(cs: seq<Customer>)
    requires forall j :: 0 <= j < |cs| ==> cs[j].wallet == InitWallet && cs[j].balance == 0
    ensures Holdings(cs) == |cs| * InitWallet
    ensures Mirrored(cs) == 0
  {
    if |cs| > 0 {
      InitialHoldings(cs[1..]);
    }
  }
}
