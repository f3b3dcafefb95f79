/**
 * The harness as values: the customers and the table together form a World,
 * and each customer action is a function from World to World.  These are the
 * specifications the Harness class's methods are proved against; the lemmas
 * here show that every action keeps the money conserved and the mirrors equal
 * to the ledger.
 */
module Steps {
  import opened Status
  import opened Decimal
  import opened Ledger
  import opened Customers

  /** What one tick of a customer's ticker draws, and how the store behaves for its ledger call. */
  datatype Tick = Tick(action: nat, money: nat, friend: nat, fault: Fault)

  /** The state the actions change: main's customers and the bank's table. */
  datatype World = World(customers: seq<Customer>, table: Table)

  /** What main's final check reports. */
  datatype Verdict =
    | Success
    | NoAccount(id: string)                                   // getBalance found no row
    | BalanceUnmatch(id: string, mirror: int, stored: int)    // "Balance unmatch for ..."
    | TotalUnmatch(money: int, total: int)                    // "Total money unmatch ..."
    | Crashed                                                 // a goroutine panicked; nothing is checked

  ghost function Accounts(n: nat): set<string> {
    set k | 0 <= k < n :: Format(k)
  }

  /** The table holds a zero row for each of the first i accounts and nothing else. */
  ghost predicate Opened(t: Table, i: nat) {
    && t.Keys == Accounts(i)
    && (forall id :: id in t ==> t[id] == 0)
    && MapSum(t) == 0
  }

  /** Account i is not among the first i, and adding it gives the first i + 1. */
  lemma AccountsGrow(i: nat)
    ensures Format(i) !in Accounts(i)
    ensures Accounts(i + 1) == Accounts(i) + {Format(i)}
  {
    if Format(i) in Accounts(i) {
      var k :| 0 <= k < i && Format(k) == Format(i);
      FormatInjective(k, i);
    }
  }

  /** The first n accounts are n distinct ids. */
  lemma {:induction false} AccountsCount(n: nat)
    ensures |Accounts(n)| == n
  {
    if n > 0 {
      AccountsCount(n - 1);
      AccountsGrow(n - 1);
    }
  }

  lemma OpenKeys(t: Table, i: nat)
    requires t.Keys == Accounts(i)
    ensures Format(i) !in t
    ensures t[Format(i) := 0].Keys == Accounts(i + 1)
  {
    AccountsGrow(i);
  }

  /** Adding the zero row of account i to the first i opens the first i + 1. */
  lemma OpenNext(t: Table, i: nat)
    requires Opened(t, i)
    ensures Format(i) !in t
    ensures Opened(t[Format(i) := 0], i + 1)
  {
    OpenKeys(t, i);
    MapSumInsert(t, Format(i), 0);
  }

  /** Customer k of n as main creates and wires it. */
  predicate Registered(c: Customer, k: nat, n: nat) {
    c.id == Format(k) && c.friends == Others(n, k)
  }

  /** Wallet and mirrored balance are non-negative and fit in an int32. */
  predicate Solvent(c: Customer) {
    0 <= c.wallet <= MaxInt32 && 0 <= c.balance <= MaxInt32
  }

  /** Every customer's mirror equals its row in the table. */
  predicate Reconciled(cs: seq<Customer>, t: Table) {
    forall k :: 0 <= k < |cs| ==> cs[k].id in t && t[cs[k].id] == cs[k].balance
  }

  /** Every customer is registered under its index and solvent. */
  predicate Wired(cs: seq<Customer>) {
    forall k :: 0 <= k < |cs| ==> Registered(cs[k], k, |cs|) && Solvent(cs[k])
  }

  /**
   * The harness invariant: the table holds N rows, one per customer, each mirror
   * equals the ledger, nobody is in debt, Σ(wallet + balance) = N·W and the
   * ledger's total equals Σ balance.
   */
  ghost predicate Inv(w: World) {
    var n := |w.customers|;
    && n * InitWallet <= MaxInt32
    && Wired(w.customers)
    && Reconciled(w.customers, w.table)
    && |w.table| == n
    && Holdings(w.customers) == n * InitWallet
    && MapSum(w.table) == Mirrored(w.customers)
  }

  /**
   * The world main builds before the customers start: customer k is called
   * "k", befriends everybody else, holds W in the wallet and nothing in the
   * bank, and the table holds a zero row for each of them.
   */
  lemma SetupInv(w: World)
    requires |w.customers| * InitWallet <= MaxInt32
    requires forall k :: 0 <= k < |w.customers| ==>
      w.customers[k] == Customer(Format(k), InitWallet, 0, Others(|w.customers|, k), false)
    requires Opened(w.table, |w.customers|)
    ensures Inv(w)
  {
    InitialHoldings(w.customers);
    AccountsCount(|w.customers|);
    forall k | 0 <= k < |w.customers|
      ensures w.customers[k].id in w.table && w.table[w.customers[k].id] == w.customers[k].balance
    {
      assert w.customers[k].id in Accounts(|w.customers|);
    }
  }

  /**
   * What a customer's actions need: its amounts fit Int31n, its friends
   * exist, and it is not its own friend.
   */
  predicate Actable(w: World, i: nat) {
    && i < |w.customers|
    && Solvent(w.customers[i])
    && |w.customers[i].friends| <= MaxInt32
    && (forall f :: f in w.customers[i].friends ==> f < |w.customers|)
    && i !in w.customers[i].friends
  }

  /** The customers after f has received n from its inbox and i has booked the debit. */
  function Moved(cs: seq<Customer>, i: nat, f: nat, n: int): (r: seq<Customer>)
    requires i < |cs| && f < |cs| && i != f
    ensures |r| == |cs|
    ensures r[i].balance == cs[i].balance - n && r[f].balance == cs[f].balance + n
    ensures forall k {:trigger r[k]} :: 0 <= k < |cs| ==> r[k] == cs[k].(balance := r[k].balance)
    ensures forall k :: 0 <= k < |cs| && k != i && k != f ==> r[k] == cs[k]
  {
    cs[f := cs[f].(balance := cs[f].balance + n)][i := cs[i].(balance := cs[i].balance - n)]
  }

  // ---------------------------------------------------------------------------
  // The actions

  /** Customer.randomDeposit: move a random amount below the wallet into the bank. */
  function DepositStep(w: World, i: nat, raw: nat, fault: Fault): (r: (World, Outcome))
    requires Actable(w, i)
    ensures RandomMoney(w.customers[i].wallet, raw) == 0 ==> r == (w, Pass)
    ensures var n := RandomMoney(w.customers[i].wallet, raw);
      n != 0 ==> (r.1.Pass? <==> DepositTx(w.table, w.customers[i].id, n, fault).1.Pass?)
    ensures r.1.Fail? ==> r.0 == w
    ensures r.1 == Pass || r.1 == Fail(StoreFailed)
    ensures |r.0.customers| == |w.customers|
    ensures forall k :: 0 <= k < |w.customers| && k != i ==> r.0.customers[k] == w.customers[k]
    ensures var c, c' := w.customers[i], r.0.customers[i];
      && c'.wallet + c'.balance == c.wallet + c.balance
      && 0 <= c'.wallet <= c.wallet
      && c' == c.(wallet := c'.wallet, balance := c'.balance)
  {
    var c := w.customers[i];
    var n := RandomMoney(c.wallet, raw);
    if n == 0 then (w, Pass)
    else
      var (t, r) := DepositTx(w.table, c.id, n, fault);
      if r.Fail? then (w, r)
      else (World(w.customers[i := c.(wallet := c.wallet - n, balance := c.balance + n)], t), Pass)
  }

  /** Customer.randomWithdraw: move a random amount below the mirrored balance to the wallet. */
  function WithdrawStep(w: World, i: nat, raw: nat, fault: Fault): (r: (World, Outcome))
    requires Actable(w, i)
    ensures RandomMoney(w.customers[i].balance, raw) == 0 ==> r == (w, Pass)
    ensures var n := RandomMoney(w.customers[i].balance, raw);
      n != 0 ==> (r.1.Pass? <==> WithdrawTx(w.table, w.customers[i].id, n, fault).1.Pass?)
    ensures r.1.Fail? ==> r.0 == w
    ensures r.1 == Pass || r.1 == Fail(StoreFailed)
    ensures |r.0.customers| == |w.customers|
    ensures forall k :: 0 <= k < |w.customers| && k != i ==> r.0.customers[k] == w.customers[k]
    ensures var c, c' := w.customers[i], r.0.customers[i];
      && c'.wallet + c'.balance == c.wallet + c.balance
      && 0 <= c'.balance <= c.balance
      && c' == c.(wallet := c'.wallet, balance := c'.balance)
  {
    var c := w.customers[i];
    var n := RandomMoney(c.balance, raw);
    if n == 0 then (w, Pass)
    else
      var (t, r) := WithdrawTx(w.table, c.id, n, fault);
      if r.Fail? then (w, r)
      else (World(w.customers[i := c.(wallet := c.wallet + n, balance := c.balance - n)], t), Pass)
  }

  /**
   * Customer.randomTransfer: send a random amount below the mirrored balance
   * to a random friend.  The friend's inbox credit is taken in the same step.
   */
  function TransferStep(w: World, i: nat, raw: nat, rawFriend: nat, fault: Fault): (r: (World, Outcome))
    requires Actable(w, i)
    ensures RandomMoney(w.customers[i].balance, raw) == 0 ==> r == (w, Pass)
    ensures var n := RandomMoney(w.customers[i].balance, raw);
      n != 0 && w.customers[i].friends == [] ==> r.1 == Fail(Int31nPanic)
    ensures var c, n := w.customers[i], RandomMoney(w.customers[i].balance, raw);
      n != 0 && c.friends != [] ==>
        r.1 == TransferTx(w.table, c.id, w.customers[RandomFriend(c.friends, rawFriend)].id, n, fault).1
    ensures r.1.Fail? ==> r.0 == w
    ensures r.1 == Fail(Int31nPanic) ==> w.customers[i].friends == []
    ensures |r.0.customers| == |w.customers|
    ensures forall k {:trigger r.0.customers[k]} :: 0 <= k < |w.customers| ==>
      r.0.customers[k] == w.customers[k].(balance := r.0.customers[k].balance)
    ensures 0 <= r.0.customers[i].balance <= w.customers[i].balance
  {
    var c := w.customers[i];
    var n := RandomMoney(c.balance, raw);
    if n == 0 then (w, Pass)
    else if |c.friends| == 0 then (w, Fail(Int31nPanic))
    else
      var f := RandomFriend(c.friends, rawFriend);
      var (t, r) := TransferTx(w.table, c.id, w.customers[f].id, n, fault);
      if r.Fail? then (w, r)
      else
        (World(Moved(w.customers, i, f, n), t), Pass)
  }

  /** The action chosen by `action := rand.Int31n(3)`. */
  function ActStep(w: World, i: nat, tick: Tick): (r: (World, Outcome))
    requires Actable(w, i)
    ensures r.1.Fail? ==> r.0 == w
    ensures |r.0.customers| == |w.customers|
    ensures r.0.customers[i].working == w.customers[i].working
    ensures r.1 == Fail(Int31nPanic) ==> w.customers[i].friends == []
  {
    var action := Int31n(3, tick.action);
    if action == 0 then DepositStep(w, i, tick.money, tick.fault)
    else if action == 1 then WithdrawStep(w, i, tick.money, tick.fault)
    else TransferStep(w, i, tick.money, tick.friend, tick.fault)
  }

  /** The world with customer i's `working` flag set to b. */
  function SetWorking(w: World, i: nat, b: bool): World
    requires i < |w.customers|
  {
    World(w.customers[i := w.customers[i].(working := b)], w.table)
  }

  /** Lowering a flag just raised restores the world. */
  lemma SetWorkingBack(w: World, i: nat)
    requires i < |w.customers| && !w.customers[i].working
    ensures SetWorking(SetWorking(w, i, true), i, false) == w
  {
    assert SetWorking(SetWorking(w, i, true), i, false).customers == w.customers;
  }

  /**
   * Customer.randomDo: nothing happens while the customer is already working;
   * otherwise the flag is raised for the duration of the action and lowered
   * on the way out, whatever the action's outcome.
   */
  function DoStep(w: World, i: nat, tick: Tick): (r: (World, Outcome))
    requires Actable(w, i)
    ensures w.customers[i].working ==> r == (w, Pass)
    ensures r.1.Fail? ==> r.0 == w
    ensures |r.0.customers| == |w.customers|
    ensures r.1 == Fail(Int31nPanic) ==> w.customers[i].friends == []
    ensures r.0.customers[i].working == w.customers[i].working
  {
    if w.customers[i].working then (w, Pass)
    else
      var busy := SetWorking(w, i, true);
      assert Actable(busy, i);
      var (after, r) := ActStep(busy, i, tick);
      SetWorkingBack(w, i);
      (SetWorking(after, i, false), r)
  }

  // ---------------------------------------------------------------------------
  // The invariant is kept by every action

  lemma InvActable(w: World, i: nat)
    requires Inv(w) && i < |w.customers|
    ensures Actable(w, i)
    ensures |w.customers[i].friends| == |w.customers| - 1
    ensures i !in w.customers[i].friends
  {
    OthersSpec(|w.customers|, i);
  }

  /** The invariant, with what it gives every customer's actions spelled out. */
  ghost predicate Ready(w: World) {
    Inv(w) && forall i :: 0 <= i < |w.customers| ==> Actable(w, i)
  }

  lemma InvReady(w: World)
    requires Inv(w)
    ensures Ready(w)
  {
    forall i | 0 <= i < |w.customers|
      ensures Actable(w, i)
    {
      InvActable(w, i);
    }
  }

  lemma DistinctIds(cs: seq<Customer>)
    requires Wired(cs)
    ensures forall j, k :: 0 <= j < |cs| && 0 <= k < |cs| && j != k ==> cs[j].id != cs[k].id
  {
    forall j, k | 0 <= j < |cs| && 0 <= k < |cs| && j != k
      ensures cs[j].id != cs[k].id
    {
      FormatInjective(j, k);
    }
  }

  /** Changing one customer's wallet and mirror, within the int32 total, keeps it wired. */
  lemma OneAccountWired(cs: seq<Customer>, i: nat, c': Customer)
    requires Wired(cs) && i < |cs|
    requires c' == cs[i].(wallet := c'.wallet, balance := c'.balance)
    requires c'.wallet >= 0 && c'.balance >= 0
    requires Holdings(cs[i := c']) <= MaxInt32
    ensures Wired(cs[i := c'])
  {
    SolventFromHoldings(cs[i := c']);
  }

  /** Σ(wallet + balance) bounds every customer, so nobody can leave the int32 range. */
  lemma SolventFromHoldings(cs: seq<Customer>)
    requires forall k :: 0 <= k < |cs| ==> cs[k].wallet >= 0 && cs[k].balance >= 0
    requires Holdings(cs) <= MaxInt32
    ensures forall k :: 0 <= k < |cs| ==> Solvent(cs[k])
  {
    forall k | 0 <= k < |cs| ensures Solvent(cs[k]) {
      HoldingsBound(cs, k);
    }
  }

  /** Setting one customer's mirror and its row to the same value keeps the two reconciled. */
  lemma ReconciledUpdate(cs: seq<Customer>, t: Table, k: nat, c: Customer)
    requires Reconciled(cs, t) && k < |cs| && c.id == cs[k].id
    requires forall j :: 0 <= j < |cs| && j != k ==> cs[j].id != cs[k].id
    ensures Reconciled(cs[k := c], t[c.id := c.balance])
  {
  }

  /** Booking delta on one account, on its mirror and on its row alike, keeps the two reconciled. */
  lemma ReconciledApply(cs: seq<Customer>, t: Table, k: nat, c': Customer, delta: int)
    requires Reconciled(cs, t) && k < |cs| && c'.id == cs[k].id
    requires c'.balance == cs[k].balance + delta
    requires forall j :: 0 <= j < |cs| && j != k ==> cs[j].id != cs[k].id
    ensures Reconciled(cs[k := c'], Apply(t, Add(cs[k].id, delta)))
  {
  }

  lemma FlagPreserves(w: World, i: nat, b: bool)
    requires Inv(w) && i < |w.customers|
    ensures Inv(SetWorking(w, i, b))
  {
    HoldingsUpdate(w.customers, i, w.customers[i].(working := b));
  }

  /**
   * Moving money between one customer's wallet and its account, on the mirror
   * and on the ledger alike, keeps the invariant.
   */
  lemma OneAccountPreserves(w: World, i: nat, c': Customer, delta: int)
    requires Inv(w) && i < |w.customers|
    requires c' == w.customers[i].(wallet := c'.wallet, balance := c'.balance)
    requires c'.balance == w.customers[i].balance + delta
    requires c'.wallet + c'.balance == w.customers[i].wallet + w.customers[i].balance
    requires c'.wallet >= 0 && c'.balance >= 0
    ensures Inv(World(w.customers[i := c'], Apply(w.table, Add(w.customers[i].id, delta))))
  {
    var cs, t := w.customers, w.table;
    HoldingsUpdate(cs, i, c');
    MapSumApply(t, Add(cs[i].id, delta));
    OneAccountWired(cs, i, c');
    DistinctIds(cs);
    ReconciledApply(cs, t, i, c', delta);
  }

  lemma DepositPreserves(w: World, i: nat, raw: nat, fault: Fault)
    requires Inv(w) && i < |w.customers|
    ensures Actable(w, i) && Ready(DepositStep(w, i, raw, fault).0)
  {
    InvActable(w, i);
    var r := DepositStep(w, i, raw, fault);
    if r.1.Pass? && r.0 != w {
      var c := w.customers[i];
      var n := RandomMoney(c.wallet, raw);
      var c' := r.0.customers[i];
      assert r.0 == World(w.customers[i := c'], Apply(w.table, Add(c.id, n)));
      OneAccountPreserves(w, i, c', n);
    }
    InvReady(DepositStep(w, i, raw, fault).0);
  }

  lemma WithdrawPreserves(w: World, i: nat, raw: nat, fault: Fault)
    requires Inv(w) && i < |w.customers|
    ensures Actable(w, i) && Ready(WithdrawStep(w, i, raw, fault).0)
  {
    InvActable(w, i);
    var r := WithdrawStep(w, i, raw, fault);
    if r.1.Pass? && r.0 != w {
      var c := w.customers[i];
      var n := RandomMoney(c.balance, raw);
      var c' := r.0.customers[i];
      assert r.0 == World(w.customers[i := c'], Apply(w.table, Add(c.id, -n)));
      OneAccountPreserves(w, i, c', -n);
    }
    InvReady(WithdrawStep(w, i, raw, fault).0);
  }

  /**
   * A deposit the ledger accepts moves n from the wallet to the mirror and to
   * the row alike, into a world that keeps the invariant.
   */
  lemma DepositBooks(w: World, i: nat, raw: nat, fault: Fault, w': World)
    requires Inv(w) && Actable(w, i)
    requires var c := w.customers[i];
      var n := RandomMoney(c.wallet, raw);
      && n != 0 && DepositTx(w.table, c.id, n, fault).1.Pass?
      && w' == World(w.customers[i := c.(wallet := c.wallet - n, balance := c.balance + n)], Apply(w.table, Add(c.id, n)))
    ensures DepositStep(w, i, raw, fault) == (w', Pass) && Ready(w')
  {
    DepositPreserves(w, i, raw, fault);
  }

  /**
   * A withdrawal the ledger accepts moves n from the mirror and the row to the
   * wallet alike, into a world that keeps the invariant.
   */
  lemma WithdrawBooks(w: World, i: nat, raw: nat, fault: Fault, w': World)
    requires Inv(w) && Actable(w, i)
    requires var c := w.customers[i];
      var n := RandomMoney(c.balance, raw);
      && n != 0 && WithdrawTx(w.table, c.id, n, fault).1.Pass?
      && w' == World(w.customers[i := c.(wallet := c.wallet + n, balance := c.balance - n)], Apply(w.table, Add(c.id, -n)))
    ensures WithdrawStep(w, i, raw, fault) == (w', Pass) && Ready(w')
  {
    WithdrawPreserves(w, i, raw, fault);
  }

  /** The customers after customer i has sent n to customer f. */
  lemma MovedHoldings(cs: seq<Customer>, i: nat, f: nat, n: int)
    requires i < |cs| && f < |cs| && i != f
    ensures Holdings(Moved(cs, i, f, n)) == Holdings(cs)
    ensures Mirrored(Moved(cs, i, f, n)) == Mirrored(cs)
  {
    var cf', c' := cs[f].(balance := cs[f].balance + n), cs[i].(balance := cs[i].balance - n);
    HoldingsUpdate(cs, f, cf');
    HoldingsUpdate(cs[f := cf'], i, c');
  }

  /** The table after a committed transfer of n from one account to another. */
  lemma MovedLedger(t: Table, from: string, to: string, n: int)
    requires from in t && to in t && from != to
    ensures Shift(t, from, to, n).Keys == t.Keys && MapSum(Shift(t, from, to, n)) == MapSum(t)
  {
    var debit, credit := Add(from, -n), Add(to, n);
    MapSumTwo(t, debit, credit);
    assert Apply(Apply(t, debit), credit) == Shift(t, from, to, n);
  }

  lemma MovedReconciled(cs: seq<Customer>, t: Table, i: nat, f: nat, n: int)
    requires Reconciled(cs, t) && i < |cs| && f < |cs| && i != f
    requires forall j, k :: 0 <= j < |cs| && 0 <= k < |cs| && j != k ==> cs[j].id != cs[k].id
    ensures Reconciled(Moved(cs, i, f, n), Shift(t, cs[i].id, cs[f].id, n))
  {
    var cf', c' := cs[f].(balance := cs[f].balance + n), cs[i].(balance := cs[i].balance - n);
    var t1 := t[cf'.id := cf'.balance];
    ReconciledUpdate(cs, t, f, cf');
    ReconciledUpdate(cs[f := cf'], t1, i, c');
    assert t1[c'.id := c'.balance] == Shift(t, c'.id, cf'.id, n);
  }

  /** The world after customer i has sent n to customer f and f has received it. */
  function Sent(w: World, i: nat, f: nat, n: int): World
    requires i < |w.customers| && f < |w.customers| && i != f
    requires w.customers[i].id in w.table && w.customers[f].id in w.table
  {
    World(Moved(w.customers, i, f, n), Shift(w.table, w.customers[i].id, w.customers[f].id, n))
  }

  lemma SentLedger(w: World, i: nat, f: nat, n: int)
    requires i < |w.customers| && f < |w.customers| && i != f
    requires w.customers[i].id in w.table && w.customers[f].id in w.table
    requires w.customers[i].id != w.customers[f].id
    requires MapSum(w.table) == Mirrored(w.customers)
    ensures Sent(w, i, f, n).table.Keys == w.table.Keys
    ensures MapSum(Sent(w, i, f, n).table) == Mirrored(Sent(w, i, f, n).customers)
  {
    MovedHoldings(w.customers, i, f, n);
    MovedLedger(w.table, w.customers[i].id, w.customers[f].id, n);
  }

  lemma SentCustomers(w: World, i: nat, f: nat, n: int)
    requires Wired(w.customers) && Reconciled(w.customers, w.table)
    requires Holdings(w.customers) <= MaxInt32
    requires i < |w.customers| && f < |w.customers| && i != f
    requires 0 <= n <= w.customers[i].balance
    ensures Holdings(Sent(w, i, f, n).customers) == Holdings(w.customers)
    ensures Wired(Sent(w, i, f, n).customers)
  {
    var cs, cs' := w.customers, Sent(w, i, f, n).customers;
    MovedHoldings(cs, i, f, n);
    SolventFromHoldings(cs');
    forall k | 0 <= k < |cs'| ensures Registered(cs'[k], k, |cs'|) {
      assert Registered(cs[k], k, |cs|);
    }
  }

  lemma SentReconciled(w: World, i: nat, f: nat, n: int)
    requires Wired(w.customers) && Reconciled(w.customers, w.table)
    requires i < |w.customers| && f < |w.customers| && i != f
    ensures Reconciled(Sent(w, i, f, n).customers, Sent(w, i, f, n).table)
  {
    DistinctIds(w.customers);
    MovedReconciled(w.customers, w.table, i, f, n);
  }

  /**
   * Moving n from customer i's account to customer f's, on the mirrors and on
   * the ledger alike, keeps the invariant.
   */
  lemma TwoAccountsPreserve(w: World, i: nat, f: nat, n: int)
    requires Inv(w) && i < |w.customers| && f < |w.customers| && i != f
    requires 0 <= n <= w.customers[i].balance
    ensures Inv(Sent(w, i, f, n))
  {
    assert w.customers[i].id != w.customers[f].id by {
      FormatInjective(i, f);
    }
    SentLedger(w, i, f, n);
    SentCustomers(w, i, f, n);
    SentReconciled(w, i, f, n);
  }

  /** A transfer that passes moves n from customer i to the friend in both the mirrors and the ledger. */
  lemma TransferSends(w: World, i: nat, f: nat, n: int, fault: Fault)
    requires i < |w.customers| && f < |w.customers| && i != f
    requires w.customers[i].id == Format(i) && w.customers[f].id == Format(f)
    requires Format(i) in w.table && Format(f) in w.table
    requires TransferTx(w.table, Format(i), Format(f), n, fault).1.Pass?
    ensures TransferTx(w.table, Format(i), Format(f), n, fault).0 == Sent(w, i, f, n).table
  {
    FormatInjective(i, f);
    TransferMoves(w.table, Format(i), Format(f), n, fault);
  }

  /**
   * A transfer the ledger accepts ends in the world where n has moved from
   * customer i to the friend, on the mirrors and on the ledger alike.
   */
  lemma TransferStepPasses(w: World, i: nat, raw: nat, rawFriend: nat, fault: Fault)
    requires Actable(w, i)
    requires RandomMoney(w.customers[i].balance, raw) != 0 && w.customers[i].friends != []
    requires var f := RandomFriend(w.customers[i].friends, rawFriend);
      && w.customers[i].id == Format(i) && w.customers[f].id == Format(f)
      && Format(i) in w.table && Format(f) in w.table
      && TransferTx(w.table, Format(i), Format(f), RandomMoney(w.customers[i].balance, raw), fault).1.Pass?
    ensures var n := RandomMoney(w.customers[i].balance, raw);
      var f := RandomFriend(w.customers[i].friends, rawFriend);
      TransferStep(w, i, raw, rawFriend, fault) == (Sent(w, i, f, n), Pass)
  {
    var c := w.customers[i];
    var n := RandomMoney(c.balance, raw);
    var f := RandomFriend(c.friends, rawFriend);
    TransferSends(w, i, f, n, fault);
  }

  lemma TransferPreserves(w: World, i: nat, raw: nat, rawFriend: nat, fault: Fault)
    requires Inv(w) && i < |w.customers|
    ensures Actable(w, i) && Ready(TransferStep(w, i, raw, rawFriend, fault).0)
  {
    InvActable(w, i);
    var r := TransferStep(w, i, raw, rawFriend, fault);
    var c := w.customers[i];
    var n := RandomMoney(c.balance, raw);
    if n != 0 && |c.friends| != 0 && r.1.Pass? {
      var f := RandomFriend(c.friends, rawFriend);
      assert f != i && f < |w.customers|;
      assert w.customers[f].id == Format(f) && Format(f) in w.table;
      assert c.id == Format(i) && Format(i) in w.table;
      TransferStepPasses(w, i, raw, rawFriend, fault);
      TwoAccountsPreserve(w, i, f, n);
    }
    InvReady(TransferStep(w, i, raw, rawFriend, fault).0);
  }

  /** Under the invariant, a transfer fails only in the store or on the empty friend draw, never on Atoi. */
  lemma TransferParses(w: World, i: nat, raw: nat, rawFriend: nat, fault: Fault)
    requires Inv(w) && i < |w.customers|
    ensures Actable(w, i)
    ensures TransferStep(w, i, raw, rawFriend, fault).1 in {Pass, Fail(StoreFailed), Fail(Int31nPanic)}
  {
    InvActable(w, i);
    var c := w.customers[i];
    var n := RandomMoney(c.balance, raw);
    if n != 0 && |c.friends| != 0 {
      var f := RandomFriend(c.friends, rawFriend);
      assert Registered(c, i, |w.customers|) && Registered(w.customers[f], f, |w.customers|);
      FormattedIdsParse(w.table, i, f, n, fault);
    }
  }

  lemma ActPreserves(w: World, i: nat, tick: Tick)
    requires Inv(w) && i < |w.customers|
    ensures Actable(w, i) && Inv(ActStep(w, i, tick).0)
  {
    InvActable(w, i);
    var action := Int31n(3, tick.action);
    if action == 0 {
      DepositPreserves(w, i, tick.money, tick.fault);
    } else if action == 1 {
      WithdrawPreserves(w, i, tick.money, tick.fault);
    } else {
      TransferPreserves(w, i, tick.money, tick.friend, tick.fault);
    }
  }

  /**
   * randomDo keeps the invariant, and the only panic, the friend draw from an
   * empty friend list, needs a customer without friends: N = 1.
   */
  lemma DoPreserves(w: World, i: nat, tick: Tick)
    requires Inv(w) && i < |w.customers|
    ensures Actable(w, i) && Ready(DoStep(w, i, tick).0)
    ensures DoStep(w, i, tick).1 == Fail(Int31nPanic) ==> |w.customers| == 1
  {
    InvActable(w, i);
    if !w.customers[i].working {
      var busy := SetWorking(w, i, true);
      FlagPreserves(w, i, true);
      ActPreserves(busy, i, tick);
      var after := ActStep(busy, i, tick).0;
      FlagPreserves(after, i, false);
    }
    InvReady(DoStep(w, i, tick).0);
  }

  // ---------------------------------------------------------------------------
  // One customer's run loop

  /**
   * Customer.run over the ticks it gets: one randomDo per tick until a ledger
   * call fails or the ticks run out.  Returns the final world, the number of
   * actions taken and the loop's result.
   */
  function RunSpec(w: World, i: nat, ticks: seq<Tick>): (r: (World, nat, Outcome))
    requires Inv(w) && i < |w.customers|
    ensures Inv(r.0) && |r.0.customers| == |w.customers|
    ensures r.1 <= |ticks|
    ensures r.2.Pass? ==> r.1 == |ticks|
    ensures r.2 == Fail(Int31nPanic) ==> |w.customers| == 1
    decreases |ticks|
  {
    if |ticks| == 0 then (w, 0, Pass)
    else
      DoPreserves(w, i, ticks[0]);
      var (w1, r1) := DoStep(w, i, ticks[0]);
      if r1.Fail? then (w1, 1, r1)
      else
        var (w2, k, r2) := RunSpec(w1, i, ticks[1..]);
        (w2, k + 1, r2)
  }

  /**
   * A run loop that has already taken k actions and has the ticks `rest` still
   * to go ends as `spec` says.
   */
  ghost predicate RunsTo(spec: (World, nat, Outcome), w: World, i: nat, rest: seq<Tick>, k: nat) {
    && Inv(w) && i < |w.customers|
    && spec.0 == RunSpec(w, i, rest).0
    && spec.1 == RunSpec(w, i, rest).1 + k
    && spec.2 == RunSpec(w, i, rest).2
  }

  /** One round of the run loop: randomDo on the first tick, then the rest unless it failed. */
  lemma RunSpecStep(spec: (World, nat, Outcome), w: World, i: nat, rest: seq<Tick>, k: nat)
    requires RunsTo(spec, w, i, rest, k) && |rest| > 0
    ensures Actable(w, i)
    ensures var (w1, r1) := DoStep(w, i, rest[0]);
      if r1.Fail? then spec == (w1, k + 1, r1) else RunsTo(spec, w1, i, rest[1..], k + 1)
  {
    RunSpecUnfold(w, i, rest);
    var (w1, r1) := DoStep(w, i, rest[0]);
    assert Inv(w1) && i < |w1.customers|;
  }

  lemma RunSpecUnfold(w: World, i: nat, ticks: seq<Tick>)
    requires Inv(w) && i < |w.customers| && |ticks| > 0
    ensures Actable(w, i) && Inv(DoStep(w, i, ticks[0]).0)
    ensures var (w1, r1) := DoStep(w, i, ticks[0]);
      RunSpec(w, i, ticks) ==
        if r1.Fail? then (w1, 1, r1)
        else (RunSpec(w1, i, ticks[1..]).0, RunSpec(w1, i, ticks[1..]).1 + 1, RunSpec(w1, i, ticks[1..]).2)
  {
    DoPreserves(w, i, ticks[0]);
  }

  // ---------------------------------------------------------------------------
  // main's final check

  /**
   * The verification loop of main, from customer 0 on: stop at the first
   * missing row or mismatching mirror, else compare Σ(wallet + row) with total.
   */
  function Audit(cs: seq<Customer>, t: Table, total: int, money: int): (v: Verdict)
    ensures v != Crashed
    decreases |cs|
  {
    if |cs| == 0 then (if money == total then Success else TotalUnmatch(money, total))
    else if cs[0].id !in t then NoAccount(cs[0].id)
    else if t[cs[0].id] != cs[0].balance then BalanceUnmatch(cs[0].id, cs[0].balance, t[cs[0].id])
    else Audit(cs[1..], t, total, money + cs[0].wallet + t[cs[0].id])
  }

  /** The check passes exactly when every mirror equals the ledger and no money was made or lost. */
  lemma {:induction false} AuditSucceeds(cs: seq<Customer>, t: Table, total: int, money: int)
    ensures Audit(cs, t, total, money) == Success <==> Reconciled(cs, t) && money + Holdings(cs) == total
    decreases |cs|
  {
    if |cs| > 0 {
      AuditSucceeds(cs[1..], t, total, money + cs[0].wallet + cs[0].balance);
      if cs[0].id in t && t[cs[0].id] == cs[0].balance {
        assert Reconciled(cs, t) <==> Reconciled(cs[1..], t) by {
          if Reconciled(cs[1..], t) {
            forall k | 0 <= k < |cs| ensures cs[k].id in t && t[cs[k].id] == cs[k].balance {
              if k > 0 {
                assert cs[k] == cs[1..][k - 1];
              }
            }
          }
        }
      }
    }
  }

  /** A reported mismatch names a real customer whose mirror and row differ. */
  lemma {:induction false} AuditBlamesMismatch(cs: seq<Customer>, t: Table, total: int, money: int)
    requires Audit(cs, t, total, money).BalanceUnmatch?
    ensures var v := Audit(cs, t, total, money);
      exists k :: 0 <= k < |cs| && cs[k].id == v.id && v.id in t &&
        cs[k].balance == v.mirror && t[v.id] == v.stored && v.mirror != v.stored
    decreases |cs|
  {
    var v := Audit(cs, t, total, money);
    if cs[0].id in t && t[cs[0].id] == cs[0].balance {
      AuditBlamesMismatch(cs[1..], t, total, money + cs[0].wallet + t[cs[0].id]);
      var k :| 0 <= k < |cs[1..]| && cs[1..][k].id == v.id && v.id in t &&
        cs[1..][k].balance == v.mirror && t[v.id] == v.stored && v.mirror != v.stored;
      assert cs[k + 1] == cs[1..][k];
    } else {
      assert cs[0].id == v.id;
    }
  }

  /** In every reachable state, main's check reports success. */
  lemma InvAudits(w: World)
    requires Inv(w)
    ensures Audit(w.customers, w.table, |w.customers| * InitWallet, 0) == Success
  {
    AuditSucceeds(w.customers, w.table, |w.customers| * InitWallet, 0);
  }
}
