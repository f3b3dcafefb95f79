/**
 * The demo program itself: main's setup, the customers' actions and run
 * loops, and main's final check, as methods over one Bank and an array of
 * customers.  Each method is proved to do what the matching function in
 * Steps specifies, and to keep the harness invariant.
 */
module Demo {
  import opened Status
  import opened Decimal
  import opened Ledger
  import opened Customers
  import opened Steps

  /** Customer i as the creation loop makes it, before the wiring. */
  function Newcomer(i: nat): Customer {
    Customer(Format(i), InitWallet, 0, [], false)
  }

  /**
   * The creation loop of main: customer "i" gets W in the wallet, no friends
   * yet, and a zero row in the bank.  The ids are distinct, so no
   * CreateAccount fails and main never takes its early return.
   */
  method CreateCustomers(b: Bank, persons: nat) returns (a: array<Customer>)
    requires b.table == map[]
    modifies b
    ensures fresh(a) && a.Length == persons
    ensures forall k :: 0 <= k < persons ==> a[k] == Newcomer(k)
    ensures Opened(b.table, persons)
  {
    a := new Customer[persons];
    var i := 0;
    while i < persons
      invariant 0 <= i <= persons
      invariant Opened(b.table, i)
      invariant forall k :: 0 <= k < i ==> a[..i][k] == Newcomer(k)
    {
      var id := Format(i);
      var c := Customer(id, InitWallet, 0, [], false);
      OpenNext(b.table, i);
      var r := b.CreateAccount(c.id, 0);
      assert r.Pass?;
      a[i] := c;
      assert a[..i + 1] == a[..i] + [Newcomer(i)];
      i := i + 1;
    }
  }

  /**
   * One pass of main's inner wiring loop: customer i appends every j > i to
   * its friends, and each such j appends i.
   */
  method Befriend(a: array<Customer>, i: nat)
    requires i < a.Length
    modifies a
    ensures forall k :: 0 <= k < a.Length ==>
      a[k] == old(a[k]).(friends :=
        if k == i then old(a[k]).friends + Range(i + 1, a.Length)
        else if i < k then old(a[k]).friends + [i]
        else old(a[k]).friends)
  {
    var j := i + 1;
    while j < a.Length
      invariant i + 1 <= j <= a.Length
      invariant forall k :: 0 <= k < a.Length ==>
        a[k] == old(a[k]).(friends :=
          if k == i then old(a[k]).friends + Range(i + 1, j)
          else if i < k < j then old(a[k]).friends + [i]
          else old(a[k]).friends)
    {
      assert Range(i + 1, j + 1) == Range(i + 1, j) + [j];
      a[i] := a[i].(friends := a[i].friends + [j]);
      a[j] := a[j].(friends := a[j].friends + [i]);
      j := j + 1;
    }
  }

  /**
   * The wiring loop of main: every pair i < j becomes friends, i appending j
   * and j appending i, so that customer k ends with 0..k-1 followed by k+1..N-1.
   */
  method MakeFriends(a: array<Customer>)
    requires forall k :: 0 <= k < a.Length ==> a[k].friends == []
    modifies a
    ensures forall k :: 0 <= k < a.Length ==> a[k] == old(a[k]).(friends := Others(a.Length, k))
  {
    var n := a.Length;
    var i := 0;
    while i + 1 < n
      invariant 0 <= i && (n > 0 ==> i < n) && (n == 0 ==> i == 0)
      invariant forall k :: 0 <= k < n ==>
        a[k] == old(a[k]).(friends := if k < i then Others(n, k) else Range(0, i))
    {
      Befriend(a, i);
      assert Range(0, i) + [i] == Range(0, i + 1);
      i := i + 1;
    }
    if n > 0 {
      assert Others(n, n - 1) == Range(0, n - 1);
    }
  }

  /** main's local state: the bank and the customers it creates. */
  class Harness {
    const bank: Bank
    const customers: array<Customer>
    const persons: nat

    /** The customers and the ledger as one value. */
    ghost function State(): World
      reads bank, customers
    {
      World(customers[..], bank.table)
    }

    ghost predicate Valid()
      reads bank, customers
    {
      && customers.Length == persons
      && Ready(State())
    }

    /**
     * main's setup: create customer "i" with W in the wallet and a zero row
     * in the bank for i = 0..N-1, then make everybody friends.
     */
    constructor (persons: nat)
      requires persons * InitWallet <= MaxInt32
      ensures this.persons == persons && Valid()
      ensures fresh(bank) && fresh(customers)
      ensures forall k :: 0 <= k < persons ==>
        customers[k] == Customer(Format(k), InitWallet, 0, Others(persons, k), false)
      ensures forall k :: 0 <= k < persons ==> Format(k) in bank.table && bank.table[Format(k)] == 0
    {
      var b := new Bank();
      var a := CreateCustomers(b, persons);
      MakeFriends(a);
      bank := b;
      customers := a;
      this.persons := persons;
      new;
      SetupInv(State());
      InvReady(State());
    }

    /** Customer.randomDeposit for customer i. */
    method RandomDeposit(i: nat, raw: nat, fault: Fault) returns (r: Outcome)
      requires Valid() && i < persons
      modifies bank, customers
      ensures (State(), r) == DepositStep(old(State()), i, raw, fault)
      ensures Valid()
    {
      ghost var w := State();
      assert Actable(w, i);
      var c := customers[i];
      var n := RandomMoney(c.wallet, raw);
      assert c == w.customers[i];
      r := Pass;
      if n != 0 {
        r := bank.Deposit(c.id, n, fault);
        if r.Pass? {
          customers[i] := c.(wallet := c.wallet - n, balance := c.balance + n);
          DepositBooks(w, i, raw, fault, State());
        }
      }
    }

    /** Customer.randomWithdraw for customer i. */
    method RandomWithdraw(i: nat, raw: nat, fault: Fault) returns (r: Outcome)
      requires Valid() && i < persons
      modifies bank, customers
      ensures (State(), r) == WithdrawStep(old(State()), i, raw, fault)
      ensures Valid()
    {
      ghost var w := State();
      assert Actable(w, i);
      var c := customers[i];
      var n := RandomMoney(c.balance, raw);
      assert c == w.customers[i];
      r := Pass;
      if n != 0 {
        r := bank.Withdraw(c.id, n, fault);
        if r.Pass? {
          customers[i] := c.(wallet := c.wallet + n, balance := c.balance - n);
          WithdrawBooks(w, i, raw, fault, State());
        }
      }
    }

    /**
     * Customer.randomTransfer for customer i.  The friend's run loop takes
     * the amount from its inbox before the sender books the debit.
     */
    method RandomTransfer(i: nat, raw: nat, rawFriend: nat, fault: Fault) returns (r: Outcome)
      requires Valid() && i < persons
      modifies bank, customers
      ensures (State(), r) == TransferStep(old(State()), i, raw, rawFriend, fault)
      ensures Valid()
    {
      ghost var w := State();
      assert Actable(w, i);
      InvActable(w, i);
      var c := customers[i];
      var n := RandomMoney(c.balance, raw);
      if n == 0 {
        return Pass;
      }
      if |c.friends| == 0 {
        return Fail(Int31nPanic);
      }
      var f := RandomFriend(c.friends, rawFriend);
      r := bank.Transfer(c.id, customers[f].id, n, fault);
      if r.Fail? {
        return;
      }
      assert Registered(w.customers[i], i, persons) && Registered(w.customers[f], f, persons);
      TransferSends(w, i, f, n, fault);
      Settle(i, f, n);
      assert State() == Sent(w, i, f, n);
      TransferStepPasses(w, i, raw, rawFriend, fault);
      TransferPreserves(w, i, raw, rawFriend, fault);
    }

    /** The friend's run loop takes n from its inbox, then customer i books the debit. */
    method Settle(i: nat, f: nat, n: int)
      requires i < customers.Length && f < customers.Length && i != f
      modifies customers
      ensures customers[..] == Moved(old(customers[..]), i, f, n)
    {
      customers[f] := customers[f].(balance := customers[f].balance + n);
      customers[i] := customers[i].(balance := customers[i].balance - n);
    }

    /**
     * Customer.randomDo: skip while busy, else raise the flag, draw one of the
     * three actions, and lower the flag again on the way out.
     */
    method RandomDo(i: nat, tick: Tick) returns (r: Outcome)
      requires Valid() && i < persons
      modifies bank, customers
      ensures (State(), r) == DoStep(old(State()), i, tick)
      ensures Valid()
    {
      ghost var w := State();
      DoPreserves(w, i, tick);
      if customers[i].working {
        return Pass;
      }
      customers[i] := customers[i].(working := true);
      assert State() == SetWorking(w, i, true);
      FlagPreserves(w, i, true);
      InvReady(SetWorking(w, i, true));
      var action := Int31n(3, tick.action);
      if action == 0 {
        r := RandomDeposit(i, tick.money, tick.fault);
      } else if action == 1 {
        r := RandomWithdraw(i, tick.money, tick.fault);
      } else {
        r := RandomTransfer(i, tick.money, tick.friend, tick.fault);
      }
      customers[i] := customers[i].(working := false);
    }

    /**
     * Customer.run: on each of the first MaxRounds ticks do one action and
     * stop at the first failure; the tick after the last round ends the loop.
     * Returns the number of actions done.
     */
    method Run(i: nat, ticks: seq<Tick>) returns (rounds: nat, r: Outcome)
      requires Valid() && i < persons && |ticks| >= MaxRounds
      modifies bank, customers
      ensures (State(), rounds, r) == RunSpec(old(State()), i, ticks[..MaxRounds])
      ensures rounds <= MaxRounds && (r.Pass? ==> rounds == MaxRounds)
      ensures Valid()
    {
      ghost var spec := RunSpec(State(), i, ticks[..MaxRounds]);
      assert ticks[..MaxRounds] == ticks[0..MaxRounds];
      rounds, r := 0, Pass;
      while rounds < MaxRounds && r.Pass?
        invariant 0 <= rounds <= MaxRounds && Valid()
        invariant r.Pass? ==> RunsTo(spec, State(), i, ticks[rounds..MaxRounds], rounds)
        invariant r.Fail? ==> spec == (State(), rounds, r)
        decreases MaxRounds - rounds
      {
        assert ticks[rounds..MaxRounds][0] == ticks[rounds];
        assert ticks[rounds..MaxRounds][1..] == ticks[rounds + 1..MaxRounds];
        RunSpecStep(spec, State(), i, ticks[rounds..MaxRounds], rounds);
        r := RandomDo(i, ticks[rounds]);
        rounds := rounds + 1;
      }
      if r.Pass? {
        assert ticks[rounds..MaxRounds] == [];
      }
    }

    /**
     * main's final check: compare every mirror with its row, then the total
     * of wallets and rows with N·W.
     */
    method Verify() returns (v: Verdict)
      ensures v == Audit(customers[..], bank.table, persons * InitWallet, 0)
      ensures Valid() ==> v == Success
    {
      if Valid() {
        InvAudits(State());
      }
      var money := 0;
      var k := 0;
      while k < customers.Length
        invariant 0 <= k <= customers.Length
        invariant Audit(customers[..], bank.table, persons * InitWallet, 0)
          == Audit(customers[k..], bank.table, persons * InitWallet, money)
      {
        var c := customers[k];
        assert customers[k..][1..] == customers[k + 1..];
        var bb := bank.GetBalance(c.id);
        if bb.Err? {
          return NoAccount(c.id);
        }
        if bb.value != c.balance {
          return BalanceUnmatch(c.id, c.balance, bb.value);
        }
        money := money + c.wallet + bb.value;
        k := k + 1;
      }
      var total := persons * InitWallet;
      if money != total {
        return TotalUnmatch(money, total);
      }
      v := Success;
    }
  }

  /**
   * main: set up N customers, let each run on its ticks, then check.  Errors
   * returned by run are dropped; a panic in any customer ends the program.
   * The check passes unless N = 1, where the first transfer panics.
   */
  method BankDemo(persons: nat, ticks: seq<seq<Tick>>) returns (v: Verdict)
    requires persons * InitWallet <= MaxInt32
    requires |ticks| == persons && forall k :: 0 <= k < persons ==> |ticks[k]| >= MaxRounds
    ensures v == Success || v == Crashed
    ensures v == Crashed ==> persons == 1
  {
    var h := new Harness(persons);
    var i := 0;
    while i < persons
      invariant 0 <= i <= persons && h.persons == persons && h.Valid()
      modifies h.bank, h.customers
    {
      var rounds, r := h.Run(i, ticks[i]);
      if r == Fail(Int31nPanic) {
        return Crashed;
      }
      i := i + 1;
    }
    v := h.Verify();
  }
}
