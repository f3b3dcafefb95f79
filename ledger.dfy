/**
 * The `customers` table and the Bank's three transactions on it.  The table is
 * a map from account id to balance; every SQL statement the bank issues is an
 * `update customers set balance=balance+d where id=..`, i.e. an `Add`.
 */
module Ledger {
  import opened Status
  import opened Decimal

  type Table = map<string, int>

  /** One update statement: add `delta` to the balance of account `id`. */
  datatype Stmt = Add(id: string, delta: int)

  /**
   * How the store behaves for one transaction: it works, or begin fails, or the
   * exec of statement number `at` (counting from 0) fails, or commit fails.
   */
  datatype Fault = Healthy | BeginFails | ExecFails(at: nat) | CommitFails

  /** An update whose `where` clause matches no row changes nothing. */
  function Apply(t: Table, s: Stmt): (r: Table)
    ensures r.Keys == t.Keys
    ensures s.id in t ==> r[s.id] == t[s.id] + s.delta
    ensures forall id :: id in t && id != s.id ==> r[id] == t[id]
  {
    if s.id in t then t[s.id := t[s.id] + s.delta] else t
  }

  /** The statements run one after another, in order. */
  function ApplyAll(t: Table, ss: seq<Stmt>): Table
    decreases |ss|
  {
    if |ss| == 0 then t else Apply(ApplyAll(t, ss[..|ss| - 1]), ss[|ss| - 1])
  }

  /** Running one more statement of a plan applies it to the table so far. */
  lemma ApplyAllStep(t: Table, ss: seq<Stmt>, k: nat)
    requires k < |ss|
    ensures ApplyAll(t, ss[..k + 1]) == Apply(ApplyAll(t, ss[..k]), ss[k])
    ensures ss[..k + 1] == ss[..k] + [ss[k]]
  {
    assert ss[..k + 1][..k] == ss[..k];
  }

  lemma ApplyAllOne(t: Table, a: Stmt)
    ensures ApplyAll(t, [a]) == Apply(t, a)
  {
    assert [a][..0] == [];
  }

  lemma ApplyAllTwo(t: Table, a: Stmt, b: Stmt)
    ensures ApplyAll(t, [a, b]) == Apply(Apply(t, a), b)
  {
    assert [a, b][..1] == [a];
    ApplyAllOne(t, a);
  }

  /** Does a transaction of `execs` statements fail under `fault`? */
  predicate TxFails(fault: Fault, execs: nat) {
    fault.BeginFails? || fault.CommitFails? || (fault.ExecFails? && fault.at < execs)
  }

  /** The statements the store executes before the transaction ends (committed or not). */
  function Executed(fault: Fault, plan: seq<Stmt>): (ex: seq<Stmt>)
    ensures ex <= plan
    ensures |ex| < |plan| <==> (fault.BeginFails? && |plan| > 0) || (fault.ExecFails? && fault.at < |plan|)
  {
    if fault.BeginFails? then []
    else if fault.ExecFails? && fault.at < |plan| then plan[..fault.at]
    else plan
  }

  /**
   * One transaction: begin, exec every statement of `plan`, commit.  It is all
   * or nothing: a failure at any step leaves the table as it was.
   */
  function Transaction(t: Table, plan: seq<Stmt>, fault: Fault): (r: (Table, Outcome))
    ensures r.1 == Pass || r.1 == Fail(StoreFailed)
    ensures r.1.Pass? <==> !TxFails(fault, |plan|)
    ensures r.0 == if r.1.Pass? then ApplyAll(t, plan) else t
  {
    if TxFails(fault, |plan|) then (t, Fail(StoreFailed)) else (ApplyAll(t, plan), Pass)
  }

  /** Bank.deposit: balance += num in one transaction. */
  function DepositTx(t: Table, id: string, num: int, fault: Fault): (r: (Table, Outcome))
    ensures r.1.Pass? <==> !TxFails(fault, 1)
    ensures r.1.Fail? ==> r.0 == t
    ensures r.1.Pass? ==> id in t ==> r.0 == t[id := t[id] + num]
    ensures r.1.Pass? ==> r.0 == Apply(t, Add(id, num))
  {
    ApplyAllOne(t, Add(id, num));
    Transaction(t, [Add(id, num)], fault)
  }

  /** Bank.withdraw: balance -= num in one transaction, with no check for sufficient funds. */
  function WithdrawTx(t: Table, id: string, num: int, fault: Fault): (r: (Table, Outcome))
    ensures r.1.Pass? <==> !TxFails(fault, 1)
    ensures r.1.Fail? ==> r.0 == t
    ensures r.1.Pass? ==> id in t ==> r.0 == t[id := t[id] - num]
    ensures r.1.Pass? ==> r.0 == Apply(t, Add(id, -num))
  {
    ApplyAllOne(t, Add(id, -num));
    Transaction(t, [Add(id, -num)], fault)
  }

  /**
   * The statements of Bank.transfer, in the order it runs them: both ids are
   * parsed as integers, and the account with the lower number is updated first.
   */
  function TransferPlan(from: string, to: string, num: int): (r: Result<seq<Stmt>>)
    ensures r.Ok? <==> Atoi(from).Some? && Atoi(to).Some?
    ensures r.Err? ==> r.error == NotAnInteger(if Atoi(from).None? then from else to)
    ensures r.Ok? ==> |r.value| == 2 && multiset(r.value) == multiset{Add(from, -num), Add(to, num)}
  {
    var debit := Add(from, -num);
    var credit := Add(to, num);
    match Atoi(from)
    case None => Err(NotAnInteger(from))
    case Some(fid) =>
      match Atoi(to)
      case None => Err(NotAnInteger(to))
      case Some(tid) => Ok(if fid < tid then [debit, credit] else [credit, debit])
  }

  /** Bank.transfer: begin first, then parse the ids, then run the plan and commit. */
  function TransferTx(t: Table, from: string, to: string, num: int, fault: Fault): (r: (Table, Outcome))
    ensures r.1.Pass? <==> !fault.BeginFails? && TransferPlan(from, to, num).Ok? && !TxFails(fault, 2)
    ensures r.1.Fail? ==> r.0 == t
  {
    if fault.BeginFails? then (t, Fail(StoreFailed))
    else match TransferPlan(from, to, num)
      case Err(e) => (t, Fail(e))
      case Ok(plan) => Transaction(t, plan, fault)
  }

  /** The statements of a transfer that reach the store. */
  function TransferExecuted(from: string, to: string, num: int, fault: Fault): (ex: seq<Stmt>)
    ensures ex != [] ==> !fault.BeginFails? && TransferPlan(from, to, num).Ok? && ex <= TransferPlan(from, to, num).value
    ensures |ex| < 2 <==> fault.BeginFails? || TransferPlan(from, to, num).Err? || (fault.ExecFails? && fault.at < 2)
  {
    if fault.BeginFails? then []
    else match TransferPlan(from, to, num)
      case Err(_) => []
      case Ok(plan) => Executed(fault, plan)
  }

  // ---------------------------------------------------------------------------
  // Properties of the transfer

  /**
   * The lock order: the first statement of a transfer touches the account with
   * the smaller number: the debit when `from` is the smaller, else the credit.
   */
  lemma LockOrder(from: string, to: string, num: int)
    requires TransferPlan(from, to, num).Ok?
    ensures Atoi(from).Some? && Atoi(to).Some?
    ensures var plan := TransferPlan(from, to, num).value;
      var fid, tid := Atoi(from).value, Atoi(to).value;
      && |plan| == 2
      && Atoi(plan[0].id) == Some(if fid < tid then fid else tid)
      && Atoi(plan[1].id) == Some(if fid < tid then tid else fid)
      && plan[0] == (if fid < tid then Add(from, -num) else Add(to, num))
    ensures multiset(TransferPlan(from, to, num).value) == multiset{Add(from, -num), Add(to, num)}
  {
  }

  /**
   * Two transfers between the same two accounts, in opposite directions, both
   * touch the same account first: neither can hold one row while waiting for
   * the row the other holds.
   */
  lemma OppositeTransfersLockAlike(a: string, b: string, x: int, y: int)
    requires TransferPlan(a, b, x).Ok? && TransferPlan(b, a, y).Ok?
    requires Atoi(a) != Atoi(b)
    ensures TransferPlan(a, b, x).value[0].id == TransferPlan(b, a, y).value[0].id
    ensures TransferPlan(a, b, x).value[1].id == TransferPlan(b, a, y).value[1].id
  {
  }

  /** A malformed id is rejected before any statement reaches the store. */
  lemma BadIdExecutesNothing(t: Table, from: string, to: string, num: int, fault: Fault)
    requires Atoi(from).None? || Atoi(to).None?
    ensures TransferExecuted(from, to, num, fault) == []
    ensures TransferTx(t, from, to, num, fault) ==
      (t, Fail(if fault.BeginFails? then StoreFailed else NotAnInteger(if Atoi(from).None? then from else to)))
  {
  }

  /**
   * Ids made by fmt.Sprintf("%d", i) always parse: a transfer between two of
   * them never fails on Atoi, only in the store.
   */
  lemma FormattedIdsParse(t: Table, a: nat, b: nat, num: int, fault: Fault)
    requires a <= MaxInt64 && b <= MaxInt64
    ensures TransferPlan(Format(a), Format(b), num).Ok?
    ensures TransferTx(t, Format(a), Format(b), num, fault).1 in {Pass, Fail(StoreFailed)}
  {
    AtoiOfFormat(a);
    AtoiOfFormat(b);
  }

  /** A transfer that reports success has parsed both ids and applied its whole plan. */
  lemma TransferCommits(t: Table, from: string, to: string, num: int, fault: Fault)
    requires TransferTx(t, from, to, num, fault).1.Pass?
    ensures TransferPlan(from, to, num).Ok?
    ensures TransferTx(t, from, to, num, fault).0 == ApplyAll(t, TransferPlan(from, to, num).value)
  {
  }

  /** The table after num has moved from the row of `from` to the row of `to`. */
  function Shift(t: Table, from: string, to: string, num: int): Table
    requires from in t && to in t
  {
    t[from := t[from] - num][to := t[to] + num]
  }

  /** Whatever the order, a committed transfer debits `from` and credits `to`. */
  lemma TransferNetEffect(t: Table, from: string, to: string, num: int)
    requires TransferPlan(from, to, num).Ok?
    requires from in t && to in t && from != to
    ensures ApplyAll(t, TransferPlan(from, to, num).value) == Shift(t, from, to, num)
  {
    var plan := TransferPlan(from, to, num).value;
    var debit, credit := Add(from, -num), Add(to, num);
    ShiftEitherOrder(t, from, to, num);
    if Atoi(from).value < Atoi(to).value {
      assert plan == [debit, credit];
      ApplyAllTwo(t, debit, credit);
    } else {
      assert plan == [credit, debit];
      ApplyAllTwo(t, credit, debit);
    }
  }

  /** Debiting then crediting and crediting then debiting give the same table. */
  lemma ShiftEitherOrder(t: Table, from: string, to: string, num: int)
    requires from in t && to in t && from != to
    ensures Apply(Apply(t, Add(from, -num)), Add(to, num)) == Shift(t, from, to, num)
    ensures Apply(Apply(t, Add(to, num)), Add(from, -num)) == Shift(t, from, to, num)
  {
    assert t[to := t[to] + num][from := t[from] - num] == t[from := t[from] - num][to := t[to] + num];
  }

  /** A committed transfer between two distinct existing accounts moves num from one row to the other. */
  lemma TransferMoves(t: Table, from: string, to: string, num: int, fault: Fault)
    requires from in t && to in t && from != to
    requires TransferTx(t, from, to, num, fault).1.Pass?
    ensures TransferTx(t, from, to, num, fault).0 == Shift(t, from, to, num)
  {
    TransferCommits(t, from, to, num, fault);
    TransferNetEffect(t, from, to, num);
  }

  // ---------------------------------------------------------------------------
  // The total of all balances in the table

  /** Some account of a non-empty table. */
  ghost function Pick(t: Table): (k: string)
    requires |t| > 0
    ensures k in t
  {
    assert t.Keys != {};
    var k :| k in t; k
  }

  ghost function MapSum(t: Table): int
    decreases |t|
  {
    if |t| == 0 then 0
    else
      var k := Pick(t);
      CardRemove(t, k);
      t[k] + MapSum(t - {k})
  }

  lemma CardRemove(t: Table, k: string)
    requires k in t
    ensures |t - {k}| == |t| - 1
  {
    assert (t - {k}).Keys == t.Keys - {k};
  }

  /** The total can be split at any account, not only at the one MapSum picks. */
  lemma {:induction false} MapSumRemove(t: Table, k: string)
    requires k in t
    ensures MapSum(t) == t[k] + MapSum(t - {k})
    decreases |t|
  {
    var j := Pick(t);
    if j != k {
      CardRemove(t, j);
      CardRemove(t, k);
      MapSumRemove(t - {j}, k);
      MapSumRemove(t - {k}, j);
      assert t - {j} - {k} == t - {k} - {j};
    }
  }

  /** An update changes the total by exactly its delta, or not at all when no row matches. */
  lemma MapSumApply(t: Table, s: Stmt)
    ensures MapSum(Apply(t, s)) == MapSum(t) + (if s.id in t then s.delta else 0)
  {
    if s.id in t {
      var t' := Apply(t, s);
      MapSumRemove(t, s.id);
      MapSumRemove(t', s.id);
      assert t' - {s.id} == t - {s.id};
    }
  }

  /** Opening an account adds its balance to the total. */
  lemma MapSumInsert(t: Table, id: string, v: int)
    requires id !in t
    ensures MapSum(t[id := v]) == MapSum(t) + v
  {
    MapSumRemove(t[id := v], id);
    assert t[id := v] - {id} == t;
  }

  /** Two statements on existing rows change the total by the sum of their deltas. */
  lemma MapSumTwo(t: Table, a: Stmt, b: Stmt)
    requires a.id in t && b.id in t
    ensures MapSum(Apply(Apply(t, a), b)) == MapSum(t) + a.delta + b.delta
  {
    MapSumApply(t, a);
    MapSumApply(Apply(t, a), b);
  }

  /** A transfer between two existing accounts neither creates nor destroys money. */
  lemma TransferConserves(t: Table, from: string, to: string, num: int, fault: Fault)
    requires from in t && to in t
    ensures MapSum(TransferTx(t, from, to, num, fault).0) == MapSum(t)
  {
    if TransferTx(t, from, to, num, fault).1.Pass? {
      TransferCommits(t, from, to, num, fault);
      var plan := TransferPlan(from, to, num).value;
      assert plan == [plan[0], plan[1]];
      assert plan[0].id in t && plan[1].id in t && plan[0].delta + plan[1].delta == 0;
      ApplyAllTwo(t, plan[0], plan[1]);
      MapSumTwo(t, plan[0], plan[1]);
    }
  }

  // ---------------------------------------------------------------------------
  // The bank: the table lives in the store and is changed in place

  class Bank {
    /** The committed contents of the `customers` table. */
    var table: Table
    /** Every update statement the store has executed, in order, committed or not. */
    ghost var trace: seq<Stmt>

    /** Bank.Open: the table is dropped and created empty. */
    constructor ()
      ensures table == map[] && trace == []
    {
      table := map[];
      trace := [];
    }

    /** Bank.CreateAccount: insert a row; a second row with the same id violates the primary key. */
    method CreateAccount(id: string, balance: int) returns (r: Outcome)
      modifies this
      ensures r.Pass? <==> id !in old(table)
      ensures table == if r.Pass? then old(table)[id := balance] else old(table)
      ensures trace == old(trace)
    {
      if id in table {
        return Fail(StoreFailed);
      }
      table := table[id := balance];
      return Pass;
    }

    method Deposit(id: string, num: int, fault: Fault) returns (r: Outcome)
      modifies this
      ensures (table, r) == DepositTx(old(table), id, num, fault)
      ensures trace == old(trace) + Executed(fault, [Add(id, num)])
    {
      if fault.BeginFails? {
        return Fail(StoreFailed);
      }
      var tx := table;
      if fault.ExecFails? && fault.at == 0 {
        return Fail(StoreFailed);
      }
      tx := Apply(tx, Add(id, num));
      ApplyAllOne(table, Add(id, num));
      trace := trace + [Add(id, num)];
      if fault.CommitFails? {
        return Fail(StoreFailed);
      }
      table := tx;
      return Pass;
    }

    method Withdraw(id: string, num: int, fault: Fault) returns (r: Outcome)
      modifies this
      ensures (table, r) == WithdrawTx(old(table), id, num, fault)
      ensures trace == old(trace) + Executed(fault, [Add(id, -num)])
    {
      if fault.BeginFails? {
        return Fail(StoreFailed);
      }
      var tx := table;
      if fault.ExecFails? && fault.at == 0 {
        return Fail(StoreFailed);
      }
      tx := Apply(tx, Add(id, -num));
      ApplyAllOne(table, Add(id, -num));
      trace := trace + [Add(id, -num)];
      if fault.CommitFails? {
        return Fail(StoreFailed);
      }
      table := tx;
      return Pass;
    }

    /** Bank.getBalance: the row's balance, or an error when there is no such row. */
    method GetBalance(id: string) returns (r: Result<int>)
      ensures r.Ok? <==> id in table
      ensures r.Ok? ==> r.value == table[id]
    {
      if id !in table {
        return Err(StoreFailed);
      }
      return Ok(table[id]);
    }

    /**
     * The exec loop of Bank.transfer: run the statements in order on the open
     * transaction's copy of the table, stopping at the first failing exec.
     */
    method ExecAll(sqls: seq<Stmt>, fault: Fault) returns (tx: Table, r: Outcome)
      requires !fault.BeginFails?
      modifies this
      ensures table == old(table)
      ensures r == (if fault.ExecFails? && fault.at < |sqls| then Fail(StoreFailed) else Pass)
      ensures r.Pass? ==> tx == ApplyAll(table, sqls)
      ensures trace == old(trace) + if fault.ExecFails? && fault.at < |sqls| then sqls[..fault.at] else sqls
    {
      var t0 := table;
      tx := t0;
      var k := 0;
      while k < |sqls| && !(fault.ExecFails? && fault.at == k)
        invariant 0 <= k <= |sqls|
        invariant table == t0
        invariant tx == ApplyAll(t0, sqls[..k])
        invariant trace == old(trace) + sqls[..k]
        invariant fault.ExecFails? ==> k <= fault.at
      {
        ApplyAllStep(t0, sqls, k);
        tx := Apply(tx, sqls[k]);
        trace := trace + [sqls[k]];
        k := k + 1;
      }
      if k < |sqls| {
        return tx, Fail(StoreFailed);
      }
      assert sqls[..k] == sqls;
      r := Pass;
    }

    method Transfer(from: string, to: string, num: int, fault: Fault) returns (r: Outcome)
      modifies this
      ensures (table, r) == TransferTx(old(table), from, to, num, fault)
      ensures trace == old(trace) + TransferExecuted(from, to, num, fault)
    {
      if fault.BeginFails? {
        return Fail(StoreFailed);
      }
      var debit := Add(from, -num);
      var credit := Add(to, num);
      var fid := Atoi(from);
      if fid.None? {
        return Fail(NotAnInteger(from));
      }
      var tid := Atoi(to);
      if tid.None? {
        return Fail(NotAnInteger(to));
      }
      var sqls := if fid.value < tid.value then [debit, credit] else [credit, debit];
      assert TransferPlan(from, to, num) == Ok(sqls);
      var tx;
      tx, r := ExecAll(sqls, fault);
      if r.Fail? {
        return;
      }
      if fault.CommitFails? {
        return Fail(StoreFailed);
      }
      table := tx;
      return Pass;
    }
  }
}
