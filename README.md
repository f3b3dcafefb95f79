# Bank stress harness — a Dafny model

`bank/main.go` is a stress harness for a transactional SQL store. It opens a
`customers` table and creates N customers, called "0" to "N-1". Each customer
starts with 5000 in its wallet, a zero row in the table and every other
customer as a friend. Each customer then runs 60 rounds. In each round it
deposits a random amount of its wallet, withdraws a random amount of its
balance, or transfers a random amount to a random friend. A transfer updates
the two rows in ascending numeric id order so that two transfers cannot
deadlock. Every customer keeps its own mirror of its bank balance. At the end,
`main` checks that every row equals the customer's mirror, and that the
wallets plus the rows add up to N·5000.

This project models that bookkeeping sequentially:

- `Status`: Go's `error` results as `Outcome` and `Result`.
- `Decimal`: `fmt.Sprintf("%d", i)` as `Format`, and `strconv.Atoi` as `Atoi`.
  Reading back a formatted id gives the original number.
- `Ledger`: the table as a `map<string, int>`, every update statement as an
  `Add(id, delta)`, and each transaction as all or nothing.
  - Which step of a transaction fails is a `Fault` parameter: begin, the exec
    of statement k, or commit.
  - `class Bank` keeps the committed table, plus a ghost trace of every
    statement that reached the store.
  - Its `Deposit`, `Withdraw` and `Transfer` are proved against the pure
    `DepositTx`, `WithdrawTx` and `TransferTx`, and the exec loop `ExecAll`
    against `ApplyAll`.
  - The transfer's lock order, its net effect and money conservation (`MapSum`)
    are proved about `TransferPlan` and `TransferTx`.
- `Customers`: the `Customer` record.
  - `rand.Int31n` takes its draw as a caller-supplied `raw`, reduced into the
    bound. Every value of the range is reachable.
  - `randomMoney` and `randomFriend` are built on it.
  - main's friend lists are `Others(N, k)`, which holds everybody but k.
  - `Holdings` is Σ(wallet + balance) and `Mirrored` is Σ balance.
- `Steps`: customers and table together form a `World`.
  - Each action of a customer is a function from `World` to `World`:
    `DepositStep`, `WithdrawStep`, `TransferStep`, `ActStep`, `DoStep`,
    `RunSpec`.
  - The harness invariant `Inv` holds:
    - every customer is "k", befriends everybody else and is solvent within
      int32;
    - every mirror equals its row;
    - the table has N rows;
    - Σ(wallet + balance) = N·5000;
    - the table's total equals Σ balance.
  - Every action preserves `Inv`. `Audit`, main's final check, reports
    `Success` in every state where `Inv` holds.
- `Demo`: main itself, imperatively.
  - `CreateCustomers` and `MakeFriends` are the setup loops, over an
    `array<Customer>`.
  - `class Harness` holds the `Bank` and the customer array. Its methods
    `RandomDeposit`, `RandomWithdraw`, `RandomTransfer`, `RandomDo` and `Run`
    each ensure that the new state and result are what the matching `Steps`
    function gives, and that the invariant still holds.
  - `Verify` is main's checking loop.
  - `BankDemo` chains setup, the customers' runs and the check. It proves the
    check can only end in `Success`, or in `Crashed` when N = 1.

Behaviours of the code that the model keeps:

- `randomMoney(upper)` returns a value strictly below `upper` when
  `upper > 0`, because `rand.Int31n` excludes its bound. The comment at
  bank/main.go:163 says "smaller than or equals than upper", but no draw ever
  equals `upper`.
- With N = 1 the only customer has no friends. Its first transfer of a
  non-zero amount calls `rand.Int31n(0)`, which panics. The model reports this
  as `Fail(Int31nPanic)`, and `BankDemo` as `Crashed`.
- `Withdraw` does not check for sufficient funds at the ledger. Only the
  bound on the random amount keeps balances non-negative.
- `run`'s error ends that customer's loop, but `main` ignores it (the
  goroutine's result is dropped), so the final check still runs, unless
  another customer later sends to it (see "## Left out").
- A transfer begins its transaction before it parses the ids. A failing begin
  therefore wins over a malformed id.

## Model

| member | source | states |
|---|---|---|
| Decimal.Format | bank/main.go:301 | an id is a non-empty run of decimal digits with no leading zero |
| Decimal.Atoi | bank/main.go:83-90 | a parsed id fits in int64 and starts with a digit or a sign |
| Decimal.AtoiOfFormat | bank/main.go:83-90 | parsing the id of customer i gives back i |
| Decimal.FormatInjective | bank/main.go:300-301 | distinct customers get distinct ids |
| Ledger.Apply | bank/main.go:36 | an update adds delta to the named row only, changes no other row and adds no row |
| Ledger.Executed | bank/main.go:96-101 | the statements that reach the store are a prefix of the plan, and a proper prefix exactly when begin or one of its execs fails |
| Ledger.Transaction | bank/main.go:96-103 | all or nothing: the result passes exactly when no step fails; a passing transaction has applied the whole plan, a failing one leaves the table unchanged |
| Ledger.DepositTx | bank/main.go:31-42 | it fails exactly when begin, the exec or commit fails; on failure the table is unchanged; on success the row of id rises by num |
| Ledger.WithdrawTx | bank/main.go:45-56 | it fails exactly when begin, the exec or commit fails; on failure the table is unchanged; on success the row of id drops by num, with no funds check |
| Ledger.TransferPlan | bank/main.go:79-95 | the plan exists exactly when both ids parse, else the error names the first id that does not; it holds the debit of `from` and the credit of `to`, once each |
| Ledger.TransferTx | bank/main.go:74-104 | it passes exactly when begin succeeds, both ids parse and neither exec nor commit fails; a failed transfer leaves the table unchanged |
| Ledger.TransferExecuted | bank/main.go:75-101 | a statement reaches the store only after begin succeeded and both ids parsed, and then it is a prefix of the plan; fewer than both reach it exactly when begin fails, an id does not parse or one of the two execs fails |
| Ledger.LockOrder | bank/main.go:91-95 | the plan has two statements, the first on the account with the smaller number: the debit when fid < tid, else the credit; it is a permutation of {debit, credit} |
| Ledger.OppositeTransfersLockAlike | bank/main.go:82-95 | two transfers between the same accounts in opposite directions update the same account first |
| Ledger.BadIdExecutesNothing | bank/main.go:75-90 | on every table, if either id is not an integer, no statement reaches the store, the table is unchanged and the transfer fails with NotAnInteger of the first bad id, or with a store error when begin failed first |
| Ledger.FormattedIdsParse | bank/main.go:83-90 | ids made by `%d` always parse, so a transfer between two of them fails only in the store |
| Ledger.TransferCommits | bank/main.go:96-103 | a transfer that reports success parsed both ids and applied its whole plan |
| Ledger.ShiftEitherOrder | bank/main.go:91-95 | debiting then crediting two distinct rows gives the same table as crediting then debiting |
| Ledger.TransferNetEffect | bank/main.go:79-101 | whichever order the plan has, its net effect is row[from] -= num, row[to] += num |
| Ledger.TransferMoves | bank/main.go:74-104 | a successful transfer between two distinct rows leaves exactly those two rows changed, by -num and +num |
| Ledger.TransferConserves | bank/main.go:79-101 | the sum over all rows is the same after a transfer between existing accounts, whatever its outcome |
| Ledger.MapSumApply | bank/main.go:36 | an update on an existing row changes the total by delta |
| Ledger.Bank.constructor | bank/main.go:133-141 | the bank starts with an empty table |
| Ledger.Bank.CreateAccount | bank/main.go:106-119 | the insert succeeds exactly when the id is new, and then adds that row with the given balance (store failures are left out) |
| Ledger.Bank.Deposit | bank/main.go:31-42 | the new table and result are DepositTx's; the trace gains the statement unless begin or the exec failed |
| Ledger.Bank.Withdraw | bank/main.go:45-56 | the new table and result are WithdrawTx's; the trace gains the statement unless begin or the exec failed |
| Ledger.Bank.GetBalance | bank/main.go:59-71 | returns the row's balance, or an error exactly when there is no such row |
| Ledger.Bank.ExecAll | bank/main.go:96-101 | runs the statements in order on a copy of the table, stops at the first failing exec, and leaves the committed table alone |
| Ledger.Bank.Transfer | bank/main.go:74-104 | the new table and result are TransferTx's; the trace gains exactly the statements TransferExecuted lists |
| Customers.Int31n | bank/main.go:167 | the draw lies below the bound, and any value below the bound is drawn for raw equal to it |
| Customers.RandomMoney | bank/main.go:162-168 | 0 when upper is 0, else 0 <= n < upper |
| Customers.RandomMoneyReaches | bank/main.go:162-168 | every n below upper is a possible draw |
| Customers.RandomFriend | bank/main.go:206-209 | the chosen friend is one of the friends |
| Customers.OthersSpec | bank/main.go:319-326 | customer k of n ends with n-1 friends, all below n, never itself, in increasing order, so no one appears twice |
| Customers.FriendsSymmetric | bank/main.go:319-326 | j is a friend of k exactly when k is a friend of j |
| Customers.InitialHoldings | bank/main.go:299-309 | customers fresh from setup hold N·5000 and mirror 0 in the bank |
| Customers.HoldingsBound | bank/main.go:154-155 | when nobody is in debt, no customer holds more than all customers together |
| Steps.OpenNext | bank/main.go:300-317 | each pass of the creation loop adds a new zero row for the next id |
| Steps.SetupInv | bank/main.go:298-326 | the world main builds before the customers start satisfies the harness invariant |
| Steps.Moved | bank/main.go:219-224 | after a transfer and its inbox credit, only the two balances have changed, by -n and +n |
| Steps.DepositStep | bank/main.go:171-186 | a zero draw changes nothing and passes; a non-zero draw passes exactly when the ledger's deposit does; on failure nothing changes; otherwise only customer i changes, its wallet + balance is unchanged and its wallet does not grow or go negative |
| Steps.WithdrawStep | bank/main.go:189-204 | a zero draw changes nothing and passes; a non-zero draw passes exactly when the ledger's withdrawal does; on failure nothing changes; otherwise only customer i changes, its wallet + balance is unchanged and its mirror does not grow or go negative |
| Steps.TransferStep | bank/main.go:212-227 | a zero draw changes nothing and passes, before any friend is drawn; a non-zero draw panics exactly when there are no friends, and otherwise has the outcome of the ledger's transfer to the drawn friend; on failure nothing changes; the panic happens only with no friends; only balances change, and the sender's does not grow or go negative |
| Steps.ActStep | bank/main.go:239-251 | the chosen action never touches the working flag, and a failure leaves the world unchanged |
| Steps.DoStep | bank/main.go:229-258 | a busy customer does nothing and passes; the flag ends as it started, so it is false after an action |
| Steps.SetWorkingBack | bank/main.go:234-237 | raising and then lowering the flag restores the world |
| Steps.InvActable | bank/main.go:206-209 | under the invariant, customer i has N-1 friends, all of them customers, not itself, with int32 amounts |
| Steps.OneAccountPreserves | bank/main.go:182-183 | moving money between one customer's wallet and its account, on the mirror and the row alike, keeps the invariant |
| Steps.DepositPreserves | bank/main.go:171-186 | every deposit, successful or not, keeps the invariant |
| Steps.WithdrawPreserves | bank/main.go:189-204 | every withdrawal, successful or not, keeps the invariant |
| Steps.DepositBooks | bank/main.go:177-183 | a deposit the ledger accepts takes n from the wallet and adds it to the mirror and the row |
| Steps.WithdrawBooks | bank/main.go:195-201 | a withdrawal the ledger accepts takes n from the mirror and the row and adds it to the wallet |
| Steps.MovedHoldings | bank/main.go:223-224 | the sender's debit and the friend's inbox credit leave Σ(wallet + balance) and Σ balance unchanged |
| Steps.MovedLedger | bank/main.go:79-80 | moving n between two rows keeps the set of accounts and the table's total |
| Steps.MovedReconciled | bank/main.go:219-224 | after the transfer and the inbox credit every mirror still equals its row |
| Steps.TwoAccountsPreserve | bank/main.go:219-224 | moving n from customer i to customer f, on mirrors and rows alike, keeps the invariant |
| Steps.TransferSends | bank/main.go:219 | a transfer between two customers that passes moves n from the sender's row to the friend's row |
| Steps.TransferStepPasses | bank/main.go:212-227 | a transfer the ledger accepts ends with n moved from customer i to the friend, on the mirrors and on the ledger alike |
| Steps.TransferPreserves | bank/main.go:212-227 | every transfer, successful or not, keeps the invariant |
| Steps.TransferParses | bank/main.go:83-90 | under the invariant a transfer ends in success, a store error or the empty-friends panic, never in an Atoi error |
| Steps.FlagPreserves | bank/main.go:234-237 | setting or clearing the working flag keeps the invariant |
| Steps.ActPreserves | bank/main.go:239-251 | whichever action is drawn, the invariant is kept |
| Steps.DoPreserves | bank/main.go:229-258 | randomDo keeps the invariant, and it panics only when N = 1 |
| Steps.RunSpec | bank/main.go:260-285 | the run loop keeps the invariant and takes at most one action per tick; it takes all of them unless an action fails; it panics only when N = 1 |
| Steps.Audit | bank/main.go:337-355 | the check reports success or a named mismatch, never a crash |
| Steps.RunSpecStep | bank/main.go:268-283 | one round of the run loop is randomDo on the next tick, after which the loop stops on failure and otherwise goes on with the remaining ticks |
| Steps.AuditSucceeds | bank/main.go:337-355 | the check succeeds exactly when every mirror equals its row and the wallets plus the rows add up to the total |
| Steps.AuditBlamesMismatch | bank/main.go:344-347 | a reported balance mismatch names a customer whose mirror and row really differ, with those two values |
| Steps.InvAudits | bank/main.go:337-355 | in every state that satisfies the invariant, the check succeeds |
| Demo.CreateCustomers | bank/main.go:298-317 | customer k is created as "k" with 5000 in the wallet, balance 0 and no friends, and the table holds exactly one zero row per customer |
| Demo.Befriend | bank/main.go:320-325 | one pass of the inner loop: customer i appends i+1..N-1, every later customer appends i, and nothing else changes |
| Demo.MakeFriends | bank/main.go:319-326 | after the wiring every customer k has exactly Others(N, k) as friends and is otherwise unchanged |
| Demo.Harness.constructor | bank/main.go:292-326 | setup yields the customers and the zero rows described above, in a state that satisfies the invariant |
| Demo.Harness.RandomDeposit | bank/main.go:171-186 | updates the customer array and the bank as DepositStep does, and keeps the invariant |
| Demo.Harness.RandomWithdraw | bank/main.go:189-204 | updates the customer array and the bank as WithdrawStep does, and keeps the invariant |
| Demo.Harness.RandomTransfer | bank/main.go:212-227 | updates the customer array and the bank as TransferStep does, inbox credit included, and keeps the invariant |
| Demo.Harness.Settle | bank/main.go:223-224 | the friend's balance rises by n and the sender's drops by n, and no other customer changes |
| Demo.Harness.RandomDo | bank/main.go:229-258 | updates state as DoStep does (flag raised, action, flag lowered), and keeps the invariant |
| Demo.Harness.Run | bank/main.go:260-285 | does what RunSpec specifies on the first 60 ticks, performs at most 60 actions, and keeps the invariant |
| Demo.Harness.Verify | bank/main.go:337-355 | returns Audit's verdict, which is Success whenever the invariant holds |
| Demo.BankDemo | bank/main.go:289-356 | the final check ends in Success, or in Crashed only when N = 1 |

## Left out

- The SQL driver, the DSN, SQL string building and `Bank.Close`: foreign I/O.
  The table is a map, and each update statement is an `Add`.
- `Bank.Open`'s failure paths: the model starts from its successful end, an
  empty table (main does not stop when Open fails).
- Goroutines, the `WaitGroup`, the unbuffered inbox channel and the ticker.
  - The inbox credit is applied at the moment of the transfer.
  - `BankDemo` runs the customers one after another.
  - A sender blocked forever on a friend that has already stopped is not
    captured.
  - Two customers transferring to each other at once is not captured either.
    Each then blocks sending on the other's unbuffered inbox at
    bank/main.go:223, and neither is back in its `run` select at
    bank/main.go:270 to receive. `wg.Wait()` at bank/main.go:334 then never
    returns, and the final check that `Demo.BankDemo` proves successful is
    never reached.
  - Ticks are a sequence given by the caller.
- `math/rand`: every draw is a caller-supplied value reduced into its bound.
- The pprof server, flags, logging and the `errors.Trace` wrapping. Errors are
  reduced to `StoreFailed`, `NotAnInteger` and `Int31nPanic`.
- A negative `persons` flag: N is a `nat`.
- Customers.RandomMoney: does not model the `int32(upper)` truncation, because
  `Harness.constructor` and `BankDemo` require N·5000 ≤ 2^31-1, under which no
  amount ever exceeds int32.
- Rolling back a failed transaction: a failed begin, exec or commit leaves the
  committed table as it was, and the model does not track the abandoned
  transaction's locks.
- `getBalance`'s read failures and its uncommitted transaction: the read fails
  only when the row is missing.
- SQL's `where id=%s` compares numbers, while the model matches the id string
  exactly. The two agree on the decimal ids main creates.
- The "Wrong Type of action" branch at bank/main.go:249-250: `Int31n(3)` is
  below 3, so the model's dispatch has only the three actions.
- Store failures during setup. `CreateAccount` discards Begin's error, so a
  failing begin leaves a nil transaction that panics at bank/main.go:109. A
  failing exec or commit makes main return at bank/main.go:313, so the final
  check never runs. `Ledger.Bank.CreateAccount` has no `Fault` parameter: its
  insert fails only on a duplicate id, which distinct ids exclude
  (`Steps.OpenNext` proves each new id is absent from the table).
- Pointers: customers are values in an array, and a friend is an index into
  that array instead of a `*Customer`.
