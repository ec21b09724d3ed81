# Client balance ledger: a verified model of the transaction engine

This project models the ledger engine of a small client-balance service
(`TransactionServiceImpl`). The engine keeps two tables of transaction
records, credits and debits. Every record has an id, a client id, a business
time, a positive amount, an insert time, a reverted flag and an optional
revert time (the shape in `Models/CreditTransaction.cs`). The engine has four
operations:

- **ProcessCredit** validates a request. If the id is already a credit, it
  replays the stored answer. If the id is already a debit, it refuses it.
  Otherwise it inserts a new active credit.
- **ProcessDebit** does the same from the debit side. Before inserting, it also
  refuses a debit whose amount exceeds the client's current balance.
- **RevertTransaction** looks up the id among the credits, then among the
  debits. It marks an active record reverted at the current time, replays an
  already-reverted one, and fails when the id is in neither table.
- **GetBalance** returns a client's active credits minus the client's active
  debits.

Layout, one module per file:

- `wrappers.dfy` (`Wrappers`): `Option` and `Result`.
- `transactions.dfy` (`Transactions`): the record, request, response and error
  types; request validation; lookup by id (`IndexOf`); the per-record
  invariant and the "record only evolves" relation.
- `balance.dfy` (`Balance`): the balance as the source computes it, which is a
  filter (`ActiveOf`) followed by a sum (`SumAmounts`). It also holds an
  independent fold, `Tally`, with lemmas for how an append or a revert moves
  the balance.
- `ledger.dfy` (`Ledger`): each operation as a pure function from the store
  (both tables) to the new store and the answer. `WellFormed` is the store
  invariant: every record is well formed, and ids are unique across both tables
  combined.
- `ledger_properties.dfy` (`LedgerProperties`): the properties the engine
  promises, as lemmas over those functions.
- `service.dfy` (`Service`): the service as a class. The two tables are `seq`
  fields. Its methods update the fields step by step, in the order the source
  does. Each method is proved to produce exactly the store and answer of the
  matching `Ledger` function, and to keep `Valid()`.

Modelling choices:

- Ids are integers, timestamps are integer ticks, and amounts are integer cents
  (the columns are decimal(18,2)).
- The clock becomes a `now` parameter. It is used both for the future-date
  check and for the insert or revert time.
- The service's exceptions become `Error` values. `ArgumentException` becomes
  `Validation` or `NotFound`. `InvalidOperationException` becomes `CrossType`
  or `InsufficientFunds`.
- Three behaviours of the code are kept as written:
  - A credit or debit replay answers with the balance of the client named in
    the *request*, not the client of the stored record.
  - The stored record's fields are not compared with the request.
  - Validation runs before the replay check, so a replayed request with a
    non-positive amount is refused.

## Model

| member | source | states |
|---|---|---|
| Transactions.Validate | Services/TransactionService.cs:263-270 | a request passes exactly when its amount is positive and its business time is not after `now`; a non-positive amount is reported first, a future date only when the amount is fine |
| Transactions.NewRecord | Services/TransactionService.cs:59-67 | the record a validated request creates is well formed and active (the debit side builds the same record at :129-137) |
| Transactions.Reverted | Services/TransactionService.cs:181-182 | the reverted copy has the flag set and revert time `now`; an active record keeps its id, client, business time, amount and insert time; a well-formed record stays well formed (the debit side is :213-214) |
| Transactions.IndexOf | Services/TransactionService.cs:35-44 | the result is the first position holding the id, or none exactly when no record holds it (`AnyAsync` / `FirstAsync`) |
| Balance.ActiveOf | Services/TransactionService.cs:251-258 | the filter keeps exactly the records of the client that are not reverted, and never grows the table |
| Balance.SumAmounts | Services/TransactionService.cs:253 | a sum of positive amounts is non-negative, and positive when the sequence is non-empty |
| Balance.CalculateClientBalance | Services/TransactionService.cs:248-261 | filter-then-sum over credits minus filter-then-sum over debits equals the credit fold minus the debit fold |
| Balance.SumActiveIsTally | Services/TransactionService.cs:250-258 | filter-then-sum over a table equals the fold of each record's contribution (its amount if active for the client, else 0) |
| Balance.TallyAppend | Services/TransactionService.cs:69 | appending a record changes a table's fold by exactly that record's contribution |
| Balance.TallyUpdate | Services/TransactionService.cs:181-182 | replacing one record changes the fold by the difference of the two records' contributions |
| Balance.ActiveSumAppend | Services/TransactionService.cs:69-72 | inserting a record raises its table's active total for client c by the amount if the record is c's, and leaves it unchanged otherwise |
| Balance.ActiveSumRevert | Services/TransactionService.cs:181-185 | reverting an active record lowers its own client's active total by its amount and leaves every other client's unchanged |
| Ledger.WellFormed | Models/CreditTransaction.cs:5-25 | no contract of its own: the store invariant (each record well formed, ids distinct per table and across both tables); it is stated as kept by the CreditPreservesWellFormed, DebitPreservesWellFormed and RevertPreservesWellFormed rows |
| Ledger.Credit | Services/TransactionService.cs:27-88 | a credit never touches the debits; it either leaves the store unchanged or appends exactly `NewRecord(request, now)` to the credits; every error leaves the store unchanged |
| Ledger.Debit | Services/TransactionService.cs:90-158 | a debit never touches the credits; it either leaves the store unchanged or appends exactly `NewRecord(request, now)` to the debits; every error leaves the store unchanged |
| Ledger.Revert | Services/TransactionService.cs:160-235 | the only error is NotFound and it changes nothing; no record is added or deleted, no record's id, client, business time, amount or insert time changes, and a reverted record never changes again |
| Ledger.GetBalance | Services/TransactionService.cs:237-246 | the answer is stamped `now` and its balance is the credit fold minus the debit fold |
| LedgerProperties.InvalidRequestRejected | Services/TransactionService.cs:30 | an invalid credit or debit is refused with its validation failure, whatever the store holds, and the store is unchanged (the debit's validation call is at :93) |
| LedgerProperties.CreditReplay | Services/TransactionService.cs:40-51 | a valid credit whose id is a stored credit changes nothing and answers with that record's insert time and the request client's current balance |
| LedgerProperties.DebitReplay | Services/TransactionService.cs:103-114 | the debit mirror of CreditReplay |
| LedgerProperties.CreditIdempotent | Services/TransactionService.cs:40-81 | after a successful credit, repeating it at a later time changes nothing and gives the same insert time and balance |
| LedgerProperties.DebitIdempotent | Services/TransactionService.cs:103-151 | the same for debits |
| LedgerProperties.CrossTypeExclusive | Services/TransactionService.cs:53-56 | on a well-formed store, a valid credit whose id is a debit fails with CrossType and changes nothing; the mirror holds for a debit whose id is a credit (also :116-119) |
| LedgerProperties.CreditInsert | Services/TransactionService.cs:59-81 | a valid credit with an unused id appends exactly one active record with the request's fields and insert time `now`; it answers `now` and the old balance plus the amount; no other client's balance moves |
| LedgerProperties.DebitInsert | Services/TransactionService.cs:128-151 | a valid debit with an unused id and enough funds appends exactly one active record; it answers the old balance minus the amount, which is at least 0; no other client's balance moves |
| LedgerProperties.DebitInsufficientFunds | Services/TransactionService.cs:121-126 | for a valid debit with an unused id, it fails exactly when the balance is below the amount (equality passes); it then reports the balance and the amount and changes nothing |
| LedgerProperties.DebitNeverOverdraws | Services/TransactionService.cs:121-151 | every debit that inserts leaves its client with a balance of at least 0 |
| LedgerProperties.RevertActiveCredit | Services/TransactionService.cs:165-193 | reverting an active credit replaces just that record by its reverted copy with revert time `now`; the client's balance falls by the amount (possibly below 0); other clients are unaffected |
| LedgerProperties.RevertActiveDebit | Services/TransactionService.cs:197-225 | reverting an active debit replaces just that record; the client's balance rises by the amount; other clients are unaffected |
| LedgerProperties.RevertReplay | Services/TransactionService.cs:170-178 | reverting a reverted credit or debit changes nothing and answers with its stored revert time (also :202-210) |
| LedgerProperties.RevertNotFound | Services/TransactionService.cs:228 | revert fails with NotFound exactly when neither table holds the id, and a failed revert changes nothing |
| LedgerProperties.RevertIdempotent | Services/TransactionService.cs:160-226 | a second revert of the same id, at any time, changes nothing and gives the same revert time and balance as the first |
| LedgerProperties.CreditPreservesWellFormed | Services/TransactionService.cs:27-88 | every credit outcome keeps the store invariant: positive amounts, business time not after insert time, revert time present iff reverted, ids unique across both tables |
| LedgerProperties.DebitPreservesWellFormed | Services/TransactionService.cs:90-158 | the same for every debit outcome |
| LedgerProperties.RevertPreservesWellFormed | Services/TransactionService.cs:160-235 | the same for every revert outcome |
| LedgerProperties.RevertCanLeaveBalanceNegative | Services/TransactionService.cs:121-193 | credit 100, then debit 40, then revert the credit: balances 100, 60 and -40; a following debit of 1 fails with InsufficientFunds(-40, 1) |
| Service.TransactionService.constructor | Services/TransactionService.cs:21-25 | a service is built over the tables the injected database context already holds; given well-formed tables, it holds exactly those and satisfies the invariant |
| Service.TransactionService.ProcessCredit | Services/TransactionService.cs:27-88 | the new tables and the answer are exactly those of `Ledger.Credit` on the old tables; the invariant is kept |
| Service.TransactionService.ProcessDebit | Services/TransactionService.cs:90-158 | the new tables and the answer are exactly those of `Ledger.Debit` on the old tables; the invariant is kept |
| Service.TransactionService.RevertTransaction | Services/TransactionService.cs:160-235 | the new tables and the answer are exactly those of `Ledger.Revert` on the old tables; the invariant is kept |
| Service.TransactionService.GetBalance | Services/TransactionService.cs:237-246 | changes nothing; answers `now` and the client's balance, which equals the credit fold minus the debit fold |

## Left out

- Async/await, the EF Core queries and `SaveChangesAsync`. Each service method is one atomic step over in-memory tables.
- Concurrency. The source uses no transaction or lock around its check-then-insert, so races between concurrent requests are not modelled.
- The clock (`DateTime.UtcNow`) is a `now` parameter. The source reads it separately for validation and for the stored time; the model uses one reading per operation.
- Logging and the `catch` blocks that log and rethrow.
- The exception messages. Only the kind of error is modelled, plus the balance and amount for insufficient funds.
- The controller's mapping of exceptions to HTTP status codes, process start-up, dependency injection and migrations. `Controllers/TransactionController.cs` and `Program.cs` are not part of this model.
- The database schema. Only its per-table unique key on `Id` (Data/TransactionDbContext.cs:22-23 and :34-35) is used; it gives the `DistinctIds` part of `WellFormed`. The cross-table `DisjointIds` part is not a schema constraint: it comes from the engine's own existence checks (Services/TransactionService.cs:35-38, :53-56, :116-119).
- The DTO validation attributes. They repeat the positive-amount check that `Validate` performs.
- Decimal precision and range limits. Amounts and balances are unbounded integers.
- GUIDs are integers and timestamps are integer ticks.
- LedgerProperties.CreditIdempotent: treats the insert time of the first answer and of a replay as equal. In the source the first answer returns the in-memory `InsertDateTime` (Services/TransactionService.cs:79), while a replay reads it back from a `timestamp with time zone` column (Data/TransactionDbContext.cs:27-28, microsecond resolution; .NET ticks are 100 ns). The two may differ by less than a microsecond. The same holds for DebitIdempotent and for revert times in RevertIdempotent.
- The lifetime of the store. In the source the database outlives each service object, which is created per request scope (Program.cs:39). In the model one object holds the tables, and the constructor takes the tables the database currently holds.
- Change tracking and aliasing. The source mutates a tracked entity object in place; the model stores records as values and replaces the record in its table's sequence.
- `Models/DebitTransaction.cs` is not part of this model. A debit is taken to have the same shape as a credit, as the shared `ITransaction` interface and the identical schema configuration indicate.
- Ledger.Revert: requires the store invariant. On a replay the source dereferences `RevertDateTime!.Value`, which would throw only for a reverted record without a revert time. The invariant rules such a record out, and every service method keeps the invariant.
