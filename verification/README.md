# Verification of the matching service

The service attaches incoming deposits to withdrawal baskets. A basket collects deposits
until they reach its target exactly, or is paid short or closed when it expires. An
in-memory engine chooses the basket; a use case keeps the engine in step with the tables of
a database; an inbox keeps events from being processed twice; a lock keeps two instances
off one shard. This project models these four parts and proves what they are for.

`dafny verify dfyconfig.toml` checks everything.

## How the model is built

- **Engine.** `Basket`, `NeedIndex`, `Shard` and `Slices` are classes whose methods change
  their fields in place, as the source does: the sorted list of needs is shifted entry by
  entry, baskets are shared between the shard and the buckets of its index, the list of
  deposit numbers is filtered into its own backing array. `Pool` and `Buckets` say on values
  what these methods do; `Shard.Valid` ties the two together, so that the index always
  equals the one a plain scan of the baskets would build.
- **Tables.** `Tables` holds the database as a value and every transaction statement by
  statement. `Ledger` is the invariant; `Moves`, `Releases` and `Submits` show each
  transaction to be one move of money that keeps it; `Backstop` is what the statements
  guarantee whatever memory sends them, and `Stale` is what they do not.
- **System.** `System` is the state machine over tables and memory, with a crash after any
  commit as a step of its own. `Recovery` rebuilds memory from the tables. `Runs`,
  `Lifecycle` and `Books` prove the properties of whole runs; `Sweep`, `Batches` and
  `Interleaved` those of one sweep, of many sweeps with a limit, and of a sweep whose items
  come between other events.
- **Outcomes.** `Outcomes`, `MinAmount.MinimumIsShare`, `Pool.OutcomeReplies` and
  `ShardLock.GrantedFor` say what the operations come to in columns, result fields, status
  codes and numbers alone, without a function that the operations are built from.
- **Use case.** `Shards` and `Usecase` are the process itself: shard objects by key, made on
  first use, and the methods and loops of the use case, each proved to do what `System`,
  `Recovery` and `Sweep` say. `ShardKey` says when shards kept by text are shards kept by pair.
- **Protocols.** `EventInbox` and `ShardLock` are interleaved steps of any number of workers
  or lock holders, with lost answers and crashes.
- **Limits.** `Limits` holds concrete inputs on which a condition proved necessary elsewhere
  really fails.

## Premises

The code does not check these, so they are hypotheses of the theorems. Where a premise is
about one step, the member named with it proves that it is exactly what the step needs.

- A created basket has status 0 or Waiting and current amount 0 (`Outcomes.CreateWaits`). The
  message path copies both from the message (internal/service/consumer.go:87-88).
- A created basket expires at a whole millisecond (`Outcomes.CreateWaits`). A message carries
  nanoseconds (internal/service/matching.go:121-126), the column keeps milliseconds
  (scripts/mysql/001_init_schema.sql:37), and the shard keeps the object that was written.
- The product of target and rate, plus 9999, fits 64 bits (`MinAmount.TestExact`). Only then
  does an expiry compare with the minimum; the theorems about expiries and records state the
  comparison with the wrapped minimum in general and with the minimum itself under this
  bound. Without it a basket may be paid almost nothing (`Limits.PaidAlmostNothing`).
- A new order does not claim to be Locked or Matched. A deposit sent again is attached only
  while its stored order is Waiting and has the same amount and shard (`System.SubmitExact`).
- One instance owns a shard, except in `Backstop` and `Stale`, where results may come from any
  memory at all. More instances would need the same belief about a basket
  (`Stale.ResultExact`, `Limits.TwoInstances`, `Limits.CompletedBlind`).
- A step of the state machine is one operation on one shard. `System.StoredResult` covers tables
  that change between the storing of a deposit and its commit, as the expiry of waiting
  deposits takes no lock (`Limits.ExpiredBetween`). `Sweep.SweepEndsAll` and
  `Batches.EnoughSweeps` are about sweeps that nothing interrupts; `Interleaved.NothingLeft` is
  about one whose items come between other events. There an item may find its deposit settled
  in the meantime, which the code treats as an error (`Interleaved.LockedItem`,
  `Limits.SettledBetween`).
- Start-up is not cut off by its limit (`Recovery.StartUp`), and match numbers are new
  (`Sweep.SweepEndsAll`).
- Channels contain no colon (`ShardKey.RunRefines`, `Limits.SharedKey`).
- A critical section ends within the time to live it asked for (`ShardLock.Exclusion`).

## Where code and documentation differ

- The comment on the basket status column says 4 is expired and 5 is cancelled
  (scripts/mysql/001_init_schema.sql:36); the code writes 5 for an expired basket. The model
  follows the code.
- The README of the repository says that an expired basket that has reached the minimum is
  paid short (README.md:75). The code decides on the row it read at the start of the phase, and closes
  a basket that reached the minimum in between (`Releases.ExpiryIs`, `Limits.ReadTooEarly`).
- It says that a shard lock protects several instances (README.md:68). It does not
  bring the memory of an instance up to date (`Limits.TwoInstances`).
- The engine prefers the earliest expiry among baskets of one need, but looks at 32 of them in
  map order (`Pool.TieBreakGlobal`).
- Deposits that found no basket are remembered, but nothing reads them again.

## Model

| member | source | states |
|---|---|---|
| MinAmount.LeastSufficient | internal/biz/matching.go:713-731 | the minimum is the least amount whose share reaches the clamped rate, lies in 1..target, and comparing with it is the exact ratio test |
| MinAmount.MinimumIsShare | internal/biz/matching.go:713-731 | an amount reaches the minimum if and only if 10000 times the amount is at least the target times the configured rate, where 3000 stands for a rate of 0 or less and 10000 for one above 10000 |
| MinAmount.WrapIs | internal/biz/matching.go:719 | 64-bit arithmetic is exact on 64-bit values and repeats every 2^64 |
| MinAmount.QuotientIs | internal/biz/matching.go:719 | division goes to the next integer on the side of zero |
| MinAmount.Monotone | internal/biz/matching.go:713-731 | a larger target or rate never lowers the minimum |
| MinAmount.Int64Exact | internal/biz/matching.go:713-720 | on 64-bit integers the result is exact if and only if the numerator fits |
| MinAmount.TestExact | internal/biz/matching.go:475-493 | the test on the wrapped minimum agrees with the test on the minimum for every amount below the target if and only if the numerator fits, and then for every amount |
| MinAmount.PaysIsMinimum | internal/biz/matching.go:475-493 | where the numerator fits, what passes the test is exactly what reaches the minimum, an amount of zero included |
| MinAmount.PaysIsShare | internal/biz/matching.go:475-493 | an amount passes the 64-bit test if and only if it is the configured share of the target, as long as target times share plus 9999 fits 64 bits |
| MinAmount.SafeTargets | internal/biz/matching.go:713-731 | no rate overflows if and only if the target is at most 922337203685476 |
| Buckets.AddRefines | internal/engine/index.go:47-58 | adding leaves the index equal to a plain scan if and only if the number was absent or filed under the same need |
| Buckets.RemoveRefines | internal/engine/index.go:124-140 | removing leaves the index equal to a plain scan if and only if the need is the one the number is filed under |
| NeedIndex.Search | internal/engine/index.go:99 | the binary search returns the boundary between entries that fail and entries that satisfy a monotone test |
| NeedIndex.OneOrder | internal/engine/index.go:33 | a set of needs has only one ascending list |
| NeedIndex.BucketNeedIndex.InsertNeed | internal/engine/index.go:113-121 | the shifted list is strictly ascending and gained exactly the need |
| NeedIndex.BucketNeedIndex.DeleteNeed | internal/engine/index.go:136-139 | the list stays strictly ascending and lost exactly the need |
| NeedIndex.BucketNeedIndex.RemoveFromNeed | internal/engine/index.go:124-140 | buckets, lookup and needs change together; an emptied bucket and its need disappear |
| NeedIndex.BucketNeedIndex.Add | internal/engine/index.go:47-58 | a waiting basket is filed under its need; the index agrees with the scan exactly when it was not filed under another need |
| NeedIndex.BucketNeedIndex.Remove | internal/engine/index.go:61-70 | the number disappears from the index, under whatever need it was filed |
| NeedIndex.BucketNeedIndex.Update | internal/engine/index.go:73-79 | the basket moves from its old need to its present one, or leaves the index when it no longer waits |
| NeedIndex.BucketNeedIndex.FindCompletable | internal/engine/index.go:82-94 | distinct baskets of exactly this need, in any order; below the limit none is missed |
| NeedIndex.BucketNeedIndex.FindAcceptable | internal/engine/index.go:97-110 | distinct baskets of larger need; whatever is missed has no smaller need than any found, and nothing is missed below the limit |
| Basket.Basket.AttachDeposit | internal/engine/basket.go:68-71 | the amount grows by the deposit and its number is appended, through the slice; nothing else changes |
| Basket.Basket.Release | internal/engine/shard.go:71-76 | the amount shrinks but not below zero and the number is filtered out by the in-place filter of the slice, order kept |
| Slices.Slice.Append | internal/engine/basket.go:68-71 | appending writes into the backing array or a larger copy, with the content extended by one number |
| Slices.Slice.RemoveDepositNo | internal/engine/shard.go:223-231 | the filter that overwrites its own backing array yields the order-preserving filter of the old list |
| Slices.FilterStep | internal/engine/shard.go:225-229 | one round of that filter: the kept prefix never overtakes the entry being read |
| Slices.Slice.HandedOut | internal/engine/shard.go:160-194 | a list of numbers handed out in a result keeps its content through every later append and removal |
| Pool.AttachThenRelease | internal/engine/shard.go:62-78 | on values: releasing what was just attached gives the same pool back if and only if the amount was not negative and the deposit not listed before |
| Pool.ReleasedIs | internal/engine/shard.go:62-78 | a release lowers the amount of one basket, not below zero, takes the number out of its list in place, and changes nothing else |
| Shard.Shard.AttachAndRelease | internal/engine/shard.go:62-78 | the same on the shard: attaching and releasing brings back every basket, the order of the other deposits, every bucket, the lookup and the sorted needs |
| Pool.CommitThenApply | internal/engine/shard.go:87-118 | a failing commit changes nothing; a successful one leaves the basket with exactly the amount and numbers the callback saw, or gone when complete; the basket has the least sufficient need of all |
| Pool.ChoiceExists | internal/engine/shard.go:100-117 | some basket can be chosen if and only if some live basket has room |
| Pool.TieBreakGlobal | internal/engine/shard.go:121-135 | every possible scan of 32 candidates yields a globally preferred basket if and only if fewer than 32 baskets of that need are not preferred; buckets of at most 32 always qualify |
| Pool.ChosenSuits | internal/engine/shard.go:100-157 | the basket chosen has room, lacks the least of all that have, and among up to 32 that lack as much expires first, with the fewest deposits among those that expire with it |
| Pool.OutcomeReplies | internal/engine/shard.go:87-118 | field by field: a waiting deposit is pending if and only if no waiting basket has room, else attached to a basket that suits, and matched if and only if it fills it; every other deposit is turned down with its reason; a result without a basket is blank; it fails if and only if a callback refuses |
| Shard.Shard.AddBasket | internal/engine/shard.go:37-46 | the basket is held; the index stays right exactly when no live basket of that number had another need |
| Shard.Shard.RemoveBasket | internal/engine/shard.go:49-59 | the basket leaves the shard and its index |
| Shard.Shard.ReleaseDeposit | internal/engine/shard.go:62-78 | the shard holds the released pool and its index has followed |
| Shard.Shard.SameIndex | internal/engine/index.go:32-36 | a shard back at the same content has the same buckets, lookup and sorted needs again |
| Shard.Shard.BestCompletable | internal/engine/shard.go:121-135 | an exact fit, preferred among a possible scan; none only when no live basket has exactly this need |
| Shard.Shard.LeastCandidate | internal/engine/shard.go:138-157 | the first candidate has the least need above the amount among all live baskets, in spite of the cut-off, and the candidates of that need are a possible scan |
| Shard.Shard.BestAcceptable | internal/engine/shard.go:138-157 | the least larger need of all live baskets; none only when no live basket needs more |
| Shard.Shard.Choose | internal/engine/shard.go:100-117 | the choice has the least sufficient need of all, and is missing exactly when nothing fits |
| Shard.Shard.ApplyComplete | internal/engine/shard.go:197-202 | the completed basket leaves shard and index |
| Shard.Shard.ApplyWait | internal/engine/shard.go:205-209 | the basket takes the deposit and moves in the index |
| Shard.Shard.BuildResult | internal/engine/shard.go:160-194 | the result repeats the basket and lists its numbers with the new one |
| Shard.Shard.MatchDepositWithCommit | internal/engine/shard.go:87-118 | result, pool and pending deposits are those of matching on values for a legal choice; the result says field by field what became of the deposit; a failed commit leaves every field unchanged |
| Rows.ReleasedActive | internal/biz/matching.go:386-391 | releasing one deposit filters the recovered list of its basket, order kept, and no other list |
| Rows.ActiveIsAttached | internal/biz/matching.go:672-690 | in a basket without matched rows the list recovery reads is the list a completion reads |
| Backstop.StaleResult | internal/biz/matching.go:541-642 | any match result, even from a stale shard, is rolled back or leaves one record per matched basket and attached rows only on waiting baskets |
| Backstop.StaleExpiry | internal/biz/matching.go:427-507 | the same for the expiry of a basket with any row read |
| Backstop.StaleRelease | internal/biz/matching.go:370-403 | the same for the release of a deposit |
| Backstop.StaleInsert | internal/biz/matching.go:95-100 | a new basket keeps that if and only if it is not born matched |
| Backstop.AlwaysGuarded | internal/biz/matching.go:541-642 | the same over every run of transactions with results computed from any memory |
| Ledger.LockedIsAttached | internal/biz/matching.go:451-462 | an order is locked in a basket if and only if an attached row links it there |
| Ledger.MatchedIsStanding | internal/biz/matching.go:658-665 | an order is matched in a basket if and only if a matched row links it there |
| Ledger.WaitingRows | internal/biz/matching.go:672-690 | a waiting basket has no matched rows and no record |
| Moves.LockKeeps | internal/biz/matching.go:554-589 | attaching a waiting order of the same shard and amount keeps the invariant |
| Moves.SharesAtOnce | internal/biz/matching.go:610-614 | the loop over the deposits of a result pays each exactly once |
| Moves.CompletedIsSettle | internal/biz/matching.go:592-642 | completing a waiting basket is one settlement of all its attached rows, and fails only on a used match number |
| Moves.SettleKeeps | internal/biz/matching.go:592-669 | settling keeps the invariant: the record balances, orders and rows become matched together |
| Releases.ReleaseFinds | internal/biz/matching.go:370-403 | the release finds its row if and only if the order is locked, and the amount never has to be cut off at zero |
| Releases.ReleaseKeeps | internal/biz/matching.go:370-403 | releasing a locked deposit keeps the invariant |
| Releases.CloseKeeps | internal/biz/matching.go:436-466 | closing a basket keeps the invariant: its rows and its locked orders are the same deposits |
| Releases.ExpiryIs | internal/biz/matching.go:427-507 | for any earlier read of the row, the expiry pays short exactly when both the row read and the rows found pass the test, and closes otherwise; where the numerator fits, the rows pass it exactly when their sum reaches the minimum |
| Outcomes.WaitingLeaves | internal/biz/matching.go:333-336 | the order changes from status 1 to 5, or nothing does |
| Outcomes.ReleaseLeaves | internal/biz/matching.go:370-403 | in any tables: it fails if and only if there is no attached row; else the first one names the basket, whose amount does not fall below zero, and order and rows follow |
| Outcomes.CloseLeaves | internal/biz/matching.go:436-466 | only a waiting basket is closed; its attached rows are released and its locked orders expire |
| Outcomes.SettlePays | internal/biz/matching.go:592-669 | a payment sets status 3 and the match number in basket and locked orders, and leaves one record of the amount and one share for each of them |
| Outcomes.ExpiryLeaves | internal/biz/matching.go:427-507 | a waiting basket is paid out if 10000 times what it holds is at least its target times the configured rate, else closed |
| Outcomes.ExpirySkips | internal/biz/matching.go:427-472 | a basket that does not wait is left alone |
| Releases.ChecksAgree | internal/biz/matching.go:475-477 | with the row as it is in the table the pre-check on the amount and the re-check on the rows agree |
| Releases.ExpiryKeeps | internal/biz/matching.go:427-507 | expiring a basket keeps the invariant, whatever earlier read of the row it uses |
| Recovery.RecoverSyncs | internal/biz/matching.go:127-144 | recovery builds exactly the waiting baskets of the tables |
| Recovery.RecoverLocked | internal/biz/matching.go:309-320 | recovering after an attachment is attaching in memory |
| Recovery.RecoverLeft | internal/biz/matching.go:309-320 | recovering after a basket stopped waiting is removing it from memory |
| Recovery.RecoverReleased | internal/biz/matching.go:309-320 | recovering after a release is releasing in memory, with the order of the other deposits |
| Recovery.StartUp | internal/biz/matching.go:127-144 | start-up rebuilds all of memory if and only if its limit does not cut the query off |
| Submits.SaveKeeps | internal/biz/matching.go:527-538 | storing a deposit keeps the invariant if and only if it exists or does not claim to be locked or matched |
| Submits.PersistIs | internal/biz/matching.go:541-551 | the transaction of a placed deposit fails only on a unique key, and otherwise attaches or settles |
| Submits.CommittedMoves | internal/biz/matching.go:541-642 | a committed result is one attachment, followed by one settlement when it completes, and keeps the invariant |
| Stale.SharesCommit | internal/biz/matching.go:645-669 | the loop over deposits commits if and only if each is known, named once and not paid yet |
| Stale.ResultExact | internal/biz/matching.go:541-669 | a result from any memory, once committed, leaves the tables in order if and only if it names exactly the attached deposits and the new one, its amount is their sum, its columns are those of the basket, and the order can be attached |
| Stale.CommitsExactly | internal/biz/matching.go:541-669 | any result commits if and only if its deposit has no row, its basket waits and, for a completion, match number and basket have no record yet and each named deposit is known, named once and unpaid |
| Submits.CommittedBreaks | internal/biz/matching.go:579-585 | a result committed for an order that is not attachable breaks the invariant, because the order update ignores how many rows it hit |
| System.InsertSyncs | internal/biz/matching.go:95-105 | memory is in step with a new row if and only if the column holds its expiry unchanged |
| System.CreateExact | internal/biz/matching.go:75-106 | creating keeps tables and memory right and in step if and only if an inserted basket waits, is empty, and expires at a whole millisecond |
| Outcomes.ColumnIs | scripts/mysql/001_init_schema.sql:37 | a column holds the nearest millisecond, the later one of two |
| Outcomes.CreateLeaves | internal/biz/matching.go:75-106 | a basket is stored and enters its shard, status 0 as 1, if and only if its columns are fit and both its numbers unused; otherwise nothing changes |
| Outcomes.CreateWaits | internal/biz/matching.go:75-106 | it keeps tables and memory right if and only if its status is 0 or 1, it is empty and expires at a whole millisecond, and it then waits in row and shard |
| System.SubmitExact | internal/biz/matching.go:200-217 | submitting keeps tables and memory right and in step if and only if the deposit is allowed |
| Outcomes.DefaultsAre | internal/biz/matching.go:767-775 | a missing number is generated and a missing expiry is 1800 seconds from now; nothing else is filled in |
| Outcomes.SubmitStores | internal/biz/matching.go:147-162 | without a basket an unfit deposit changes nothing, a known order stays as it is, and a new one is stored, status 0 as 1 |
| Outcomes.SubmitJoins | internal/biz/matching.go:200-217 | a new deposit with a basket gets status 2, its row and its amount in the basket; when that fills the basket, record, shares, rows and all its locked orders are those of a payment in full |
| Outcomes.AnswerTold | internal/biz/matching.go:200-217 | an error comes with a blank result, and only for an unfit deposit or one that found a basket and was not stored; else the answer is the one of the engine |
| System.StoredResult | internal/biz/matching.go:200-217 | a committed result keeps both right, whatever the orders have become since the deposit was stored, if and only if its order can still be attached then; an expiry that came in between breaks it |
| Runs.WaitingGood | internal/biz/matching.go:333-346 | expiring a waiting deposit keeps tables and memory in step |
| Runs.LockedGood | internal/biz/matching.go:368-406 | releasing a locked deposit keeps tables and memory in step |
| Runs.ExpiryGood | internal/biz/matching.go:427-472 | expiring a basket keeps tables and memory in step |
| Runs.StepGood | internal/biz/matching.go:75-106 | every allowed step keeps the invariant and keeps memory equal to what recovery would build |
| Runs.CrashLosesNothing | internal/biz/matching.go:200-217 | a crash between commit and memory update, followed by recovery, ends in the same tables and the same shards as the step itself |
| Runs.ReachableGood | internal/biz/matching.go:127-144 | every state of every allowed run has its tables in order and its memory in step with them |
| Runs.ReachableAmounts | internal/biz/matching.go:386-403 | in every reachable state a waiting basket holds less than its target and exactly what its attached rows add up to, in tables and memory, and covers each of its locked orders |
| Lifecycle.RunForward | internal/biz/matching.go:333-346 | in every run, also one with disallowed messages, orders, baskets and rows only move forward and end states, records and shares are final |
| Books.RecordBalances | internal/biz/matching.go:592-669 | matched plus short is the target, and matched is the total of the shares of the record |
| Books.BooksBalance | internal/biz/matching.go:541-669 | waiting amounts plus matched amounts equal the amounts of locked and matched orders |
| Books.NewRecord | internal/biz/matching.go:480-507 | a record made by a deposit is paid in full, one made by an expiry is paid short, by less than the target and by what passes the test, which is at least the minimum where the numerator fits, and no other step makes one |
| Books.ReachableBooks | internal/biz/matching.go:368-472 | in every reachable state the books balance, and each record balances and is paid in full or paid short by what passes the test, at least the minimum where the numerator fits |
| Sweep.Covered | internal/biz/matching.go:323-332 | a limit that is not exceeded lists every due row |
| Sweep.WaitingPhaseIs | internal/biz/matching.go:323-346 | the loop over waiting deposits expires exactly the listed ones that still wait |
| Sweep.LockedPhaseIs | internal/biz/matching.go:350-365 | from a good state the loop over locked deposits never fails and releases exactly the listed ones |
| Sweep.LockedStops | internal/biz/matching.go:350-375 | from any state the loop stops with an error if and only if a listed deposit has no order or no attached row |
| Sweep.SurvivingIs | internal/biz/matching.go:682-690 | what is attached to a basket after the due deposits are gone is the sum of its deposits that are not due |
| Sweep.BasketPhaseIs | internal/biz/matching.go:409-424 | with new match numbers the loop over baskets never fails and ends every listed basket by its own rows |
| Sweep.SweepEndsAll | internal/biz/matching.go:255-276 | an uninterrupted sweep with a covering limit does not fail and leaves nothing due; a due basket is matched if and only if its surviving amount passes the test, which is reaching the minimum where the numerator fits, else expired; what becomes of every basket, row and order is stated in full |
| Outcomes.SweepLeaves | internal/biz/matching.go:255-276 | in codes and numbers: no order of status 1 or 2 and no basket of status 1 is left that is due, waiting ones that are not due are untouched, and a due basket is paid if and only if its deposits that are not due make up the configured share |
| Outcomes.SweepStops | internal/biz/matching.go:262-268 | from any state a listed deposit without order or attached row makes the sweep fail before any basket ends |
| Batches.BatchGetsOn | internal/biz/matching.go:255-276 | an uninterrupted sweep with any limit does not fail, keeps tables and memory in step, and makes each of the three counts of due rows smaller by the limit, or zero |
| Batches.EnoughSweeps | internal/server/worker.go:27-60 | as many sweeps as it takes for the limit to cover what is due leave nothing due |
| Interleaved.StepDueOrder | internal/biz/matching.go:323-332 | no step that stores nothing due makes a waiting order due, and a due locked order was due before |
| Interleaved.LockedItem | internal/biz/matching.go:368-375 | the item of a listed deposit is an error if and only if the deposit is no longer locked, and leaves it not locked in either case |
| Interleaved.NothingLeft | internal/biz/matching.go:255-276 | a sweep whose items are interleaved, in any order, with any allowed events leaves nothing due, and tables and memory in step, once each listed item came and each basket item succeeded |
| Shards.Directory.GetShard | internal/biz/matching.go:518-525 | a shard is made on first use and nothing else changes |
| Shards.Directory.MatchDeposit | internal/biz/matching.go:206-211 | matching changes one shard, by what the engine computes for a legal choice, and leaves the others alone |
| Shards.Directory.AddBasket | internal/biz/matching.go:105 | a new basket object enters one shard |
| Shards.Directory.ReleaseDeposit | internal/biz/matching.go:404 | a deposit is released in one shard |
| Shards.Directory.RemoveBasket | internal/biz/matching.go:469 | a basket leaves one shard |
| ShardKey.Unshared | internal/biz/matching.go:734-736 | the text key of a pair belongs to no other pair if and only if neither part contains a colon |
| ShardKey.PlainChannels | internal/biz/matching.go:734-736 | channels without a colon never share a key |
| ShardKey.RunRefines | internal/biz/matching.go:518-525 | over every run of operations on pairs whose channels have no colon, shards kept by text hold what shards kept by pair hold, each made for its own pair |
| ShardKey.AloneExactly | internal/biz/matching.go:518-525 | no operation on another pair is ever seen by a pair if and only if neither its channel nor its currency has a colon |
| Usecase.BuildPartialMatchResult | internal/biz/matching.go:692-711 | the accumulating loop yields the attached numbers in id order and their sum |
| Usecase.PersistMatchedDeposits | internal/biz/matching.go:610-614 | the loop stops at the first failing deposit and then rolls back, else pays all |
| Usecase.PersistCompletedMatch | internal/biz/matching.go:592-642 | the completing transaction, step by step, is the one of the table model |
| Usecase.PersistMatchResult | internal/biz/matching.go:541-551 | the transaction of the commit callback is the one of the table model |
| Usecase.RebuiltBasket | internal/biz/matching.go:310-318 | the rebuilt object has the columns of its row and its active deposits in id order |
| Usecase.MatchingUsecase.RestoreBasket | internal/biz/matching.go:309-320 | the rebuilt object enters the shard of its row |
| Usecase.MatchingUsecase.CreateBasket | internal/biz/matching.go:75-106 | tables and shards become what the state machine says; it fails exactly on an unfit basket or a used number and then changes nothing, else row and shard hold the basket with status 1 for 0; the shards stay right unless a live basket of that number is there under another need |
| Usecase.InStepNotRefiled | internal/biz/matching.go:95-105 | memory in step with the tables never holds a number the tables do not use |
| Usecase.MatchingUsecase.SubmitDepositLocked | internal/biz/matching.go:200-217 | tables and shards become what the state machine says, for the basket the engine chose; the caller gets the engine's result, or an error with an empty one |
| Usecase.MatchingUsecase.SubmitDeposit | internal/biz/matching.go:147-162 | the same after defaults (a generated number, half an hour) and validation; the answer is blank with an error, else says field by field what the engine found on the baskets its shard held |
| Usecase.MatchingUsecase.ExpireLockedDeposit | internal/biz/matching.go:368-406 | the release in tables and shard, or an error that changes nothing when there is no row |
| Usecase.MatchingUsecase.CompleteExpiredBasket | internal/biz/matching.go:480-507 | short payment, skip or failure as in the table model |
| Usecase.MatchingUsecase.ExpireBasket | internal/biz/matching.go:427-472 | the expiry in tables and shard; from tables in order a waiting basket is paid out if what it holds is the configured share of its target, else closed |
| Usecase.MatchingUsecase.ExpireWaitingDeposits | internal/biz/matching.go:323-346 | the loop is the first phase of the sweep |
| Usecase.MatchingUsecase.ExpireLockedDeposits | internal/biz/matching.go:350-365 | the loop, with its stop at the first error, is the second phase |
| Usecase.MatchingUsecase.ExpireBaskets | internal/biz/matching.go:409-424 | the loop, with its stop at the first error, is the third phase |
| Usecase.MatchingUsecase.ExpireTimeouts | internal/biz/matching.go:255-276 | the three phases in order, each over what its query finds in the tables as the phases before left them, are the sweep; from a good state with a covering limit it does not fail and ends everything that is due |
| Usecase.MatchingUsecase.RecoverActiveBaskets | internal/biz/matching.go:127-144 | the loop restores the loaded baskets, and memory is in step with the tables if and only if the limit cut nothing off |
| EventInbox.EventInboxRepo.TryCreateProcessing | internal/data/event_inbox_repo.go:22-38 | insert if absent; reports creation only when answered |
| EventInbox.EventInboxRepo.RetryFailed | internal/data/event_inbox_repo.go:49-59 | compare-and-set from failed to processing |
| EventInbox.EventInboxRepo.MarkSucceeded | internal/data/event_inbox_repo.go:62-67 | unguarded final write |
| EventInbox.EventInboxRepo.MarkFailed | internal/data/event_inbox_repo.go:70-78 | unguarded final write with the error message |
| EventInbox.EventInboxRepo.BeginEvent | internal/biz/matching.go:279-306 | without interference and faults an event is let through exactly when it is new or has failed, and with faults only then; a new row holds topic and business number, by default the event number; a retried one keeps them and loses its error; it is what the steps of one worker come to when nobody interferes |
| EventInbox.EventInboxRepo.ProcessEvent | internal/biz/matching.go:220-252 | the business call happens only behind the gate and the event ends with its outcome, its error message, topic and business number, unless the final write is lost; the same steps as those of a worker alone |
| EventInbox.Exclusive | internal/biz/matching.go:279-306 | over all interleavings, crashes and lost answers: at most one worker per event is in its business phase, the event is then processing, and the business succeeds at most once |
| EventInbox.SuccessIsFinal | internal/data/event_inbox_repo.go:62-78 | a succeeded event never changes again although the final writes check no status |
| EventInbox.CanBeTaken | internal/biz/matching.go:279-306 | an event nobody holds can be taken again if and only if it is new or has failed |
| EventInbox.LostWriteBlocks | internal/biz/matching.go:248-251 | an event whose worker was lost before its final write stays processing in every continuation |
| ShardLock.WaitLock | pkg/toolbox/redisx/lock.go:48-66 | the lock is acquired exactly when a grant comes before any error and before the context ends |
| ShardLock.GrantedFor | pkg/toolbox/redisx/lock.go:32-66 | a caller that is let in holds the key under its token from now on for the time it asked for, or 30000 ms when it asked for none |
| ShardLock.AskedFor | pkg/toolbox/redisx/lock.go:32-66 | in every run a caller waits or stays with the time its own call asked for, and is inside since the turn that let it in |
| ShardLock.GrantsApart | pkg/toolbox/redisx/lock.go:32-46 | of two callers inside one key the one came in when the time the other had asked for was over |
| ShardLock.OneOnTime | pkg/toolbox/redisx/lock.go:32-46 | over all interleavings two callers inside one key are never both within the time they asked for |
| ShardLock.Exclusion | pkg/toolbox/redisx/lock.go:32-46 | when nobody stays longer than it asked for, half a minute by default, at most one caller is inside a key |
| ShardLock.ReleaseIsOwn | pkg/toolbox/redisx/lock.go:13-18 | a release, however late, removes its own entry and never that of another caller |
| ShardLock.Enters | pkg/toolbox/redisx/lock.go:48-66 | a waiting caller gets in if and only if no entry is live, and is then on time |
| ShardLock.JoinsLate | pkg/toolbox/redisx/lock.go:32-66 | with one caller inside, a waiting one joins it if and only if no entry is live, and then the first has overstayed |
| ShardLock.LateOverlap | pkg/toolbox/redisx/lock.go:32-46 | a concrete run in which a caller that overstays is joined by another |
| Limits.OverflowsInt64 | internal/biz/matching.go:713-720 | the first target on which the minimum overflows |
| Limits.PaidAlmostNothing | internal/biz/matching.go:475-507 | at the full rate a basket of that target that holds 1 is paid 1 when it expires and is short of the rest |
| Limits.FiledTwice | internal/engine/index.go:47-58 | a number added again under another need is in two buckets |
| Limits.AttachedTwice | internal/engine/shard.go:223-231 | a deposit attached twice is released twice |
| Limits.BornFilled | internal/service/consumer.go:77-95 | a basket whose message brings an amount has no rows for it |
| Limits.BornMatched | internal/service/consumer.go:77-95 | a basket whose message says matched has no record |
| Limits.BornLocked | internal/biz/matching.go:350-375 | an order whose message says locked has no row, which by Sweep.LockedStops makes the sweep stop at it with an error |
| Limits.SentAgain | internal/biz/matching.go:527-533 | a deposit sent again after it expired is attached while its order stays expired |
| Limits.ExpiredBetween | internal/biz/matching.go:200-217 | a deposit is stored, expires, and is then attached by the commit that was under way |
| Limits.SettledBetween | internal/biz/matching.go:350-375 | a sweep lists a deposit, another one completes its basket, and the sweep stops at the first with an error, with tables and memory in order |
| Limits.ReadTooEarly | internal/biz/matching.go:409-435 | a basket that reached the minimum is closed because the sweep had read it earlier |
| Limits.TwoInstances | internal/biz/matching.go:568-578 | a second instance that missed a deposit stores a wrong amount, and the guard on the status lets it |
| Limits.CompletedBlind | internal/biz/matching.go:592-642 | it may also complete the basket without that deposit, whose row is then matched and whose order stays locked, and every sweep that meets it stops |
| Limits.FineExpiry | internal/biz/matching.go:95-105 | a basket that expires between two milliseconds has one expiry in its shard and another in its row |
| Limits.CutOff | internal/biz/matching.go:127-136 | a start-up limit of one loses one of two baskets |
| Limits.ScanMisses | internal/engine/index.go:82-94 | among 33 or more baskets of one need a scan can miss the only one that expires early |
| Limits.SharedKey | internal/biz/matching.go:518-525 | a shard shared by two pairs gives a deposit of the one a basket of the other, which the transaction stores and which breaks the invariant, and turns down every deposit of the other pair |

## Left out

- Amounts are unbounded integers, except in the minimum (MinAmount), which the tables compute on 64 bits; a sum the engine forms never exceeds the target of a waiting basket, so the 64-bit sums of the source do not wrap where a basket is chosen.
- Negative and zero amounts reach only the engine, never the use case (internal/biz/matching.go:808); the best-fit clauses speak of positive amounts.
- The commit callback is a pure answer in the engine; the use case stores the result right after the engine returns. Nothing reads the tables in between.
- Basket.Basket.AttachDeposit: a basket keeps the content of its list and copies it into a slice to change it; that the slice would be kept between two changes, with spare room, is in Slices only.
- Shard.Shard.First: picks the first candidate of the order; the stable sort of the remaining candidates, which nothing reads, is not modelled.
- EventInbox.EventInboxRepo.ProcessEvent: one method for deposits and withdrawals, with the business call as a parameter; the check for a missing payload is left out.
- Column rounds to the nearest millisecond; what a driver may cut off below a microsecond before that is not modelled.
- Row ids are positions in a sequence; where two due rows have the same expiry the order among them is left open.
- The number of rows an update reports is taken as the number it selects; the driver's other setting, rows actually changed, is not modelled.
- Case-insensitive comparison of numbers by the database collation.
- State log, metrics, merchant id, timestamps and the version column, which no decision reads.
- Status columns are TINYINT (scripts/mysql/001_init_schema.sql:15, 36); a status that does not fit is not turned down.
- The map of Shards.Directory is keyed by pairs; what the text key adds is stated on values in ShardKey.
- Generated numbers are parameters; a collision meets the unique key.
- A commit whose outcome the client does not learn; each transaction is atomic and its outcome known, except in EventInbox and ShardLock.
- Concurrent access to the map of shards, and stale memory in several instances outside Backstop and Stale.
- LoadWaitingBaskets and unused repository methods, which have no caller.
- The counts a sweep reports, which are the lengths of its listings.
- A lock server that loses entries before their time to live, and clocks that differ.
- Queries of orders, baskets and matches, the RPC layer, message transport and configuration loading: no state to reason about.
