# Tulip Accounting: a verified model of its core

This Dafny project models the parts of Tulip that carry state or meaning worth proving, and proves what they keep. It is
meant to be read next to the Python code it cites. `dafny verify dfyconfig.toml` checks all of it.

| Part | Modules |
|---|---|
| AI query rewriter: a pass over a SQL tree, with an evaluator that gives trees a meaning | `SqlSemantics`, `SqlRewrite`, `SqlAcceptance`, `SqlHouseholdView`, `SqlFragment`, `SqlSafety` |
| Double-entry ledger with its paired shadow ledger | `Legs`, `Ledger`, `LedgerInvariants`, `LedgerAcceptance`, `VoidChains`, `PoolConservation`, `PoolChecks`, `PoolLaws`, `LedgerService` |
| Trial balance and minor-unit rounding | `Money`, `TrialBalance` |
| Account tree, its two create-parents walkers, its path printer and splitter | `Accounts`, `AccountCreation`, `CodeWalker`, `AccountService`, `AccountAnswers`, `AccountPaths` |
| AI pre-call gate: sliding-window limit and monthly cap under a household lock | `CostGate`, `CostCap` |
| Sessions, second factors, recovery codes | `Totp`, `Auth`, `AuthAnswers`, `AuthSessions`, `AuthMfa`, `AuthService` |
| Series bucketing and the QIF account scanner | `Redaction`, `QifAccounts` |
| Shared types and the string operations of Python in use | `Results`, `Strings` |

How the modules are built:

- Handlers that change rows step by step are methods of a class whose fields are the tables. Each is proved against a
  function from old state to outcome (`...Spec`, `Save`, `Reverse`, `Step`), and the laws are lemmas about those functions
  and about runs of them. A handler that raises leaves the tables as they were. Which requests are accepted, and what they
  write, is stated once more in terms of rows, fields and literal limits only, so that the functions are not their own witness
  (`SqlAcceptance`, `LedgerAcceptance`, `AccountAnswers`, `AuthAnswers`, `CostCap.DecideAnswers`).
- Loops of the code are loops here, proved against recursive or declarative specifications.
- A row's id is its position in its table, which stands for a fresh UUID. Amounts are integers in units of 1e-8. Dates and
  times are integers. Hashes are modelled by what they hash and tokens by fresh numbers.
- The SQL evaluator takes the engine's functions, comparison rules and row orders as parameters, so that the theorems hold for
  every engine.

## Where the code differs from its documentation

Each point names the members that prove it: the failing input, and when the documented behaviour holds.

- The rewriter writes a table's alias, without its quotes, into text that it parses again, after all checks. An alias that is
  no plain identifier can end in an uncaught parse error or be read as more SQL, with table references that no check has seen
  (`SqlSafety.UnreadableAliasRaises`, `SqlSafety.AliasCanEscapeTheScope`). The result is the intended tree if and only if every
  alias is read back as the name it is, and fully scoped if and only if every reading is (`SqlRewrite.IntendedExactly`,
  `SqlSafety.AcceptedIsFullyScoped`); meaning and isolation are proved for kept names, which plain identifiers are
  (`SqlSafety.PlainAliasesAreSafe`).
- Create and replace accept tags on the Inflow, Unallocated and Spent pools. A tag on Spent or Inflow breaks the documented
  budget identity by its amount (`PoolLaws.SpentIdentityCanFail`, `PoolLaws.InflowIdentityCanFail`). One create or replace keeps
  it exactly under the conditions of `PoolLaws.CreateKeepsIdentityExactly` and `PoolLaws.ReplaceKeepsIdentityExactly`; every run
  that tags no system pool does (`PoolLaws.BudgetIdentities`).
- `post_user_initiated_shadow_tx` says that the active, currency and balance checks of the engine run. It builds the
  transaction as already posted, for which the engine returns at once. What it commits passes those checks if and only if it is
  not a refill of a deactivated envelope (`PoolChecks.ChecksWouldPassExactly`, `PoolChecks.InactiveRefillIsAccepted`).
- Voiding a reversal restores account balances; a pool balance comes back if and only if the source's shadow held nothing on
  that pool (`PoolLaws.VoidTwiceExactly`, `PoolLaws.VoidingAVoidLeavesPools`).
- A replace is not an in-place edit at cutoffs between the source's date and the reversal's
  (`VoidChains.ReplaceIsEditInPlace`).
- Top-level set operations are accepted but get no `LIMIT 100` (`SqlSafety.LimitedExactly`,
  `SqlSafety.SetOperationsAreUnbounded`). A negative limit written in the query means no limit to SQLite and is kept.
- A create by name path is not idempotent where a level has two siblings of one name: the lookup then reports none, and each
  repetition adds rows (`AccountCreation.NameCreateIdempotent`, `AccountCreation.NameCreateNotAlwaysIdempotent`). A create by
  code path raises where two accounts share a prefix's code (`CodeWalker.CodeWalkFails`).
- `categorize.py` leaves the user of its rows unset and `nl_query.py` releases the lock before it writes
  (`CostGate.UnkeyedRun`, `CostGate.OverlappingRun`). Either is enough to break the hourly limit, and the second breaks the
  monthly cap too (`CostGate.DisciplineIsExact`, `CostCap.WritingInsideIsExact`).
- Trial-balance totals need not agree: each row is rounded before it is added, and rows the caller may not see are left out
  (`TrialBalance.TotalsCanDiffer`, with the exact condition in `TrialBalance.DebitsMeetCreditsExactly`).
- In `update_account` the "forbidden" branch cannot be reached, because an account that the caller may not see is reported
  as missing first (`AccountService.UpdateNeverForbids`).
- The replay gate for TOTP codes guards the login endpoint only; enrollment and code regeneration pass no last step, as their
  comments say. When regeneration accepts a code that a login has used is stated exactly (`AuthMfa.AcceptedCodeAgain`).

## Model

| member | source | states |
|---|---|---|
| SqlRewrite.ValidateAndRewrite | packages/tulip-ai/src/tulip_ai/sql_safety.py:133-194 | the in-place pass refuses in the source's order, ends in the parser's error where a table alias cannot be read, and otherwise leaves the tree of the one-shot rewriting under the same readings of the alias texts, with `LIMIT 100` set where the code sets it |
| SqlAcceptance.RefusedExactly | packages/tulip-ai/src/tulip_ai/sql_safety.py:143-177 | each of the five refusals comes exactly when the statement has that fault and none before it, read off the nodes that paths lead to: no query at the top, one of the eight statement nodes, no table, a table that is no AI view, an alias that cannot be read; a statement with none of them is accepted with the household for its only parameter |
| SqlAcceptance.SelectOneIsRefused | packages/tulip-ai/src/tulip_ai/sql_safety.py:157-160 | `SELECT 1` has no table and is refused |
| SqlRewrite.TablePathsExact | packages/tulip-ai/src/tulip_ai/sql_safety.py:104-105 | the listed references are exactly the table nodes of the tree, at any depth, each once |
| SqlRewrite.PartialStep | packages/tulip-ai/src/tulip_ai/sql_safety.py:172-177 | replacing one more listed reference commutes with the replacements already made: none of them moves or changes it |
| SqlRewrite.IntendedExactly | packages/tulip-ai/src/tulip_ai/sql_safety.py:173-177 | the tree that results is the intended one, each table a scoped subquery under its alias, if and only if every alias text is read back as the name it is |
| SqlRewrite.PlainKeepsNames | packages/tulip-ai/src/tulip_ai/sql_safety.py:175-176 | plain identifiers that are no keywords are read back as names |
| SqlFragment.FragmentMeaning | packages/tulip-ai/src/tulip_ai/sql_safety.py:71-79 | the scoped subquery, evaluated on the full multi-household database in any surrounding scope, yields the household's joined rows under the view's column names |
| SqlHouseholdView.HouseholdRowsAre | packages/tulip-ai/src/tulip_ai/sql_safety.py:51-79 | a row is in the view exactly if it joins a transaction, a posting and an account that all belong to the household, and it has their fields in the view's column order |
| SqlSafety.RewritePreservesMeaning | packages/tulip-ai/src/tulip_ai/sql_safety.py:133-184 | for every accepted statement whose aliases are read back as names, at any nesting depth and on every database, running the rewritten statement on all households gives what the emitted one means on this household's view alone, cut to 100 rows where a top-level SELECT has no limit |
| SqlSafety.ResultsAreIsolated | packages/tulip-ai/src/tulip_ai/sql_safety.py:71-79 | under the same condition two databases that agree on one household's transactions, postings and accounts give that household equal results |
| SqlSafety.AcceptedIsFullyScoped | packages/tulip-ai/src/tulip_ai/sql_safety.py:156-177 | every table reference left in an accepted and rewritten statement sits inside a scoped subquery if and only if that holds of what each alias text is read as |
| SqlSafety.PlainAliasesAreSafe | packages/tulip-ai/src/tulip_ai/sql_safety.py:133-184 | with plain identifiers for aliases the parser's error cannot come up, and every accepted statement keeps its meaning and is fully scoped |
| SqlSafety.UnreadableAliasRaises | packages/tulip-ai/src/tulip_ai/sql_safety.py:175-176 | an alias that cannot be parsed unquoted ends an otherwise accepted statement in the parser's own error |
| SqlSafety.AliasCanEscapeTheScope | packages/tulip-ai/src/tulip_ai/sql_safety.py:173-177 | an alias text that goes on as SQL is accepted, and leaves a table reference outside every scoped subquery |
| SqlSafety.RowBound | packages/tulip-ai/src/tulip_ai/sql_safety.py:179-181 | an accepted SELECT returns at most its own non-negative limit, or 100 rows if it has none |
| SqlSafety.LimitedExactly | packages/tulip-ai/src/tulip_ai/sql_safety.py:179-181 | the executed statement carries a row limit if and only if the emitted one is a SELECT or limits its own set operation |
| SqlSafety.SetOperationsAreUnbounded | packages/tulip-ai/src/tulip_ai/sql_safety.py:147-149 | an accepted UNION ALL returns twice the household's rows, however many there are: set operations are accepted but not bounded |
| LedgerService.Service.CreateTransaction | packages/tulip-api/src/tulip_api/routers/transactions.py:133-290 | commits exactly the specified books, or refuses with the first error in the source's order and changes nothing; keeps the ledger invariant |
| LedgerService.Service.VoidTransaction | packages/tulip-api/src/tulip_api/routers/transactions.py:321-420 | commits the flipped reversal, the link and the voided shadow, or refuses and changes nothing; keeps the ledger invariant |
| LedgerService.Service.ReplaceTransaction | packages/tulip-api/src/tulip_api/routers/transactions.py:461-652 | commits reversal, replacement and both shadow effects together, or refuses and changes nothing; keeps the ledger invariant |
| LedgerAcceptance.OpenExactly | packages/tulip-core/src/tulip_core/accounting/engine.py:152-161 | a date is open exactly if some period covers it, none before that one does, and it is not soft-closed |
| LedgerAcceptance.PairingExactly | packages/tulip-core/src/tulip_core/allocation/engine.py:100-220 | tags pair exactly if they are in one currency and add up to money spent; the pairing is the tags with the sign turned and that sum |
| LedgerAcceptance.CreateExactly | packages/tulip-api/src/tulip_api/routers/transactions.py:133-250 | a create is accepted exactly if every account exists and is no placeholder, every tag fits, at least two postings in known currencies sum to zero, the period is open and the tags spend; it is refused for its period exactly if only that or the tags can still be at fault |
| LedgerAcceptance.CreateWrites | packages/tulip-api/src/tulip_api/routers/transactions.py:204-290 | it appends the posted transaction as given and, if tagged, one shadow that mirrors it and is absorbed by a Spent pool; nothing else changes but lazily created pools |
| LedgerAcceptance.VoidExactly | packages/tulip-api/src/tulip_api/routers/transactions.py:321-396 | a void is accepted exactly for an existing posted or reconciled transaction that is not voided, in an open period; each refusal has its one reason |
| LedgerAcceptance.VoidWrites | packages/tulip-api/src/tulip_api/routers/transactions.py:366-420 | it appends the flipped reversal, links the source to it and voids the source's shadow, and changes nothing else |
| LedgerAcceptance.ReplaceExactly | packages/tulip-api/src/tulip_api/routers/transactions.py:461-620 | a replace is accepted exactly if the source can be voided, the reversal's period is open and the replacement is acceptable |
| LedgerAcceptance.ReplaceWrites | packages/tulip-api/src/tulip_api/routers/transactions.py:560-652 | it writes what a void and then a create write |
| LedgerAcceptance.TransferExactly | packages/tulip-api/src/tulip_api/routers/pools.py:86-137 | a transfer is accepted exactly for a positive amount between two different active user pools of one currency that the caller may see |
| LedgerAcceptance.InflowAndRefillExactly | packages/tulip-api/src/tulip_api/routers/pools.py:189-208 | an inflow is accepted exactly for a positive amount in a known currency, a refill for a positive amount on an envelope that the caller may see |
| LedgerService.Service.CheckAccounts | packages/tulip-api/src/tulip_api/routers/transactions.py:146-156 | the account loop stops at the first unknown or placeholder account and otherwise remembers every posting's account |
| LedgerService.Service.CheckPools | packages/tulip-api/src/tulip_api/routers/transactions.py:158-184 | the pool loop stops at the first faulty tag, checks in the order not found, inactive, account type, currency, and collects the tagged currencies |
| LedgerService.Materialize | packages/tulip-api/src/tulip_api/routers/transactions.py:186-193 | afterwards every tagged currency has its Inflow, Unallocated and Spent pool and is registered under the Spent one; only missing active system pools of tagged currencies were added, each once, whatever the set's iteration order |
| LedgerService.GetOrCreateSystemPools | packages/tulip-storage/src/tulip_storage/repositories/allocation_pool.py:153-172 | existing system pools are reused, missing ones appended, and each kind is registered under the pool a later lookup finds |
| LedgerService.DerivePairedShadow | packages/tulip-core/src/tulip_core/allocation/engine.py:100-220 | the pairing loops compute the negated tags and an absorbing Spent leg equal to their sum; mixed currencies and non-spending sums are refused |
| LedgerService.Service.PersistReversal | packages/tulip-storage/src/tulip_storage/repositories/transaction.py:446-497 | the reversal is appended and only the source's link changes |
| LedgerService.Service.TransferBetweenPools | packages/tulip-api/src/tulip_api/routers/pools.py:86-157 | the nine refusals in order, then one posting of two opposite legs |
| LedgerService.Service.DeclareBudgetInflow | packages/tulip-api/src/tulip_api/routers/pools.py:189-226 | Inflow down, Unallocated up, after lazy creation; unknown currencies are refused |
| LedgerService.Service.RefillEnvelope | packages/tulip-api/src/tulip_api/routers/envelopes.py:457-484 | Unallocated down, the envelope up, in the envelope's currency |
| LedgerInvariants.StepKeepsInv | packages/tulip-api/src/tulip_api/routers/transactions.py:204-290 | every request keeps: ledger transactions balance per currency on existing accounts, void links point forward to the flipped reversal and never collide, every tagged create or replace has exactly one mirroring shadow that is void with it |
| LedgerInvariants.AccountsSumToZero | packages/tulip-api/src/tulip_api/routers/reports.py:3-7 | in every reachable state and for every as-of date the balances of all accounts sum to zero in each currency over posted and reconciled transactions |
| LedgerInvariants.PoolsSumToZero | packages/tulip-storage/src/tulip_storage/repositories/shadow_transaction.py:132-170 | in every reachable state and for every date all pool balances sum to zero in each currency |
| VoidChains.LinksArePermanent | packages/tulip-api/src/tulip_api/routers/transactions.py:344-347 | a void link, once set, survives every later run unchanged |
| VoidChains.VoidedOnlyOnce | packages/tulip-api/src/tulip_api/routers/transactions.py:344-347 | once voided, every later void or replace of the transaction is refused, naming the one reversal |
| VoidChains.ChainsClimb | packages/tulip-storage/src/tulip_storage/repositories/transaction.py:446-497 | following void links always moves to a later transaction, so links are acyclic |
| VoidChains.ChainsInjective | packages/tulip-storage/src/tulip_storage/repositories/transaction.py:446-497 | two chains of one length that end in the same transaction are the same chain |
| VoidChains.VoidChainNet | packages/tulip-core/src/tulip_core/accounting/engine.py:48-107 | a chain of k voids has the source's net effect on every account and currency if k is even and none if k is odd, at every date past the chain |
| VoidChains.ReplaceIsEditInPlace | packages/tulip-api/src/tulip_api/routers/transactions.py:484-652 | a replace gives the balances of editing the transaction in place at a cutoff if and only if the dates of source and reversal are on the same side of it or the source's postings cancel on the account |
| VoidChains.ReplaceAgreesAfterAllDates | packages/tulip-api/src/tulip_api/routers/transactions.py:484-652 | in particular it agrees at every cutoff on or after all dates involved |
| PoolConservation.ReachableLaw | packages/tulip-api/src/tulip_api/routers/transactions.py:229-266 | in every reachable state a pool holds what users moved there, minus what live tags took, plus all tagged spending if it is Spent |
| PoolConservation.ShadowsAfterReverse | packages/tulip-api/src/tulip_api/routers/transactions.py:398-405 | voiding a transaction takes exactly its shadow's legs out of the pool balances |
| PoolLaws.SpentHolds | packages/tulip-storage/src/tulip_storage/repositories/shadow_transaction.py:132-170 | Spent holds the tagged amounts of live transactions, less what they tagged onto Spent itself |
| PoolLaws.InflowHolds | packages/tulip-storage/src/tulip_storage/repositories/shadow_transaction.py:66-103 | Inflow holds minus the declared inflows, as the positive legs are summed, less what was tagged onto Inflow itself |
| PoolLaws.AllocatableHolds | packages/tulip-api/src/tulip_api/routers/pools.py:209-226 | Unallocated plus the user pools is inflows minus tagged spending, plus what was tagged onto Inflow and Spent |
| PoolLaws.BudgetIdentities | packages/tulip-api/src/tulip_api/routers/transactions.py:229-266 | in every run whose creates and replaces tag no system pool the three identities hold as documented |
| PoolLaws.CreateKeepsIdentityExactly | packages/tulip-api/src/tulip_api/routers/transactions.py:158-184 | an accepted create keeps an identity, at every cutoff from its date on, if and only if its tags on that system pool add up to zero |
| PoolLaws.ReplaceKeepsIdentityExactly | packages/tulip-api/src/tulip_api/routers/transactions.py:484-652 | an accepted replace keeps an identity at a cutoff if and only if its tags on that system pool add up to what the source's live tags on it did, each counted from its date on |
| PoolLaws.TagsDeclareNothing | packages/tulip-storage/src/tulip_storage/repositories/shadow_transaction.py:66-103 | creating, voiding and replacing never change the declared inflows |
| PoolLaws.SpentIdentityCanFail | packages/tulip-api/src/tulip_api/routers/transactions.py:158-184 | in every reachable state a tag on the Spent pool is accepted, and moves Spent away from the tagged spending by its amount |
| PoolLaws.InflowIdentityCanFail | packages/tulip-api/src/tulip_api/routers/transactions.py:158-184 | in every reachable state a tag on the Inflow pool is accepted, and moves Inflow away from the declared inflows by its amount |
| PoolLaws.MoveChangesTwoPools | packages/tulip-api/src/tulip_api/routers/pools.py:124-139 | a transfer or refill changes its two pools by the amount, in their currency, from its date on, and nothing else, the declared inflows included |
| PoolLaws.InflowChangesTwoPools | packages/tulip-api/src/tulip_api/routers/pools.py:209-226 | an accepted inflow takes the declared amount from the Inflow pool and puts it on the Unallocated pool of its currency, from its date on; no other pool and no transaction changes, and the declared inflows grow by exactly the amount |
| PoolLaws.VoidingAVoidLeavesPools | packages/tulip-api/src/tulip_api/routers/transactions.py:398-405 | voiding a reversal adds the source's effect back to every account from its date on and changes no pool balance |
| PoolLaws.VoidTwiceExactly | packages/tulip-api/src/tulip_api/routers/transactions.py:321-420 | after a void and a void of it the account balances are what they were at every cutoff past both dates, and a pool balance is what it was if and only if the source's shadow held nothing on that pool |
| PoolChecks.SystemPoolsStayActive | packages/tulip-storage/src/tulip_storage/repositories/allocation_pool.py:114-123 | no run leaves an inactive system pool |
| PoolChecks.PassesExactly | packages/tulip-core/src/tulip_core/allocation/engine.py:257-286 | the engine passes exactly the legs that lie on existing, active pools of their currency and balance |
| PoolChecks.ChecksWouldPassExactly | packages/tulip-api/src/tulip_api/routers/_pool_helpers.py:150-205 | in every reachable state an accepted transfer, inflow or refill saves one shadow transaction that the skipped engine checks would have passed, if and only if it is not a refill of a deactivated envelope; that one they would have refused, naming the envelope |
| PoolChecks.InactiveRefillIsAccepted | packages/tulip-api/src/tulip_api/routers/envelopes.py:457-484 | in every reachable state a refill of an envelope that was just deactivated is accepted all the same |
| Money.HalfEvenUnique | packages/tulip-core/src/tulip_core/money/money.py:86-97 | the rounding is the only one that goes to a nearest multiple with ties to even |
| Money.MinorUnits | packages/tulip-core/src/tulip_core/money/money.py:86-97 | amounts are rounded to no digits for JPY, three for BHD and two for the other known currencies |
| Money.QuantizeNear | packages/tulip-core/src/tulip_core/money/money.py:86-97 | rounding moves an amount by at most half a minor unit and fixes exactly the amounts at minor-unit precision |
| Money.QuantizeNegates | packages/tulip-core/src/tulip_core/money/money.py:86-97 | rounding is symmetric around zero |
| TrialBalance.Accumulate | packages/tulip-api/src/tulip_api/routers/reports.py:116-143 | the row loop gives the shown rows, each rounded by itself, and the two dictionaries hold the sums of positive and negated negative rows |
| TrialBalance.ReportRowsAre | packages/tulip-api/src/tulip_api/routers/reports.py:111-135 | the rows are those of the groups whose account is active and shared, the caller's own, or anything for an admin, each with its own balance rounded |
| TrialBalance.BuildReport | packages/tulip-api/src/tulip_api/routers/reports.py:116-154 | totals exist exactly for the currencies with a row other than zero, and are those two sums although they are rounded once more |
| TrialBalance.TotalsFollowBalances | packages/tulip-api/src/tulip_api/routers/reports.py:116-154 | debits minus credits is the sum of the shown balances, off by at most half a minor unit per row |
| TrialBalance.DebitsMeetCreditsExactly | packages/tulip-api/src/tulip_api/routers/reports.py:111-154 | in every reachable state, for every date and caller, debits and credits differ by what rounding adds to the shown rows less what the hidden rows hold, so they agree if and only if the two are equal; with every row shown, if and only if the rounding adds up to nothing |
| TrialBalance.DriftIsSmall | packages/tulip-api/src/tulip_api/routers/reports.py:124-143 | the rounding adds at most half a minor unit per shown row, and nothing when every balance is at minor-unit precision |
| TrialBalance.TotalsCanDiffer | packages/tulip-api/src/tulip_api/routers/reports.py:124-143 | for every known currency a run of five requests from a new household whose report, with every row shown, has totals a whole minor unit apart |
| AccountPaths.UnescapeSegment | packages/tulip-cli/src/tulip_cli/_account_path.py:55-67 | the index loop computes what reading the escapes one by one computes |
| AccountPaths.UnescapeInvertsEscape | packages/tulip-cli/src/tulip_cli/_account_path.py:50-67 | unescaping inverts escaping on every string |
| AccountPaths.SplitPath | packages/tulip-cli/src/tulip_cli/_account_path.py:70-98 | the index loop gives the trimmed unescaped segments, or nothing if a segment is empty |
| AccountPaths.PrintThenSplit | packages/tulip-cli/src/tulip_cli/_account_path.py:50-98 | splitting the printed path returns the names if and only if every name is trimmed and not empty and there is one |
| AccountPaths.SplitThenPrint | packages/tulip-cli/src/tulip_cli/_account_path.py:70-98 | printing the segments of any accepted identifier and splitting again gives the same segments |
| AccountPaths.PrintInjective | packages/tulip-cli/src/tulip_cli/_account_path.py:50-52 | two lists of names never share a printed path |
| AccountPaths.AccountPath | packages/tulip-cli/src/tulip_cli/_account_path.py:101-137 | the cursor loop ends on every chart and prints the type label and the names met, reversed |
| AccountPaths.TypeLabels | packages/tulip-cli/src/tulip_cli/_account_path.py:38-137 | the labels of the five account types, and "?" for an empty one |
| AccountPaths.PathListsAncestors | packages/tulip-cli/src/tulip_cli/_account_path.py:101-137 | whenever the climb ends, the path lists exactly the ancestors, root to leaf, with one "?" at the head if and only if the chain runs into a missing parent |
| AccountPaths.AcyclicHasLine | packages/tulip-cli/src/tulip_cli/_account_path.py:121-136 | on every acyclic chart each climb ends, at a root or at a parent that is missing from the chart |
| AccountPaths.NamesUpBounded | packages/tulip-cli/src/tulip_cli/_account_path.py:121-136 | on a cyclic chart the walk lists at most one name per account, plus the marker |
| AccountPaths.CopiesAgree | packages/tulip-reports/src/tulip_reports/_account_path.py:47-79 | the report-side copy and the CLI copy print the same string for every id on corresponding charts, cyclic ones included |
| Accounts.ValidateParent | packages/tulip-api/src/tulip_api/routers/accounts.py:171-196 | the cursor loop gives the verdict of the specification, in the order of the source's checks |
| Accounts.CycleCheckExact | packages/tulip-api/src/tulip_api/routers/accounts.py:174-187 | on an acyclic chart the walk meets the child if and only if reparenting would close a cycle |
| Accounts.AcyclicClimbs | packages/tulip-api/src/tulip_api/routers/accounts.py:174-187 | on an acyclic chart no account is its own ancestor and every climb runs out |
| Accounts.RootTypes | packages/tulip-api/src/tulip_api/routers/accounts.py:72-83 | five types are roots, each under its singular and its plural |
| Accounts.ParseExact | packages/tulip-api/src/tulip_api/routers/accounts.py:86-127 | parsing accepts only lists of trimmed, non-empty, colon-free segments with a known root of the right type, and reads back every such list from its colon-join |
| AccountCreation.WalkNamePath | packages/tulip-api/src/tulip_api/routers/accounts.py:464-523 | the loop over segments creates and reuses the rows of the recursive walk and reports the same created parents |
| AccountCreation.NameCreateMeetsPath | packages/tulip-api/src/tulip_api/routers/accounts.py:464-523 | the leaf's ancestor chain is exactly the given segments; earlier rows are untouched; fresh rows carry the body's fields and only the leaf its code; the reported parents are exactly the fresh rows above the leaf, in ancestor order, root first |
| AccountCreation.CreatedPathReadsBack | packages/tulip-cli/src/tulip_cli/_account_path.py:70-137 | splitting the leaf's printed path gives its type label followed by the segments it was created from |
| AccountCreation.NameCreateIdempotent | packages/tulip-storage/src/tulip_storage/repositories/account.py:155-185 | repeating the call returns the same leaf and creates nothing if and only if no level of the path had two siblings of that name |
| AccountCreation.NameCreateNotAlwaysIdempotent | packages/tulip-storage/src/tulip_storage/repositories/account.py:155-185 | a chart on which every repetition adds rows |
| CodeWalker.WalkCodePath | packages/tulip-api/src/tulip_api/routers/accounts.py:404-461 | the loop over prefixes creates and reuses the rows of the recursive walk, or raises where two accounts share a code |
| CodeWalker.CodeCreateMeetsPath | packages/tulip-api/src/tulip_api/routers/accounts.py:404-461 | an accepted call adds exactly one row per prefix that no account carried, in order, with its code, name and the body's fields, under the one account that carries the prefix above; the reported parents are exactly the added rows above the leaf |
| CodeWalker.CodeWalkFails | packages/tulip-storage/src/tulip_storage/repositories/account.py:146-153 | the walk raises if and only if some prefix is carried by two accounts |
| CodeWalker.CodeCreateIdempotent | packages/tulip-api/src/tulip_api/routers/accounts.py:404-461 | repeating an accepted call returns the same leaf and creates nothing |
| AccountService.Service.CreateAccount | packages/tulip-api/src/tulip_api/routers/accounts.py:239-337 | direct create and both walkers commit exactly the specified rows or refuse and change nothing; the chart stays acyclic |
| AccountService.Service.UpdateAccount | packages/tulip-api/src/tulip_api/routers/accounts.py:568-620 | the parent check runs on the new visibility; commits exactly the given fields or refuses and changes nothing; the chart stays acyclic |
| AccountAnswers.DirectCreateExactly | packages/tulip-api/src/tulip_api/routers/accounts.py:239-337 | a direct create is accepted exactly if its parent is there, active, visible and agrees on type, currency and visibility; the new row has the body's fields, each in its place |
| AccountAnswers.UpdateExactly | packages/tulip-api/src/tulip_api/routers/accounts.py:568-620 | a PATCH is accepted exactly if the account is visible and the new parent fits the new visibility and is not below it; exactly the named fields of that row change |
| AccountAnswers.NamePathCreate | packages/tulip-api/src/tulip_api/routers/accounts.py:86-127 | a create whose name spells out a path builds exactly that path |
| AccountAnswers.CodePathCreate | packages/tulip-api/src/tulip_api/routers/accounts.py:404-461 | a create whose code spells out a path is accepted unless a prefix has two carriers, and ends on the one account with that code |
| AccountAnswers.PathInOneField | packages/tulip-api/src/tulip_api/routers/accounts.py:340-402 | a hierarchy in both fields, or in neither, is refused as such and nothing else is |
| AccountService.UpdateKeepsAcyclic | packages/tulip-api/src/tulip_api/routers/accounts.py:594-620 | a PATCH is refused as a cycle exactly when committing it would close one |
| AccountService.UpdateNeverForbids | packages/tulip-api/src/tulip_api/routers/accounts.py:577-588 | the "forbidden" refusal never comes: its case is reported as not found |
| AccountService.RunsStayAcyclic | packages/tulip-api/src/tulip_api/routers/accounts.py:171-196 | every run of direct create, both walkers and reparenting keeps the parent graph acyclic |
| AccountService.RunsShareRootKind | packages/tulip-api/src/tulip_api/routers/accounts.py:189-194 | in runs without create_parents every account has its root's type and currency |
| AccountService.PrintedPathsListAncestors | packages/tulip-cli/src/tulip_cli/_account_path.py:101-137 | on every chart a run can reach, the printed path lists exactly the account's ancestors with no "?" |
| CostCap.Household.EnforcePreCall | packages/tulip-ai/src/tulip_ai/cost.py:208-273 | the lock is taken and the gate answers as `DecideAnswers` says |
| CostCap.DecideAnswers | packages/tulip-ai/src/tulip_ai/cost.py:107-273 | rate-limited exactly at `limit` calls of the bucket in the hour; otherwise a primary approval exactly within the cap; past it a degraded approval exactly if that is the policy and a fallback is named, and a block exactly if not |
| CostCap.Household.WriteAndCommit | packages/tulip-ai/src/tulip_ai/cost.py:86-89 | the caller's obligation: the row carries the gate's key and decision, is no older than the gate, has the call's cost, none if blocked, and is there before the lock goes |
| CostGate.WindowBound | packages/tulip-ai/src/tulip_ai/cost.py:142-172 | over every interleaving of disciplined workers at most `limit` approved calls of one key fall in any closed hour, wherever it starts |
| CostGate.BlockedCallsCount | packages/tulip-ai/src/tulip_ai/cost.py:142-172 | an approval means fewer than `limit` gates of any outcome of that key in the hour before |
| CostGate.DisciplineIsExact | packages/tulip-ai/src/tulip_ai/cost.py:67-104 | callers respect the hourly limit if and only if their rows carry the gate's key and are written inside the lock |
| CostGate.UnkeyedRun | packages/tulip-ai/src/tulip_ai/categorize.py:480-500 | with rows that leave the user unset a second call passes a limit of one |
| CostGate.OverlappingRun | packages/tulip-ai/src/tulip_ai/nl_query.py:283-341 | with rows written after the lock is released a second call passes a limit of one |
| CostCap.CapBound | packages/tulip-ai/src/tulip_ai/cost.py:107-139 | with a fixed cap a month's primary-provider spending never exceeds the cap plus the cost of its last such call |
| CostCap.WritingInsideIsExact | packages/tulip-ai/src/tulip_ai/cost.py:86-89 | the cap is kept in this sense if and only if rows are written before the lock is released |
| CostCap.NoPrimaryPastCap | packages/tulip-ai/src/tulip_ai/cost.py:107-139 | once a month's spending has passed the cap no gate of that month approves a primary call any more |
| AuthService.Service.Login | packages/tulip-api/src/tulip_api/routers/auth.py:250-315 | all candidates are looked at; the first match decides between challenge, required enrollment and tokens |
| AuthAnswers.LoginExactly | packages/tulip-api/src/tulip_api/routers/auth.py:250-315 | a login is refused exactly if no user has that email and password; otherwise the first such user gets a five-minute challenge if enrolled, the enrollment demand if the policy asks for it, and tokens if neither |
| AuthAnswers.PasswordWasPresented | packages/tulip-api/src/tulip_api/routers/auth.py:261-289 | in every run a password login comes from a request that carried the user's email and password of that moment |
| AuthService.Service.LoginMfa | packages/tulip-api/src/tulip_api/routers/auth.py:341-394 | the challenge is used up before anything else is checked; only a verified code stores its step and issues tokens |
| AuthAnswers.LoginMfaExactly | packages/tulip-api/src/tulip_api/routers/auth.py:341-394 | a TOTP login succeeds exactly with an unexpired unused challenge of an enrolled user and a code that a step of the window past the remembered one shows; a good challenge is used up in any case |
| AuthService.Service.LoginRecover | packages/tulip-api/src/tulip_api/routers/auth.py:717-758 | the same for recovery codes; exactly one code is marked used |
| AuthAnswers.LoginRecoverExactly | packages/tulip-api/src/tulip_api/routers/auth.py:717-758 | a recovery login succeeds exactly with such a challenge and an unused code of that user, which it marks used |
| AuthService.Service.ConsumeRecoveryCode | packages/tulip-api/src/tulip_api/routers/auth.py:967-991 | the first unused code of the user that matches is marked used and no other row changes |
| AuthService.Service.Refresh | packages/tulip-api/src/tulip_api/routers/auth.py:424-448 | the presented row is revoked and one fresh row joins its chain, or nothing changes |
| AuthAnswers.RefreshExactly | packages/tulip-api/src/tulip_api/routers/auth.py:424-448 | a token is exchanged exactly while its row is there, unrevoked and unexpired, for one new thirty-day session of the same chain |
| AuthAnswers.FreshTokenLives | packages/tulip-api/src/tulip_api/routers/auth.py:859-881 | the tokens of a login can be exchanged for thirty days and no longer |
| AuthService.Service.Logout | packages/tulip-api/src/tulip_api/routers/auth.py:465-481 | the row is revoked if it is not yet; afterwards the token is dead |
| AuthService.Service.ChangePassword | packages/tulip-api/src/tulip_api/routers/auth.py:509-545 | the password is replaced and every unrevoked session of the user is revoked, and no other user's |
| AuthAnswers.PasswordChanges | packages/tulip-api/src/tulip_api/routers/auth.py:509-545 | a change needs the current password; afterwards the new one logs in, the old one does not log this user in, and none of the user's refresh tokens can be exchanged |
| AuthService.Service.MintRecoveryCodes | packages/tulip-api/src/tulip_api/routers/auth.py:949-964 | eight unused codes are added for the user |
| AuthService.Service.MfaVerify | packages/tulip-api/src/tulip_api/routers/auth.py:638-690 | enrollment completes with a verified code, with no replay gate, and mints codes |
| AuthService.Service.RegenerateRecoveryCodes | packages/tulip-api/src/tulip_api/routers/auth.py:786-826 | all codes of the user go, eight new ones come |
| AuthAnswers.MintingExactly | packages/tulip-api/src/tulip_api/routers/auth.py:638-663 | enrollment succeeds exactly for a pending secret, regeneration exactly for an enrolled user, each with a code that some step of the window shows |
| AuthSessions.ExchangedAtMostOnce | packages/tulip-api/src/tulip_api/routers/auth.py:424-448 | in every run each refresh token is exchanged at most once |
| AuthSessions.OneLiveTokenPerLogin | packages/tulip-api/src/tulip_api/routers/auth.py:434-448 | of the sessions that descend from one login at most one is unrevoked |
| AuthSessions.NoExchangeAfterPasswordChange | packages/tulip-api/src/tulip_api/routers/auth.py:517-529 | no token issued before a password change of its user is exchanged after it |
| AuthSessions.DeadIsFinal | packages/tulip-api/src/tulip_api/routers/auth.py:424-431 | a revoked token is refused in every later state of every run, even after its row is pruned |
| AuthMfa.ChallengeIsSpent | packages/tulip-api/src/tulip_api/routers/auth.py:931-946 | a challenge presented once, with whatever second factor, is refused by both endpoints in every later state |
| AuthMfa.OneLoginPerChallenge | packages/tulip-api/src/tulip_api/routers/auth.py:341-394 | one challenge leads to at most one login across both second-step endpoints |
| AuthMfa.TotpStepsIncrease | packages/tulip-api/src/tulip_api/auth/mfa.py:61-73 | the TOTP steps that login accepts for a user strictly increase (section 5.2 of RFC 6238) |
| AuthMfa.AcceptedCodeAgain | packages/tulip-api/src/tulip_api/routers/auth.py:786-826 | a code that a login accepted, presented again after any further requests: regeneration accepts it if and only if some step of the window then shows it, the accepted step included; another login only with a step past the accepted one |
| AuthMfa.SecondFactorAlways | packages/tulip-api/src/tulip_api/routers/auth.py:297-315 | in every run, once a user has enrolled, each login of the user used up a challenge that was issued to that user |
| AuthMfa.EightRecoveryCodes | packages/tulip-api/src/tulip_api/routers/auth.py:802-809 | for every enrolled user unused codes and recovery logins since the last mint add up to eight |
| AuthMfa.UnusedPruned | packages/tulip-storage/src/tulip_storage/runner/handlers/session_retention.py:124-131 | retention never takes an unused recovery code |
| Totp.VerifyTotpCode | packages/tulip-api/src/tulip_api/auth/mfa.py:43-73 | the window loop returns the earliest step of the window that is past the last accepted one and shows the code, or none if there is none |
| Totp.VerifiesExactly | packages/tulip-api/src/tulip_api/auth/mfa.py:43-73 | a code verifies at a step exactly if it is a number, the step is at most one half-minute off, past the last accepted one and the earliest that shows the code |
| Redaction.BucketTimeSeries | packages/tulip-ai/src/tulip_ai/redaction.py:223-237 | dates are kept; local_only, empty and all-zero series pass through |
| Redaction.NearestUnique | packages/tulip-ai/src/tulip_ai/redaction.py:256-260 | the rounding is the only one that goes to a nearest integer with ties to even |
| Redaction.MovesAtMostHalfABucket | packages/tulip-ai/src/tulip_ai/redaction.py:223-260 | no amount moves by more than half a bucket |
| Redaction.MovesLittle | packages/tulip-ai/src/tulip_ai/redaction.py:232-237 | an amount moves by at most a fortieth of the largest magnitude, an eighth under `strict`, and not at all locally |
| Redaction.KeepsOrderAndSign | packages/tulip-ai/src/tulip_ai/redaction.py:223-260 | order is kept, and no amount changes from spend to income or back |
| Redaction.LargestUnchanged | packages/tulip-ai/src/tulip_ai/redaction.py:232-237 | the amounts of largest magnitude are unchanged |
| Redaction.Idempotent | packages/tulip-ai/src/tulip_ai/redaction.py:223-260 | bucketing twice is bucketing once |
| Redaction.FewValues | packages/tulip-ai/src/tulip_ai/redaction.py:234-237 | at most 41 distinct amounts are left under `default` and 9 under `strict` |
| QifAccounts.ListAccountDeclarations | packages/tulip-cli/src/tulip_cli/_qif_accounts.py:29-75 | the scanner returns the completed records of the account sections, first occurrence per name, in order, and nothing for undecodable bytes |
| QifAccounts.SectionsCompose | packages/tulip-cli/src/tulip_cli/_qif_accounts.py:54-58 | a header cuts the input: the result is that of the part before, followed by what the rest adds in new names |
| QifAccounts.OtherSectionsAddNothing | packages/tulip-cli/src/tulip_cli/_qif_accounts.py:59-60 | a section that is not an account section contributes nothing, wherever it stands |
| QifAccounts.RenderThenScan | packages/tulip-cli/src/tulip_cli/_qif_accounts.py:42-75 | scanning the rendering of any list of trimmed, non-empty, distinct declarations returns that list |
| QifAccounts.ScanThenRender | packages/tulip-cli/src/tulip_cli/_qif_accounts.py:42-75 | writing out what any file declares and scanning that returns it unchanged |

## Left out

- SQL parsing and printing: the rewriter starts from a tree and ends with one. Printing the tree and SQLite reading it back are
  not modelled. What the parser makes of an alias text is a parameter, and so are its keywords.
- Schema-qualified table names, common table expressions, alias column lists and the comparison of unquoted identifiers by case
  are not in the tree. Table nodes are leaves: joins that hang on a table node, as in a parenthesised join, are not modelled.
- SQL functions, `LIKE`, arithmetic, ordering and grouping keys are parameters of the engine; the evaluator fixes only scoping,
  joins, filtering, projection, grouping, limits and set operations.
- SqlRewrite.TablePathsExact: lists references left to right, where sqlglot visits breadth first; no accepted result depends
  on the order, but which of several refused tables is named does, so errors carry no table name.
- Households other than the caller's exist only in the SQL part; the ledger, chart and cost tables are one household's.
- The scheduled refill of envelopes by the storage runner, which writes shadow transactions too, is not a step. "Every reachable
  state" means by runs of the steps that `Ledger.Op` lists.
- LedgerService.Service.BuildPosted: an unknown currency is the refusal `CurrencyUnknown`; in create and replace the code lets
  the error of `Money` through unmapped, as a server error. Nothing is committed either way.
- Sessions, locks and triggers of the database as mechanisms: a committed handler is one atomic step, and the gate lock is
  mutual exclusion of steps. Unique constraints and foreign keys appear as the shape of the tables.
- HTTP, request schemas, Problem Details, audit rows other than the actions the session laws speak of, tags, notes, memos,
  descriptions and subtypes.
- PATCH, DELETE and rectification of transactions, import apply, reconciliation matching and proposals. Imports appear as
  pending rows and reconciliation as a relabelling of posted rows; pending rows never become posted in the model.
- LedgerService.DerivePairedShadow: omits the engine's second check of account types, which the pool loop has made already, and
  the missing-Spent-pool error, which its callers rule out.
- LedgerService.Service.TransferBetweenPools: leaves out the balance that the response reports, and `get_pool_balances`, which
  only reads and rounds; the role check of the endpoint is also left out.
- Listing, redacting and noting accounts, the placeholder flag of accounts in PATCH, and visibility along tree edges.
- AccountService.RunsShareRootKind: is not claimed for runs with create_parents, whose walkers reuse existing accounts without
  checking them.
- `str.lower()` and `capitalize()` outside ASCII; the compared words are ASCII.
- TrialBalance.BuildReport: returns totals as a map, not sorted by currency, and drops the code, name and type that rows copy
  from accounts; the HTML, PDF and CSV forms are left out.
- CostGate.WindowBound: one row per gate; capabilities that audit several turns under one approval write more rows than this.
- The calendar behind the month start is a parameter: any division of time into intervals.
- Users are never removed, so the branches for a vanished user are left out; password rehashing, timing defence, rate limits on
  endpoints and access tokens too. Token and code generation, argon2, AES and the HMAC inside TOTP are not modelled.
- Totp.VerifyTotpCode: takes only ASCII digits for digits; `str.isdigit` admits others, which no code contains.
- AuthService.Service.ConsumeRecoveryCode: takes unused codes in table order, where the query orders by creation time and
  leaves ties open.
- Decimal's 28-digit context: bucketing is over exact rationals, and profile names other than the three known ones are left out.
- Decoding and line splitting of QIF bytes: the scanner starts from the list of lines.
- `policy.py`, configuration patches, upload caps, backup, prompt text and the LLM calls themselves are not modelled: single
  lookups, comparisons or I/O, on which none of the properties here depends.
