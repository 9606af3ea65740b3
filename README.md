# Varuna-MarinaTech compliance core in Dafny

This project models the back-end core of a maritime fuel-emissions compliance
service, states what it promises, and proves those promises.

- **Compliance balance.** A ship's balance (`cb`) for a year is
  `(89.3368 − ghgIntensity) × fuelConsumption × 41000`. A non-negative
  balance is a *surplus*. A negative one is a *deficit*.
- **Banking.** A strictly positive balance can be put into an append-only
  ledger of bank entries.
- **Route comparison.** Every stored route is reported against the baseline
  route as a percentage difference, together with a compliance flag.
- **Pooling.** This is the main part. `createPool` does the following:
  1. Fetches the stored balance of every requested ship.
  2. Refuses the pool when any ship has no record. It also refuses a
     negative total.
  3. Sorts the ships by balance, largest first.
  4. Moves surplus greedily. Donors are taken from the front. Each donor
     walks the deficits from the back. It stops as soon as it has nothing
     left.
  5. Runs the two exit checks.
  6. Saves the pool.

Files:

- `wrappers.dfy`: `Option`, `Result` and the decimal rendering used in error
  messages.
- `routes.dfy` (module `Routes`): `getComparison`.
- `compliance.dfy` (module `Compliance`): the balance formula, the compliance
  store and `ComplianceService` (`calculateCompliance`, `bankSurplus`,
  `getAdjustedCompliance`).
- `pooling.dfy` (module `Pooling`): `PoolingService.createPool` and the lemmas
  about the allocation. The nested donor/receiver loop is an imperative
  method over an `array` of member states:
  - `Passes` is the outer loop.
  - `Pass` and `Donate` are one donor's turn.
  - `MoveBalance` is the two in-place updates.

  A ghost log of transfers connects the array to the pure functions the
  properties are proved about.
- `pooling_scenarios.dfy` (module `PoolingScenarios`): the pools of the unit
  tests and the edge cases of the same shape. Each one is derived from the
  contracts alone.

How the model follows the code:

- **Numbers.** They are mathematical reals. The donor-exhaustion test
  `donor.cbAfter === 0` is an exact comparison with `0.0`.
- **Percentage difference.** `getComparison` divides by the baseline's
  intensity. A zero baseline intensity is modelled as a `NotFinite`
  percentage, because JavaScript yields `Infinity` or `NaN` there rather
  than an error.
- **Sorting.** `Array.prototype.sort` with comparator `b.cb − a.cb` is stable.
  It is modelled as a stable insertion sort, so ties keep request order.
- **Tie-breaking.** The system's design description asks for equal balances
  to be ordered by ship id ascending. The code does not do this. The model
  follows the code: ties keep request order.
- **Duplicate ship ids.** They are not rejected. A duplicated id is fetched
  and allocated as many times as it is requested, as in the code. For this
  `MembersCoverRequest` states a multiset equality.
- **Empty requests.** The design description requires a non-empty list of
  ships, but the code does not refuse an empty `shipIds`. The model follows
  the code: the result is an empty pool with total 0.
- **Stores.** Each store is a class.
  - `ComplianceStore` holds the latest balance per (ship, year) as a map,
    plus the bank ledger as a sequence.
  - `PoolStore` holds the saved pools as a sequence.

  The route store's `findAll()` and `findBaseline()` become parameters:
  a sequence of routes and an optional baseline.
- **Identifiers and clocks.** `crypto.randomUUID()` and `new Date()` become
  parameters `id` and `createdAt`.

## Model

| member | source | states |
|---|---|---|
| Routes.PercentDiff | backend/src/core/application/route.service.ts:40 | The percentage is non-finite exactly when the baseline intensity is zero. Otherwise percentage × baseline equals (intensity − baseline) × 100, which is what ((r / b) − 1) × 100 means. |
| Routes.GetComparison | backend/src/core/application/route.service.ts:17-50 | Fails with "No baseline route set" exactly when there is no baseline. Otherwise it gives one comparison per stored route, in store order. Each comparison carries its route unchanged, the percentage difference against the baseline's intensity, and isCompliant exactly when the intensity is at most 89.3368. |
| Routes.BaselineDiffIsZero | backend/src/core/application/route.service.ts:40 | A route at the baseline's intensity, the baseline itself included, differs from it by exactly 0 percent. The exception is a zero baseline intensity, which gives a non-finite value. |
| Routes.PercentDiffSign | backend/src/core/application/route.service.ts:40 | For a baseline with positive intensity, the percentage is finite. It is positive exactly when the route is dirtier than the baseline, and zero exactly when the two are equal. |
| Routes.ComplianceIndependentOfBaseline | backend/src/core/application/route.service.ts:42-43 | The compliance flag of a route in the report is the same whichever route is the baseline. |
| Compliance.FindRoute | backend/src/core/application/compliance.service.ts:22-23 | Gives None exactly when no route has routeId = shipId and the year. Otherwise it gives the first such route in store order. |
| Compliance.BalanceSign | backend/src/core/application/compliance.service.ts:29-33 | With fuel burnt, the balance is ≥ 0 exactly when the route's intensity is at or below the target. It is > 0 exactly when the intensity is strictly below the target. |
| Compliance.StatusAgreesWithComparison | backend/src/core/application/compliance.service.ts:33-39 | With fuel burnt, the status the calculator derives is SURPLUS exactly when the comparison report flags the route as compliant. |
| Compliance.RecordOf | backend/src/adapters/outbound/postgres/compliance.repository.ts:26-31 | A record read back from the store has the stored ship, year and cb. Its status is SURPLUS exactly when cb ≥ 0. |
| Compliance.Lookup | backend/src/adapters/outbound/postgres/compliance.repository.ts:18-32 | getCompliance gives null exactly when nothing was saved for (ship, year). Otherwise it gives the latest saved balance with its derived status. |
| Compliance.SavedRecordReadsBack | backend/src/adapters/outbound/postgres/compliance.repository.ts:8-32 | After saving a record whose status agrees with its cb, getCompliance returns exactly that record. Every other (ship, year) reads as before. |
| Compliance.ComplianceStore.SaveCompliance | backend/src/adapters/outbound/postgres/compliance.repository.ts:8-16 | The saved balance supersedes the one for its (ship, year). The bank ledger is unchanged. |
| Compliance.ComplianceStore.SaveBankEntry | backend/src/adapters/outbound/postgres/compliance.repository.ts:34-44 | Appends the entry to the ledger. The balances are unchanged. |
| Compliance.ComplianceService.CalculateCompliance | backend/src/core/application/compliance.service.ts:14-44 | With no matching route it fails with NoRoute(ship, year) and the store is untouched. Otherwise it returns the ship, the year, cb = (target − intensity) × fuel × 41000 and the derived status. It saves that balance for (ship, year), leaves the ledger as it was, and the saved record reads back as the returned one. |
| Compliance.ComplianceService.BankSurplus | backend/src/core/application/compliance.service.ts:46-65 | A missing record fails with "Compliance not calculated". A balance ≤ 0 fails with "Cannot bank deficit or zero balance". In both cases the ledger is unchanged. Otherwise it appends exactly one entry holding the ship, the year and the whole stored balance, which is > 0. Balances never change, and a ledger of strictly positive amounts stays so. |
| Compliance.ComplianceService.GetAdjustedCompliance | backend/src/core/application/compliance.service.ts:67-98 | Fails with "Compliance not calculated" exactly when no balance is stored. Otherwise it returns the stored record unchanged, deficit or not. |
| Pooling.FetchAll | backend/src/core/application/pooling.service.ts:13-21 | Gives None exactly when some requested ship has no record for the year. Otherwise it gives one record per requested id, in request order and with duplicates kept, each being the stored record. |
| Pooling.SortByCbDesc | backend/src/core/application/pooling.service.ts:31 | The result is a permutation of the fetched records (same multiset) and is in descending order of cb. |
| Pooling.SortTotals | backend/src/core/application/pooling.service.ts:31 | Sorting keeps the total cb and the multiset of ship ids. |
| Pooling.Min | backend/src/core/application/pooling.service.ts:49 | The transfer amount is at most what the donor has and at most what the receiver lacks, and equals one of the two. |
| Pooling.InitialStates | backend/src/core/application/pooling.service.ts:34-38 | One member state per sorted record, in order: the ship, cbBefore = cb and cbAfter = cb. |
| Pooling.InitialTotal | backend/src/core/application/pooling.service.ts:24-38 | The initial states add up to the total of the fetched balances. |
| Pooling.ApplyConserves | backend/src/core/application/pooling.service.ts:49-52 | One transfer takes from the donor exactly what it gives the receiver, so the total is kept. |
| Pooling.ReplayConserves | backend/src/core/application/pooling.service.ts:41-56 | Conservation: any sequence of greedy transfers keeps the total of cbAfter. |
| Pooling.ReplayKeepsNoWorseOff | backend/src/core/application/pooling.service.ts:41-56 | After any sequence of greedy transfers, no member is worse off. A surplus member ends between 0 and its balance, and a deficit member ends between its balance and 0. Ship ids and cbBefore never change. |
| Pooling.NoDeficitRemains | backend/src/core/application/pooling.service.ts:24-56 | With the members in descending order, no member worse off, every remaining donor having covered everyone behind it, and a non-negative total, no member ends in deficit. |
| Pooling.StepKeepsPassInvariant | backend/src/core/application/pooling.service.ts:46-54 | One transfer of the inner loop keeps the loop invariant. The donor never goes below 0, and while it keeps surplus every receiver visited so far is covered. |
| Pooling.MoveBalance | backend/src/core/application/pooling.service.ts:51-52 | The two in-place updates of the array are exactly one transfer of the amount from the donor to the receiver. |
| Pooling.Donate | backend/src/core/application/pooling.service.ts:45-55 | The donor's receiver scan from the back keeps the invariant. It makes only greedy transfers and leaves the donor done: either exhausted or having covered every member behind it. |
| Pooling.Pass | backend/src/core/application/pooling.service.ts:42-55 | A member without surplus is passed over. Otherwise it donates. Either way the first i + 1 members are done. |
| Pooling.Passes | backend/src/core/application/pooling.service.ts:41-56 | After the outer loop every member is done and the states are the replay of a valid log of greedy transfers. |
| Pooling.Distribute | backend/src/core/application/pooling.service.ts:33-56 | The members are the sorted ships with cbBefore = cb, obtained by replaying a valid log of greedy transfers. Each transfer goes from an earlier member to a later one with a positive amount. The total is kept and no member is worse off. Donors are taken front first and receivers back first. With descending input and a non-negative total, nobody ends in deficit. |
| Pooling.CheckExit | backend/src/core/application/pooling.service.ts:62-69 | Gives None exactly when every member passes both exit checks. Otherwise it gives the first failing member's error, checking "worse deficit" before "negative balance". |
| Pooling.NoWorseOffPassesExit | backend/src/core/application/pooling.service.ts:58-69 | A member not worse off passes both exit checks, so the exit errors can never be raised. |
| Pooling.MembersCoverRequest | backend/src/core/application/pooling.service.ts:13-38 | The member ids of a pool are the requested ids as a multiset, duplicates included. |
| Pooling.GreedyOutcomeUnique | backend/src/core/application/pooling.service.ts:41-56 | Two outcomes over the same ships must be equal when both have nobody worse off, nobody in deficit, donors front first and the same total. |
| Pooling.AllocationDeterministic | backend/src/core/application/pooling.service.ts:11-56 | Determinism: the fetched balances decide the members of the pool completely. |
| Pooling.PoolStore.SavePool | backend/src/adapters/outbound/postgres/pooling.repository.ts:8-23 | Appends the pool, with all its members, to the saved pools. |
| Pooling.PoolingService.CreatePool | backend/src/core/application/pooling.service.ts:11-80 | Any ship without a record fails with ComplianceMissing. A negative total fails with NegativeTotal. Otherwise it succeeds with the given id, year and timestamp and a valid greedy allocation of the fetched balances. The members are the requested ids. On success exactly one pool is saved, and nothing is saved on failure. The exit-check failures are unreachable. |
| PoolingScenarios.SurplusCoversTwoDeficitsAllocation | backend/tests/pooling.service.test.ts:26-53 | One surplus ahead of two covered deficits: both deficits end at 0, and the surplus keeps the pool total. |
| PoolingScenarios.SurplusCoversTwoDeficits | backend/tests/pooling.service.test.ts:26-53 | S1 = 100, S2 = −40, S3 = −50: S1 ends at 10, and S2 and S3 end at 0. |
| PoolingScenarios.NegativeTotalRefused | backend/tests/pooling.service.test.ts:55-70 | S1 = 10, S2 = −20: the call fails with "Pool total compliance balance is negative" and no pool is saved. |
| PoolingScenarios.MissingRecordRefused | backend/src/core/application/pooling.service.ts:17-19 | A requested ship with a record only for another year makes the call fail with ComplianceMissing, and no pool is saved. |
| PoolingScenarios.DonorCoversDeficitAllocation | backend/src/core/application/pooling.service.ts:31-56 | A deficit requested before the surplus that covers it: the surplus is sorted first, the deficit ends at 0, and the surplus keeps the total. |
| PoolingScenarios.ExactZeroCrossing | backend/src/core/application/pooling.service.ts:49-54 | Donor 50 and receiver −50: both end at exactly 0. |
| PoolingScenarios.NoDeficitAllocation | backend/src/core/application/pooling.service.ts:43-47 | Two surplus ships: nothing moves. |
| PoolingScenarios.NoDeficitNoTransfer | backend/src/core/application/pooling.service.ts:43-47 | S1 = 30, S2 = 20 through the service: both keep their balance. |
| PoolingScenarios.SingleShipAllocation | backend/src/core/application/pooling.service.ts:41-56 | A pool of one ship keeps its balance, including a ship at exactly 0. |
| PoolingScenarios.EmptyRequestAllocation | backend/src/core/application/pooling.service.ts:13-31 | An empty request gives an empty pool. |

## Left out

- I/O, `async`/`await` and `Promise.all`: the fetches are modelled one after another. Their order does not matter, because `FetchAll` refuses the pool when any one is missing.
- Database access through Prisma, the HTTP controllers, `server.ts` and the whole front end are not part of this model.
- IEEE-754 floating point: the model uses exact reals. Rounding is not modelled in the balance formula, the percentage, the transfer amounts or the exact `=== 0` exhaustion test.
- `crypto.randomUUID()` and `new Date()`: the id and the timestamp are parameters, and a timestamp is an `int`.
- `RouteService.getAllRoutes` and `setBaseline`, and the route store's `findById`: these only pass data through to the store. `findBaseline` and `findAll` become the parameters of `GetComparison`.
- Pooling.PoolStore: `findAllPools(year)` is not modelled. No core operation reads the saved pools back.
- Compliance.ComplianceService.GetAdjustedCompliance: the code reads the bank entries of a deficit ship and sums them, then never uses the sum. The model skips that read, since it affects neither the result nor the store.
- Compliance.ComplianceStore: `getBankEntries(shipId)` is not modelled. Its only caller is the unused read above.
- The error messages of the exceptions are modelled as typed errors with a `Message` function. The messages that embed a year render it with `Decimal`, which has no contract of its own.
- Pooling.Distribute: `memberStates` is an array of distinct object records in the code. The model keeps each member state as a value in an `array`, which the loop updates in place. Aliasing between the records cannot arise in the code either, because each record is created fresh from its compliance record.
- Pooling.SortByCbDesc: the order among equal balances is stated only through the insertion sort's definition, which keeps it equal to request order. No separate stability lemma is proved.
