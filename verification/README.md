# Verified models of the platform core

Dafny models of the parts of the platform whose correctness is hard to see from the code, with proofs of
what those parts promise. Each model has the branches, edge cases, error cases and constants of the
TypeScript and SQL it models; what is deliberately not modelled is listed at the end.

| Part | Modules |
|---|---|
| Leased outbox, dispatcher, fan-out, delivery queue, inbox | `Outbox`, `OutboxOrder`, `OutboxLeases`, `OutboxBudget`, `OutboxRows`, `OutboxStore`, `Drain`, `InMemoryOutbox`, `Routes`, `Relay`, `RelayTables`, `LateCommit` |
| Exact money arithmetic | `Rounding`, `Decimal`, `Digits`, `DecimalText`, `Allocation`, `CivilDays`, `Proration` |
| Idempotent execution and canonical JSON, alone and around commands | `JsonText`, `JsonReader`, `CanonicalJson`, `CanonicalRequest`, `Idempotency`, `IdempotentExecutor`, `IdempotentCommands` |
| Maker-checker approvals | `Approval`, `ApprovalRules`, `ApprovalCommands`, `ApprovalOutcomes` |
| Versioned aggregates and the tenant lifecycle | `VersionChain`, `VersionedRow`, `Tenant`, `TenantCommands` |
| Role administration | `Administrators`, `RoleAdministration` |
| LRU/TTL store | `MemoryStore` |
| Shared | `Wrappers`, `Counting`, `Ordering`, `Blanks` |

## How concurrency is modelled

Each protocol is a transition system. One step is one SQL statement, or one action of a worker between two
statements. Every choice the environment makes (which worker moves, the clock reading, whether a publish took
effect, whether a commit goes through) is part of the step, so a run is a sequence of steps and a property of
every run quantifies over all such sequences, interleavings, crashes and clocks included. A step that is not
enabled, or that would wait for a row lock, changes nothing.

The classes (`QueueStore`, `Dispatcher`, `Tables`, `KeyStore`, `Executor`, `Row`, `Commands`, `RoleTables`,
`Administration`, `InMemoryOutbox`, `Store`) are the imperative form of the same code. What other processes do
between two statements of a method is handed to it as data, and its contract says that the new state is the one
the transition system reaches by the method's own steps interleaved with theirs. The theorems about runs
therefore apply to every sequence of method calls; the validity of a `Row`, which every one of its methods keeps,
is that its state is reachable. A commit may take effect although its caller is told of an error: the handlers
have an outcome of their own for that (`Unacknowledged`), because what is committed differs from a failure.

## What the models settle

- Order is kept per stream even by workers that lost their lease, and each consumer commits at most one effect
  per event. Operator-skipped events are the exception: a worker that lost its lease may commit the effect of a
  skipped event late, after later events (`LateCommit.SkippedEventCommitsLate` is such a run).
- The in-memory outbox names a stream by joining three strings with `|`. It grants what the SQL head predicate
  grants exactly when no two streams that matter share a joined name, and there are streams that do
  (`InMemoryOutbox.ScanGrantsHeads`, `InMemoryOutbox.SharedNameBlocks`).
- Proration refuses the calendar dates of the years 0000 to 0099, although its message speaks of valid calendar
  dates: the UTC date function reads those years as 1900 to 1999. `CivilDays.AcceptedDates` gives the exact
  condition, `CivilDays.YearFiftyIsRefused` a date.
- The answers for a request in progress cannot occur with the PostgreSQL idempotency store, because claim and
  completion commit together (`Idempotency.NeverInProgress`).
- Greedy crediting of approvals does not look ahead: two approvers who cover two requirements in one order fail to
  in the other (`Approval.GreedyCreditDoesNotLookAhead`). A crowd in which everybody holds exactly one requirement
  settles the request in every order, exactly when each requirement has as many holders as it still misses
  (`Approval.CrowdInAnyOrder`).
- Truncating and rounding away from zero compose in two stages (`Rounding.TwoStages`); the half modes do not
  (`Rounding.HalfModesDoNotStage`). When they do is settled for all inputs by `Rounding.HalfUpStages` and
  `Rounding.HalfEvenStages`, in terms of the remainder of the one-stage division and the parity of the divisors.
- The committed events of a tenant tell its whole history by themselves: their types run along the lifecycle's
  paths, and the last one determines the stored row (`Tenant.EventsFollowTheTable`,
  `Tenant.LastEventDeterminesState`).
- Under one idempotency key at most one version is committed within a retention, and replays return what that
  commit made, also after an acknowledgement was lost (`IdempotentCommands.OneVersionPerRetention`,
  `IdempotentCommands.ReplaysTellTheVersion`).

## Model

| member | source | states |
|---|---|---|
| `OutboxStore.QueueStore.LeaseBatch` | platform/outbox/infrastructure/postgres/store.ts:156-188 | Leases, oldest first, exactly the entries in scope that are due, not locked, behind nothing unfinished of their stream, and have fewer than the limit of such entries before them; each gains an attempt, the worker and the deadline, and nothing else changes |
| `OutboxStore.QueueStore.MarkPublished` | platform/outbox/infrastructure/postgres/store.ts:190-200 | Marks the entry done if and only if it is leased by this worker, whatever became of the worker's own lease |
| `OutboxStore.QueueStore.RecordFailure` | platform/outbox/infrastructure/postgres/store.ts:202-222 | Makes the held entry pending at the retry time, or dead without one, every other field and row unchanged; reports a lost lease otherwise and changes no row |
| `OutboxStore.QueueStore.ResolveDeadLetter` | platform/outbox/infrastructure/postgres/store.ts:269-302 | If and only if the entry is dead and in scope: a requeue makes it pending with no attempts and due at once, a skip skips it with attempts and times kept; every other row is unchanged |
| `OutboxStore.QueueStore.HandOver` | platform/outbox/src/dispatcher.ts:87-89 | A hand-over checks no lease, may take effect and still be reported as failed, and leaves every row as it is |
| `OutboxStore.Dispatcher.Deliver` | platform/outbox/src/dispatcher.ts:87-106 | One entry is handed over and its outcome recorded as published, retried, dead-lettered or lease lost, with other processes' steps in between |
| `OutboxStore.Dispatcher.Process` | platform/outbox/src/dispatcher.ts:74-107 | One loop turn: entries leased too often are given up without a hand-over, all others are delivered |
| `OutboxStore.Dispatcher.RunOnce` | platform/outbox/src/dispatcher.ts:66-113 | A pass leads from state to state by its lease and its workers' steps in order, among arbitrary foreign steps, and its report counts each leased entry exactly once by its outcome |
| `OutboxStore.PassExtendsRun` | platform/outbox/src/dispatcher.ts:66-113 | What a pass does to a reachable store is again a run of the transition system, so all theorems about runs apply |
| `Outbox.ShapeStep` | platform/outbox/infrastructure/postgres/store.ts:160-183 | Every step keeps the shape of streams and never changes a finished row or an identity |
| `OutboxLeases.OnlyTheEntitledChange` | platform/outbox/infrastructure/postgres/store.ts:160-218 | A pending entry is only leased and not before its time; a leased one is only released by its holder or leased again after its deadline; a dead one is only resolved; a finished one stays |
| `OutboxLeases.LeaseHolds` | platform/outbox/infrastructure/postgres/store.ts:163-164 | However many workers act meanwhile, a lease holds until its deadline or its holder's outcome |
| `OutboxLeases.RetryWaits` | platform/outbox/src/dispatcher.ts:89-102 | A failed hand-over within the attempt limit waits, attempts kept, until some lease's clock reaches its retry time |
| `OutboxOrder.OrderedStep` | platform/outbox/infrastructure/postgres/store.ts:163-172 | Every step keeps the ordering invariant: finished entries have evidence in the log, snapshots point at heads, hand-overs follow stream order |
| `OutboxOrder.HandOversFollowStreamOrder` | platform/outbox/infrastructure/postgres/store.ts:163-172 | At every hand-over of every run, late ones by workers without a lease included, each earlier entry of the stream was already skipped, or handed over successfully and then marked done |
| `OutboxOrder.FinishedIsForever` | platform/outbox/infrastructure/postgres/store.ts:196-218 | Done and skipped entries never change again in any continuation |
| `OutboxOrder.StreamShape` | platform/outbox/infrastructure/postgres/store.ts:160-183 | Every reachable stream is a finished prefix, then at most one touched head, then entries that were never leased and are in nobody's hands |
| `OutboxBudget.HandOverBudget` | platform/outbox/src/dispatcher.ts:75-91 | Over any run an entry is handed over at most maxAttempts times one plus the number of its requeues |
| `OutboxRows.GrantsAreTheOldest` | platform/outbox/infrastructure/postgres/store.ts:160-183 | An entry is granted if and only if it is leasable and fewer than the limit of older ones are |
| `OutboxRows.FailureWrites` | platform/outbox/src/dispatcher.ts:89-102 | A failed hand-over at attempt maxAttempts makes the entry dead, and every earlier one leaves it pending at the retry time; no other row changes |
| `OutboxRows.GivingUpWrites` | platform/outbox/src/dispatcher.ts:74-82 | An entry leased more than maxAttempts times is made dead and never handed over, and one within the limit is not |
| `OutboxRows.ResolutionWrites` | platform/outbox/infrastructure/postgres/store.ts:279-297 | What a requeue and a skip write, field by field |
| `OutboxRows.AttemptsCountGrants` | platform/outbox/infrastructure/postgres/store.ts:173-180 | In every reachable queue the attempts of an entry number its grants since it was appended or last requeued |
| `OutboxRows.RequeuedIsHandedOver` | platform/outbox/infrastructure/postgres/store.ts:286-286 | However often an entry failed before its requeue and whatever happens after it, the first lease that grants it again gives a task at its first attempt, which the dispatcher hands over and does not give up |
| `Drain.SoloPassRows` | platform/outbox/src/dispatcher.ts:66-107 | The whole effect of an undisturbed pass on the table, row by row |
| `Drain.SoloPassDrains` | platform/outbox/infrastructure/postgres/store.ts:156-188 | A solo pass past all deadlines with a succeeding publisher lowers the open entries by exactly the smaller of batch size and number of streams whose head is not dead |
| `Drain.PassesLeaveOnlyBlocked` | platform/outbox/src/dispatcher.ts:66-113 | Repeated passes end with every entry that is still open waiting behind a dead letter of its stream |
| `InMemoryOutbox.InMemoryOutbox.LeaseBatch` | platform/outbox/tests/in-memory-outbox.ts:79-99 | The scan with a set of seen streams grants what the name-based head predicate grants and leases exactly those entries |
| `InMemoryOutbox.ScanGrantsHeads` | platform/outbox/tests/in-memory-outbox.ts:79-99 | Scan and SQL grant the same entries in the same order, at every time and limit, if and only if no open head shares its joined name with an earlier unfinished entry |
| `InMemoryOutbox.BarFreeNamesApart` | platform/outbox/tests/in-memory-outbox.ts:85-87 | Tenants and aggregate types without a bar are enough for that |
| `InMemoryOutbox.SharedNameBlocks` | platform/outbox/tests/in-memory-outbox.ts:85-87 | Two different streams under one joined name on which scan and SQL differ |
| `InMemoryOutbox.BlockedStreamsAreDeadLetters` | platform/outbox/infrastructure/postgres/store.ts:240-258 | In every reachable queue blockedStreams equals deadLetter |
| `Routes.ValidatedRoutes` | platform/outbox/infrastructure/postgres/transport.ts:20-34 | Returns a table that subscribes exactly whom the routes subscribe, or the first fault in checking order, and one of the two depending only on whether there is a fault |
| `Routes.ConsumerNames` | platform/outbox/infrastructure/postgres/transport.ts:9-9 | A consumer name is a lower-case letter and at most 63 letters, digits and marks after it |
| `Routes.ExactTypes` | platform/outbox/infrastructure/postgres/transport.ts:28-28 | An event type is exact if and only if something is left of it when trimmed and no character is a star |
| `RelayTables.Tables.Publish` | platform/outbox/infrastructure/postgres/transport.ts:62-88 | One new pending delivery, due now, for each subscribed consumer that has none of the event yet, and nothing else |
| `RelayTables.Tables.Consume` | platform/outbox/src/inbox.ts:48-59 | The effect runs exactly when the event, by consumer, tenant and event id, was not recorded before; a transaction that does not commit leaves neither record nor effect |
| `RelayTables.ProduceWrites` | platform/outbox/infrastructure/postgres/append.ts:13-26 | An event is appended pending, with no attempts and due at its time, unless its tenant has one of that id already |
| `RelayTables.PublishWrites` | platform/outbox/infrastructure/postgres/transport.ts:62-88 | Reported as a success or not, a publish that committed leaves every subscriber with its delivery, one that did not changes nothing |
| `RelayTables.ConsumeWrites` | platform/outbox/src/inbox.ts:48-59 | Reported as a success or not, a consumption that committed leaves the record and, the first time, one effect |
| `Relay.InvariantAlways` | platform/outbox/infrastructure/postgres/transport.ts:62-88 | Outbox, fan-out, delivery queues and inbox together keep their invariant in every run |
| `Relay.AtMostOneEffect` | platform/outbox/src/inbox.ts:48-59 | In every run each consumer commits at most one effect per tenant and event |
| `Relay.DeliveredHasItsEffect` | platform/outbox/src/inbox.ts:48-59 | Every delivered row has exactly one committed effect |
| `Relay.PublishedReachesEverySubscriber` | platform/outbox/infrastructure/postgres/transport.ts:62-87 | A published entry has a delivery with its envelope for every subscribed consumer |
| `Relay.EffectsFollowOutboxOrder` | platform/outbox/src/delivery.ts:4-18 | For every committed effect of every run: its consumer had before committed that of every earlier subscribed event of the aggregate that was skipped in neither queue |
| `Relay.EffectsHaveSources` | platform/outbox/infrastructure/postgres/transport.ts:66-77 | Every committed effect belongs to one delivery and one outbox entry with the same tenant and event |
| `LateCommit.SkippedEventCommitsLate` | platform/outbox/src/dispatcher.ts:87-106 | A run in which a worker without a lease commits the effect of a skipped event after the effect of the next event |
| `Rounding.RoundsExactly` | platform/money/src/decimal.ts:42-57 | The integer computation returns q if and only if q is the exact rational quotient rounded by the mode, for every sign, ties included |
| `Rounding.RoundsOnce` | platform/money/src/decimal.ts:4-7 | No value rounds to two results |
| `Rounding.SignSymmetric` | platform/money/src/decimal.ts:42-57 | Negating dividend or divisor negates the result |
| `Rounding.CommonFactor` | platform/money/src/decimal.ts:42-57 | A common factor in dividend and divisor changes nothing |
| `Rounding.Monotone` | platform/money/src/decimal.ts:42-57 | A larger dividend never rounds to less |
| `Rounding.TwoStages` | platform/money/src/decimal.ts:42-57 | Truncating, or rounding away from zero, in two stages equals one stage |
| `Rounding.HalfUpStages` | platform/money/src/decimal.ts:42-57 | Rounding half up in two stages equals one stage if and only if the second divisor is odd or the exact quotient is not short of a tie by at most half a unit of the first stage |
| `Rounding.HalfEvenStages` | platform/money/src/decimal.ts:42-57 | The exact condition for half even, by the parity of the second divisor and of the quotient and the distance from a tie |
| `Rounding.HalfModesDoNotStage` | platform/money/src/decimal.ts:42-57 | An instance for each half mode in which two stages differ from one |
| `Decimal.DigitCountFits` | platform/money/src/decimal.ts:37-39 | Having at most n digits is being below ten to the n |
| `Decimal.AddIsExact` | platform/money/src/decimal.ts:124-132 | A sum or difference is returned if and only if, at the larger scale, it has at most 38 digits, and then it is exact |
| `Decimal.MultiplyIsExact` | platform/money/src/decimal.ts:138-144 | A product without rounding is returned if and only if the scales add up to at most 18 and it has at most 38 digits, and then it is exact |
| `Decimal.MultiplyIsCorrect` | platform/money/src/decimal.ts:145-148 | A rounded product is the exact rational product rounded once, refused only for its digits |
| `Decimal.DivideIsCorrect` | platform/money/src/decimal.ts:152-160 | A quotient is the exact rational quotient rounded once, refused only for its digits |
| `Decimal.RoundIsCorrect` | platform/money/src/decimal.ts:163-168 | Rounding to a scale is one rounding of the exact value, or exact at a larger scale |
| `Decimal.RescaleIsExact` | platform/money/src/decimal.ts:171-177 | Rescaling gives exactly the same value at the asked scale, or is refused because no decimal of that scale has the value or it needs more than 38 digits |
| `Decimal.RefusedScales` | platform/money/src/decimal.ts:29-33 | Scales outside 0 to 18 are refused by every operation that is given one |
| `Decimal.CompareIsExact` | platform/money/src/decimal.ts:200-205 | Comparison is that of the rational values, whatever the scales |
| `Decimal.OperationsStayRepresentable` | platform/money/src/decimal.ts:73-79 | No operation builds more than 38 digits or a scale above 18 |
| `DecimalText.ParsePrint` | platform/money/src/decimal.ts:213-218 | Every representable decimal prints as a text that parses back to the same units and scale |
| `DecimalText.PrintParse` | platform/money/src/decimal.ts:82-93 | Every accepted text is printed back unchanged, except that a zero loses its minus sign |
| `DecimalText.ParsesExactly` | platform/money/src/decimal.ts:81-93 | A text is read if and only if it is an optional minus, whole digits without a superfluous zero, and optionally a point with digits, of at most 18 fraction digits and 38 in all; it is read as the number its digits stand for by their places |
| `Digits.DigitsOfNumber` | platform/money/src/decimal.ts:89-91 | Canonical digits are the digits of the number they stand for |
| `Digits.NumberJoins` | platform/money/src/decimal.ts:89-91 | Digits weigh by their place |
| `Ordering.PositionIsRank` | platform/money/src/money.ts:156-158 | In a sorted sequence an entry's position is the number of entries before it |
| `Ordering.SortedOnce` | platform/money/src/money.ts:156-158 | There is one way to sort entries that are all comparable |
| `Ordering.BeforeAtFirstDifference` | platform/money/src/money.ts:158-158 | One string comes before another if and only if it has the smaller code unit at the first difference or is a proper prefix |
| `Allocation.Allocate` | platform/money/src/money.ts:139-168 | Returns the largest-remainder parts in input order, at the total's scale and with its sign, or the first refusal in checking order; no part is refused for its digits |
| `Allocation.Portions` | platform/money/src/money.ts:151-163 | Each share gets the floor of its exact share or one unit more; whoever gets one more has the larger remainder, or the same and the smaller key, than anybody who does not; all units are given out |
| `Allocation.HandOut` | platform/money/src/money.ts:159-163 | The leftover loop ends at zero and gives exactly the first entries of the order one unit each |
| `Allocation.LargestRemainderOnce` | platform/money/src/money.ts:133-138 | There is only one such division of the units, so these conditions determine the result |
| `Allocation.PartsShareOut` | platform/money/src/money.ts:151-167 | The parts are the largest-remainder shares of the total, with its sign |
| `Allocation.RefusalsHaveCauses` | platform/money/src/money.ts:140-148 | Each refusal is given if and only if its cause is there and none looked at earlier: no shares, a repeated key, a negative weight, a weight needing more than 38 digits at another's scale, weights that are all zero |
| `Allocation.ValidatedClaims` | platform/money/src/money.ts:140-149 | Accepted shares become weights that are exact at the common scale, in order, not all zero |
| `Allocation.LeftoverBounds` | platform/money/src/money.ts:154-154 | The leftover is never negative and always less than the number of shares |
| `Allocation.AllocationSumsToTotal` | platform/money/src/money.ts:134-137 | The parts sum exactly to the total |
| `Allocation.PartIsNearExactShare` | platform/money/src/money.ts:151-167 | Each part is strictly within one minor unit of its exact share, and zero for a zero weight |
| `Allocation.HeavierShareGetsNoLess` | platform/money/src/money.ts:153-163 | A share with the larger decimal weight never gets less in magnitude |
| `Allocation.ValidatedPermuted` | platform/money/src/money.ts:140-149 | Acceptance and refusal do not depend on the order of the shares |
| `Allocation.AllocationIgnoresOrder` | platform/money/src/money.ts:136-137 | What a key receives is unchanged by any permutation of the input |
| `CivilDays.YearLength` | platform/money/src/proration.ts:12-13 | The day numbers of consecutive new years are 365 apart, or 366 in leap years |
| `CivilDays.MonthStarts` | platform/money/src/proration.ts:12-13 | The days of the year at which the months start, leap years included |
| `CivilDays.EpochIsZero` | platform/money/src/proration.ts:12-18 | Days are counted from the first of January 1970 |
| `CivilDays.CivilRoundTrip` | platform/money/src/proration.ts:12-18 | Day numbers and valid calendar dates correspond one to one |
| `CivilDays.TomorrowIsNext` | platform/money/src/proration.ts:17-18 | Consecutive calendar dates have consecutive day numbers across months, years and leap days |
| `CivilDays.AcceptedDates` | platform/money/src/proration.ts:9-19 | A date is accepted if and only if it has the written form and its digits spell a calendar date of the year 100 or later, and its number is then the day's |
| `CivilDays.YearFiftyIsRefused` | platform/money/src/proration.ts:9-19 | The text 0050-01-01 has the written form and is a calendar date, and is refused |
| `Proration.ProratesOnce` | platform/money/src/proration.ts:45-46 | Accepted proration is amount times used days over days of the period, rounded once, and refused only when the exact product has too many digits |
| `Proration.ProrationAccepted` | platform/money/src/proration.ts:39-46 | Accepted if and only if all four dates are, the period has a day, the used interval runs forward within it, and the exact product has at most 38 digits |
| `Proration.ProrationRefused` | platform/money/src/proration.ts:22-44 | The first fault in checking order is the one reported |
| `Proration.FullPeriod` | platform/money/src/proration.ts:33-47 | The whole period gives the amount back |
| `Proration.MoreDaysNoLess` | platform/money/src/proration.ts:33-47 | More used days never prorate to less in magnitude |
| `Proration.DaysAdd` | platform/money/src/proration.ts:22-26 | Days of adjacent intervals add up |
| `Proration.NextDateIsOneDay` | platform/money/src/proration.ts:22-26 | From a date to the next on the calendar is one day |
| `Proration.SplitNearAmount` | platform/money/src/proration.ts:28-47 | With a half mode the parts of any split of a period into k intervals sum to within k/2 minor units of the amount |
| `Proration.SplitDownFallsShort` | platform/money/src/proration.ts:28-47 | Truncating a non-negative amount over k intervals loses less than k minor units and gains none |
| `JsonText.QuotedInjective` | platform/idempotency/src/canonical.ts:23-24 | A quoted string followed by anything determines the string and what follows, lone surrogates and escapes included |
| `JsonText.QuotedReadsBack` | platform/idempotency/src/canonical.ts:23-24 | A quoted string, whatever follows it, is read back by the string grammar of RFC 8259 |
| `JsonText.EscapedPairsUp` | platform/idempotency/src/canonical.ts:23-24 | The written text never has a lone surrogate, whatever string is quoted |
| `JsonText.EscapedIsShortest` | platform/idempotency/src/canonical.ts:23-24 | Of all texts without lone surrogates from which the string is read, the written one is a shortest: nothing is escaped without need, and with two letters where JSON has them |
| `JsonText.HexReads` | platform/idempotency/src/canonical.ts:23-24 | The four hexadecimal digits read back and have no upper-case letter |
| `CanonicalJson.AcceptedValues` | platform/idempotency/src/canonical.ts:17-42 | Printing succeeds if and only if the value is finite plain JSON at most 32 levels deep, undefined only where it is dropped or becomes null |
| `CanonicalJson.NormalIsEquivalence` | platform/idempotency/src/canonical.ts:12-16 | Two values have the same normal form if and only if they are equal up to key order, undefined properties, undefined items as null, and minus zero |
| `CanonicalJson.PlainInjective` | platform/idempotency/src/canonical.ts:28-38 | A printed normal form followed by a delimiter determines its value and where it ends |
| `CanonicalJson.PlainReads` | platform/idempotency/src/canonical.ts:19-38 | A JSON reader that knows nothing of the printer reads a printed normal form back, and stops where it ends |
| `CanonicalJson.PrintReadsBack` | platform/idempotency/src/canonical.ts:17-42 | The printed text of every accepted value is JSON of an equivalent value in which the keys of every object, however deep, stand in strictly ascending code-unit order |
| `CanonicalJson.SameTextIffEquivalent` | platform/idempotency/src/canonical.ts:17-42 | Accepted values print the same text if and only if they are equivalent |
| `CanonicalRequest.RequestsAgree` | platform/idempotency/src/canonical.ts:44-47 | Accepted requests have the same hashed text if and only if scope is equal and payload equivalent |
| `CanonicalRequest.RequestText` | platform/idempotency/src/canonical.ts:44-47 | The hashed text spelled out: the payload under its key, then the scope under its |
| `CanonicalRequest.RequestTextOfNothing` | platform/idempotency/src/canonical.ts:34-47 | Without a payload, the scope alone |
| `IdempotentExecutor.KeyStore.Insert` | platform/idempotency/infrastructure/postgres/store.ts:58-66 | Claims the key if and only if no record is committed, waiting for a concurrent writer |
| `IdempotentExecutor.KeyStore.Replace` | platform/idempotency/infrastructure/postgres/store.ts:68-78 | Claims the key if and only if the committed record expired by this transaction's clock |
| `IdempotentExecutor.KeyStore.Claim` | platform/idempotency/infrastructure/postgres/store.ts:55-93 | Ends holding the row as being processed, or with the committed record, or closed; undisturbed, the committed record alone decides which |
| `IdempotentExecutor.KeyStore.Complete` | platform/idempotency/infrastructure/postgres/store.ts:95-107 | Writes the response into the record this transaction is processing, and fails otherwise |
| `IdempotentExecutor.KeyStore.WorkAndCommit` | platform/idempotency/src/executor.ts:157-164 | Returns the response exactly when the work gives one with a status from 100 to 599 and a body of finite plain JSON at most 32 levels deep, and the commit goes through; then, and also when the commit takes effect without being acknowledged, the response is stored |
| `IdempotentExecutor.KeyStore.AnswerFound` | platform/idempotency/src/executor.ts:139-155 | Conflict for a different hash, else the stored response; the committed record is unchanged |
| `IdempotentExecutor.Executor.Execute` | platform/idempotency/src/executor.ts:113-165 | Every execution is a run of the transition system that contributes exactly the fact its outcome stands for, a lost acknowledgement included; from a reachable store nobody is told that a request is in progress |
| `Idempotency.InvStep` | platform/idempotency/src/executor.ts:121-165 | Every step of every interleaving keeps the invariant |
| `Idempotency.ExecutionsAreSpaced` | platform/idempotency/infrastructure/postgres/store.ts:68-78 | Successive committed executions of one key have clock readings at least the retention apart |
| `Idempotency.OneExecutionPerRetention` | platform/idempotency/src/executor.ts:113-133 | Within one retention of clock time there is one execution |
| `Idempotency.ReplaysReturnTheStoredResponse` | platform/idempotency/src/executor.ts:139-155 | Every other success returns verbatim the response of the execution that was the latest when the record was read, for the same hash, and within its retention |
| `Idempotency.ConflictsAreReal` | platform/idempotency/src/executor.ts:144-150 | A conflict is reported only against a live execution of a different request |
| `Idempotency.StorableResponses` | platform/idempotency/src/executor.ts:157-161 | The check lets through exactly the responses with a status from 100 to 599 and a body of finite plain JSON at most 32 levels deep |
| `Idempotency.ResponsesAreStorable` | platform/idempotency/src/executor.ts:157-164 | In every run whatever is stored or replayed is such a response |
| `Idempotency.NeverInProgress` | platform/idempotency/src/executor.ts:131-153 | No committed record is ever being processed, and the answers for it never occur |
| `Idempotency.CommittedByExecutionsAlone` | platform/idempotency/src/executor.ts:46-50 | The committed state is what the executions alone determine; conflicts, failures and replays leave no trace in it |
| `Idempotency.ReplaysAnswerEquivalentRequests` | platform/idempotency/src/executor.ts:139-155 | A replay answers only a request whose payload is equivalent to the executed one |
| `IdempotentCommands.InvStep` | modules/identity-tenant/application/tenant-commands.ts:113-117 | Every step of key statements, handlers' statements and joint commits keeps both invariants and the bond between execution and version |
| `IdempotentCommands.CommitTogether` | modules/identity-tenant/application/tenant-commands.ts:113-117 | A transaction under a key commits an event on the aggregate if and only if it is an execution of the key |
| `IdempotentCommands.ResponsesTellVersions` | modules/identity-tenant/application/tenant-commands.ts:203-226 | The stored response of every execution tells the version its own transaction committed |
| `IdempotentCommands.OneVersionPerRetention` | modules/identity-tenant/application/tenant-commands.ts:145-168 | Among the commands under one key whose clocks lie within one retention at most one commits a version |
| `IdempotentCommands.ReplaysTellTheVersion` | modules/identity-tenant/application/tenant-commands.ts:191-228 | A replay answers with the version an earlier command under the key committed, for the same hash and within its retention |
| `IdempotentCommands.ReplayedTenantWasAnnounced` | modules/identity-tenant/application/tenant-commands.ts:191-228 | A replayed tenant command returns the snapshot that one committed event announces |
| `IdempotentCommands.FreeCommandTakesEffect` | modules/identity-tenant/application/tenant-commands.ts:187-229 | From every state in which the key is free and nobody writes the row, an accepted command whose response can be stored leads to a state in which row, fact, event and response are all committed |
| `Approval.ProposalIsSound` | modules/audit-governance/domain/approval.ts:92-134 | Every accepted proposal starts out keeping all rules below |
| `Approval.DecideKeeps` | modules/audit-governance/domain/approval.ts:140-185 | Every accepted decision keeps them, that every stored decision was made before the request expired included |
| `Approval.DecisionsAreInTime` | modules/audit-governance/domain/approval.ts:153-156 | In every run from a proposal every stored decision was made before expiresAt |
| `ApprovalRules.DecisionAccepted` | modules/audit-governance/domain/approval.ts:140-208 | A decision is accepted if and only if the request is pending at the expected version and unexpired, the target is the same in all four parts, the approver is not the maker under separation of duties, has not decided yet, and holds a required permission, for an approval one that is still open |
| `ApprovalRules.DecisionRefused` | modules/audit-governance/domain/approval.ts:147-208 | A refusal names the first of these conditions that fails |
| `ApprovalRules.DecisionMakes` | modules/audit-governance/domain/approval.ts:173-185 | What an accepted decision makes of the request, field by field, credited with the first requirement that qualifies |
| `ApprovalRules.CancellationAccepted` | modules/audit-governance/domain/approval.ts:217-224 | Cancelling is accepted from the maker of a pending request at the expected version and from nobody else |
| `ApprovalRules.ExpiryAccepted` | modules/audit-governance/domain/approval.ts:226-233 | Expiring is accepted at or after expiresAt and not before |
| `ApprovalRules.ProposalAccepted` | modules/audit-governance/domain/approval.ts:92-134 | A proposal is accepted if and only if no field is blank, action types agree, version and policy are valid and requirements are distinct; it expires after the policy's seconds |
| `Approval.DecidersAreDistinct` | modules/audit-governance/domain/approval.ts:167-172 | In every run deciders are distinct, and under separation of duties none is the maker |
| `Approval.MetIffRequiredCount` | modules/audit-governance/domain/approval.ts:187-215 | In every run every requirement is met if and only if the approvals number requiredApprovals, and no credit exceeds its requirement |
| `Approval.ApprovedMeansApproved` | modules/audit-governance/domain/approval.ts:182-184 | An approved request has exactly requiredApprovals approvers, each credited with a permission held when deciding |
| `Approval.PendingAcceptsApprover` | modules/audit-governance/domain/approval.ts:140-208 | A pending, unexpired request accepts an approval if and only if its approver is fresh, may decide and holds an unmet requirement, and then one approval less is missing |
| `Approval.ApprovalLowersRemaining` | modules/audit-governance/domain/approval.ts:182-184 | The request becomes approved exactly when nothing is missing any more |
| `Approval.SettledStays` | modules/audit-governance/domain/approval.ts:83-90 | Settled requests accept no command |
| `Approval.CrowdInAnyOrder` | modules/audit-governance/domain/approval.ts:187-215 | Of different people who may decide and each hold exactly one requirement, all are accepted and the request ends approved, whatever the order, if and only if each requirement has as many holders as it still misses |
| `Approval.GreedyCreditDoesNotLookAhead` | modules/audit-governance/domain/approval.ts:191-208 | A request and two approvers who settle it in one order, while in the other the second of them is refused |
| `ApprovalCommands.EveryCommittedRequestIsSound` | modules/audit-governance/application/approval-commands.ts:118-172 | Under every interleaving of commands, every committed snapshot keeps the approval rules, and all its decisions were made before it expired |
| `ApprovalCommands.EventsTellTheRequest` | modules/audit-governance/application/approval-commands.ts:55-87 | Every event and audit fact tells the status and version of the snapshot committed with it, the last ones those of the row |
| `ApprovalCommands.RecordedWhenMade` | modules/audit-governance/application/approval-commands.ts:55-87 | Event and fact carry the clock reading of their command |
| `ApprovalCommands.EveryDecisionIsAnnounced` | modules/audit-governance/application/approval-commands.ts:151-156 | The decision events number exactly the stored decisions |
| `ApprovalCommands.SettledIsFinal` | modules/audit-governance/infrastructure/postgres/approval-persistence.ts:107-117 | Under every interleaving an event that tells a settled status is the last of its request |
| `ApprovalCommands.Commands.HeldPermissions` | modules/audit-governance/application/approval-commands.ts:134-138 | The loop collects the held permissions of the request loaded now, in policy order |
| `ApprovalCommands.Commands.ProposeApproval` | modules/audit-governance/application/approval-commands.ts:99-116 | A proposal commits as the whole history, sound, with its fact and event; on every other ending its transaction has committed nothing |
| `ApprovalCommands.Commands.DecideApproval` | modules/audit-governance/application/approval-commands.ts:118-159 | A decision that takes effect is the domain's on the snapshot directly before it, with its fact and event, whatever others did, and otherwise nothing of it is committed; undisturbed, the domain's verdict is returned |
| `ApprovalOutcomes.DecidedLastWasAccepted` | modules/audit-governance/application/approval-commands.ts:118-159 | Whatever others did, a decision that takes effect was made on a pending, unexpired snapshot of the same target and version, by somebody who may take part and, where permissions are required, holds one when deciding, for an approval one that is still open |
| `ApprovalOutcomes.DecisionOnAccepted` | modules/audit-governance/application/approval-commands.ts:132-150 | Undisturbed, the handler accepts a decision if and only if these rules allow it |
| `ApprovalCommands.Commands.CancelApproval` | modules/audit-governance/application/approval-commands.ts:161-172 | The same for withdrawing |
| `VersionChain.InvStep` | modules/identity-tenant/infrastructure/postgres/tenant-persistence.ts:79-91 | Every step of concurrent load, decide, compare-and-set, audit append, event append and commit, with failures between any two, keeps the chain invariant |
| `VersionChain.SameVersionSameSnapshot` | modules/audit-governance/infrastructure/postgres/approval-persistence.ts:107-117 | Comparing versions compares snapshots |
| `VersionChain.VersionsAreConsecutive` | modules/identity-tenant/application/tenant-commands.ts:203-225 | Committed events carry, in their own version field, exactly 1..n in sequence order, n being the stored version, and so do the audit facts, one for each version |
| `VersionChain.HistoryIsAChain` | modules/audit-governance/application/approval-commands.ts:132-158 | Each committed snapshot, with the event and fact committed with it, is what one accepted command made of the snapshot before, and the row is the last one |
| `VersionChain.OneEventPerTransaction` | modules/identity-tenant/application/tenant-commands.ts:203-225 | No transaction commits two events, and an open one none |
| `VersionChain.HistoryOnlyGrows` | modules/identity-tenant/application/tenant-commands.ts:203-225 | In every continuation of a run, committed snapshots, facts and events stay as they are |
| `VersionChain.FinalSnapshotIsLast` | modules/identity-tenant/domain/tenant.ts:32-37 | A snapshot no command applies to ends its history |
| `VersionedRow.Row.Update` | modules/identity-tenant/infrastructure/postgres/tenant-persistence.ts:79-91 | The update succeeds if and only if the row is free and still the very snapshot loaded |
| `VersionedRow.Row.Insert` | modules/identity-tenant/infrastructure/postgres/tenant-persistence.ts:53-66 | The insert succeeds if and only if there is no row and nobody is writing one |
| `VersionedRow.ReachableOn` | modules/audit-governance/application/approval-commands.ts:132-158 | What handlers make of a reachable state is reachable, so the theorems about runs hold of it |
| `VersionedRow.Row.AppendFact` | modules/audit-governance/application/approval-commands.ts:64-71 | The decision's audit fact is staged in the open transaction and nothing is committed |
| `VersionedRow.Row.AppendEvent` | modules/audit-governance/application/approval-commands.ts:72-86 | The decision's event is staged with the next sequence number and nothing is committed |
| `VersionedRow.Row.Commit` | modules/audit-governance/application/approval-commands.ts:132-158 | Row, staged fact and staged event become visible together |
| `VersionedRow.Row.Finish` | modules/audit-governance/application/approval-commands.ts:151-156 | A change that takes effect follows directly on the snapshot it was decided on; on every other ending its transaction has committed no event |
| `VersionedRow.Row.Create` | modules/identity-tenant/application/tenant-commands.ts:154-165 | A creation that takes effect is the whole history; on every other ending its transaction has committed no event |
| `Tenant.ChangesAnnounceThemselves` | modules/identity-tenant/domain/tenant.ts:72-91 | An accepted transition's event has the identity, new version and time of the new snapshot and the type that stands for its state |
| `Tenant.TransitionAccepted` | modules/identity-tenant/domain/tenant.ts:32-83 | A transition is accepted if and only if the version is the expected one and the path is provisioning to active, active to suspended or closed, or suspended to active or closed; a version conflict is reported first |
| `Tenant.TransitionMakes` | modules/identity-tenant/domain/tenant.ts:84-91 | An accepted transition changes state, version and time only, and its event has the type of the new state |
| `Tenant.ProvisionAccepted` | modules/identity-tenant/domain/tenant.ts:52-70 | A tenant is provisioned if and only if its name is not blank, under the trimmed name and as version 1 |
| `Tenant.MoveWrites` | modules/identity-tenant/application/tenant-commands.ts:203-225 | Snapshot, event and audit fact of a transition, field by field, its reason included |
| `Tenant.TenantHistory` | modules/identity-tenant/domain/tenant.ts:32-37 | Under every interleaving a tenant's committed states run from provisioning along the legal paths, identity unchanged |
| `Tenant.LastEventDeterminesState` | modules/identity-tenant/application/tenant-commands.ts:56-68 | The last event in the outbox determines the stored row: its type the state, its other fields identity, version and time of change |
| `Tenant.EventsFollowTheTable` | modules/identity-tenant/application/tenant-commands.ts:218-224 | The recorded event types run along the legal paths, each event naming the state the one before it stands for |
| `Tenant.AuditMatchesEvents` | modules/identity-tenant/application/tenant-commands.ts:210-217 | Fact by fact the audit trail has the action, state and version of the event, and starts where the fact before it ended |
| `Tenant.ClosedIsFinal` | modules/identity-tenant/domain/tenant.ts:36-36 | A closing event is the last and the stored tenant is closed |
| `Tenant.ProvisionedOnce` | modules/identity-tenant/domain/tenant.ts:52-70 | The first committed event and no other has the provisioning type |
| `TenantCommands.Commands.ProvisionTenant` | modules/identity-tenant/application/tenant-commands.ts:131-170 | Provisioning commits the domain's snapshot, event and fact as version 1 of a new history; on every other ending its transaction has committed nothing |
| `TenantCommands.Commands.TransitionTenant` | modules/identity-tenant/application/tenant-commands.ts:172-229 | A transition that takes effect is the table's on the snapshot directly before it, with its event and fact, and otherwise nothing of it is committed; suspending and closing without a reason is refused before anything happens |
| `Blanks.TrimmedIsBlank` | modules/identity-tenant/domain/tenant.ts:53-56 | Trimming cuts the blanks around a text and nothing else, and leaves nothing exactly of blank text |
| `Administrators.InvStep` | modules/identity-tenant/application/authorization.ts:87-106 | Every step of concurrent assign and revoke transactions keeps the invariant |
| `Administrators.SomeAdministratorAlways` | modules/identity-tenant/application/authorization.ts:97-104 | Under every interleaving every committed state of a provisioned tenant has an active administrator |
| `Administrators.AdministratorAtEveryPoint` | modules/identity-tenant/application/authorization.ts:97-104 | So had every earlier point of the committed history |
| `Administrators.AssignmentsReplayTheLog` | modules/identity-tenant/infrastructure/postgres/security-persistence.ts:44-68 | The assignments are what the committed changes made of the initial one; nobody changed their own role and no change was idle |
| `RoleAdministration.RoleTables.FindByCode` | modules/identity-tenant/infrastructure/postgres/security-persistence.ts:28-42 | Locks an active role's row, waits for another holder, and refuses absent and inactive roles |
| `RoleAdministration.RoleTables.CountActiveHolders` | modules/identity-tenant/infrastructure/postgres/security-persistence.ts:69-77 | Counts the committed active holders; at most one ends the transaction |
| `RoleAdministration.RoleTables.WriteAssignment` | modules/identity-tenant/infrastructure/postgres/security-persistence.ts:45-68 | Affects a row if and only if somebody without an active row is assigned, after a revocation included, or an active row is revoked |
| `RoleAdministration.Administration.Perform` | modules/identity-tenant/application/authorization.ts:74-131 | Success, and an error after a commit that was not acknowledged, mean the change was the last one committed and the row is as asked; an undisturbed change succeeds if and only if it is permitted |
| `RoleAdministration.PermittedChanges` | modules/identity-tenant/application/authorization.ts:74-106 | Permitted: somebody else's active role; an assignment of anybody not active; a revocation of somebody active, and of an administrator only if there is another |
| `RoleAdministration.RefusalsHaveCauses` | modules/identity-tenant/application/authorization.ts:78-106 | Each refusal has its cause, and the causes are looked at in this order |
| `MemoryStore.Store.Get` | platform/tenant-context/src/memory-store.ts:31-42 | Returns a value before its expiry and makes it the most recent, and drops it at its expiry or later |
| `MemoryStore.Store.Set` | platform/tenant-context/src/memory-store.ts:44-54 | Makes the entry the most recent and keeps the newest that fit; a lifetime that is not positive changes nothing |
| `MemoryStore.Store.Delete` | platform/tenant-context/src/memory-store.ts:56-58 | Removes the entry and keeps the order of the others |
| `MemoryStore.ReadableUntilExpiry` | platform/tenant-context/src/memory-store.ts:31-54 | In every run a value set for so many seconds, or for ever, is returned until then, as long as nobody sets, deletes or reads it too late and fewer other keys are named than fit |
| `MemoryStore.ReturnsTheLastSet` | platform/tenant-context/src/memory-store.ts:31-58 | In every run a get returns nothing but the value set last under the key, before its expiry and with no delete since |
| `MemoryStore.GoneAtExpiry` | platform/tenant-context/src/memory-store.ts:34-37 | In every run a value set for so many seconds is not returned from then on |
| `MemoryStore.Store.TrimToCapacity` | platform/tenant-context/src/memory-store.ts:49-53 | The loop leaves exactly the newest entries that fit |
| `MemoryStore.ShapeAlways` | platform/tenant-context/src/memory-store.ts:49-53 | A store never holds more entries than its capacity, nor a key twice |
| `MemoryStore.SmallerIsIncluded` | platform/tenant-context/src/memory-store.ts:31-54 | For the same operations and clock a smaller store holds a part of a larger or unbounded one: equal entries in the same relative order |
| `MemoryStore.UnboundedIsTheMap` | platform/tenant-context/src/memory-store.ts:31-58 | Without a capacity the store is a plain map in which values last until their expiry |
| `MemoryStore.BoundedReturnsTheMap` | platform/tenant-context/src/memory-store.ts:31-42 | What a bounded store returns is what the plain map holds |
| `MemoryStore.EvictionTakesCapacityManyKeys` | platform/tenant-context/src/memory-store.ts:49-53 | A key is pushed out only after at least maxEntries distinct other keys were set or hit since its last touch |

## Left out

- PostgreSQL itself: each statement is one atomic step under READ COMMITTED, row locks last to the end of the transaction, rollback restores the prior state; `FOR UPDATE SKIP LOCKED` is a set of locked rows given to the lease step.
- Outbox columns that decide nothing: timestamps of publication and appending, last error, resolution record, trace context. An entry's id is its index in the table; producers' envelopes are not validated here.
- The outbox transaction of producers and their inbox double: an append is one step that adds a pending entry.
- Listening, notification, spans, metrics and the ages reported by the statistics.
- In-memory outbox operations other than leasing and the blocked-stream count: they repeat the SQL statements row by row.
- The operator's audit record and tenant binding around dead-letter resolution.
- Default retry delays: the retry time of a failed hand-over is arbitrary.
- Purging of idempotency records: no implementation exists beside a port and a test double; rows are never deleted in the model.
- The checks before an idempotent transaction (scope and key patterns, tenant identity in the payload, authorization) and the response's way through jsonb, which may reorder keys; the response is compared as stored.
- SHA-256: a request's hash is its canonical text, as if hashing were injective.
- Sparse arrays, cycles, class instances and getters in canonical JSON: values are finite trees, everything that is not plain JSON is one foreign value, and the numeral a number prints as is taken for the number.
- Currency lookup and currency mismatch, `sumMoney` and the other thin `Money` wrappers over `Decimal`: an amount is a decimal at its currency's minor unit.
- Non-integer and non-finite numbers passed as scales, counts, times or lifetimes.
- Free-text reasons of approval decisions, which are trimmed and stored, and who acts in audit facts.
- Permission evaluation, principal kind and assurance checks before approval and role commands; `holds` and the acting actor are given.
- Default approval policies and role rows inserted with a tenant; correlation and other context fields of events and audit facts.
- The JSON body of a stored tenant: the response a snapshot stands for is a parameter of `IdempotentCommands`, and every result holds for each choice of it.
- In `IdempotentCommands` nothing ties a request's hash to the command it is taken of, so its results hold for any commands under one key; a replay has the hash of the command whose version it tells.
- Row-level security and the tenant assertions of the stores: each model is about one tenant, or one aggregate, at a time.
- Changing a role's status: no code does.
- Structured cloning of cached values: values are immutable here.
- Expiring approval requests by a sweeper has no handler; the domain transition is part of every run of `Approval`, not of `ApprovalCommands`.
- `OutboxStore.QueueStore.LeaseBatch`: the limit is an integer, so the check for a limit that is not one is not modelled.
