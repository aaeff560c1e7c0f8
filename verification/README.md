# Mesa competition engine: a Dafny model

The repository runs prediction competitions. A *Mesa* is a private competition with its own seats, entry cost and
prizes, paid in *tampinhas*. This project models the engine behind it, from admission to payout, and proves what its
services promise about scores, seats and money.

## How the model is built

- **Ranking and prizes.** `JsArray`, `Tiebreak`, `Apportionment`, `Prize`, `PrizeLaws`: the stable sort with its running
  position counter, and the largest-remainder split over tie groups, in exact arithmetic. `Payability` says when every
  payout of the split is worth something.
- **The book.** `Book` and `BookRun` hold rounds, tickets, users and the score history, with the scoring service that
  keeps the running totals. `Window` builds the rows of a Mesa from them.
- **One Mesa.** `Domain`, `MesaRules`, `MesaIntegrity`, `Join`, `Wallets`, `Lifecycle`, `Settlement` say what each
  service does to the rows it touches. `MesaInvariant`, `SettlementLaws` and `MesaClosing` prove what a Mesa keeps from
  creation to settlement. `CreationPolicy` states the rules of the product for new and edited Mesas, category by
  category, and proves that the checks of the services are these rules.
- **The committed database.** `Competition` is a state machine of whole operations. `CompetitionInvariant`,
  `Conservation` and `Progress` prove what all its runs keep, conserve and fix for ever.
- **Concurrency.** `Interleaving` breaks a join into its statements: reads may be stale, writes are private until the
  commit and lock their rows, every statement acts on what is committed at that moment, and a transaction may abort
  anywhere. `InterleavingLaws` and `Concurrency` prove that every interleaved run commits what a sequence of whole
  operations does, so the results about `Competition` carry over; `Guarantees` restates them for the concurrent system.
  `ExpiredMesas` follows a Mesa whose rounds are over until it is settled, or never is. `UnapprovedRows` asks what the
  seats count over participant rows that no modelled operation leaves.
- **The services.** `Operations` names the whole operations; the class `Services.Database` holds the tables as mutable
  fields, and its methods, written statement by statement with their loops and roll-backs, are proved to perform them.
  `JoinOutcomes` and `ClosingOutcomes` say in the columns of the tables when an operation goes through, why it is
  refused and all that it writes; `OperationsLaws` and `OperationRuns` that each operation is a run of `Competition`.
- **Independent parts.** `PeriodRanking`, `MonthlyRankings`, `Webhook`, `RedisSessions`.

`dafny verify dfyconfig.toml` checks the whole project.

## Assumptions

- Rounds are scored in number order, and a scored round has closed later than those scored before it
  (`BookRun.Allowed`). What the calculator makes of a ticket is a parameter.
- A statement that needs a row locked by another transaction waits: in `Concurrency.Possible` an action that would
  write such a row cannot happen yet. A round selected `FOR SHARE` keeps its status until the transaction ends.
- Registration is not closed by date under a join in flight on the same Mesa (`Interleaving.Undisturbed`).
- Every Mesa starts with `CreateMesa`; while it is a draft, `EditDraft` may change it. Clock readings, the PRO status of
  a user, the existence of the requesting user and the first instant of the day are parameters.
- An id stands for its place in `localeCompare` order. Integers are unbounded; the tables hold 32-bit columns.
- Unique indexes are part of the model: one participant per user and Mesa, one history row per user and round, one
  ledger row per idempotency key, one payment per id of the provider.
- So are the checks of the tables that the services do not repeat: a ledger row is worth more than 0
  (`Wallets.Insertable`), and a Mesa of rounds lasts more than 0 of them (`MesaRules.AcceptedByDatabase`). A statement
  that a table refuses fails its whole transaction.

## Where code and documentation differ

The code is followed.

- `docs/mesa-official-rules-v2-decisions.md` asks for a FREE Mesa with both a number of rounds and a closing date;
  `mesa-schedule-rules.ts` refuses the combination. The document lets a PAID Mesa last by rounds only; the code also
  takes a date.
- A FREE Mesa may be created with a blank description. `inspect` then reports missing prize rules and settlement is
  blocked: `MesaIntegrity.CreatedMesaReport` and `MesaClosing.GuardsPassExactly` state exactly when.
- A Mesa whose registration closes by date while no round is open gets no reference round and can never be closed:
  `Guarantees.ClosedWithoutReference`, `Guarantees.WithoutReferenceNeverCloses`.
- A short-lived session shortens the life of its user's whole index: `RedisSessions.PersistKeepsExactly` states when
  revocation is still complete.
- A payout that is rounded down to 0 is refused by the check of the ledger
  (prisma/constraints/non-negative-balances.sql, lines 12-16), and the whole closing with it.
  `MesaClosing.CloseExactly` states when a Mesa closes, `Payability.PayableExactly` when no payout is 0. A Mesa of two
  seats that cost 1, with the accepted distribution 99 to 1, stays open unless its players tie:
  `ExpiredMesas.NinetyNineToOneStaysOpen`. Trying a Mesa of rounds without a sponsor again never helps: it stays open,
  and exactly as it is, over every run but for a closing forced by somebody who had read it before it got its end
  (`ExpiredMesas.RefusedForEver`, `ExpiredMesas.StaysOpenForEver`).
- In the same way a wallet payment whose coins and bonus are worth 0 is never processed:
  `Webhook.WorthlessIsNeverProcessed`. The services that create payments are not part of this model.
- `mesa-lifecycle.service.ts` promises milestones that do not depend on the delay of the job. This holds of the closing
  date; the reference round is the one open when the job runs: `MesaInvariant.DelayMattersExactly`,
  `MesaInvariant.DelayedReference`.
- A period ranking leaves an excluded round out of the scores, but its hits count as long as the user plays a later
  round of the period: `PeriodRanking.PeriodRowIsTheSum`. The monthly ranking excludes its reference round this way.
- Over a participant row left unapproved by earlier versions of the service, two joins of one user can count two seats
  of an unpaid Mesa: `UnapprovedRows.TwoSeatsForOne`. A paid Mesa is safe: `UnapprovedRows.PaidNeverDrifts`. No modelled
  operation leaves such rows.

## Model

| member | source | states |
|---|---|---|
| `Tiebreak.Rank` | src/services/ranking/ranking-tiebreak.service.ts:51-73 | The running position counter gives every row of the sorted list one plus the number of rows officially ahead of it, for any rows and metrics. |
| `Tiebreak.RankingPermutes` | src/services/ranking/ranking-tiebreak.service.ts:51-73 | The ranking loses and invents nobody. |
| `Tiebreak.RankingIsOfficialOrder` | src/services/ranking/ranking-tiebreak.service.ts:17-37 | Nobody is listed ahead of somebody officially better (score, super doubles, doubles, older account), and positions never decrease. |
| `Tiebreak.SharedPositionIsOfficialTie` | src/services/ranking/ranking-tiebreak.service.ts:39-49 | Two rows share a position if and only if they tie on the four official criteria; the id never decides. |
| `Tiebreak.RankingIgnoresRowOrder` | src/services/ranking/ranking-tiebreak.service.ts:31-37 | With distinct users the ranking is the same for every arrangement of the input rows. |
| `Prize.ValidDistributionsExactly` | src/services/bolao/bolao-prize.service.ts:33-57 | The validator accepts a value if and only if it is the list of positions 1..k with positive integer percentages adding up to 100, and returns it unchanged. |
| `Prize.DistributionErrorIsTrue` | src/services/bolao/bolao-prize.service.ts:33-57 | A refused distribution has the fault that the refusal names: nothing listed, a position out of order, a percentage that is not positive, or a sum that is not 100. |
| `Prize.CalculatePool` | src/services/bolao/bolao-prize.service.ts:63-70 | Fee and prize add up to what was collected, and the fee is a tenth of it rounded down. |
| `Prize.CalculatePayouts` | src/services/bolao/bolao-prize.service.ts:72-135 | The loops over the two maps, the weighted rows and the amounts compute the specification Payouts, on which the laws below are proved. |
| `Prize.GroupByPosition` | src/services/bolao/bolao-prize.service.ts:86-91 | The map of tie groups holds, in order of first appearance, exactly the rows of each position. |
| `Prize.WeighGroups` | src/services/bolao/bolao-prize.service.ts:93-111 | Group by group, the rows that take part get an equal part of the percentages their positions occupy; the running total is the sum of the weights. |
| `Apportionment.HandOut` | src/services/bolao/bolao-prize.service.ts:121-128 | The in-place loop over the remainder order ends and gives one unit to exactly the entries whose turn comes before the leftover is used up. |
| `Apportionment.LeftoverIsSmall` | src/services/bolao/bolao-prize.service.ts:121-128 | The leftover is never negative and smaller than the number of rows, so the loop never wraps around. |
| `Apportionment.AmountsConservePool` | src/services/bolao/bolao-prize.service.ts:115-128 | The amounts add up to the pool to the last unit, for all weights whose total is not 0. |
| `Apportionment.AmountsStayInQuota` | src/services/bolao/bolao-prize.service.ts:115-128 | Every amount is the exact share -- pool times weight over the sum of the weights -- rounded down, or that plus one. |
| `Apportionment.LargestRemaindersFirst` | src/services/bolao/bolao-prize.service.ts:115-128 | Who gets the unit that another does not get has the larger fraction of the exact share, or the same fraction and comes first. |
| `Apportionment.AmountsFollowWeights` | src/services/bolao/bolao-prize.service.ts:122-128 | A larger weight never gets less; equal weights differ by at most one unit, which goes to the earlier row. |
| `PrizeLaws.PayoutsConservePool` | src/services/bolao/bolao-prize.service.ts:81-135 | Whenever some group pools a percentage, a positive pool is paid out entirely; otherwise nothing is paid. |
| `PrizeLaws.WeightedRowsExactly` | src/services/bolao/bolao-prize.service.ts:97-111 | A row takes part in the split exactly once if its group pools a percentage, and never otherwise. |
| `PrizeLaws.RankingHasCompetitionPositions` | src/services/ranking/ranking-tiebreak.service.ts:59-72 | A ranking hands the prize calculation positions 1, 2, 2, 4, ... |
| `PrizeLaws.GroupsTilePositions` | src/services/bolao/bolao-prize.service.ts:97-111 | The positions that the tie groups of a ranking occupy tile 1..n: together they pool exactly the first n percentages. |
| `PrizeLaws.RankedTotalWeight` | src/services/bolao/bolao-prize.service.ts:93-111 | On a ranked Mesa with k prizes and n rows the total weight is the sum of the first min(n, k) percentages, 100 when n >= k. |
| `PrizeLaws.RankedRowIsPaidByPosition` | src/services/bolao/bolao-prize.service.ts:97-111 | A ranked row takes part in the split if and only if its position is at most k. |
| `PrizeLaws.PayoutsAreFair` | src/services/bolao/bolao-prize.service.ts:106-128 | A heavier group is never paid less, the earlier of two tied rows gets as much as the later or one unit more, and every payout is its exact share rounded down or that plus one. |
| `PrizeLaws.PaysTheFirst` | src/services/bolao/bolao-prize.service.ts:83-135 | A ranked Mesa with k prizes pays exactly the rows placed up to k, in the order of the ranking. |
| `PrizeLaws.RankedPayouts` | src/services/bolao/bolao-prize.service.ts:83-135 | Each payout of a ranking is the exact share of its place rounded down -- pool times the percentages of the places the tied rows occupy, over their number and the percentages paid -- plus one unit for the largest fractions, the earlier row first. |
| `Payability.PayoutIsPositiveExactly` | src/services/bolao/bolao-prize.service.ts:106-128 | A payout of a ranked Mesa is never negative, and it is positive if and only if the exact share reaches one unit or its row is served one of the units left over. |
| `Payability.PayableExactly` | src/services/bolao/bolao-prize.service.ts:106-135 | All payouts are positive if and only if every paid row whose exact share -- pool times group percentage over tied rows times total -- falls short of one unit is served one of the units left over. |
| `Payability.TooSmallPool` | src/services/bolao/bolao-prize.service.ts:106-135 | A pool with fewer units than rows to be paid always leaves a payout of 0. |
| `Payability.LargePoolPays` | src/services/bolao/bolao-prize.service.ts:106-135 | With a hundred units for every participant no payout is 0, whatever the distribution and the ties. |
| `Payability.SecondGetsNothing` | src/services/bolao/bolao-prize.service.ts:106-128 | A concrete split: two units over the accepted distribution 99 to 1 pay the second of two players 0. |
| `MesaIntegrity.InspectMesa` | src/services/bolao/mesa-integrity.service.ts:47-203 | Pushing the issues one by one onto one list gives the report Inspect, in its order. |
| `MesaIntegrity.EmptyReportExactly` | src/services/bolao/mesa-integrity.service.ts:47-203 | The report is empty if and only if the terms are those of the category, the counters are what the approved rows say, the pools are what they have paid, and there is a description. |
| `MesaIntegrity.ReportedExactly` | src/services/bolao/mesa-integrity.service.ts:47-203 | The report of any Mesa holds exactly the issues it has, each of the sixteen spelled out in its columns. |
| `MesaIntegrity.CreatedTermsAreSound` | src/services/bolao/mesa-category-rules.ts:38-91 | Whatever the creation form holds, a Mesa that is created has the terms of its category. |
| `MesaIntegrity.CreatedMesaReport` | src/services/bolao/create-bolao.service.ts:71-203 | A created Mesa has an empty report if and only if its description is not blank, and only the FREE category lets a blank one through. |
| `MesaInvariant.CreatedScheduleIsOk` | src/services/bolao/mesa-schedule-rules.ts:12-45 | A created Mesa closes by capacity with at least two seats or by a date without seats, and lasts a positive number of rounds or until a date. |
| `CreationPolicy.CreatedExactly` | src/services/bolao/create-bolao.service.ts:60-164 | A Mesa is created if and only if it does not start before today and its form is admitted by the rules of the product: entries, duration, money of its category, prizes, dates, user and name. |
| `CreationPolicy.CreatedMesaIs` | src/services/bolao/create-bolao.service.ts:166-208 | What is created is an empty draft with the terms of the form and nothing collected; the sponsor's pool is there from the start. |
| `CreationPolicy.EditedExactly` | src/services/bolao/update-mesa.service.ts:73-170 | A draft is edited if and only if its owner or an administrator does it, its start stays or is not before today, and the form is admitted by the same rules. |
| `CreationPolicy.EditedMesaIs` | src/services/bolao/update-mesa.service.ts:204-246 | What is edited is the draft that the form would create, with its owner kept. |
| `CreationPolicy.RefusalIsTrue` | src/services/bolao/create-bolao.service.ts:60-164 | A refused creation names a rule that the form does break. |
| `CreationPolicy.EditRefusalIsTrue` | src/services/bolao/update-mesa.service.ts:73-170 | A refused edit names a rule that the form breaks, or what forbids editing that Mesa by that user. |
| `CreationPolicy.TrimExactly` | src/services/bolao/create-bolao.service.ts:89-91 | Trimming takes the blanks off both ends and nothing else. |
| `Book.LatestTotalsAreTheSum` | src/services/score/score-round.service.ts:63-87 | In a history of running totals the latest row up to any point carries the plain sum of what its user earned. |
| `Book.WindowIsTheSum` | src/services/ranking/ranking-window-score.service.ts:137-175 | Latest totals less baseline totals are the sum earned in between, also for a user with no row in between. |
| `BookRun.ScoringKeepsBook` | src/services/score/score-round.service.ts:41-97 | Scoring a round adds one row per ticket and keeps every running total, provided rounds are scored in number order and close in that order. |
| `BookRun.ScoredExactly` | src/services/score/score-round.service.ts:41-97 | Scoring a round writes exactly one row for every ticket of the round, with what that ticket has earned, and adds it to the total of its user; nothing else changes but the status of the round. |
| `BookRun.BookStep` | src/services/score/score-round.service.ts:11-101 | Every change of rounds, tickets and users keeps the book in order, and what has been scored stays as it is. |
| `BookRun.EventsMoveRounds` | src/services/round/round-admin.service.ts:9-70 | A round moves from draft to open, closed and scored, keeping its closing, or is cancelled from draft, or while open at that moment; no event moves another round, and each table changes by its own event alone. |
| `Window.ReferenceRowIsTheSum` | src/services/ranking/ranking-window-score.service.ts:136-198 | After the capture, the score and both hit counts of a participant are the plain sums over the scored rounds after the reference closed by the end date, whatever that date, 0 when there is none. |
| `Window.RoundScoreIs` | src/services/ranking/ranking-window-score.service.ts:177-198 | The round score of a row is that of the user's last round that counts, if it has closed since the start. |
| `Window.RowShows` | src/services/ranking/ranking-window-score.service.ts:184-198 | A row shows what the participant showed before and the age of the account; its score is the current total less the initial one. |
| `Window.PlaceholdersUntilCaptured` | src/services/ranking/ranking-window-score.service.ts:88-118 | Until the initial scores are captured everybody is listed without score, hits and position. |
| `Window.LegacyInitialExactly` | src/services/ranking/ranking-window-score.service.ts:154-165 | A participant of an older Mesa starts from what was earned before the start if and only if that was stored on joining, or the participant joined before the start and has a row before it. |
| `Window.LegacyRowIsTheSum` | src/services/ranking/ranking-window-score.service.ts:144-198 | Then the score is 0 before the start, all that was earned in the other rounds while the Mesa runs, and the sum over the rounds closed from start to end once it has ended; the hits are the sums over the rounds closed from the start to the end or to now. |
| `Window.LegacyWithoutStart` | src/services/ranking/ranking-window-score.service.ts:144-198 | Without a start date the score is what was earned in the rounds closed since the participant joined, up to the end once that has passed, and the hits are those of all rounds closed by the end or by now. |
| `Window.ScoreTotalBeforeIsTheSum` | src/services/ranking/ranking-window-score.service.ts:42-58 | The score a join starts from is what the user had earned over the rounds closed before the start. |
| `MesaClosing.RowsIgnoreDatabaseOrder` | src/services/ranking/ranking-window-score.service.ts:65-86 | However the database lists the participants, the ranked rows are the same. |
| `Wallets.DebitKeepsWallet` | src/services/bolao/bolao-entry-payment.service.ts:14-40 | A debit that goes through takes exactly the amount and leaves a balance that is not negative and equals the signed sum of the ledger. |
| `Wallets.KeyedMovesOnce` | src/services/bolao/bolao-entry-payment.service.ts:32-40 | A movement with an idempotency key goes through once: the second attempt is refused. |
| `Services.Database.Debit` | src/services/bolao/bolao-entry-payment.service.ts:5-41 | The entry is debited, with its ledger row, if and only if the wallet exists and holds the amount and the ledger takes the row: the amount is positive and this Mesa has not been paid. The two refusals are told apart. |
| `Services.Database.AdminCredit` | src/services/admin/admin-wallet-credit.service.ts:4-51 | A positive amount is added to balance and ledger alike, creating the wallet when there is none. |
| `Services.Database.AdminDebit` | src/services/admin/admin-wallet-credit.service.ts:53-105 | A positive amount is taken from balance and ledger alike if and only if the balance covers it. |
| `Join.JoinSucceedsExactly` | src/services/bolao/join-bolao.service.ts:88-155 | On a Mesa whose registration is open a join is refused exactly when the user takes part already, the seats have run out, or the last one is taken while no round is open. |
| `Join.ExistingRowIsTakenOver` | src/services/bolao/join-bolao.service.ts:88-180 | Who has a row already is refused when approved or paid; otherwise that row, where it stands, becomes the approved and paid one. |
| `Services.Database.TakeSeat` | src/services/bolao/join-bolao.service.ts:114-155 | The guarded increment and the closing of the registration with the last seat, on the round open then; an error when there is none. |
| `Services.Database.Join` | src/services/bolao/join-bolao.service.ts:28-241 | The statements of the transaction, in order, have the effect of the whole join, or fail with its error and leave the database as it was. |
| `JoinOutcomes.JoinExactly` | src/services/bolao/join-bolao.service.ts:43-155 | What a join answers, in the columns of the tables: refused for the first of status, eligibility (subscribers only, or the others only), window, seats, participation, balance and open round that fails; otherwise it goes through. |
| `JoinOutcomes.JoinWrites` | src/services/bolao/join-bolao.service.ts:85-214 | All that it writes: the row, starting from the sum earned before the start, one more seat and entry in the counters and pools, with the last seat the closing on a round that is open, the debit in wallet and ledger, the use of the invite; nothing else changes. |
| `OperationsLaws.WholeJoinIsAnEvent` | src/services/bolao/join-bolao.service.ts:17-26 | A join that goes through is an event of the competition, so everything proved of events holds of it. |
| `Services.Database.ReserveInviteUse` | src/services/bolao/bolao-invite-reservation.ts:14-30 | Compare-and-increment: one more use if and only if the invite is active, not expired and below its limit. |
| `Services.Database.UseInvite` | src/services/bolao/use-bolao-invite.service.ts:11-103 | Reservation, join and audit in one transaction; a failed join returns its reservation. |
| `JoinOutcomes.InviteExactly` | src/services/bolao/use-bolao-invite.service.ts:24-101 | A participant is let through without a use; anybody else exactly when the invite is active, not expired and below its limit and the plain join would be answered with yes, and then with one use more. |
| `JoinOutcomes.TakesPartExactly` | src/services/bolao/use-bolao-invite.service.ts:33-60 | Only an approved row counts as taking part already. |
| `JoinOutcomes.NewInviteIsUsable` | src/services/bolao/create-bolao-invite.service.ts:60-99 | A new invite admits to its Mesa until it expires, with its limit, and nobody has used it. |
| `Services.Database.Publish` | src/services/bolao/publish-mesa.service.ts:22-106 | Only the owner publishes a draft; creator and status change together or not at all. |
| `JoinOutcomes.PublicationExactly` | src/services/bolao/publish-mesa.service.ts:33-89 | A draft is published if and only if its creator asks and, unless an administrator, subscribes for a PAID Mesa and can pay the entry; then it is active, and the creator, unless an administrator, has joined it. |
| `Services.Database.Create` | src/services/bolao/create-bolao.service.ts:60-203 | The checks one after the other, the first that fails being the error, and the initial row when none does; the row refused by the table is the last error. |
| `Services.Database.CreateNow` | src/services/bolao/create-bolao.service.ts:166-249 | Creation with immediate publication: the new Mesa is published by its creator in the same transaction, or nothing of it remains. |
| `JoinOutcomes.CreatedNowExactly` | src/services/bolao/create-bolao.service.ts:60-249 | A Mesa is created and published at once if and only if its form is admitted and, unless an administrator, its creator subscribes for a PAID one and can pay the entry. |
| `JoinOutcomes.CreatedNowIs` | src/services/bolao/create-bolao.service.ts:166-249 | Then it is active with the terms of the form and its creator in it; an administrator's has nobody in it, and no other table has changed. |
| `JoinOutcomes.SavedAndPublished` | src/services/bolao/update-mesa.service.ts:171-298 | Saved and published at once: refused as the saving is, or as the publication of what was saved is; otherwise exactly that publication. |
| `Services.Database.Update` | src/services/bolao/update-mesa.service.ts:51-246 | Editing a draft: the checks on the draft, its new terms and its prizes, the first that fails being the error, then the columns it writes; owner and participants stay. |
| `Services.Database.UpdateNow` | src/services/bolao/update-mesa.service.ts:171-298 | Editing with immediate publication: only the owner gets through both, and a refused publication takes the edit back. |
| `MesaInvariant.EditChecksAsCreation` | src/services/bolao/update-mesa.service.ts:86-170 | Editing makes its checks in another order than creation, but accepts exactly the same forms. |
| `MesaInvariant.EditedDraftIsOk` | src/services/bolao/update-mesa.service.ts:204-246 | An edited draft is as much in order as a new Mesa of the same owner: terms, schedule, counters and pools, with nobody in it yet. |
| `Services.Database.CloseDueRegistrations` | src/services/bolao/mesa-lifecycle.service.ts:25-61 | The loop closes every due Mesa and changes no other. |
| `Lifecycle.CloseDueExactly` | src/services/bolao/mesa-lifecycle.service.ts:25-61 | Registration closes by date exactly for an active Mesa whose end of the entries has passed and that has not closed: at that date, on the round open now if there is one. |
| `MesaInvariant.DelayMattersExactly` | src/services/bolao/mesa-lifecycle.service.ts:37-58 | Registration closes at its own date however late the job runs, but on the round open then: two runs leave the same Mesa if and only if they find the same round open, or none. |
| `MesaInvariant.DelayedReference` | src/services/bolao/mesa-lifecycle.service.ts:37-58 | A concrete delay: round 1 closes and round 2 opens before the job runs, and every due Mesa gets round 2 as its reference instead of round 1. |
| `Services.Database.CaptureMesa` | src/services/bolao/mesa-initial-score.service.ts:22-82 | The transaction of one Mesa, with its early returns and its loop over the participants, is Capture. |
| `Services.Database.CapturePending` | src/services/bolao/mesa-initial-score.service.ts:5-83 | The loop captures every pending Mesa and changes no other. |
| `MesaInvariant.CaptureSucceedsExactly` | src/services/bolao/mesa-initial-score.service.ts:24-75 | What the job makes of any Mesa: it leaves alone one that does not await the capture or whose reference is not scored; the others are captured, everybody with the sum of what was earned, if and only if somebody takes part, the counter is right and no participant holds a ticket up to the reference in a round neither scored nor cancelled; otherwise it notes that it waits. |
| `MesaInvariant.CapturedRowsAreSums` | src/services/bolao/mesa-initial-score.service.ts:64-73 | Every captured initial score is what its user had earned up to the reference round. |
| `MesaInvariant.CaptureTwice` | src/services/bolao/mesa-initial-score.service.ts:27-29 | Running the capture again changes nothing. |
| `Services.Database.FinishDueRoundMesas` | src/services/bolao/mesa-lifecycle.service.ts:63-124 | The loop gives every pending Mesa its end and returns exactly the Mesas it has changed. |
| `MesaInvariant.FinishFindsTheEnd` | src/services/bolao/mesa-lifecycle.service.ts:98-119 | The end of a running Mesa of rounds is the closing of its last round, as soon as there is one. |
| `Lifecycle.FinishExactly` | src/services/bolao/mesa-lifecycle.service.ts:63-124 | A Mesa gets the closing of its last round as its end exactly when it waits for it, in the columns of the tables, and has no earlier end. |
| `Lifecycle.LegacyEndExactly` | src/services/bolao/mesa-lifecycle.service.ts:98-119 | For a Mesa older than the lifecycle that is the closing of the n-th round closed and scored since its registration closed, as soon as there are so many. |
| `Lifecycle.CountedByDueDate` | src/services/bolao/mesa-lifecycle.service.ts:98-110 | The scored rounds after the reference that have closed by that end are exactly the first durationRounds of them. |
| `Lifecycle.DueDateStays` | src/services/bolao/mesa-lifecycle.service.ts:112-119 | Once found, the end never moves, whatever is scored later. |
| `MesaClosing.GuardsPassExactly` | src/services/ranking/close-ranking.service.ts:46-71 | The guards of the closing pass if and only if the initial scores are captured, the Mesa is active, it has expired (or is forced) and it is described. |
| `MesaClosing.GuardsOfAnyMesa` | src/services/ranking/close-ranking.service.ts:46-71 | Which guard stops the closing of any Mesa, in order: it is closed; a capture is missing, unless the Mesa is older than the lifecycle; it has not expired and is not forced; it is unsettled and its report is not empty. |
| `MesaClosing.SettledIsNotPaidAgain` | src/services/ranking/close-ranking.service.ts:73-130 | Closing a Mesa that is settled already moves no money: it freezes the ranking and closes. |
| `MesaClosing.ClosingRanksWindows` | src/services/ranking/close-ranking.service.ts:73 | A closing Mesa is ranked on its window rows, never on the placeholders of an uncaptured one. |
| `MesaClosing.FrozenScores` | src/services/ranking/close-ranking.service.ts:75-88 | Every participant is frozen with the sums over the rounds that count -- score, doubles and super doubles -- at one plus the number of participants ahead by these sums and, if they tie, by the age of the account. |
| `MesaClosing.SettleExactly` | src/services/bolao/settle-bolao.service.ts:25-84 | Settling a ranked Mesa goes through if and only if nobody who is to be paid is to be paid 0; otherwise the ledger refuses it. |
| `MesaClosing.SettleMoves` | src/services/bolao/settle-bolao.service.ts:25-94 | A settlement moves exactly the prize, less what is withheld, into the wallets, touching no other key. |
| `MesaClosing.CloseExactly` | src/services/ranking/close-ranking.service.ts:46-130 | A Mesa in order is closed if and only if its initial scores are captured, it is active, it has expired (or is forced), it is described, and no payout that is due is 0; with the guards passed, only such a payout refuses it. |
| `ClosingOutcomes.CloseWholeExactly` | src/services/ranking/close-ranking.service.ts:14-130 | What a closing answers: refused for the first of closed, not started, not expired and not forced, not described, somebody due a payout of 0 that applies; otherwise it goes through. |
| `ClosingOutcomes.ClosingStores` | src/services/ranking/close-ranking.service.ts:73-130 | All that it stores on the Mesa: settled and closed now, the pools paid out, every participant with the sums and the place that they give. |
| `ClosingOutcomes.ClosingPays` | src/services/bolao/settle-bolao.service.ts:46-94 | Each payout that is due goes into the wallet and ledger of its own user, of a sponsored Mesa only to PRO users; the others are withheld, and no other wallet, Mesa or settlement changes. |
| `ClosingOutcomes.DuePaysPlaces` | src/services/bolao/settle-bolao.service.ts:25-45 | Due are payouts to exactly the participants whose place, by what was earned over the rounds that count, is within the prizes, in the order of places; together they are the collection less the fee, and the sponsor's pool. |
| `ClosingOutcomes.DueAmounts` | src/services/bolao/bolao-prize.service.ts:83-135 | Each of them is the exact share of the place rounded down, plus one unit for the largest fractions, the earlier first. |
| `MesaClosing.ClosedMesa` | src/services/ranking/close-ranking.service.ts:73-130 | Closing settles and closes the Mesa, freezes its scores, sets its pools, changes nothing else and keeps it in order. |
| `MesaClosing.ClosedMoney` | src/services/ranking/close-ranking.service.ts:90-120 | What was collected -- with the sponsor pool -- becomes fee, payouts and withheld payouts; the wallets stay in order and gain the payouts alone. |
| `MesaClosing.SplitLaws` | src/services/bolao/settle-bolao.service.ts:46-61 | Paid and withheld payouts add up to all payouts; only a sponsored Mesa withholds, and pays active PRO users only. |
| `MesaClosing.PayoutsIgnoreDatabaseOrder` | src/services/ranking/close-ranking.service.ts:73-120 | The order in which the database lists the participants changes neither whether a closing goes through, nor a payout, nor a wallet. |
| `SettlementLaws.SettlementPaysThePrize` | src/services/bolao/settle-bolao.service.ts:41-45 | The payouts of a sound ranked Mesa add up to its whole prize, go to different users, and are never negative. |
| `SettlementLaws.CreditAllExactly` | src/services/bolao/settle-bolao.service.ts:63-84 | Payouts to different unpaid users go through if and only if none is 0, and then the wallets gain exactly what is paid out. |
| `SettlementLaws.CreditAllPaysInto` | src/services/bolao/settle-bolao.service.ts:63-84 | Payouts to different users that go through are credited each to its own wallet, with its own ledger row. |
| `Services.Database.PayOutAll` | src/services/bolao/settle-bolao.service.ts:63-84 | The loop of wallet upsert, ledger row and increment credits every payout once, or fails when one is 0 or has been made before. |
| `Services.Database.SettleMesa` | src/services/bolao/settle-bolao.service.ts:17-111 | Totals, payouts, split, credits and the settled row, as the specification Settle. |
| `Services.Database.Freeze` | src/services/ranking/close-ranking.service.ts:75-88 | The loop over the rows freezes the score, the position and the columns of the tiebreak of exactly their users. |
| `Services.Database.CloseRanking` | src/services/ranking/close-ranking.service.ts:8-158 | The whole closing, or its error with the database as it was. |
| `CompetitionInvariant.StepKeepsInv` | src/services/bolao/mesa-integrity.service.ts:47-203 | Every event -- creation, editing of a draft, publication, join, closing of registration, capture, end, settlement, administrative movement, scoring -- keeps all tables in order. |
| `MesaInvariant.ReportIsEmpty` | src/services/bolao/mesa-integrity.service.ts:200-203 | The integrity report is inductive: it is empty in every reachable state of a described Mesa, so it never blocks a settlement. |
| `MesaInvariant.LastSeatCloses` | src/services/bolao/join-bolao.service.ts:135-155 | On a capacity Mesa the last seat and only the last seat closes the registration, with the round open then as reference. |
| `Conservation.StepConserves` | src/services/bolao/settle-bolao.service.ts:25-94 | Wallets, unsettled collections, fees and withheld payouts together change only by administrative movements and by the sponsor pool of a settled sponsored Mesa. |
| `Conservation.RunConserves` | src/services/admin/admin-wallet-credit.service.ts:4-105 | The same over every run. |
| `Progress.RunMovesOn` | src/services/bolao/join-bolao.service.ts:145-154 | Over any run: once published, the terms, and once set, the closing of the registration, the reference round, the participants, a captured initial score, the end of a Mesa of rounds and a settled Mesa never change again. |
| `Progress.RunScores` | src/services/ranking/close-ranking.service.ts:73-88 | A Mesa of rounds closed on expiry stores, for ever, each participant's sums -- score and hits -- over exactly durationRounds scored rounds, the first after the reference, and the place that these sums give. |
| `ExpiredMesas.SettlementIsFixed` | src/services/ranking/close-ranking.service.ts:73-120 | Once the rounds of a Mesa are over, every run that has not settled it leaves it as it is, and what is due to whom is the same whenever it is settled, whatever has been scored meanwhile. |
| `ExpiredMesas.StuckExactly` | src/services/bolao/settle-bolao.service.ts:63-84 | A Mesa without a sponsor whose rounds are over is stuck -- somebody is due a payout of 0 -- if and only if a closing that passes the guards is refused by the ledger, whoever subscribes. |
| `ExpiredMesas.RefusedForEver` | src/services/bolao/settle-bolao.service.ts:63-84 | Over every run a stuck Mesa stays open and exactly as it is if and only if the run holds no closing by somebody who had read it before it got its end. |
| `ExpiredMesas.StaysOpenForEver` | src/services/ranking/close-ranking.service.ts:46-59 | In every interleaving: once no closing in flight has read it before its end, a stuck Mesa stays open for ever, and exactly as it is. |
| `ExpiredMesas.LargePrizeCloses` | src/services/bolao/settle-bolao.service.ts:63-84 | With a hundred units of prize for every participant, passing the guards is enough to close. |
| `ExpiredMesas.SmallPrizeStaysOpen` | src/services/bolao/settle-bolao.service.ts:63-84 | A paid Mesa with fewer units of prize than participants in paid positions cannot be closed, not even by force. |
| `ExpiredMesas.NinetyNineToOneStaysOpen` | prisma/migrations/20260730000000_fantasy12_baseline_v2/migration.sql:822-824 | No Mesa of two participants at a cost of 1 with the distribution 99 to 1 can be closed, unless the two tie. |
| `ExpiredMesas.NinetyNineToOneIsCreated` | src/services/bolao/create-bolao.service.ts:60-203 | A concrete request that creates such a Mesa. |
| `InterleavingLaws.ExecuteKeeps` | src/services/bolao/join-bolao.service.ts:32-214 | Each statement of a join, on reads that may be stale, keeps its uncommitted rows equal to what a whole join would write on the committed ones. |
| `InterleavingLaws.CommitIsAJoin` | src/services/bolao/join-bolao.service.ts:75-214 | Whatever was committed since it began, the commit of a join has the effect of one whole join on the database as it is then. |
| `InterleavingLaws.CommitDisturbsNobody` | src/services/bolao/join-bolao.service.ts:115-131 | A commit changes no row that another transaction has locked. |
| `UnapprovedRows.StatementKeeps` | src/services/bolao/join-bolao.service.ts:32-214 | Over any participant rows, a transaction in flight holds one seat more than the committed row as soon as it has counted, and the debit of a paid entry. |
| `UnapprovedRows.CommitCounts` | src/services/bolao/join-bolao.service.ts:111-214 | Its commit counts one seat, and approves one more participant if and only if its user was not approved already. |
| `UnapprovedRows.CountDriftsExactly` | src/services/bolao/join-bolao.service.ts:111-214 | Over every interleaved run from any rows, the counter of a Mesa drifts from its approved participants by exactly the joins committed for users who were approved already. |
| `UnapprovedRows.PaidNeverDrifts` | src/services/bolao/bolao-entry-payment.service.ts:32-40 | On a Mesa that is paid at the end of the run it never drifts: the key of the entry refuses the second debit. |
| `UnapprovedRows.TwoSeatsForOne` | src/services/bolao/join-bolao.service.ts:96-182 | On an unpaid Mesa with seats to spare it can: a user with an unapproved row asks twice, both transactions look before either commits, and both go through, for two seats and one approved participant. |
| `UnapprovedRows.SuchADatabase` | src/services/bolao/join-bolao.service.ts:96-108 | A concrete database in which that run starts, its count being right. |
| `OperationsLaws.AloneIsWhole` | src/services/bolao/join-bolao.service.ts:28-241 | Left alone, the ten statements of a join that would go through -- plain, by invite, or of a creator who publishes -- all succeed and commit exactly what the whole join does. |
| `OperationRuns.JobIsARun` | src/services/bolao/mesa-lifecycle.service.ts:25-124 | What a job does to all Mesas at once is a run in which one Mesa after the other reaches the stage. |
| `OperationRuns.OperationIsARun` | src/services/bolao/join-bolao.service.ts:17-26 | Every operation of the services -- creation, editing of a draft, publication, either with the other at once, join, invite, the three jobs, closing, administrative movement -- is a run of events, or changes nothing. |
| `OperationRuns.OperationKeepsInv` | src/services/bolao/join-bolao.service.ts:17-26 | So every operation, whether it goes through or not, keeps all tables in order. |
| `Concurrency.CloseSeenIsAClose` | src/services/ranking/close-ranking.service.ts:14-71 | A closing that goes through on a stale read does what it would do on the Mesa as it is. |
| `Concurrency.CloseSeenExactly` | src/services/ranking/close-ranking.service.ts:14-130 | What a closing answers on the Mesa as it was read: the guards look at what was read, one settled by now is left alone, any other closes, or is refused, as it is. |
| `Concurrency.FreshCloseIsAClose` | src/services/ranking/close-ranking.service.ts:14-130 | With a fresh read it is the whole closing. |
| `Concurrency.ActionRefines` | src/services/bolao/use-bolao-invite.service.ts:12-102 | Every action of the concurrent system commits nothing or exactly one whole operation. |
| `Concurrency.RunIsSerial` | src/services/bolao/join-bolao.service.ts:17-26 | Whatever the interleaving and the aborts: what a run commits, in the order of the commits, is a sequence of whole operations that lead to the same database. |
| `Guarantees.MesaGuarantee` | src/services/bolao/join-bolao.service.ts:111-214 | In every interleaving: the counter is the number of approved rows and at most the capacity, a paid Mesa has collected cost times that number, a capacity Mesa is closed if and only if it is full, and the report is empty if and only if there is a description. |
| `Guarantees.LastSeatGuarantee` | src/services/bolao/join-bolao.service.ts:111-155 | A join commits only while registration is open; on a capacity Mesa the commit that fills it, and no other, closes the registration, on a round that is open at that moment. |
| `Guarantees.LaterGuarantee` | src/services/bolao/join-bolao.service.ts:135-155 | From any state of the concurrent system on, what has been fixed of a Mesa stays fixed, as in Progress.RunMovesOn. |
| `Guarantees.BarrierGuarantee` | src/services/bolao/mesa-initial-score.service.ts:27-77 | READY implies that the reference round is scored and that every participant starts from the sum up to it. |
| `Guarantees.WalletGuarantee` | src/services/bolao/bolao-entry-payment.service.ts:21-40 | In every interleaving no balance is negative, each is the signed sum of its ledger, a user is debited for a paid Mesa if and only if taking part, once, and paid out at most once, only when it is settled. |
| `Guarantees.InviteGuarantee` | src/services/bolao/bolao-invite-reservation.ts:19-30 | In every interleaving with rollbacks the uses of an invite are exactly the joins that the run has committed through it, in their order, each by another user, and never exceed its limit. |
| `Guarantees.MoneyGuarantee` | src/services/bolao/settle-bolao.service.ts:23-94 | From the empty database, the money there is in wallets and Mesas is the money that the commits of the run have brought in. |
| `Guarantees.SettledOnce` | src/services/bolao/settle-bolao.service.ts:86-94 | Of several closings in flight on one Mesa only one goes through. |
| `Guarantees.ScoreGuarantee` | src/services/ranking/close-ranking.service.ts:73-130 | The score theorem, with hits and places, in the concurrent system. |
| `Guarantees.ClosedWithoutReference` | src/services/bolao/mesa-lifecycle.service.ts:37-58 | Closing by date leaves a Mesa without a reference round if and only if no round is open then. |
| `Guarantees.WithoutReferenceNeverCloses` | src/services/ranking/close-ranking.service.ts:55-59 | Such a Mesa can never be closed again, not even by force. |
| `PeriodRanking.FillBaselines` | src/services/ranking/build-period-ranking-from-history.service.ts:82-90 | The map of baselines holds the first row of every user. |
| `PeriodRanking.Fold` | src/services/ranking/build-period-ranking-from-history.service.ts:92-116 | One pass with two maps computes, per user in order of first appearance, the sum of the scores and the latest-less-baseline hits. |
| `PeriodRanking.BuildPeriodRanking` | src/services/ranking/build-period-ranking-from-history.service.ts:20-128 | The service computes the ranking of the specified period rows, names included. |
| `PeriodRanking.FirstIsLatest` | src/services/ranking/build-period-ranking-from-history.service.ts:39-42 | The first row of a user in the descending query is the latest one. |
| `PeriodRanking.PeriodRowIsTheSum` | src/services/ranking/build-period-ranking-from-history.service.ts:29-115 | The score of a row is the sum over the scored rounds that close in the period, but for the excluded one; the hits are the sums over all scored rounds since the start up to the user's last one in the period -- so an excluded round counts for them unless it comes later. |
| `PeriodRanking.PeriodPlaces` | src/services/ranking/build-period-ranking-from-history.service.ts:118-127 | Every row is placed at one plus the number of rows ahead by score, super doubles, doubles and age of the account. |
| `PeriodRanking.PeriodUsersExactly` | src/services/ranking/build-period-ranking-from-history.service.ts:92-116 | The period lists exactly the users with a row in it that the scope admits, each once. |
| `MonthlyRankings.Rankings.Execute` | src/services/ranking/ensure-monthly-rankings.service.ts:11-262 | The run with its upserts, reconciliation and capture loop is Synchronized; it dates both rankings, appends the audit row with its counts if any of them is not 0, and returns the reference round, whether registration is open and how many users each cohort gained from the upserts. |
| `MonthlyRankings.CaptureInitialScores` | src/services/ranking/ensure-monthly-rankings.service.ts:192-230 | The loop captures exactly the pending participants of a cohort, and counts them. |
| `MonthlyRankings.FirstRoundIsFirst` | src/services/ranking/ensure-monthly-rankings.service.ts:20-31 | The reference round closes first in the period, the smaller number first among equals. |
| `MonthlyRankings.ScoredRunCompletes` | src/services/ranking/ensure-monthly-rankings.service.ts:161-230 | After a run that sees the reference scored, all eligible users are in the PRO cohort and everybody in both is captured. |
| `MonthlyRankings.SecondRunChangesNothing` | src/services/ranking/ensure-monthly-rankings.service.ts:135-231 | That state is a fixpoint: a second run, whenever it comes, changes no participant and writes no audit row. |
| `MonthlyRankings.RecordedExactly` | src/services/ranking/ensure-monthly-rankings.service.ts:233-252 | A run writes an audit row if and only if it has changed the participants of one of the rankings. |
| `MonthlyRankings.AuditIsTrue` | src/services/ranking/ensure-monthly-rankings.service.ts:233-252 | The audit row counts what the run has changed: who is new in either ranking, who is gone from the PRO one, and whose initial score was captured; with the reference round and whether it was open or scored. |
| `MonthlyRankings.CapturedStays` | src/services/ranking/ensure-monthly-rankings.service.ts:220-227 | No run ever alters or drops a captured participant. |
| `MonthlyRankings.GeneralCohortExactly` | src/services/ranking/ensure-monthly-rankings.service.ts:96-145 | After a run the general ranking holds who was in it and whoever had an account when the reference round closed, or has one now while it is still to close. |
| `MonthlyRankings.ProCohortExactly` | src/services/ranking/ensure-monthly-rankings.service.ts:96-188 | After a run the PRO ranking holds, until the reference round is scored, who was in it and whoever subscribes now or did at the closing; once it is scored, whoever subscribed at the closing and those of before with a score or captured. |
| `MonthlyRankings.EntriesExactly` | src/services/ranking/ensure-monthly-rankings.service.ts:135-230 | New participants start from nothing, approved now; a run changes of the others only what it captures. |
| `MonthlyRankings.CaptureIsWhatWasEarned` | src/services/ranking/ensure-monthly-rankings.service.ts:200-227 | A captured initial score is what the user had earned up to the reference round. |
| `Webhook.PaymentDesk.Execute` | src/services/payment/process-mercado-pago-webhook.service.ts:36-217 | The statements for one delivery are Deliver; a failed one leaves no trace, not even its event. |
| `Webhook.DeliveredExactly` | src/services/payment/process-mercado-pago-webhook.service.ts:37-200 | All that one delivery writes: nothing when it was seen or fails, only itself when its payment is unknown or processed or it approves another amount or currency, otherwise its payment and, approved, the coins or the renewal. |
| `Webhook.FailureIsTrue` | src/services/payment/process-mercado-pago-webhook.service.ts:37-200 | A delivery that fails does so for the reason it answers: coins worth nothing, an id that another payment holds, no plan, a length that no plan has, or another package. |
| `Webhook.ProcessedExactly` | src/services/payment/process-mercado-pago-webhook.service.ts:37-200 | For every sequence of deliveries a payment is processed if and only if some first-seen delivery for it is approved and valid, has coins to credit or a subscription to renew, and brings an id that no other payment holds then. |
| `Webhook.ProcessedConsistently` | src/services/payment/process-mercado-pago-webhook.service.ts:37-200 | With a provider that gives every payment its own id, the last condition falls away: no delivery ever finds its id taken. |
| `Webhook.IdsStayUnique` | prisma/schema.prisma:767 | Deliveries never let two payments hold the same id of the provider. |
| `Webhook.WorthlessIsNeverProcessed` | src/services/payment/process-mercado-pago-webhook.service.ts:147-153 | A wallet payment whose coins and bonus are worth nothing is never processed, whatever is delivered: the ledger refuses it every time. |
| `Webhook.PaymentsMoveOn` | src/services/payment/process-mercado-pago-webhook.service.ts:82-97 | A processed payment never changes again, and deliveries never edit an order. |
| `Webhook.DeliveriesPay` | src/services/payment/process-mercado-pago-webhook.service.ts:147-153 | A user's balance grows by exactly the coins and bonus of the processed payments, each once however often its events are delivered. |
| `Webhook.DeliveriesRenew` | src/services/payment/process-mercado-pago-webhook.service.ts:154-185 | Over any deliveries a subscription is renewed once for a payment if that payment becomes processed, and never otherwise. |
| `Webhook.UnknownIsNotRenewed` | src/services/payment/process-mercado-pago-webhook.service.ts:66-80 | No delivery renews anything for a payment that is not on record. |
| `RedisSessions.RedisSessionStore.Persist` | src/lib/redis-session-store.ts:72-87 | Saving writes the session and renews the whole index of its user. |
| `RedisSessions.RedisSessionStore.Remove` | src/lib/redis-session-store.ts:89-99 | Removing takes the session away and out of the index of its user. |
| `RedisSessions.RedisSessionStore.RevokeUserSessions` | src/lib/redis-session-store.ts:62-70 | Revocation deletes the indexed sessions and the index. |
| `RedisSessions.TtlBounds` | src/lib/redis-session-store.ts:101-106 | A session lives at least a second, never beyond the idle limit, and as long as its cookie, rounded up, when that is shorter. |
| `RedisSessions.PersistWrites` | src/lib/redis-session-store.ts:72-87 | A saved session is there with its new expiry, listed by the index of its user beside what that listed before; nothing else changes. |
| `RedisSessions.RemoveRemoves` | src/lib/redis-session-store.ts:89-99 | A removed session is gone, and from the live index of its user; nothing else changes. |
| `RedisSessions.RevokeTakesAway` | src/lib/redis-session-store.ts:62-70 | Revocation takes away the sessions that the live index lists, and the index; nothing else changes. |
| `RedisSessions.PersistKeepsExactly` | src/lib/redis-session-store.ts:72-87 | Saving a session keeps the index covering if and only if no other live session of the user was to expire later. |
| `RedisSessions.ShortSessionUncovers` | src/lib/redis-session-store.ts:80-86 | Otherwise revocation can miss a live session: a concrete one. |
| `RedisSessions.RunsCover` | src/lib/redis-session-store.ts:62-99 | Over every run in which expiries do not decrease per user, each live session is in the live index of its user, which outlives it. |
| `RedisSessions.IdleSessionsCover` | src/lib/redis-session-store.ts:101-106 | Sessions whose cookie does not shorten the idle limit meet that condition in every run. |
| `RedisSessions.RevokeRevokes` | src/lib/redis-session-store.ts:62-70 | Revoking a covered user leaves no live session of that user and touches no session outside the index. |

## Left out

- Double-precision arithmetic in `gross * 0.1` and `prizePool * weight / totalWeight`: exact integers and reals instead.
- `Services.Database.Create`: does not model regions and the unique name, which only add refusals, nor the sponsor's
  name and logo as they are stored.
- `Services.Database.Update`: the same as `Services.Database.Create`.
- `Concurrency.CloseSeenIsAClose`: a closing reads the Mesa in one step and does everything else in another, where the
  source reads the history and writes row by row under the locks it takes.
- `ExpiredMesas.RefusedForEver`: says nothing of a sponsored Mesa, whose payouts change with the subscribers.
- `Services.Database.Freeze`: the version of the tiebreak rules, a constant stored with each participant.
- Administrative editing of a published Mesa (`UpdateMesaService`), which may change capacity and dates. Editing of a
  draft is one step: its checks read the draft before, and the guard of its update finds status, owner and start date
  unchanged.
- Creating an invite is an event for any Mesa; the checks of its owner, seats, dates and limit only add refusals.
- Review of pending requests, recalculation of open rankings, snapshots, and the backfill of monthly rankings.
- Ticket scoring and its recomputation, subscription renewal, benefits: the running totals and the renewal order stand
  for them.
- Two webhook transactions on the same payment at once, and the three Redis commands of `persist` interleaved with
  others.
- Discovery queries, validators, region labels, e-mail, queues, controllers, audit metadata, migrations and scripts.
