# Verification model of the CSDP lending engine and its supporting services

A Dafny model of an airtime and data lending back end: the `heuristic_v3` scoring pipeline, the loan
tables and the jobs that change them, the Redis and process-local structures that scoring reads, the
older credit-score ledger, and the admin-account, rate-limit and activity-log state machines around them.
`dafny verify dfyconfig.toml` checks all of it.

The code that only computes (scoring, decision routing, money strings) is modelled by functions. The code
that updates fields, tables or keys in place is modelled by classes whose methods are proved equal to a step
function on the state, and the properties of whole runs are lemmas about that step function.

| module | models |
|---|---|
| `HeuristicV3` | the four scoring stages; `ScoringBounds`, `LoanTypeTerms`, `ScoringDominance`, `ScoringDeadZone` and `LimitCurve` prove things about them |
| `LiveCounters` | the sorted set of disbursements per subscriber; `DailyCap` runs offers and fulfilments over it |
| `LoanBook` | loan, recovery-item and feature-row tables with the webhook, aging and recompute steps; `LoanLifecycle`, `LoanCoverage` and `LiveRowRefinement` prove things about runs of them |
| `ConfigCache`, `LogBatcher`, `RateLimit` | the scoring-config cache, the activity-log batcher, the API-key rate limiter, as interleaved steps |
| `BulkUpdate`, `Repayment`, `EligibleAmount` | the credit feed, repayment awards, and the loan amount a score earns |
| `ProfileReplay` | the profile decision, its log row, and replays of one trans_ref |
| `AdminAccounts` | account setup from invitations and profile changes |
| `Money` | kobo integers and naira strings |
| `FiniteSums`, `IndexedSums`, `Text`, `Wrappers` | sums, digit strings and `Option` |

## Where the code does not do what it or its documentation says

Each point is stated as a lemma, with the exact condition where the behaviour depends on one. The model
follows the code.

- The partner cap (docs/CSDP_SCORING_ALGORITHM.md:295) can be passed, by at most 99 kobo, because the balance
  is floored to whole naira first: `ScoringBounds.PartnerCapExceededExactlyWhen`.
- The evidence ceiling can be passed, since loans taken and recovered are counted by different dates and
  recoveries can outnumber the loans taken: `ScoringBounds.EvidenceAtMostMaxExactlyWhen`. For the same reason
  one recovery more can forfeit the continuity bonus: `ScoringDominance.BonusIsLostExactlyWhen`.
- The limit curve is documented to have no step and to rise by 2-4 naira a point throughout
  (docs/CSDP_SCORING_ALGORITHM.md:261-284). The point that crosses the threshold is worth the small anchor,
  and two of the three loan types cannot keep that pace on any curve: `LimitCurve.CrossingTheThreshold`,
  `LimitCurve.StepsPerPointExactlyWhen`.
- The dead-zone table (docs/CSDP_SCORING_ALGORITHM.md:680-690) denies three and four repaid loans. Three pass
  with near-perfect stability and four with about 19 recharges a month and half a year of tenure:
  `ScoringDeadZone.ThirdLoanPassesExactlyWhen`, `ScoringDeadZone.FourthLoanPassesExactlyWhen`.
- "ZADD on the same loan_id is idempotent" (csdp-live-counters.service.ts:13) holds only when the amount is
  spelled the same: `LiveCounters.SameLoanIsIdempotentIffSameText`.
- The webhook's issue date has no upper bound (loan.processor.ts:130-135); a loan dated six hours ahead or
  more outlives the key that holds it, and the daily cap no longer sees it:
  `LiveCounters.RecordingIsFaithfulExactlyWhen`, `DailyCap.FutureDatedLoanIsForgotten`.
- Repeated deliveries of a loan are documented as no-ops (docs/CSDP_SCORING_ALGORITHM.md:426-427), but they
  overwrite status and recovery date without touching the feature row:
  `LoanLifecycle.RedeliveryIsNoOpExactlyWhen`. What that does to the default flag and to the amount owed:
  `LoanLifecycle.DeliverKeepsFlagsExactlyWhen`, `LiveRowRefinement.RedeliveryKeepsBoundExactlyWhen`.
- A loan is documented to be PARTIAL until its recoveries reach the repayable amount
  (docs/CSDP_SCORING_ALGORITHM.md:400-414); the recovery webhook marks it RECOVERED whatever the amount:
  `LoanCoverage.RecoveryKeepsCoverageExactlyWhen`, `LoanCoverage.OneKoboClosesLoan`.
- Curing a default that was open at the recompute takes off an amount the row no longer holds, and a
  recovery that names another subscriber than its loan's takes it off the wrong row:
  `LiveRowRefinement.RecoveryKeepsOutstandingExactlyWhen`, `LoanLifecycle.RecoverKeepsFlagsExactlyWhen`.
- `loadFresh` says it forces a fresh read; it joins a read already in flight:
  `ConfigCache.LoadFreshStartsOnlyWhenIdle`.
- The activity-log document promises that shutdown flushes remaining batches
  (docs/activity-log-processor.md:40-42); a flush that finds the lock held returns at once, and items that
  arrive during an insert are left without a timer: `LogBatcher.ShutdownSavesAllExactlyWhen`,
  `LogBatcher.StrandedExactlyWhen`.
- A phone repeated within one feed batch can lose an update: `BulkUpdate.BatchIsSinglesExactlyWhen`.
- The documented limit per minute (docs/api-key-authentication.md:434) is per fixed window. Whether it holds
  in every span of that length: `RateLimit.LimitHoldsInAnySpanExactlyWhen`; a limit of 2 or more lets up to
  twice the limit less one through.
- A repayment that earns no points leaves no history row and is applied again when repeated:
  `Repayment.RepeatChangesNothingExactlyWhen`.
- The default amount tiers leave gaps that earn the top multiplier: `Repayment.TopMultiplierExactlyWhen`.
- The profile endpoint promises that a replay is never recomputed (eligibility.controller.ts:61-63), and the
  scoring document (docs/CSDP_SCORING_ALGORITHM.md:453-457) makes trans_ref the idempotency key; a retry that
  arrives before the log row is stored is decided afresh: `ProfileReplay.ReplayIsSafeExactlyWhenFound`.
- Account setup is two writes outside a transaction; when it breaks off between them one invitation can
  create two users: `AdminAccounts.AccountService.FurtherUserNeedsBrokenSetup`.

## Model

| member | source | states |
|---|---|---|
| ScoringDominance.NoWorseSubscriberGetsNoLess | src/modules/csdp/csdp-scoring/heuristic-v3.ts:206-434 | for two subscribers with the same loans taken, the one who is no worse in every feature, asks against no larger balance and meets no more exposure gets no smaller score, base limit and final limit, through gates, cold-start switch, bonus, clamps and taper |
| ScoringDominance.BaseRises | src/modules/csdp/csdp-scoring/heuristic-v3.ts:228-257 | the base score rises with the features, also where the formula switches from evidence to cold start |
| ScoringDominance.ScoreRises | src/modules/csdp/csdp-scoring/heuristic-v3.ts:228-270 | the integer score rises with the features: more penalties or fewer merits never raise it |
| ScoringDominance.BaseLimitRises | src/modules/csdp/csdp-scoring/heuristic-v3.ts:322-335 | the base limit rises with the score over the threshold cliff and along the curve, for any threshold |
| ScoringDominance.BonusRises | src/modules/csdp/csdp-scoring/heuristic-v3.ts:277-292 | a no-worse subscriber never loses the continuity bonus |
| ScoringDominance.TaperRises | src/modules/csdp/csdp-scoring/heuristic-v3.ts:361-372 | less exposure and a larger limit never taper to less, negative limits included |
| ScoringDominance.BonusIsLostExactlyWhen | src/modules/csdp/csdp-scoring/heuristic-v3.ts:282-292 | in a no-worse comparison the continuity bonus shrinks if and only if there was a positive one and the better subscriber has recovered more loans |
| ScoringDominance.ExtraRecoveryForfeitsBonus | src/modules/csdp/csdp-scoring/heuristic-v3.ts:283-292 | an instance that costs the whole offer: a second recovery against one loan turns 100 into 0 |
| ScoringDominance.FirstRepaidLoanLowersLimit | src/modules/csdp/csdp-scoring/heuristic-v3.ts:248-292 | why dominance asks for equal loans taken: a clean cold-start subscriber is offered at least 160 naira, and exactly 100 after repaying the first loan |
| ScoringBounds.DefaultConfigIsValid | src/modules/csdp/csdp-scoring/heuristic-v3.ts:105-139 | the shipped defaults satisfy every condition the other lemmas put on a configuration |
| ScoringBounds.ScoreRange | src/modules/csdp/csdp-scoring/heuristic-v3.ts:228-270 | the score is in 0..1000, and at most the larger of evidence maximum and cold-start base wherever the evidence ceiling holds, which recovered <= taken implies |
| ScoringBounds.EvidenceAtMostMaxExactlyWhen | src/modules/csdp/csdp-scoring/heuristic-v3.ts:231-234 | for every configuration the evidence stays at or under its maximum if and only if (recovered + alpha) * taken <= (taken + alpha + beta) * (taken + pseudo-count), and strictly under it if and only if that is strict |
| ScoringBounds.EvidenceBelowMax | src/modules/csdp/csdp-scoring/heuristic-v3.ts:231-234 | with recovered <= taken the ceiling is never reached |
| ScoringBounds.EvidenceCeilingBroken | src/modules/csdp/csdp-scoring/heuristic-v3.ts:231-234 | under the defaults two loans taken pass the ceiling from the 17th recovery on, and not before |
| ScoringBounds.DocumentedTables | docs/CSDP_SCORING_ALGORITHM.md:106-310 | closed forms of the calibration, threshold and taper tables, for every number of loans and every exposure |
| ScoringBounds.BaseLimitRange | src/modules/csdp/csdp-scoring/heuristic-v3.ts:322-335 | the base limit is 0 for denied scores and between the product's two anchors for others, where it is 0 if and only if the small anchor is 0 and the curve has not left it |
| LimitCurve.CrossingTheThreshold | docs/CSDP_SCORING_ALGORITHM.md:259-284 | "no step functions": the point that crosses the threshold is worth at least the small anchor, and nothing only when that anchor is 0 |
| LimitCurve.StepsPerPointExactlyWhen | docs/CSDP_SCORING_ALGORITHM.md:280-284 | some rising curve from 0 to 1 makes every further point worth between lo and hi if and only if the distance between the anchors spread evenly over the points lies between them |
| LimitCurve.TwoToFourNairaAPoint | docs/CSDP_SCORING_ALGORITHM.md:280-284 | so "2-4 naira a point throughout" is beyond every curve for DATA and TALKTIME at a threshold of 300, and within reach for AIRTIME |
| ScoringBounds.ThresholdRisesToBase | src/modules/csdp/csdp-scoring/heuristic-v3.ts:272-275 | the thin-file threshold starts at base less bonus, never falls as loans accumulate, and ends at the base threshold |
| ScoringBounds.TaperShrinks | src/modules/csdp/csdp-scoring/heuristic-v3.ts:361-369 | the taper never enlarges a limit nor changes its sign |
| ScoringBounds.FinalLimitFits | src/modules/csdp/csdp-scoring/heuristic-v3.ts:341-434 | a served limit is never negative, is 0 behind a gate, and a positive one fits base limit, partner residual and daily remainder with exposure under the halt |
| ScoringBounds.PositiveLimitPassesEveryGate | src/modules/csdp/csdp-scoring/heuristic-v3.ts:206-218 | a positive limit implies that none of the six gates applies |
| LoanTypeTerms.AirtimeTerms | src/modules/csdp/csdp-scoring/heuristic-v3.ts:206-218 | a positive AIRTIME limit implies that AIRTIME is switched on, and fits AIRTIME's own daily cap with what is disbursed |
| LoanTypeTerms.DataTerms | src/modules/csdp/csdp-scoring/heuristic-v3.ts:352-359 | the same for DATA, by its own switch and cap |
| LoanTypeTerms.TalktimeTerms | src/modules/csdp/csdp-scoring/heuristic-v3.ts:352-359 | the same for TALKTIME, by its own switch and cap |
| LoanTypeTerms.EachTypeHasItsAnchors | src/modules/csdp/csdp-scoring/heuristic-v3.ts:322-335 | an undenied base limit lies between the anchors of its own loan type, and meets them at the ends of the curve |
| LoanTypeTerms.OtherTypesDoNotMatter | src/modules/csdp/csdp-scoring/heuristic-v3.ts:381-434 | changing the anchors, caps and switches of the other two types changes nothing in the whole result |
| LoanTypeTerms.GatesPassExactlyWhen | src/modules/csdp/csdp-scoring/heuristic-v3.ts:206-218 | a request passes the gates if and only if none of the six conditions holds, by the switch of its own type |
| LoanTypeTerms.FirstGateIsReported | src/modules/csdp/csdp-scoring/heuristic-v3.ts:206-218 | the gate reported holds, and every gate before it does not |
| LoanTypeTerms.ResultReportsHeadroom | src/modules/csdp/csdp-scoring/heuristic-v3.ts:385-433 | partner headroom within the dropped kobo, daily remainder, score and base limit of the result, with and without a gate |
| ScoringBounds.PartnerCapWithinOneNaira | src/modules/csdp/csdp-scoring/heuristic-v3.ts:352-358 | balance plus a positive offer is at most the partner cap and 99 kobo |
| ScoringBounds.PartnerCapExceededExactlyWhen | src/modules/csdp/csdp-scoring/heuristic-v3.ts:352-372 | for any cap a positive offer takes the balance over it if and only if no gate applies, the balance has more loose kobo than the residual has beyond its whole naira (one at least), exposure is under the halt, and the taper leaves those whole naira of residual, bonused base limit and daily remainder each |
| ScoringBounds.WholeCapExceededExactlyWhen | src/modules/csdp/csdp-scoring/heuristic-v3.ts:352-372 | for a whole-naira cap: if and only if no gate applies, the balance has loose kobo, and neither base limit nor daily remainder nor taper cuts the residual |
| ScoringBounds.PartnerCapExceededExample | src/modules/csdp/csdp-scoring/heuristic-v3.ts:352-358 | a balance of 4999.01 naira is taken to 5000.01 |
| ScoringBounds.ColdStartClearsThreshold | src/modules/csdp/csdp-scoring/heuristic-v3.ts:105-139 | under the defaults every ungated cold-start subscriber without cured defaults gets at least the small anchor as base limit |
| ScoringDeadZone.NoBaseLimitInDeadZone | docs/CSDP_SCORING_ALGORITHM.md:673-700 | one or two loans earn no base limit for any product, whatever the tenure, recharges and curves |
| ScoringDeadZone.DeadZoneOffersOnlyTheBonus | src/modules/csdp/csdp-scoring/heuristic-v3.ts:277-292 | after a first loan the offer is at most 100 naira, after a second at most 66, and positive only for a clean record that meets the cold-start floors |
| ScoringDeadZone.ThirdLoanPassesExactlyWhen | docs/CSDP_SCORING_ALGORITHM.md:673-700 | three repaid loans without penalty earn a base limit if and only if stability is at least 0.998375 |
| ScoringDeadZone.FourthLoanPassesExactlyWhen | docs/CSDP_SCORING_ALGORITHM.md:673-700 | four do if and only if stability is at least 551/600 |
| ScoringDeadZone.CuredDefaultCosts | src/modules/csdp/csdp-scoring/heuristic-v3.ts:259-268 | a recent cured default costs 130 points up to the fifth and 100 afterwards, and the lasting scar is 30 each up to 150 |
| ScoringDeadZone.VelocityCosts | src/modules/csdp/csdp-scoring/heuristic-v3.ts:265-268 | the first three checks within the hour are free, and each further one costs 5 points |
| ScoringDeadZone.ContinuityExactlyWhen | src/modules/csdp/csdp-scoring/heuristic-v3.ts:248-292 | under the defaults, exactly who gets the continuity bonus and who the cold start, edges included |
| ScoringDeadZone.ExampleA | docs/CSDP_SCORING_ALGORITHM.md:548-586 | end to end: score 258, denied |
| ScoringDeadZone.ExampleB | docs/CSDP_SCORING_ALGORITHM.md:588-627 | end to end: score 163, 237 naira of airtime |
| ScoringDeadZone.ExampleC | docs/CSDP_SCORING_ALGORITHM.md:629-672 | end to end: score 452, 891 naira of data |
| LiveCounters.MemberDecodes | src/modules/csdp/csdp-linking/csdp-live-counters.service.ts:38-56 | amount and loan id are recovered from a member whatever characters the loan id contains |
| LiveCounters.MemberAdds | src/modules/csdp/csdp-linking/csdp-live-counters.service.ts:53-58 | a member adds the number before its first bar, and nothing when there is none |
| LiveCounters.KeyLife | src/modules/csdp/csdp-linking/csdp-live-counters.service.ts:37-41 | a recorded member is visible for exactly 30 h after its recording, and an expired key starts afresh |
| LiveCounters.RecordKeepsAgreement | src/modules/csdp/csdp-linking/csdp-live-counters.service.ts:31-41 | recording keeps set and history in agreement, for replays and after key expiry too |
| LiveCounters.PruneKeepsAgreement | src/modules/csdp/csdp-linking/csdp-live-counters.service.ts:48-50 | pruning keeps set and history in agreement |
| LiveCounters.SortedSetTotalIsRollingTotal | src/modules/csdp/csdp-linking/csdp-live-counters.service.ts:43-60 | the sum over the members in range is the sum over distinct loans last recorded in the past 24 h, each counted once |
| LiveCounters.SlackIsExact | src/modules/csdp/csdp-linking/csdp-live-counters.service.ts:23-40 | the 30 h key life suffices for one loan if and only if the recorded instant is less than six hours ahead |
| LiveCounters.RecordingIsFaithfulExactlyWhen | src/modules/csdp/csdp-linking/csdp-live-counters.service.ts:31-60 | in any agreeing state, recording a loan worth something keeps the sum right at every later instant if and only if its instant is less than six hours ahead |
| LiveCounters.SameLoanIsIdempotentIffSameText | src/modules/csdp/csdp-linking/csdp-live-counters.service.ts:10-14 | recording one loan twice, on any key and at any two instants in the window, gives one member if and only if the amount text is the same |
| LiveCounters.LiveCountersService.RecordDisbursement | src/modules/csdp/csdp-linking/csdp-live-counters.service.ts:31-41 | keeps every subscriber's key in agreement and appends to one history only |
| LiveCounters.LiveCountersService.SumDisbursed24hNaira | src/modules/csdp/csdp-linking/csdp-live-counters.service.ts:43-60 | returns the rolling total of the full history, after pruning |
| LiveCounters.LiveCountersService.SumMembers | src/modules/csdp/csdp-linking/csdp-live-counters.service.ts:52-59 | the loop's total does not depend on the order of the members |
| DailyCap.StepKeepsFaithful | src/modules/csdp/csdp-linking/csdp-live-counters.service.ts:31-60 | offers, which prune, and fulfilments, which record, keep the sorted set in agreement with the history |
| DailyCap.OfferReadsDisbursed | src/modules/csdp/csdp-linking/feature-row-read-model.service.ts:26-48 | what an offer sums from the pruned set is the rolling total of the history |
| DailyCap.OfferKeepsCap | src/modules/csdp/csdp-scoring/heuristic-v3.ts:352-376 | after an offer scored with the set's sum, rolling total plus offer stays within the cap at every later instant |
| DailyCap.FulfilKeepsCap | src/modules/csdp/csdp-webhooks/processors/loan.processor.ts:104-140 | a fulfilment moves the amount from the offer into the total without passing the cap |
| DailyCap.RollingTotalNeverPassesCap | src/modules/csdp/csdp-scoring/heuristic-v3.ts:352-376 | over every run of offers and fulfilments through the sorted set the rolling 24 h total never passes the largest daily cap in use, and is what the set sums to |
| DailyCap.WindowSlides | src/modules/csdp/csdp-linking/csdp-live-counters.service.ts:48-51 | without new disbursements the total only falls |
| DailyCap.TwoFulfilmentsOfOneOffer | src/modules/csdp/csdp-scoring/heuristic-v3.ts:354-359 | why each offer may be used once: two new loans within one open offer pass a cap if and only if what is disbursed and both of them do |
| DailyCap.FutureDatedLoanIsForgotten | src/modules/csdp/csdp-webhooks/processors/loan.processor.ts:125-140 | why issue dates are bounded: a loan dated six hours ahead or more still counts after its key has expired, and offers then score a row with nothing disbursed |
| LoanBook.TransitionsCompose | src/modules/csdp/csdp-aging/aging.processor.ts:61-88 | the two set-wide updates in sequence equal one pass per loan, with the same affected subscribers and counts |
| LoanBook.LoanDatabase.RunAging | src/modules/csdp/csdp-aging/aging.processor.ts:59-111 | the whole new state of the three tables and the report: statuses, recovery dates, flags of affected subscribers that have a row, and nothing else |
| LoanBook.LoanDatabase.MarkDefaulted | src/modules/csdp/csdp-aging/aging.processor.ts:61-67 | exactly the overdue open loans change, and one msisdn is returned for each |
| LoanBook.LoanDatabase.MarkRecovered | src/modules/csdp/csdp-aging/aging.processor.ts:69-84 | exactly the covered loans that are not RECOVERED change, keeping an earlier recovery date |
| LoanBook.LoanDatabase.OnLoanIssued | src/modules/csdp/csdp-linking/feature-row-live-writer.service.ts:30-48 | the upsert adds one taken loan and its amount to the row or to the column defaults |
| LoanBook.LoanDatabase.OnLoanRecovered | src/modules/csdp/csdp-linking/feature-row-live-writer.service.ts:60-102 | the upsert counts the recovery, takes the amount off down to 0, credits a cured default and recomputes the flag |
| LoanBook.LoanDatabase.ProcessLoan | src/modules/csdp/csdp-webhooks/processors/loan.processor.ts:60-152 | the loan upsert and, on a first ISSUED delivery only, the live write |
| LoanBook.LoanDatabase.ProcessRecoveryItem | src/modules/csdp/csdp-webhooks/processors/recovery.processor.ts:62-107 | item insert, skip when unknown or already RECOVERED, status before live write |
| LoanBook.LoanDatabase.RefreshOne | src/modules/csdp/csdp-linking/feature-row-materializer.service.ts:58-280 | one scan of the loans yields every aggregate column, and only this subscriber's row changes |
| LoanBook.WindowEdges | src/modules/csdp/csdp-linking/feature-row-materializer.service.ts:226-255 | exactly 180 days ago is out of the window, and exactly 30 days neither overdue nor a cured default |
| LiveRowRefinement.FreshStartHasLiveColumns | src/modules/csdp/csdp-linking/feature-row-materializer.service.ts:226-266 | a recomputed row (or no row and no loan) is the state from which live writes count: its columns are the sums the live invariant asks for |
| LoanLifecycle.RunKeepsFlags | src/modules/csdp/csdp-linking/feature-row-live-writer.service.ts:89-101 | over every run of deliveries, retries, recoveries, aging and refreshes, each meeting its exact condition, each subscriber with a loan has a row whose default flag is true exactly when a DEFAULTED loan exists |
| LoanLifecycle.DeliverKeepsFlagsExactlyWhen | src/modules/csdp/csdp-webhooks/processors/loan.processor.ts:70-151 | any delivery, first or repeated and of any status, keeps that invariant if and only if there was nothing for the row to learn |
| LoanLifecycle.IssuedDeliveryKeepsFlagsExactlyWhen | src/modules/csdp/csdp-webhooks/airtel-webhook.mapper.ts:33-57 | Airtel's notifications, always ISSUED, keep it except when they repeat the only defaulted loan of a subscriber |
| LoanLifecycle.RedeliveryIsNoOpExactlyWhen | docs/CSDP_SCORING_ALGORITHM.md:424-427 | a repeated delivery changes nothing if and only if it repeats the stored status and recovery date |
| LoanLifecycle.RecoverKeepsFlagsExactlyWhen | src/modules/csdp/csdp-webhooks/processors/recovery.processor.ts:62-107 | a recovery item, whoever its payload names, keeps that invariant if and only if it cures no default, or names the owner, or the owner has another default |
| LoanLifecycle.AgeKeepsFlags | src/modules/csdp/csdp-aging/aging.processor.ts:86-103 | recomputing flags of affected subscribers alone keeps it for everybody |
| LoanLifecycle.DefaulterIsOfferedNothing | src/modules/csdp/csdp-linking/feature-row-read-model.service.ts:26-105 | after any such run from an empty database the row read for a subscriber with a DEFAULTED loan scores a limit of 0 |
| LoanLifecycle.ReadAfterRefresh | src/modules/csdp/csdp-linking/feature-row-read-model.service.ts:26-105 | after a recompute scoring reads each column in its place, and without a row nothing but blacklist entry and counters |
| LoanLifecycle.AgingReachesItsGoal | src/modules/csdp/csdp-aging/aging.processor.ts:59-111 | afterwards nothing overdue is open, everything covered is RECOVERED, RECOVERED loans are untouched, and each changed loan changed for its own cause only |
| LoanLifecycle.AgingIsAFixpoint | src/modules/csdp/csdp-aging/aging.processor.ts:59-111 | a second run at the same instant changes nothing and reports zeros |
| LoanLifecycle.ZeroReportMeansNothingChanged | src/modules/csdp/csdp-aging/aging.processor.ts:105-109 | the report is all zeros if and only if no loan changed |
| LoanCoverage.AppliedIsItemTotal | src/modules/csdp/csdp-aging/aging.processor.ts:70-73 | the grouped total of a loan is the sum over all its line items, absent exactly when it has none |
| LoanCoverage.ItemTotalConcat | src/modules/csdp/csdp-aging/aging.processor.ts:70-73 | totals of two lots of items add up |
| LoanCoverage.ItemOrderIsIrrelevant | src/modules/csdp/csdp-aging/aging.processor.ts:70-73 | the order in which line items arrived does not matter |
| LoanCoverage.AgingDecides | src/modules/csdp/csdp-aging/aging.processor.ts:61-84 | a loan that is not RECOVERED becomes so if and only if it has an item and its items' sum reaches the repayable amount, else DEFAULTED if and only if it was or is older than 30 days, else stays |
| LoanCoverage.AgingReportCounts | src/modules/csdp/csdp-aging/aging.processor.ts:86-109 | the report counts the overdue open loans, the loans that became RECOVERED, and the owners of changed loans |
| LoanCoverage.ItemStoredExactlyWhen | src/modules/csdp/csdp-webhooks/processors/recovery.processor.ts:62-68 | a line item is stored if and only if its recovery has none for its loan yet, and the first one stays |
| LoanCoverage.RepeatedRecoveryIsNoOp | src/modules/csdp/csdp-webhooks/processors/recovery.processor.ts:62-107 | a recovery item delivered again changes nothing at all |
| LoanCoverage.RecoveryKeepsCoverageExactlyWhen | src/modules/csdp/csdp-webhooks/processors/recovery.processor.ts:62-107 | "every RECOVERED loan's line items reach its repayable amount" survives a recovery item of any amount if and only if the loan is unknown or covered once the item counts |
| LoanCoverage.AgeKeepsCoverage | src/modules/csdp/csdp-aging/aging.processor.ts:69-84 | the aging job never breaks that meaning of RECOVERED |
| LoanCoverage.DeliveryKeepsCoverageExactlyWhen | src/modules/csdp/csdp-webhooks/processors/loan.processor.ts:70-90 | a delivery keeps it if and only if it closes nothing that is not covered |
| LoanCoverage.RunKeepsCoverage | docs/CSDP_SCORING_ALGORITHM.md:400-414 | it holds over every run whose recovery items and deliveries close covered loans only |
| LoanCoverage.OneKoboClosesLoan | src/modules/csdp/csdp-webhooks/processors/recovery.processor.ts:62-107 | an item of one kobo closes any open loan, and the recomputed row shows nothing owed |
| LiveRowRefinement.StepKeepsLiveColumnsExactlyWhen | src/modules/csdp/csdp-linking/feature-row-live-writer.service.ts:23-102 | for every step at all, the columns stay the sums they stand for if and only if a first delivery says ISSUED, a repeated one does not reopen a closed loan, and a recovery names the subscriber exactly when its loan is in the live amount |
| LiveRowRefinement.OutstandingAgainstRecompute | src/modules/csdp/csdp-linking/feature-row-live-writer.service.ts:30-102 | over every run of such steps, recomputes and retries included, live outstanding is the sum of the loans neither shut at the last recompute nor closed since, is never below a recompute, and equals it if and only if every loan shut otherwise is worth nothing |
| LiveRowRefinement.OpenBorrowerIsOfferedNothing | src/modules/csdp/csdp-scoring/heuristic-v3.ts:212-212 | over every such run from an empty database a subscriber with an open loan of any amount reads a row that scores a limit of 0 |
| LiveRowRefinement.RedeliveryKeepsBoundExactlyWhen | src/modules/csdp/csdp-webhooks/processors/loan.processor.ts:70-151 | in any state, a recompute stays within the live amount after a repeated delivery if and only if the amount it opens fits beside the amount it closes |
| LiveRowRefinement.ReopenedLoanShowsNothingOwed | src/modules/csdp/csdp-webhooks/processors/loan.processor.ts:70-151 | an instance Airtel's retries can produce: delivered, recovered and delivered once more, a loan is open while its row shows 0 owed and the flag is right |
| LiveRowRefinement.RecoveryKeepsOutstandingExactlyWhen | src/modules/csdp/csdp-linking/feature-row-live-writer.service.ts:76-80 | any recovery, of a default of the start or naming a stranger too, leaves that sum right if and only if the amount came off exactly when it was counted, or is 0, or there was nothing to take it off |
| LiveRowRefinement.TakenAgainstRecompute | src/modules/csdp/csdp-linking/feature-row-materializer.service.ts:226-231 | the live taken count is never below the recompute, and equals it if and only if no counted loan has left the window |
| LiveRowRefinement.RecoveredAgainstRecompute | src/modules/csdp/csdp-linking/feature-row-materializer.service.ts:232-238 | the recovered count differs from the recompute by exactly two counts: recoveries no item has made are missing, and those that have lapsed are kept |
| LiveRowRefinement.CuredCountsMoveAlikeExactlyWhen | src/modules/csdp/csdp-linking/feature-row-live-writer.service.ts:81-84 | a recovery moves the live cured counts when the loan was DEFAULTED and the recomputed ones when it comes after 30 days; they move alike if and only if those agree |
| LiveRowRefinement.RunKeepsLiveColumns | src/modules/csdp/csdp-linking/feature-row-live-writer.service.ts:30-102 | every run of steps that meet the exact condition keeps each live column equal to the sum it stands for, across recomputes |
| LiveRowRefinement.ClampNeverBites | src/modules/csdp/csdp-linking/feature-row-live-writer.service.ts:77-80 | in such runs the amount taken off is always there, so the clamp at 0 changes nothing |
| LiveRowRefinement.CuringAnOldDefaultUndercounts | src/modules/csdp/csdp-linking/feature-row-live-writer.service.ts:77-80 | an instance: curing a default of the start eats a later loan's amount and shows 0 owed on an open loan |
| ConfigCache.RunIsSound | src/modules/csdp/csdp-scoring/csdp-scoring-config.loader.ts:69-126 | over every interleaving at most one refresh is unsettled, and every joining load points at a refresh no younger than itself |
| ConfigCache.EveryLoadGetsYoungConfigOrDefaults | src/modules/csdp/csdp-scoring/csdp-scoring-config.loader.ts:69-126 | every config handed out was read successfully less than the hard TTL before the hit or the start of its refresh, or is the defaults |
| ConfigCache.SuccessfulReadServesEveryLoad | src/modules/csdp/csdp-scoring/csdp-scoring-config.loader.ts:78-107 | once a refresh has read a config, every load tied to it, earlier or later, resolves to that config for good |
| ConfigCache.FailedReadServesEveryLoad | src/modules/csdp/csdp-scoring/csdp-scoring-config.loader.ts:108-125 | once its read has failed, every load tied to it resolves to the cached config if that was under the hard TTL as it began, and to the defaults only otherwise |
| ConfigCache.SuccessfulReadIsCached | src/modules/csdp/csdp-scoring/csdp-scoring-config.loader.ts:69-76 | a load within 60 s after a successful read hits that config |
| ConfigCache.ReadsAreATtlApart | src/modules/csdp/csdp-scoring/csdp-scoring-config.loader.ts:69-87 | without loadFresh no read starts within 60 s of the last successful one |
| ConfigCache.FailedReadServesLastGoodOrDefaults | src/modules/csdp/csdp-scoring/csdp-scoring-config.loader.ts:108-125 | a failing read serves the last good snapshot exactly when that was under the hard TTL as the refresh began |
| ConfigCache.LoadFreshStartsOnlyWhenIdle | src/modules/csdp/csdp-scoring/csdp-scoring-config.loader.ts:89-98 | loadFresh starts a read if and only if none is in flight, and otherwise is tied to the one already running |
| ConfigCache.ScoringConfigLoader.LoadUpToAwait | src/modules/csdp/csdp-scoring/csdp-scoring-config.loader.ts:69-81 | keeps the cache sound with its whole past; a hit is a config read under 60 s ago, any other load is tied to the one refresh |
| ConfigCache.ScoringConfigLoader.LoadFreshUpToAwait | src/modules/csdp/csdp-scoring/csdp-scoring-config.loader.ts:94-98 | keeps the cache sound; joins exactly when a refresh was in flight |
| ConfigCache.ScoringConfigLoader.RefreshSettles | src/modules/csdp/csdp-scoring/csdp-scoring-config.loader.ts:100-126 | keeps the cache sound; serves a read under the hard TTL at its start or the defaults, and a failure leaves the cache alone |
| ConfigCache.ScoringConfigLoader.ClearFlight | src/modules/csdp/csdp-scoring/csdp-scoring-config.loader.ts:82-86 | afterwards no refresh is unsettled |
| LogBatcher.BatchesPartitionThePushes | src/modules/admin/processors/activity-log.processor.ts:28-106 | under every interleaving at most one insert is in flight, and the pushed sequence is finished batches, batch in flight and buffer in order |
| LogBatcher.NothingLostWithoutFailures | src/modules/admin/processors/activity-log.processor.ts:64-106 | with no failing insert, saved ++ in flight ++ buffer is what was pushed |
| LogBatcher.UnlockedPushIsScheduled | src/modules/admin/processors/activity-log.processor.ts:28-62 | a push while no insert runs is always covered by a timer or an insert |
| LogBatcher.StrandedExactlyWhen | src/modules/admin/processors/activity-log.processor.ts:45-61 | buffered items are left without a timer if and only if all of them arrived while an insert held the lock |
| LogBatcher.StrandedExample | src/modules/admin/processors/activity-log.processor.ts:45-106 | a four-step run that leaves an item stranded |
| LogBatcher.ShutdownSavesAllExactlyWhen | src/modules/admin/processors/activity-log.processor.ts:121-128 | the shutdown hook saves everything if and only if no insert is in flight while items are buffered |
| LogBatcher.ActivityLogProcessor.FlushBatch | src/modules/admin/processors/activity-log.processor.ts:64-91 | nothing under the lock, else the whole buffer goes into one insert |
| LogBatcher.ActivityLogProcessor.ProcessJob | src/modules/admin/processors/activity-log.processor.ts:28-62 | the item joins the pushed sequence, which stays finished batches ++ in flight ++ buffer; without a running insert it is under a timer or in one |
| LogBatcher.ActivityLogProcessor.TimerFires | src/modules/admin/processors/activity-log.processor.ts:52-60 | keeps that partition and always empties the buffer |
| LogBatcher.ActivityLogProcessor.InsertFinished | src/modules/admin/processors/activity-log.processor.ts:90-105 | the batch in flight joins the finished ones, saved or dropped as a whole, and the lock is released |
| LogBatcher.ActivityLogProcessor.OnModuleDestroy | src/modules/admin/processors/activity-log.processor.ts:124-128 | keeps that partition, and empties the buffer when no insert runs |
| BulkUpdate.BulkRefinesOneAtATime | src/modules/credit-score/services/credit-feed-bulk-update.service.ts:28-76 | with no failing batch the stored scores are those of processing records singly, for every positive batch size, as long as each batch loses nothing on the table it meets |
| BulkUpdate.DistinctBatchesLoseNothing | src/modules/credit-score/services/credit-feed-bulk-update.service.ts:28-76 | which holds for every table when no phone occurs twice in one batch; across batches phones may repeat |
| BulkUpdate.BatchIsSingles | src/modules/credit-score/services/credit-feed-bulk-update.service.ts:81-184 | one batch without repeats equals its records applied one by one |
| BulkUpdate.BatchIsSinglesExactlyWhen | src/modules/credit-score/services/credit-feed-bulk-update.service.ts:81-184 | any batch does if and only if each user's records after the first changing one lead from its value back to it |
| BulkUpdate.FirstChangeWins | src/modules/credit-score/services/credit-feed-bulk-update.service.ts:119-184 | a batch leaves a user at the clamped value of the first record that would change the stored score, or untouched when none would |
| BulkUpdate.RecordDecides | src/modules/credit-score/services/credit-feed-bulk-update.service.ts:119-136 | an absolute score v leaves max(0, min(1000, v)) whatever was stored and whatever delta comes with it; a delta alone moves the stored score and is clamped; nobody else changes |
| BulkUpdate.AbsoluteScoreIsLastWord | src/modules/credit-score/services/credit-feed-bulk-update.service.ts:119-136 | an absolute score sent twice counts once, and wipes out whatever a record before it did |
| BulkUpdate.DeltasAddUp | src/modules/credit-score/services/credit-feed-bulk-update.service.ts:123-136 | deltas that stay in range add up |
| BulkUpdate.UsableCountCounts | src/modules/credit-score/services/credit-feed-bulk-update.service.ts:104-143 | processed counts the records that name a known phone and carry a score or a delta |
| BulkUpdate.AllUsableProcessed | src/modules/credit-score/services/credit-feed-bulk-update.service.ts:36-76 | without failures every usable record of the feed is processed, for every batch size |
| BulkUpdate.RepeatedDeltaLosesAnUpdate | src/modules/credit-score/services/credit-feed-bulk-update.service.ts:123-140 | an instance where that fails: 500 plus two tens is 520 singly and 510 in one batch |
| BulkUpdate.BulkUpdateService.ProcessBatch | src/modules/credit-score/services/credit-feed-bulk-update.service.ts:81-184 | the map, the gathered arms and the CASE statement give every user the batch result; processed counts usable records, and the rest are errors |
| BulkUpdate.BulkUpdateService.BulkUpdateCreditScores | src/modules/credit-score/services/credit-feed-bulk-update.service.ts:28-76 | the batch loop yields the specified table, and processed + errors is the record count whichever batches fail |
| RateLimit.AtMostLimitPerWindow | src/modules/auth/guards/api-key-rate-limit.guard.ts:37-59 | at most limit requests of a key get through in the window a request opens |
| RateLimit.AtMostTwiceLimitLessOne | src/modules/auth/guards/api-key-rate-limit.guard.ts:37-59 | at most 2 * limit - 1 get through in any half-open span of ttl, for every arrival sequence |
| RateLimit.BoundIsAttained | src/modules/auth/guards/api-key-rate-limit.guard.ts:37-59 | for every limit from 1 and ttl from two instants a sorted arrival sequence reaches that bound |
| RateLimit.LimitHoldsInAnySpanExactlyWhen | src/modules/auth/guards/api-key-rate-limit.guard.ts:37-59 | at most limit requests in any span of ttl: true for every arrival sequence if and only if limit is at most 1 or ttl at most one instant |
| RateLimit.LimitZeroPassesNothing | src/modules/auth/guards/api-key-rate-limit.guard.ts:48-57 | with limit 0 nothing gets through |
| RateLimit.ApiKeyRateLimitGuard.CanActivate | src/modules/auth/guards/api-key-rate-limit.guard.ts:25-77 | one key's counter moves as the window step says, no other does, and the request passes exactly when the count is within the limit |
| Money.KoboSurvivesNaira | src/common/utils/money.utils.ts:16-35 | kobo to naira and back is the identity for every integer, negatives and amounts under a naira included |
| Money.NairaToKoboTruncates | src/common/utils/money.utils.ts:27-35 | for every well-formed decimal string the result is its exact value in kobo truncated toward zero |
| Money.NairaSurvivesKobo | src/common/utils/money.utils.ts:16-35 | naira to kobo and back is the canonical two-decimal form, and leaves canonical strings as they are |
| AdminAccounts.FreeUsername | src/modules/admin/services/invitations.service.ts:423-441 | the suffix loop stops, at a counter no larger than the number of names in use, with the smallest free candidate |
| AdminAccounts.CandidateCount | src/modules/admin/services/invitations.service.ts:432-440 | the candidates name, name.1, name.2, ... are pairwise distinct |
| AdminAccounts.TakenCandidatesBound | src/modules/admin/services/invitations.service.ts:432-440 | a loop that has reached counter has met that many different users |
| AdminAccounts.AccountService.SetupAdminAccount | src/modules/admin/services/invitations.service.ts:355-499 | the whole new state and the result for every status, expiry, email and role case; usernames and emails stay distinct, and an invitation creates at most one user unless a setup of that invitation broke off |
| AdminAccounts.AccountService.FurtherUserNeedsBrokenSetup | src/modules/admin/services/invitations.service.ts:371-401 | an invitation that has a user can create another if and only if a setup of its own broke off, it is pending and not expired, and nobody holds its email any more |
| AdminAccounts.AccountService.UpdateProfile | src/modules/auth/services/auth.service.ts:584-611 | succeeds exactly when no other user holds the new name or email, and changes that user only |
| AdminAccounts.AccountService.ResendInvitation | src/modules/admin/services/invitations.service.ts:501-539 | replaces the token of a pending invitation that has not expired, and nothing otherwise |
| AdminAccounts.InterruptedSetupCreatesTwoUsers | src/modules/admin/services/invitations.service.ts:456-472 | an instance: a broken-off setup and an email change let one invitation create two users |
| ProfileReplay.RowRebuildsServedAmount | src/modules/csdp/csdp-eligibility/profile-idempotency.service.ts:63-79 | the amount rebuilt from the log row is the amount served, for every mode, bucket and outcome of both legs |
| ProfileReplay.WhoIsServedByTheHeuristic | src/modules/csdp/csdp-eligibility/decision-router.service.ts:133-208 | exactly which requests are answered by the heuristic, and the amount in every other case |
| ProfileReplay.CohortIsShareOfBuckets | src/modules/csdp/csdp-eligibility/decision-router.service.ts:202-208 | a rollout of n percent takes exactly the n lowest buckets |
| ProfileReplay.IncidentsAreVisible | src/modules/csdp/csdp-eligibility/decision-router.service.ts:133-179 | winner, served mode, limits and error of every answer: an error exactly when the legacy leg failed or a due score did not come |
| ProfileReplay.RowRecordsBothLegs | src/modules/csdp/csdp-eligibility/eligibility-logger.service.ts:68-96 | the log row keeps winner, mode, legacy limit and the heuristic's limit whenever it ran |
| ProfileReplay.FallbackAmounts | src/modules/csdp/csdp-eligibility/profile-idempotency.service.ts:69-78 | amounts of rows whose limit columns are empty |
| ProfileReplay.RampOnlyAdds | src/modules/csdp/csdp-eligibility/decision-router.service.ts:193-208 | whoever the heuristic serves at 5% it serves at 50% and at 100%, with the same amount |
| ProfileReplay.LookupsAgree | src/modules/csdp/csdp-eligibility/profile-idempotency.service.ts:33-61 | lookups of one trans_ref at any two points of any run that both find a row agree, on an amount some caller had been served by the earlier one |
| ProfileReplay.PersistedRowIsFound | src/modules/csdp/csdp-eligibility/profile-idempotency.service.ts:33-50 | a stored row is found for exactly 24 hours after its request |
| ProfileReplay.StoredDecisionIsReplayed | src/modules/csdp/csdp-eligibility/eligibility.controller.ts:61-144 | decided, stored, and asked for again within 24 hours after anything else happened, a trans_ref hears the amount that was served |
| ProfileReplay.ReplayReturnsWhatWasServed | src/modules/csdp/csdp-eligibility/eligibility.controller.ts:61-144 | in every run where a trans_ref comes back only once its row can be found, all its answers are equal |
| ProfileReplay.ReplayIsSafeExactlyWhenFound | src/modules/csdp/csdp-eligibility/eligibility.controller.ts:61-144 | a trans_ref answered before is sure to hear the same amount again if and only if its row can be found, or the mode denies everybody and so did the earlier answer |
| ProfileReplay.RetryBeforePersistDiffers | src/modules/csdp/csdp-eligibility/eligibility.controller.ts:61-144 | an instance: a retry ahead of the queued log row gets another amount |
| EligibleAmount.LookupIsGreatest | src/modules/credit-score/services/credit-score.service.ts:374-389 | sort-then-first-match is the amount of the greatest threshold not above the score, or 500 when there is none |
| EligibleAmount.ListOrderIsIrrelevant | src/modules/credit-score/services/credit-score.service.ts:377-380 | the configured order of distinct thresholds does not matter |
| EligibleAmount.AmountRisesWithScore | src/modules/credit-score/services/credit-score.service.ts:374-389 | a better score never earns less when amounts rise and none is under 500 |
| EligibleAmount.AmountRisesExactlyWhen | src/modules/credit-score/services/credit-score.service.ts:374-389 | and it rises over all scores only under those two conditions |
| EligibleAmount.LowThresholdLosesMoney | src/modules/credit-score/services/credit-score.service.ts:374-387 | a threshold amount under 500 makes a better score earn less |
| EligibleAmount.CalculateEligibleLoanAmount | src/modules/credit-score/services/credit-score.service.ts:392-468 | never negative; a positive result plus all outstanding debt stays within the score's amount and any manual limit in force, and takes the smaller of them in full |
| EligibleAmount.FirstLoanIgnoresScore | src/modules/credit-score/services/credit-score.service.ts:353-389 | before the first loan the amount does not depend on the score; from then on the thresholds decide |
| EligibleAmount.TotalConcat | src/modules/credit-score/services/credit-score.service.ts:445-448 | the debt is the sum over the active loans, in any grouping |
| Repayment.PointsAreCapped | src/modules/credit-score/services/credit-score.service.ts:698-777 | no transaction earns more than a configured maximum, and nothing is earned for nothing |
| Repayment.BonusAndShare | src/modules/credit-score/services/credit-score.service.ts:726-768 | multiplier and fixed bonus for full repayments only, the share of the plain points for partial ones, and nothing under a set minimum |
| Repayment.DefaultFullPoints | src/modules/credit-score/services/credit-score.service.ts:639-656 | points of a full repayment under the defaults, capped at 500 |
| Repayment.DurationMultiplierByDays | src/modules/credit-score/services/credit-score.service.ts:686-696 | whole days fall into no gap of the default duration tiers: 2, 1.5, 1, 0.75, 0.5 |
| Repayment.MultiplierComesFromTier | src/modules/credit-score/services/credit-score.service.ts:673-684 | for any tiers: the lowest tier that holds the amount decides, else the tier with the highest minimum, else 1 |
| Repayment.FirstListedWins | src/modules/credit-score/services/credit-score.service.ts:677-681 | of two tiers with the same minimum the one listed first decides |
| Repayment.TopMultiplierExactlyWhen | src/modules/credit-score/services/credit-score.service.ts:640-684 | under the default tiers an amount earns the top multiplier if and only if it is at least 10001 or falls into a gap between tiers |
| Repayment.RunKeepsLoansBalanced | src/modules/credit-score/services/credit-score.service.ts:148-184 | over any sequence of awards paid + outstanding = due, 0 <= paid <= due, COMPLETED exactly at 0 outstanding, and paid never falls |
| Repayment.CallBooksRepayment | src/modules/credit-score/services/credit-score.service.ts:148-191 | a call that applies books its amount: paid rises by it up to what is due, the rest is outstanding, nothing left means COMPLETED, the user's total rises by all of it; nothing else changes |
| Repayment.RunBooksRepayments | src/modules/credit-score/services/credit-score.service.ts:148-158 | after any run a loan's paid amount is min(due, start + the amounts of the calls applied to it) |
| Repayment.RunCreditsRepayments | src/modules/credit-score/services/credit-score.service.ts:186-188 | after any run a user's total is start + the amounts of the calls credited to the user |
| Repayment.PhoneComesFirst | src/modules/credit-score/services/credit-score.service.ts:111-129 | the owner of a given phone is credited, otherwise the transaction's user |
| Repayment.RefusalExactlyWhen | src/modules/credit-score/services/credit-score.service.ts:81-129 | which of the four errors a call meets, each if and only if |
| Repayment.FullRepaymentEarnsFullPoints | src/modules/credit-score/services/credit-score.service.ts:190-204 | a call counts as a full repayment exactly when it leaves nothing to pay |
| Repayment.CallSettlesUser | src/modules/credit-score/services/credit-score.service.ts:190-330 | repayment status, score, automatic limit, history row with its reason, and report of a call, with and without points |
| Repayment.RepeatReportsItsRow | src/modules/credit-score/services/credit-score.service.ts:138-146 | a repeat changes nothing and reports points and score of its row |
| Repayment.ScoreIsStartPlusEarned | src/modules/credit-score/services/credit-score.service.ts:230-315 | after any run a user's score is start plus points earned, capped, and each history row starts where the user's previous one ended |
| Repayment.RunKeepsOneRow | src/modules/credit-score/services/credit-score.service.ts:133-146 | a transaction has at most one history row, whatever loans and phones it is called with |
| Repayment.AppliedAtMostOnce | src/modules/credit-score/services/credit-score.service.ts:133-146 | once it has one, any later call of it, after any run and with any loan and phone, leaves loans, users and history as they are |
| Repayment.EarningLeavesRow | src/modules/credit-score/services/credit-score.service.ts:198-315 | an accepted call leaves its transaction with a row if and only if it earned points or had a row |
| Repayment.RepeatChangesNothingExactlyWhen | src/modules/credit-score/services/credit-score.service.ts:133-228 | repeating a call changes nothing if and only if it earned points or paid nothing |
| Repayment.CreditScoreService.AwardPointsForRepayment | src/modules/credit-score/services/credit-score.service.ts:71-331 | loans, users, history and result change as the award step says, for the four refusals, a repeat, a zero-point and a scoring call |

## Left out

- Floating point: rounding, NaN and infinities; amounts and multipliers are exact reals, and `tanh` and the power curve are parameters known only to rise inside [0,1].
- JavaScript's division by zero outside `ValidConfig` (a zero pseudo-count, saturation or taper width).
- SQL text, TypeORM, BullMQ scheduling, Redis transport, HTTP, logging, metrics, email: a query is a map or sequence operation, a delivery is a step.
- Queue retries: a failed activity-log flush makes the queue push its last job again, which the log model does not replay; batching of the eligibility log has the same shape and is not repeated.
- DailyCap.RollingTotalNeverPassesCap: the recorded amount is the repayable one, so the caller must offer a limit that bounds the repayable amount; a failed counter write, which the processor ignores, is outside the run.
- Days on network, recharge count and the cured-default columns in the run lemmas against the recompute: the live writer never writes the first two; cured defaults are compared for the single recovery.
- The mirror columns our_disbursed_24h_naira and eligibility_checks_1h, the csdp_subscriber balances, and the choice of active subscribers in the nightly refresh: a bulk refresh is a sequence of single ones.
- A delivered CANCELLED: the request type accepts it, the check constraint of the loan table refuses it, and nothing changes.
- The one-hour eligibility counter and the published exposure value: both are inputs of scoring.
- ConfigCache: mapping configuration rows to a config is an oracle that succeeds or fails.
- RateLimit: Redis failures, where the guard lets requests through, and a crash between INCR and EXPIRE.
- EligibleAmount.CalculateEligibleLoanAmount: an answer from the one-hour cache, which can be stale.
- Repayment: cache invalidation and metadata, and a crash between the saves of loan, user and history.
- BulkUpdate.BulkUpdateService.ProcessBatch: a negative batch size from the environment, on which the source loops forever, and a user changed by someone else between the read and the CASE statement.
- Money: BigInt literals other than digit strings (hexadecimal, signs, blanks inside) are errors in the model, and trimming knows ASCII blanks only.
- ProfileReplay: amounts are compared, not their text, since a numeric column may render "1000" as "1000.00"; the cohort bucket is any number and the hash behind it is not modelled.
- AdminAccounts: lower-casing and blank replacement in the base name, passwords, roles and two-factor setup; two setups that interleave between check and save; a failing invitation update after the user is saved is the same step as a failing role update.
- The other controllers and guards, seeds, migrations, dashboards, file storage, support tickets, USSD callbacks and the older eligibility rules: nothing of them is modelled.
