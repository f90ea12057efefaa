# A verified model of alertchain

alertchain receives alerts over an Alertmanager-compatible API, drops those
that an active mute covers, routes the rest through an ordered rule list, and
posts each decision to a webhook, recording the outcome per
`(rule, fingerprint)` pair so that a firing and a resolved alert are each
delivered once. This project models that engine in Dafny and proves what its
design document promises of it, or exactly when it does not hold.

Verify everything with `dafny verify dfyconfig.toml`.

## How it is organised

The engine is modelled twice, and the two models are proved to agree.

- **On values and as a class.** `delivery.dfy` says what one `Process` call,
  one POST and any serial run do to the notifications table and the log of
  webhook attempts. `chain.dfy` is the imperative engine: a `Chain` object over
  a `Store` (`store.dfy`) and `Metrics` (`metrics.dfy`), with the source's loops
  and early exits, each method proved to do what the value model says.
- **As a transition system.** `handlers.dfy` runs any number of request handlers
  interleaved at every SQL statement, webhook call and counter increment, under
  any read, write or webhook faults; `soundness.dfy` and `conservation.dfy` prove
  what every reachable state keeps of its history and its counters. `solo.dfy`
  proves that a handler running alone ends exactly like the value model;
  `serializable.dfy`, `samealert.dfy`, `attained.dfy` and `progress.dfy` prove what
  whole runs guarantee.

Around the engine: `routing.dfy` (matching, routing, shadowing, the static
checks), `ladder.dfy` (the clock readings along one call), `retry.dfy` and
`retrytable.dfy` (aborted and re-sent batches: deliveries, then the table),
`mutes.dfy` and `observed.dfy` (the time windows and filters that Go and SQL each
spell out, and the two UI pages),
`verify.dfy` (routing expectations compared by sorting), `duration.dfy` and
`matchertext.dfy` (two printer/parser pairs). `common.dfy` holds shared types
and the lexicographic sort.

Outside answers are parameters. Clock readings, webhook results and
database errors are inputs (`Outcome`, `Script`); the fingerprint is an arbitrary
function of the label map; fresh mute IDs are given by the caller.

## What is proved

- *Delivery law.* After a recorded success, another attempt of the same kind on
  the pair follows only after a recorded attempt of the opposite kind; without
  webhook and write failures deliveries strictly alternate. The number of attempts a
  run of firing pushes makes is exactly the position of the first full success.
- *Fan-out.* On a validated chain each decision acts on its own row alone; a
  call fails exactly when a reached read fails, having applied exactly the
  decisions before it.
- *Retries.* A batch aborted by reads and re-posted makes exactly the deliveries
  of one uninterrupted POST if and only if no aborted prefix held both a firing and a
  resolved delivery of one pair; final statuses agree always, and the whole table,
  timestamps included, under an exact condition on the clock readings.
- *Concurrency.* Every row is explained by an earlier webhook call;
  handlers with distinct fingerprints are serializable in every order (table,
  attempts, counters and answers) and deliver exactly once without faults; N
  handlers with the same alert deliver between one and N times, and every count
  in between happens; the counters are conserved in every reachable state; every
  handler answers after a bounded number of its own steps.
- *Agreement.* The four spellings of "resolved", the three spellings of "active"
  and the two matching operators agree under exact conditions; the UI's pages
  partition the firing alerts, and show no suppressed alert as firing exactly when
  the active mutes meet a stated condition.
- *Round trips.* Durations and matcher texts parse back exactly on the stated
  inputs, and only there.

## Where the code and its documentation differ

The model follows the code.

- `README.md` says the per-alert `status` carries the same value as the top-level
  one. The code reads the clock twice, so they differ exactly when the alert ends
  between the readings (`Ladder.WhenPayloadRunsAhead`); `Ladder.StatusesDiffer` is such
  a call, and in `Ladder.ResolvedSentAsFiring` a resolved payload is recorded as
  `firing-sent`.
- The comment on `post` says a retry is deduplicated. A batch that carries one
  alert both firing and resolved redelivers (`Retry.MixedBatchRedelivers`);
  `Retry.RetryEquivalence` gives the exact condition.
- The help text of the received-alerts counter speaks of requests; the
  counter is incremented per alert.
- The alert-store comment says annotations are recorded; the table has no such
  column.
- The Firing tab is said to exclude alerts matched by an active mute. It tests JSONB
  containment where the engine uses `MatchAll`, and the two differ on empty matcher
  values: a mute on `team=""` suppresses an alert without a team that the tab
  still shows (`Observed.SuppressedButShown`). `Observed.SuppressedIsHiddenExactly`
  says for which active mutes this cannot happen.
- Expiring a mute that is still pending leaves its end before its start. List
  filter and displayed status then disagree from that Expire until the requested
  start, and only then (`Mutes.DisagreementWindow`); `Mutes.ListedExpiredShownPending`
  is such a run.

## Model

| member | source | states |
|---|---|---|
| Routing.MatchAll | internal/alertchain/chain.go:18-28 | true exactly when every condition equals its label, a missing label reading as "" |
| Routing.SubsumesIffMatchesMore | internal/alertchain/chain.go:21-28 | one match map is contained in another if and only if it matches every label set the other does |
| Routing.Evaluate | internal/alertchain/chain.go:88-102 | returns, in order and once each, exactly the matching rules that no earlier matching non-continue rule cuts off |
| Routing.RoutedIsEvaluation | internal/alertchain/chain.go:90-102 | the specification function lists exactly the reached positions, increasing |
| Routing.RoutedEmptyIffNoMatch | internal/alertchain/chain.go:90-102 | an alert is dropped if and only if no rule matches it |
| Routing.ShadowedRuleIsDead | internal/alertchain/chain.go:90-102 | a rule behind a non-continue rule whose match map is contained in its own is never reached and can be deleted without changing any result |
| Routing.Check | internal/alertchain/check.go:17-37 | writes exactly the warnings that apply, in position order |
| Routing.CatchAllExactly | internal/alertchain/check.go:23-35 | the rules Check calls catch-alls are exactly those that match every alert |
| Routing.CatchAllLastRoutesEverything | internal/alertchain/check.go:23-26 | with a catch-all last rule no alert is dropped |
| Routing.NeverExecutes | internal/alertchain/check.go:28-35 | behind a reported position no rule is ever reached, and all of them can be cut off at once |
| Routing.Trace | internal/alertchain/trace.go:16-83 | reports the same final list that Evaluate dispatches, unless muted or the mute read failed |
| Routing.Validate | internal/alertchain/chain.go:223-244 | accepts exactly the valid chains, and otherwise names the first offending rule and its first broken invariant |
| Routing.ChainValidExactly | internal/alertchain/chain.go:223-244 | valid is: names non-empty and distinct, receivers non-empty and defined |
| Routing.ValidChainFansOutDistinctly | internal/alertchain/chain.go:223-244 | on a valid chain decided rule names are distinct and every receiver exists |
| Delivery.FanOutIndependence | internal/alertchain/chain.go:142-185 | a call fails exactly when a reached read fails, having applied exactly the earlier decisions, each on its own row alone; every other row is framed |
| Delivery.PostedIsServed | internal/api/alerts.go:55-64 | a POST is the serial run of its calls up to and including the first failing one |
| Delivery.DeliveryLaw | internal/alertchain/chain.go:151-183 | from any table and under any faults, after a recorded success another attempt of its kind follows only a recorded attempt of the opposite kind |
| Delivery.DeliveriesAlternate | DESIGN.md:217-239 | without webhook and write failures the deliveries of a pair strictly alternate firing and resolved |
| Delivery.Convergence | DESIGN.md:241-247 | from a row that is not the desired one, n pushes that all want firing, or all resolved, make exactly as many attempts as it takes to reach the first full success, and none from then on |
| Delivery.AttemptsNeededIsFirstSuccess | internal/alertchain/chain.go:142-184 | that number is the position of the first push whose webhook and write both succeed, or n |
| Ladder.WhenPayloadRunsAhead | internal/alertchain/notify.go:86-137 | the exact clock conditions under which a firing decision sends a resolved payload, and under which a payload's two statuses differ |
| Ladder.StatusesDiffer | internal/alertchain/notify.go:86-128 | a concrete call whose payload says firing around a resolved alert |
| Ladder.ResolvedSentAsFiring | internal/alertchain/chain.go:139-183 | a concrete call that sends a resolved payload and records firing-sent |
| Ladder.StatusLadder | internal/alertchain/chain.go:139-163 | along one call, resolved desired implies resolved payload implies resolved per-alert status, payloads never go back to firing, and a firing attempt with a resolved payload was decided before the alert's end and sent after it |
| Retry.PostRunsPlan | internal/api/alerts.go:55-64 | a POST aborted by reads delivers exactly a deduplicated prefix of its plan |
| Retry.RetriedExactly | internal/api/alerts.go:38-43 | aborting a plan anywhere, any number of times, never loses a delivery, and adds none exactly when no aborted prefix is contradictory |
| Retry.RetryEquivalence | internal/api/alerts.go:38-64 | aborted POSTs followed by a whole one leave the statuses of one POST, and make the same deliveries if and only if no aborted prefix reached one pair both firing and resolved |
| RetryTable.RetriesLeaveTableExactly | internal/api/alerts.go:38-64 | at any clock readings, for mixed batches too, retries leave the very table of one POST, timestamps included, if and only if, for every pair newly asked for one status, the first POST that reached it read the clock as the final one does |
| RetryTable.FirstTimeSurvives | internal/alertchain/chain.go:151-183 | such a pair's row keeps the clock reading of the first POST that reached it |
| RetryTable.LaterRetryKeepsEarlierTime | internal/api/alerts.go:38-64 | a concrete aborted and later re-sent batch whose table differs in a timestamp |
| RetryTable.RetriesLeaveSameTable | internal/api/alerts.go:38-64 | in particular, at the same clock readings the tables are the same |
| RetryTable.TableAbsorbsPrefix | internal/store/store.go:210-222 | running a plan again from anywhere on the way leaves the table of one run |
| Retry.UnmixedBatchRetriesExactly | internal/api/alerts.go:38-64 | a batch in which no fingerprint is both firing and resolved always retries exactly |
| Retry.MixedBatchRedelivers | internal/api/alerts.go:38-64 | a concrete batch that does redeliver on retry |
| Engine.Chain.Notify | internal/alertchain/notify.go:86-128 | the payload's statuses come from two clock readings, top level first |
| Engine.Chain.Deliver | internal/alertchain/chain.go:142-183 | one decision: new rows, attempts and counters in each of the three cases; which of the four statuses is recorded, by the alert's end and the webhook's answer |
| Engine.Chain.FanOut | internal/alertchain/chain.go:142-185 | the loop does what the value model says; an error names the first decision whose read failed |
| Engine.Chain.Process | internal/alertchain/chain.go:111-186 | rows, attempts, counters and sighting of one call; an error surfaces if and only if a read failed; a mute that covers the time of the mute read and matches stops everything, no such mute lets the whole fan-out through |
| Engine.PushOf | internal/store/store.go:81-108 | the mute gate is closed exactly when a mute whose window covers the read matches the labels |
| Engine.AttemptsAreUnmuted | internal/alertchain/chain.go:123-131 | whatever a POST attempts is for an alert of its batch whose mute read succeeded and found no matching mute, under a rule it is routed to |
| Engine.Chain.Receive | internal/api/alerts.go:55-64 | one turn of the batch loop: the alert is counted, then processed |
| Engine.Chain.PostBatch | internal/api/alerts.go:44-66 | rows, attempts, counters, answer and sightings of one POST, up to the first failing call |
| Metric.LogConservation | internal/alertchain/metrics.go:37-65 | the success counter counts the attempts that succeeded, the failure counter the others, and each is written or counted as lost |
| Metric.ReceivedConservation | internal/alertchain/metrics.go:49-59 | one call counts a mute lookup failure exactly when the mute read failed, a history lookup failure exactly when a later read did |
| Metric.PostConservation | internal/alertchain/metrics.go:31-65 | over one POST the counters account for every attempt and every received alert |
| Soundness.HistorySoundness | internal/alertchain/chain.go:162-183 | in every reachable state, under any interleaving and faults, each of the four statuses has an earlier webhook call to its rule's receiver that wanted and answered just that |
| Soundness.RowsAreReplayed | internal/alertchain/chain.go:176-183 | the table is the replay of the logged writes |
| Soundness.EverythingCaused | internal/alertchain/chain.go:151-183 | in every run each write follows its thread's webhook call, and each call its thread's read of another status |
| Conservation.CounterConservation | internal/alertchain/metrics.go:14-65 | in every reachable state each notify counter, the webhook calls that answered so and the threads in flight balance, and so do the received alerts and the history writes |
| Solo.FanOutRuns | internal/alertchain/chain.go:142-185 | the small steps of a handler alone refine the decision loop |
| Solo.BatchRuns | internal/api/alerts.go:55-66 | a handler alone ends like the sequential POST: rows, attempts, counters and answer |
| Serializable.LooksAlone | internal/alertchain/chain.go:111-186 | with distinct fingerprints a handler cannot tell any interleaving from running alone |
| Serializable.Serializability | internal/alertchain/chain.go:111-186 | distinct fingerprints in flight: every complete interleaving ends with the table, the attempt log of every pair, the counters and the answers of every serial order, under any faults |
| Serializable.CountersSerialize | internal/alertchain/metrics.go:14-65 | the final counters are the tally of the POSTs taken in any order |
| Serializable.CompleteCallsAreAttempts | internal/alertchain/chain.go:162-183 | once all have answered, a pair's webhook calls are its attempts |
| Serializable.ExactlyOnce | DESIGN.md:217-239 | and without faults, from an empty table, on a valid chain and with no batch carrying one fingerprint both firing and resolved, the webhook of each wanted pair is called exactly once, successfully, and no other at all |
| SameAlert.AtMostOncePerCall | internal/alertchain/chain.go:151-183 | in every reachable state a pair's webhook has been called at most once per Process call on its fingerprint, from any table and under any faults |
| SameAlert.SameAlertBound | DESIGN.md:282-300 | handlers sharing a firing alert: every call comes from a thread that read the row before the first write to it, and once all have answered a wanted pair was delivered at least once |
| SameAlert.OneAlertManyHandlers | DESIGN.md:282-300 | N handlers with one firing alert deliver a matched rule at least once and at most N times |
| Attained.EveryCountIsAttained | DESIGN.md:282-300 | for every matched rule, every N and every count from 1 to N, some complete interleaving of N handlers without faults delivers just so often |
| Progress.EveryHandlerAnswers | internal/alertchain/chain.go:111-186 | any schedule giving each handler its bounded number of steps completes |
| Mutes.FilterAgreesWithStatus | internal/alertchain/mute.go:23-27 | Active, SQL window, projected status and list filter agree at one instant, except exactly when the mute ended before now and has not started |
| Mutes.InvalidFieldIsFirst | internal/alertchain/mute.go:175-196 | a request is accepted exactly when no field's check fails; otherwise the first such field is blamed |
| Mutes.MuteLifecycle | internal/store/store.go:154-193 | over any run of Create and Expire a stored mute is what its first accepted Create asked for, ended at its latest Expire |
| Mutes.ProperUnlessExpiredWhilePending | internal/store/store.go:176-193 | the stored interval is proper exactly when the latest Expire did not hit a pending mute |
| Mutes.LifecycleAgreement | internal/alertchain/mute.go:198-217 | over any run, for a mute not expired while pending, all four tests tell one story at every instant |
| Mutes.DisagreementWindow | internal/store/store.go:110-121 | after an Expire, list filter and projected status disagree exactly between it and the requested start |
| Mutes.ListedExpiredShownPending | internal/alertchain/mute.go:198-217 | a concrete run after which the expired list shows a pending mute |
| Mutes.NeverActiveAfterExpire | internal/alertchain/mute.go:23-27 | a mute is never active strictly after its latest Expire, pending or not |
| Observed.TableIsFold | internal/store/store.go:253-279 | one row per fingerprint; start and first-seen from its first sighting, the rest from its latest |
| Engine.SightedIsFold | internal/alertchain/chain.go:116-121 | what a POST leaves in the alerts table is the fold of all sightings whose upsert succeeded |
| Observed.SeenInOrder | internal/store/store.go:253-279 | with a monotone clock first-seen is not after last-seen |
| Observed.ExpiryAgreement | internal/alertchain/alert_store.go:102-110 | derived status, both SQL status filters, the desired status and the payload status of the latest push agree at a common now |
| Observed.ContainmentAgainstMatchAll | internal/store/store.go:357-372 | JSONB containment implies MatchAll; the converse holds on all labels exactly for matchers without empty values |
| Observed.ViewsPartitionAlerts | internal/ui/handlers.go:52-133 | the firing alerts are the disjoint union of the Firing tab and the alerts under active mutes |
| Observed.HiddenIsSuppressed | internal/store/store.go:292-313 | the Firing tab hides exactly the firing alerts an active mute's matchers are contained in, and Process suppresses them all |
| Observed.SuppressedIsHiddenExactly | internal/store/store.go:292-313 | the tab hides every alert Process suppresses, on every table, if and only if each active mute, taken without its empty values, contains another active mute's matchers |
| Observed.SuppressedButShown | internal/store/store.go:292-313 | a concrete mute with an empty matcher value for which it does not |
| Storage.Store.MatchesAlert | internal/store/store.go:81-108 | some mute whose window covers now matches the labels |
| Storage.Store.List | internal/store/store.go:110-140 | exactly the mutes the filter's end condition selects, once each, by descending end |
| Storage.Store.Get | internal/store/store.go:142-152 | the stored mute, absence and database error told apart |
| Storage.Store.Create | internal/store/store.go:154-174 | inserts unless the id is taken |
| Storage.Store.Expire | internal/store/store.go:176-193 | moves the end of a known mute, and nothing else |
| Storage.Store.LastAttempt | internal/store/store.go:195-208 | the pair's recorded status, absence and error told apart |
| Storage.Store.RecordAttempt | internal/store/store.go:210-222 | sets the pair's row, keeps every other |
| Storage.Store.UpsertAlert | internal/store/store.go:253-279 | inserts or refreshes the row, keeping start and first-seen |
| Storage.Store.ListAlerts | internal/store/store.go:281-335 | the most recently seen selected alerts up to the limit, with derived status |
| Storage.Store.MatchingAlerts | internal/store/store.go:351-388 | the same page over the alerts that contain the matchers |
| Storage.EffectiveLimit | internal/store/store.go:320-324 | a limit that is not positive means 100 |
| Observed.PagesAreUnlimited | internal/ui/handlers.go:52-133 | the UI's pages set no limit of their own |
| Storage.FullPageShowsSelection | internal/store/store.go:281-335 | with a sufficient limit a page shows exactly the selection |
| Storage.CreateMute | internal/alertchain/mute.go:130-148 | rejects on the first failing check, else stores a mute with exactly the requested matchers, interval, comment and creator, and projects it |
| Storage.ListMutes | internal/alertchain/mute.go:150-164 | the filtered mutes in order, each with its status at one later reading |
| Expectations.SameSet | internal/alertchain/verify.go:131-145 | true exactly when the two are equal as multisets |
| Expectations.SortedCopy | internal/alertchain/verify.go:147-151 | the same strings, in order |
| Common.LeqIsLexicographic | internal/alertchain/verify.go:147-151 | the order sorted by is the dictionary order |
| Common.SpacesAre | internal/ui/handlers.go:306-311 | the characters that separate tokens and leave a text blank |
| Common.SortedIsCanonical | internal/alertchain/verify.go:131-151 | a sorted list is determined by its multiset, so comparing sorted copies compares multisets |
| Expectations.CompareExpectations | internal/alertchain/verify.go:108-129 | one mismatch per list that differs, rules first |
| Expectations.Verify | internal/alertchain/verify.go:64-106 | true exactly when every case's rules and receivers are the expected multisets; pass and fail count the cases |
| Expectations.DeadRuleChangesNoVerdict | internal/alertchain/verify.go:64-106 | deleting a shadowed rule changes no verdict |
| Duration.Exec | internal/ui/static/time-sync.js:12-13 | the leftmost match of the pattern at or after a position |
| Duration.ParseDuration | internal/ui/static/time-sync.js:10-23 | the scan adds, for every unit letter, the number directly before it |
| Duration.UnitsMean | internal/ui/static/time-sync.js:15-20 | a number of seconds, minutes, hours or days adds 1000, 60000, 3600000 or 86400000 milliseconds each |
| Duration.FormatDuration | internal/ui/static/time-sync.js:25-34 | the mixed-radix spelling of the whole minutes |
| Duration.DurationRoundTrip | internal/ui/static/time-sync.js:10-34 | parsing what was printed gives the duration rounded down to a minute, and nothing exactly below a minute |
| Duration.FormattedIsCanonical | internal/ui/static/time-sync.js:25-34 | two durations print alike exactly when they have the same whole minutes |
| Duration.FormattedIsMixedRadix | internal/ui/static/time-sync.js:25-34 | the text is days, hours below 24 and minutes below 60, zero parts left out, and "0m" below a minute |
| Duration.EndIsFixed | internal/ui/static/time-sync.js:49-63 | for Start before End, recomputing the duration and then the end leaves End unchanged |
| Duration.DurationIsRounded | internal/ui/static/time-sync.js:49-63 | the other way round the form settles, and the duration keeps its meaning exactly when it has whole minutes only, or none |
| Duration.Form.RecomputeEnd | internal/ui/static/time-sync.js:49-55 | End becomes Start plus the parsed duration, to the minute, when both are there, and stays as it is otherwise |
| Duration.Form.RecomputeDuration | internal/ui/static/time-sync.js:57-63 | Duration becomes the printed difference when Start is before End, and stays as it is otherwise |
| Duration.Form.EditStart | internal/ui/static/time-sync.js:65 | afterwards the three inputs cohere if the duration parses |
| Duration.Form.EditDuration | internal/ui/static/time-sync.js:66 | afterwards the three inputs cohere if the duration parses |
| Duration.Form.EditEnd | internal/ui/static/time-sync.js:67 | afterwards the three inputs cohere if Start is before End |
| MatcherText.MatchersTextFromQuery | internal/ui/handlers.go:274-299 | the text of the sorted, space-joined `match.` parameters |
| MatcherText.PrefillExactly | internal/ui/handlers.go:278-288 | those are the `match.<name>` parameters with non-empty name and value |
| MatcherText.ParseMatchersText | internal/ui/handlers.go:301-319 | equals the specification, error on the first bad token included |
| MatcherText.FilledExactly | internal/ui/handlers.go:310-318 | it succeeds exactly on valid tokens, names the first invalid one, and gives each key the value of its last token |
| MatcherText.FieldsSplit | internal/ui/handlers.go:311 | whitespace separates tokens |
| MatcherText.ParsedIsClean | internal/ui/handlers.go:306-319 | every successful parse yields at least one entry, and only non-empty keys and values free of whitespace |
| MatcherText.TextRoundTrip | internal/ui/handlers.go:274-319 | parsing a map's text gives the map back if and only if it is not empty and clean; values may contain '=' |
| MatcherText.TextDeterminesMatchers | internal/ui/handlers.go:274-299 | clean maps have the same text exactly when they are the same |
| MatcherText.TypedTextNormalizes | internal/ui/handlers.go:274-319 | printing what was parsed parses to the same map |
| MatcherText.PrefillRoundTrip | internal/ui/handlers.go:274-319 | the prefill flow keeps a query's matchers exactly when they are some and clean |

## Left out

- HTTP, JSON, YAML, templates, flags, logging, shutdown, configuration loading and receiver type and URL checks: input/output and easy branches.
- The webhook transport: one success or failure per attempt.
- PostgreSQL beyond single-statement atomicity, primary keys and containment of flat objects: no connection pool, migrations, timestamp precision, or row errors in the middle of a scan (a failing statement fails as a whole).
- The order of rows with equal sort keys: any order is allowed.
- The fingerprint hash: an arbitrary function of the labels, tabulated on the label sets that occur; two label sets may collide.
- Fresh IDs for mutes: a parameter; a taken primary key is modelled as the insert error.
- The sighting upsert in the transition system: it writes only the alerts table, which no other step reads; the sequential engine has it.
- The mutes table in the transition system: each push carries the answer of its mute read, which covers every table and every change to it.
- Counters wrap at 64 bits in the source and are unbounded here; a nil metrics object, whose increments do nothing, is not modelled.
- Outcomes beyond the recorded list of a push default to success while the clock stands still, so that every finite list is a complete fault pattern.
- Annotations, the generator URL, report texts of Trace, Check and Verify beyond lists, verdicts and warnings.
- JavaScript numbers above 2^53, calendar formatting of dates, and seconds in a datetime-local value: times on the form are whole minutes.
- Retry.RetryEquivalence: compares statuses, not the timestamps of rows, which later clock readings change; RetryTable.RetriesLeaveTableExactly says exactly when whole rows agree.
- Serializable.Serializability: takes each push's clock reading and outcomes as given, the same in the interleaving and in the serial order.
- MatcherText.ParseMatchersText: works on characters; bytes that are not valid UTF-8 are not modelled.
