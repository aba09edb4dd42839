# Verified model of the risk platform's core services

This project models, in Dafny, the parts of the payment-risk platform whose correctness spans several
functions, several services or several racing callers, and proves what they guarantee:

- **Rules engine** (`GoValues`, `Float64`, `Evaluator`, `EvaluatorLaws`, `AmountComparison`, `Aggregation`,
  `RuleStore`, `RuleRaces`, `RuleCache`): the recursive evaluator of JSON condition trees, with short-circuiting, errors
  as a third truth value, dynamic typing and int64-to-float64 comparison; the fold that takes the most severe
  matched action; the rule table with its archive of versions, serially and under racing updates; and the
  five-minute Redis cache of a tenant's rules, with the handlers that invalidate it.
- **Audit trail** (`AuditChain`, `AuditPaging`, `AuditLateCommits`): many interleaved per-tenant hash chains in one
  append-only table, appended to by a read-then-insert protocol, a verifier, and a token-paged reader, also while
  rows commit out of the order of their sequence numbers.
- **Risk to decision to case pipeline** (`InFlightLock`, `Orchestrator`, `Decisions`, `Cases`): the in-flight
  lock, the fail-open evaluation, insert-if-absent decisions with analyst overrides, and cases with a log of
  actions, joined by topics whose messages may be lost, repeated and consumed late.
- **Notifications** (`RateLimiter`, `Notifications`): the limiter whose expiry every call refreshes, and the
  retry table.

`Common` holds the shared datatypes and sequence facts, `Ordering` rows arranged by a key, `Decimal` the decimal
numerals page tokens are made of.

## How the model is built

Code that mutates a table, a Redis key or a topic is a class with that state as fields; its methods keep the
branches and error results of the original and are proved against functions of the old state. The same functions
are the steps of the run models, so a statement about runs is a statement about what those methods do. Runs are
sequences of actions from an initial state: every interleaving, loss, repetition and failed best-effort call that
the action types allow is covered by a for-all over such sequences. Fields called history variables (`past`,
`origin`, `openedBy`, `readAt`, `count`, `seenBy`, `until`) record what happened for the statements and influence no step.

The database's generated keys and sequence numbers, clocks, and the outcome of each Redis, Kafka or RPC call are
parameters. Library routines whose text is not fixed here (float formatting and parsing, lower-casing, `%v`,
SHA-256, time formatting) are arbitrary functions collected in a `Lib` value, and results hold for all of them, with
two kinds of exception stated as hypotheses: `StaticLeafExact` takes the empty string not to parse as a number, which
is so of Go's `ParseFloat`, and the results on tampered or overlapping chains take digests to be distinct and non-empty.
Float64 values are reals plus NaN and the infinities, and integer-to-float conversion is round-to-nearest,
ties-to-even (sections 4.3.1 and 5.4.1 of IEEE 754-2019).

## What turned out different from the surrounding comments

- `services/audit-trail/internal/db/store.go:66` calls `AppendEvent` atomic. The head is read without a lock, so
  two appends of one tenant can link to the same event (`OverlapForks` is such a run). `VerifiesExactlyIfReadsCurrent`
  says exactly when a chain verifies, `SerialTenantsVerify` that appends which do not overlap within a tenant always
  verify, and `OverlapIsDetected` that two which read the same head are reported.
- `VerifyChain` compares links only and never recomputes a digest, so edited contents go unseen
  (`VerdictIgnoresContent`). The other theorems speak of reordered, omitted and repeated events.
- `services/notification/internal/cache/cache.go:14` speaks of the current one-minute window. Every call pushes the expiry
  back, so steady traffic is refused for good after the first `limit` calls (`SteadyTrafficStarves`).
- A tenant without enabled rules is never served from the cache: the nil list is stored as JSON `null`, which
  reads back as a miss.
- A load that read the table before a commit can write its list back after the invalidation. `StaleHitExactly` says
  exactly from which states a stale answer can follow, and `BoundedStaleness` how old any answer can be.
- `UpdateRule` reads the current row without a lock. In every interleaving the archive holds the first version and
  those some update read (`ArchivedExactly`), so it is complete if and only if every update of a rule in the table
  read the version it overwrote (`FaithfulExactlyIfReadsCurrent`; `RaceLosesVersion` is a run that loses one).
  `CreateRule` and the first `UpdateRule` both archive version 1, with the same content.
- `decision_overrides` and `case_actions` record when a transaction began, not when it committed, and two on one row
  can commit in the other order. In commit order the overrides link up and the log replays to the status. Read by
  `created_at`, the log replays to the status exactly if each action that began last leads to it (`StoredLogExactly`;
  `StoredLogCanMislead` is a run where it does not). Overrides come in commit order exactly if later commits also
  began later (`StoredOrderExactly`); that makes them link up, and is needed for it where no outcome recurs among them
  (`StoredLinksExactly`; `StoredOrderCanBreakLinks` is a run where they do not). Where outcomes recur it is only
  sufficient (`ReversedCanLink`).
- A sequence number is drawn at the insert and visible from the commit. Paging has no gap or duplicate if and only if
  no match below the last row read becomes visible between two requests (`LateCommitsExactly`, `LateCommitRepeats`).
- A listing neither locks nor claims its rows. Marks from elsewhere may fall anywhere, and still a worker gives at
  most 5n marks over a table of n notifications (`AnyWorkerDrains`), against 5 for each due one when it is alone
  (`WorkerDrains`).
- Swapping a comparison operator for its opposite negates a leaf exactly when no operand is NaN (`SwapNegates`).
  Flattening a nested combinator keeps the status exactly if its list holds only objects or the conditions before it
  do not decide without error (`FlattenExactly`; `FlattenNeedsObjects` is a failing input).
- The static check on rules is exact for a leaf (`StaticLeafExact`) and sound but not necessary for a tree
  (`StaticCheckNotNecessary`).
- The in-flight key expires after 30 seconds and `Release` deletes it whoever set it. With a lock that can always be
  asked, evaluations of one event exclude each other if and only if no call asks for the lock beside one that has run
  for 30 seconds or more (`ExclusionWithoutErrors`); an overrun nobody enters beside is harmless. A failed `TryAcquire`
  lets the call go on, which adds a clash with any call active on the event, and leaves the call covered only by the
  key it found or left behind (`ExclusionExactly`). `OverrunBreaksExclusion` and `AcquireErrorBreaksExclusion` are runs of each kind.
- `MarkFailed` does not look at the status, so a failure reported late makes a delivered notification due again
  (`LateFailureRevives`).

## Model

| member | source | states |
|---|---|---|
| `Evaluator.EvalNode` | services/rules-engine/internal/engine/evaluator.go:46-57 | the recursive dispatch terminates on every finite tree and returns the left-to-right three-valued value of the tree, key precedence and, or, not, leaf |
| `Evaluator.EvalAnd` | services/rules-engine/internal/engine/evaluator.go:59-74 | the early-return loop computes the conjunction of all its conditions as if each had been evaluated |
| `Evaluator.EvalOr` | services/rules-engine/internal/engine/evaluator.go:76-91 | the same for the disjunction; the deciding match is returned with its own reason |
| `Evaluator.EvalNot` | services/rules-engine/internal/engine/evaluator.go:93-103 | an error unless the operand is an object and evaluates without error; otherwise the flipped status |
| `Evaluator.ToNodeSlice` | services/rules-engine/internal/engine/evaluator.go:105-119 | the loop accepts exactly the lists all of whose elements are objects, and returns them in order |
| `Evaluator.LeafVerdict` | services/rules-engine/internal/engine/evaluator.go:121-150 | a leaf without string field and op errs; otherwise the operator applied to the resolved field and the value, nil if absent |
| `Evaluator.FindInSlice` | services/rules-engine/internal/engine/evaluator.go:270-281 | an error exactly for a non-list; otherwise found exactly if some element has the same string form |
| `GoValues.FieldsAreSeparate` | services/rules-engine/internal/engine/evaluator.go:154-174 | each field path reads its own component of the context, a metadata key its own entry, and no path reads another component |
| `GoValues.AbsentFields` | services/rules-engine/internal/engine/evaluator.go:154-174 | a metadata key reads as its entry, or as the empty string if absent; an unknown path reads as nil |
| `GoValues.ContainsMeaning` | services/rules-engine/internal/engine/evaluator.go:176-219 | containment holds exactly if the one string can be cut out of the other |
| `EvaluatorLaws.StringOperators` | services/rules-engine/internal/engine/evaluator.go:176-219 | on strings the operators are equality, inequality, membership, non-membership and containment after lower-casing |
| `EvaluatorLaws.EqualityForms` | services/rules-engine/internal/engine/evaluator.go:176-237 | eq compares string forms: nil as empty, a boolean by name, an integer by its numeral, a float and a composite as printed |
| `EvaluatorLaws.LeafStatus` | services/rules-engine/internal/engine/evaluator.go:121-150 | a leaf has the status of its operator on the resolved field and the value |
| `EvaluatorLaws.MetadataComparesAsNumber` | services/rules-engine/internal/engine/evaluator.go:176-256 | a metadata string against a finite threshold: the leaf errs exactly if the string parses as no number, and otherwise matches exactly if the number it parses to is above, at least, below, at most the threshold |
| `EvaluatorLaws.AmountComparesWithValue` | services/rules-engine/internal/engine/evaluator.go:176-256 | the amount, rounded to float64, against any value: a string as the number it parses to, a float or integer as itself, an error for every other kind and for a string that does not parse |
| `EvaluatorLaws.OperatorErrors` | services/rules-engine/internal/engine/evaluator.go:176-219 | membership in a non-list errs, and so does every operator outside the nine |
| `EvaluatorLaws.AmountEqualsItsNumeral` | services/rules-engine/internal/engine/evaluator.go:221-237 | an int64 amount equals exactly one decimal numeral under eq, at any magnitude, since eq does not go through float64 |
| `EvaluatorLaws.FirstDecides` | services/rules-engine/internal/engine/evaluator.go:59-91 | the status of a combinator is that of its first condition that is not a match (and) or not a non-match (or) |
| `EvaluatorLaws.NoneDecides` | services/rules-engine/internal/engine/evaluator.go:59-91 | either some condition decides or all have the neutral status, and then the combinator has it too |
| `EvaluatorLaws.AndMeaning` | services/rules-engine/internal/engine/evaluator.go:46-74 | and errs exactly if its list is malformed or its first deciding condition errs, and matches exactly if all conditions match, so the empty list matches; it takes precedence over any other key |
| `EvaluatorLaws.OrMeaning` | services/rules-engine/internal/engine/evaluator.go:46-91 | or errs exactly if its list is malformed or its first deciding condition errs, and fails to match exactly if no condition matches, so the empty list does not match |
| `EvaluatorLaws.TailUnseen` | services/rules-engine/internal/engine/evaluator.go:59-91 | nothing after the deciding condition is seen, errors included |
| `EvaluatorLaws.NonObjectElement` | services/rules-engine/internal/engine/evaluator.go:105-119 | an element that is not an object makes the combinator an error wherever it stands, even after the deciding condition |
| `EvaluatorLaws.OppositeNegates` | services/rules-engine/internal/engine/evaluator.go:176-219 | the opposite operator gives the negated status exactly unless it is a comparison of numbers one of which is NaN |
| `EvaluatorLaws.SwapNegates` | services/rules-engine/internal/engine/evaluator.go:93-219 | swapping a leaf operator for its opposite negates the leaf, error status kept, if and only if no operand is NaN |
| `EvaluatorLaws.PushPreserves` | services/rules-engine/internal/engine/evaluator.go:59-103 | pushing negation inward through and, or and double negation to the leaves keeps match and error status of every tree in which no leaf under an odd number of negations compares with NaN |
| `EvaluatorLaws.PushIsNormal` | services/rules-engine/internal/engine/evaluator.go:59-103 | the pushed form has negations only over nodes that have no opposite |
| `EvaluatorLaws.NormalNegations` | services/rules-engine/internal/engine/evaluator.go:59-103 | what that leaves under a negation: no well-formed combinator, no negation of an object, and no leaf with one of the eight operators that have an opposite |
| `EvaluatorLaws.ConcatStatus` | services/rules-engine/internal/engine/evaluator.go:59-91 | a concatenated list has the status of its first part unless that is neutral, then that of the second |
| `EvaluatorLaws.Flatten` | services/rules-engine/internal/engine/evaluator.go:59-91 | a combinator nested in one of its own kind can be spliced in place |
| `EvaluatorLaws.FlattenExactly` | services/rules-engine/internal/engine/evaluator.go:59-119 | for any nested list, splicing keeps the status if and only if the list holds only objects or the conditions before it do not decide without error |
| `EvaluatorLaws.FlattenNeedsObjects` | services/rules-engine/internal/engine/evaluator.go:105-119 | an unreached malformed list whose splicing turns a non-match into an error |
| `EvaluatorLaws.DependsOnNamedFields` | services/rules-engine/internal/engine/evaluator.go:46-174 | contexts that agree on the fields a tree names give the same match, reason and error |
| `EvaluatorLaws.StaticLeafExact` | services/rules-engine/internal/engine/evaluator.go:121-219 | a leaf never errs in any context if and only if it passes the static check |
| `EvaluatorLaws.StaticCheckSound` | services/rules-engine/internal/engine/evaluator.go:46-219 | a tree with well-shaped lists whose leaves pass the static check never errs in any context |
| `EvaluatorLaws.StaticCheckNotNecessary` | services/rules-engine/internal/engine/evaluator.go:59-91 | a tree that fails the check and yet never errs, because short-circuiting hides the bad leaf |
| `Float64.RoundIsFloat` | services/rules-engine/internal/engine/evaluator.go:239-256 | the conversion of an integer, of either sign, is a float64 value |
| `Float64.RoundNearest` | services/rules-engine/internal/engine/evaluator.go:239-256 | no float64 integer is nearer to an integer than the one it converts to |
| `Float64.RoundTiesToEven` | services/rules-engine/internal/engine/evaluator.go:239-256 | an integer half way between two floats converts to the one with even significand |
| `Float64.RoundExact` | services/rules-engine/internal/engine/evaluator.go:239-256 | integers of magnitude up to 2^53 convert exactly |
| `Float64.RoundFixesFloats` | services/rules-engine/internal/engine/evaluator.go:239-256 | an integer that is a float64 value converts to itself |
| `Float64.RoundIdempotent` | services/rules-engine/internal/engine/evaluator.go:239-256 | converting twice changes nothing more |
| `Float64.RoundMonotone` | services/rules-engine/internal/engine/evaluator.go:239-256 | conversion preserves order over all integers |
| `Float64.RoundKeepsSide` | services/rules-engine/internal/engine/evaluator.go:239-268 | conversion never moves an integer across a finite float64 threshold, fractional ones included |
| `Float64.TruncatedFloatIsExact` | services/risk-orchestrator/internal/consumer/consumer.go:108-120 | truncating any finite float64 gives an integer that converts back exactly |
| `AmountComparison.OneSidedErrors` | services/rules-engine/internal/engine/evaluator.go:182-205 | gt and lt never match falsely and gte and lte never miss, for every int64 amount and finite threshold |
| `AmountComparison.WrongExactlyAtTheRounding` | services/rules-engine/internal/engine/evaluator.go:182-205 | a comparison differs from exact arithmetic if and only if the amount rounds onto the threshold without equalling it, from the side the operator distinguishes |
| `AmountComparison.ExactUpTo2Pow53` | services/rules-engine/internal/engine/evaluator.go:182-205 | all four comparisons are exact for amounts of magnitude up to 2^53 |
| `AmountComparison.FirstWrongAmount` | services/rules-engine/internal/engine/evaluator.go:182-205 | 2^53 + 1 is accepted as at most 2^53 |
| `AmountComparison.PipelineAmountsCompareExactly` | services/risk-orchestrator/internal/consumer/consumer.go:108-120 | amounts that entered the pipeline as float64 and were truncated are always compared exactly |
| `Aggregation.EvaluateRules` | services/rules-engine/internal/grpc/rules-service.go:98-126 | the loop returns the results of the rules that do not err, in order, and block if and only if some firing rule blocks, else review if and only if some reviews, else flag if and only if some flags, else approve |
| `Aggregation.AggregateIsJoin` | services/rules-engine/internal/grpc/rules-service.go:24-30 | so by the table of severities it is approve joined with the actions that fire: at least as severe as each, and one of them |
| `Aggregation.ResultsReport` | services/rules-engine/internal/grpc/rules-service.go:98-126 | there is one result per rule that does not err, in rule order, and it has that rule's id, name, action and verdict |
| `Aggregation.ActionsNamed` | services/rules-engine/internal/grpc/rules-service.go:32-46 | each action string and its proto value name each other; an unspecified one is stored as flag |
| `Aggregation.StoredActionsAreSpecified` | services/rules-engine/internal/grpc/rules-service.go:32-46 | the action a handler stores for any request maps to a specified proto value and back to itself |
| `Aggregation.AggregateStep` | services/rules-engine/internal/grpc/rules-service.go:98-126 | one turn of the loop keeps the aggregate the join of the rules seen so far |
| `Aggregation.AggregateUnique` | services/rules-engine/internal/grpc/rules-service.go:98-126 | the aggregate is determined by the set of rules |
| `Aggregation.AggregatePermutation` | services/rules-engine/internal/grpc/rules-service.go:98-126 | permuting the rules, so any priority order, cannot change the aggregate |
| `Aggregation.AggregateMonotone` | services/rules-engine/internal/grpc/rules-service.go:98-126 | adding rules anywhere never lowers the aggregate |
| `Aggregation.ErringRuleIsIgnored` | services/rules-engine/internal/grpc/rules-service.go:103-110 | an erring rule changes neither the aggregate nor any other result |
| `Aggregation.ResultsConcat` | services/rules-engine/internal/grpc/rules-service.go:98-126 | the results of a concatenation are the concatenated results |
| `RuleStore.Store.CreateRule` | services/rules-engine/internal/db/store.go:36-76 | inserts version 1 and archives it, or reports a taken name and changes nothing; a faithful archive stays so |
| `RuleStore.Store.UpdateRule` | services/rules-engine/internal/db/store.go:123-177 | run alone: archives the current version, then overwrites and bumps it; not found or version overflow changes nothing; a faithful archive stays so |
| `RuleStore.Store.DeleteRule` | services/rules-engine/internal/db/store.go:179-191 | removes the tenant's rule and its archived versions, or reports that there is none; a faithful archive stays so |
| `RuleStore.Store.ListRules` | services/rules-engine/internal/db/store.go:96-121 | exactly the tenant's rules, enabled only unless asked, by falling priority and then creation time |
| `RuleStore.ListingExactly` | services/rules-engine/internal/db/store.go:96-121 | field by field: every row is the table's, of the tenant and enabled unless asked otherwise, each such rule is there once, by falling priority, then rising creation time |
| `RuleStore.StepFaithful` | services/rules-engine/internal/db/store.go:36-191 | every operation keeps the archive faithful: each earlier version is there with its content and nothing false is |
| `RuleStore.Run` | services/rules-engine/internal/db/store.go:36-191 | the archive is faithful after every serial run |
| `RuleStore.VersionCountsUpdates` | services/rules-engine/internal/db/store.go:123-177 | in every serial run a version is 1 plus the number of committed updates |
| `RuleStore.EarlierVersionsArchived` | services/rules-engine/internal/db/store.go:135-166 | a version a rule had at any earlier moment of a run is archived with its content then, and all rows of that version agree |
| `RuleStore.UnlockedReadCanLoseVersion` | services/rules-engine/internal/db/store.go:123-177 | one update that archived a row read earlier leaves the archive faithful if and only if the overwritten version was archived already or is the one read |
| `RuleRaces.ReadThenCommitIsUpdate` | services/rules-engine/internal/db/store.go:123-177 | with nothing in between, the read and commit steps of the racing model are the store's update |
| `RuleRaces.StepsFollowTheStore` | services/rules-engine/internal/db/store.go:123-177 | a read only notes the row; a commit archives what was read and bumps the row that is there then, or does nothing if the row is gone or its version full; an abort does nothing |
| `RuleRaces.NextKeepsInv` | services/rules-engine/internal/db/store.go:36-191 | every interleaved step keeps: rows of the archive are true, and its versions of a rule are the first and those its updates read |
| `RuleRaces.ArchivedExactly` | services/rules-engine/internal/db/store.go:135-166 | in every interleaving a version of a rule is archived if and only if it is the first or some committed update had read it |
| `RuleRaces.CoversExactly` | services/rules-engine/internal/db/store.go:135-166 | updates that never read ahead cover all versions if and only if each read the one it overwrote |
| `RuleRaces.FaithfulExactlyIfReadsCurrent` | services/rules-engine/internal/db/store.go:123-177 | in every interleaving of creates, updates and deletes the archive is faithful if and only if every committed update of every rule still in the table had read the version it overwrote |
| `RuleRaces.RaceLosesVersion` | services/rules-engine/internal/db/store.go:123-177 | a run of two updates that both read version 1, after which version 2 is nowhere in the archive |
| `RuleStore.InsertKeepsOrder` | services/rules-engine/internal/db/store.go:96-121 | ordered insertion keeps the listing order |
| `RuleCache.Cache.GetRules` | services/rules-engine/internal/cache/cache.go:40-54 | the stored list if it has not expired; a list stored as null reads as a miss |
| `RuleCache.Cache.SetRules` | services/rules-engine/internal/cache/cache.go:56-62 | stores the list for five minutes from now |
| `RuleCache.Cache.Invalidate` | services/rules-engine/internal/cache/cache.go:64-67 | removes the tenant's entry and no other |
| `RuleCache.ServedFiveMinutes` | services/rules-engine/internal/cache/cache.go:40-67 | a list written back is served until five minutes later and then no more, to its tenant alone, and an empty one never |
| `RuleCache.ConvertRows` | services/rules-engine/internal/grpc/rules-service.go:328-340 | the loop converts every row, in order |
| `RuleCache.RulesService.CreateRule` | services/rules-engine/internal/grpc/rules-service.go:152-176 | rejects an incomplete request; otherwise commits the rule with its stored action and invalidates, unless either fails |
| `RuleCache.RulesService.UpdateRule` | services/rules-engine/internal/grpc/rules-service.go:180-204 | rejects an incomplete request; otherwise commits the update and invalidates, unless either fails |
| `RuleCache.RulesService.DeleteRule` | services/rules-engine/internal/grpc/rules-service.go:208-227 | rejects an incomplete request; otherwise deletes and invalidates, unless either fails |
| `RuleCache.RulesService.LoadRules` | services/rules-engine/internal/grpc/rules-service.go:317-347 | the cached list on a hit, leaving the cache alone; else a list with one entry for each enabled rule of the tenant in the table, equal to it in id, name, version, expression, action and priority, and no other entry, written back unless that fails |
| `RuleCache.CurrentExactly` | services/rules-engine/internal/grpc/rules-service.go:317-347 | the meaning of a current list: each entry mirrors a rule of the table, the tenant's and enabled; each such rule has an entry; ids are distinct and priorities fall |
| `RuleCache.CurrentAnswers` | services/rules-engine/internal/grpc/rules-service.go:98-142 | an answer computed from a current list is block if and only if some enabled rule of the tenant in the table blocks and its own expression matches, and so on down to approve |
| `RuleCache.RulesService.EvaluateRules` | services/rules-engine/internal/grpc/rules-service.go:75-148 | the answer is the aggregate and results of the list served: on a hit the cached one, on a miss approve joined with the actions of the table's own enabled rules whose own expression matches; the aggregate is never unspecified |
| `RuleCache.TableActionsSpecified` | services/rules-engine/internal/grpc/rules-service.go:152-204 | in every run of the handlers' operations every rule of the table has an action with a specified proto value |
| `RuleCache.StepsFollowTheCache` | services/rules-engine/internal/cache/cache.go:40-67 | the steps of the run model do to the entry what the cache methods do |
| `RuleCache.LoadOrigin` | services/rules-engine/internal/grpc/rules-service.go:317-347 | the list of a load in flight is the table's at the load's latest read |
| `RuleCache.EntryOrigin` | services/rules-engine/internal/grpc/rules-service.go:317-347 | a cache entry is that of the latest write-back, with no invalidation or other write since |
| `RuleCache.BoundedStaleness` | services/rules-engine/internal/grpc/rules-service.go:317-347 | whatever loads, commits and invalidations race or fail, the list returned at a step was the table's at an earlier step in which a load read it; that load wrote it back in this very step or less than five minutes before it, with no change of the entry since, so it was the table's later than five minutes plus that load's read-to-write delay ago |
| `RuleCache.OnlyCommitsMakeStale` | services/rules-engine/internal/grpc/rules-service.go:317-347 | no step but a commit can turn the entry or a load in flight stale |
| `RuleCache.StaleHitExactly` | services/rules-engine/internal/grpc/rules-service.go:168-176 | from any state a stale hit can follow without another commit if and only if the entry is stale or a load in flight holds a stale non-empty list; right after an invalidation, if and only if such a load is in flight |
| `RuleCache.QuietRunsAreFresh` | services/rules-engine/internal/grpc/rules-service.go:168-176 | with no load straddling a commit and every commit followed by its invalidation, every hit is current |
| `RuleCache.StaleHitAfterInvalidation` | services/rules-engine/internal/grpc/rules-service.go:317-347 | a run in which a straddling load's list is still returned almost five minutes after the invalidation |
| `AuditChain.AuditStore.ReadHead` | services/audit-trail/internal/db/store.go:76-88 | the hash of the tenant's last event in seq order, "" if it has none |
| `AuditChain.AuditStore.HashFields` | services/audit-trail/internal/db/store.go:246-261 | the digest of previous hash, fields and time in their fixed order |
| `AuditChain.AuditStore.AppendEvent` | services/audit-trail/internal/db/store.go:69-119 | appends one event that links to the tenant's head and keeps seq order |
| `AuditChain.AuditStore.VerifyChain` | services/audit-trail/internal/db/store.go:191-245 | of a tenant with n events, and with l the limit or 1000 if none is given: valid with checked = min(l, n) if the first min(l, n) events link up, else invalid with the index and id of the first that does not |
| `AuditChain.WindowExactly` | services/audit-trail/internal/db/store.go:192-244 | the same of the verdict function that the theorems below speak of |
| `AuditChain.ChainExactly` | services/audit-trail/internal/db/store.go:202-209 | a tenant's chain is its events of the log, each once, in seq order |
| `AuditChain.HashExactly` | services/audit-trail/internal/db/store.go:246-261 | if the digest tells its inputs apart, two hashes agree exactly if previous hash, tenant, actor, action, resource type and id, payload and time run together to the same text; the source topic is not covered |
| `AuditChain.Verdict` | services/audit-trail/internal/db/store.go:225-244 | the verdict is right: the events checked link up, and it is invalid only at an event that does not, which it names |
| `AuditChain.ScanLinks` | services/audit-trail/internal/db/store.go:225-244 | the verification loop returns the verdict of any list |
| `AuditChain.VerdictExact` | services/audit-trail/internal/db/store.go:225-244 | no other answer is right, and a prefix links up exactly if it is no longer than the number checked |
| `AuditChain.VerdictIgnoresContent` | services/audit-trail/internal/db/store.go:202-244 | rows edited in any field but id and hashes get the same verdict |
| `AuditChain.SuccessorOnly` | services/audit-trail/internal/db/store.go:225-244 | in a linked chain with distinct digests only an event's successor names its hash and only the first names none |
| `AuditChain.OnlyPrefixesPass` | services/audit-trail/internal/db/store.go:209-244 | a list drawn from a valid chain in any order, with omissions and repetitions, links up to n exactly if it is the first n events in order |
| `AuditChain.DrawnListVerdict` | services/audit-trail/internal/db/store.go:209-244 | such a list passes if and only if it is an in-order prefix; else the reported id is the first event out of place and checked its position |
| `AuditChain.ForkIsDetected` | services/audit-trail/internal/db/store.go:225-244 | two events with the same predecessor are reported at or before the later |
| `AuditChain.ReadThenInsertIsAppend` | services/audit-trail/internal/db/store.go:69-119 | with nothing in between, the read and insert steps are one append |
| `AuditChain.StepKeepsInv` | services/audit-trail/internal/db/store.go:69-119 | every interleaved step keeps: each event links to the head its append read |
| `AuditChain.RunKeepsInv` | services/audit-trail/internal/db/store.go:69-119 | so it holds in every run |
| `AuditChain.VerifiesExactlyIfReadsCurrent` | services/audit-trail/internal/db/store.go:69-119 | in every run a tenant's first n events verify if and only if no other append of the tenant came between the read and the insert of any of them |
| `AuditChain.SerialTenantsVerify` | services/audit-trail/internal/db/store.go:66-119 | if no two appends of a tenant overlap, whatever other tenants do, its n events form one chain and every verification is valid with checked = min(l, n), where l is the limit, or 1000 if none is given |
| `AuditChain.OverlapIsDetected` | services/audit-trail/internal/db/store.go:69-119 | two appends of a tenant that read the same head and both insert make the verification invalid at or before the later |
| `AuditChain.OverlapForks` | services/audit-trail/internal/db/store.go:69-119 | a run of two overlapping appends of one tenant whose events both link to "", so that its chain fails at the second unless the first digest is empty |
| `AuditPaging.AuditService.QueryEvents` | services/audit-trail/internal/db/store.go:122-186 | the matching rows in seq order from the offset on, at most the page size |
| `AuditPaging.AuditService.QueryAuditTrail` | services/audit-trail/internal/grpc/audit-service.go:78-140 | a page of the matching events, all of the query's tenant; page size and offset are clamped, and a next token is given exactly if the page is full |
| `AuditPaging.MatchesExactly` | services/audit-trail/internal/db/store.go:122-170 | the matches are exactly the events of the log that are of the tenant, equal each non-empty filter in its field and lie within the times given |
| `AuditPaging.PageIsSelected` | services/audit-trail/internal/grpc/audit-service.go:78-140 | every event of a page is of the query's tenant, equals each non-empty filter and lies within the times given |
| `AuditPaging.OtherTenantsUnseen` | services/audit-trail/internal/db/store.go:122-170 | an event of another tenant changes no page |
| `AuditPaging.PageExactly` | services/audit-trail/internal/grpc/audit-service.go:95-140 | the i-th event of a page is match number offset + i, up to the page size or the last match; a full page gives the offset after it as token, any other none |
| `AuditPaging.PagingExactly` | services/audit-trail/internal/grpc/audit-service.go:87-103 | 50 events if no positive size is asked for, at most 500, otherwise as many as asked; the offset is the token if that is a positive decimal, else 0 |
| `AuditPaging.TokenRoundTrip` | services/audit-trail/internal/grpc/audit-service.go:95-140 | a token printed by one response is read back by the next request as the following offset, within the matches |
| `Decimal.AtoiItoa` | services/audit-trail/internal/grpc/audit-service.go:95-140 | a printed int64 is parsed back to itself |
| `Decimal.NumeralsParse` | services/audit-trail/internal/grpc/audit-service.go:95-103 | digits, with or without a sign, parse to their value if that is an int64 |
| `Decimal.OtherTextFails` | services/audit-trail/internal/grpc/audit-service.go:95-103 | empty text and text with any other character do not parse, nor do they after a sign |
| `Decimal.ItoaExactly` | services/rules-engine/internal/engine/evaluator.go:221-237 | an integer prints as its decimal digits without leading zeros, after a minus if negative |
| `AuditPaging.SessionReads` | services/audit-trail/internal/grpc/audit-service.go:87-140 | following tokens over a growing log receives the matches from the start offset on, all of them if the tokens end |
| `AuditPaging.SessionIsCompletePrefix` | services/audit-trail/internal/grpc/audit-service.go:87-140 | the concatenated pages are a prefix of the final filtered list without gap or duplicate, and contain every match present at the start once the tokens end |
| `AuditPaging.SessionReceives` | services/audit-trail/internal/grpc/audit-service.go:87-140 | every event in the log at the start that is of the tenant and meets the filters is in the pages of a session whose tokens end |
| `AuditPaging.FixedLogPages` | services/audit-trail/internal/grpc/audit-service.go:87-140 | on a fixed log n matches take exactly floor(n / pageSize) + 1 pages |
| `AuditPaging.MatchesOrdered` | services/audit-trail/internal/db/store.go:165-186 | matches come in strictly increasing seq |
| `AuditLateCommits.HistoriesCommit` | services/audit-trail/internal/db/store.go:92-119 | however draws and commits of sequence numbers interleave, the logs successive requests meet only gain rows, in any place |
| `AuditLateCommits.NoLateMatchExactly` | services/audit-trail/internal/grpc/audit-service.go:95-140 | no match below the n-th becomes visible if and only if the first n matches stay the first n |
| `AuditLateCommits.LateCommitsExactly` | services/audit-trail/internal/grpc/audit-service.go:87-140 | while rows commit late, the concatenated pages are a prefix of the final matches if and only if between no two requests a match below the last row read becomes visible; then they are complete once the tokens end |
| `AuditLateCommits.LateCommitRepeats` | services/audit-trail/internal/grpc/audit-service.go:95-140 | a row that commits after a larger one was read is skipped and the larger one is read twice |
| `AuditLateCommits.LateCommitHistory` | services/audit-trail/internal/db/store.go:92-119 | those logs are what readers see of a table whose first row commits after its second |
| `InFlightLock.InFlightCache.TryAcquire` | services/risk-orchestrator/internal/cache/cache.go:28-37 | succeeds exactly if the key is absent or expired, and then holds it for 30 seconds |
| `InFlightLock.InFlightCache.Release` | services/risk-orchestrator/internal/cache/cache.go:39-42 | deletes the key whoever set it |
| `InFlightLock.StepsFollowTheLock` | services/risk-orchestrator/internal/cache/cache.go:28-42 | a step of a run does to the keys what the lock operations do, 30 seconds included, or nothing where the operation failed without effect |
| `InFlightLock.StepExactly` | services/risk-orchestrator/internal/orchestrator/orchestrator.go:95-120 | a step from an exclusive state keeps it exclusive if and only if it does not enter beside a call whose key ran out, nor without asking beside any |
| `InFlightLock.ExclusionExactly` | services/risk-orchestrator/internal/orchestrator/orchestrator.go:95-120 | in every run, lock operations that fail with or without effect included, no two calls ever evaluate one payment event at once if and only if no step is such a clash |
| `InFlightLock.ExclusionWithoutErrors` | services/risk-orchestrator/internal/orchestrator/orchestrator.go:95-120 | if the lock can always be asked, that is if and only if no call asks for it while another on the same event has been active for 30 seconds or more, even if releases fail |
| `InFlightLock.MutualExclusion` | services/risk-orchestrator/internal/orchestrator/orchestrator.go:95-120 | in particular, if every call leaves within 30 seconds no two evaluate one payment event at once |
| `InFlightLock.OverrunBreaksExclusion` | services/risk-orchestrator/internal/cache/cache.go:39-42 | a run in which two calls are active together after an overrun, and the first release lets a third in |
| `InFlightLock.AcquireErrorBreaksExclusion` | services/risk-orchestrator/internal/orchestrator/orchestrator.go:95-104 | a run in which a call that could not ask for the lock evaluates beside its holder |
| `Orchestrator.RiskOrchestrator.Evaluate` | services/risk-orchestrator/internal/orchestrator/orchestrator.go:136-196 | an answer is translated result by result; no answer fails open to approve with no results |
| `Orchestrator.RiskOrchestrator.Process` | services/risk-orchestrator/internal/orchestrator/orchestrator.go:95-120 | skips an event in flight; otherwise publishes its evaluation once, best effort, and releases the lock also when it was not acquired |
| `Orchestrator.ToRuleResultSummaries` | services/risk-orchestrator/internal/orchestrator/orchestrator.go:228-240 | the loop maps every result, in order |
| `Orchestrator.SummariesShowRules` | services/risk-orchestrator/internal/orchestrator/orchestrator.go:228-240 | each summary has the id, name, verdict and action of the rule it comes from |
| `Orchestrator.MatchedExactly` | services/risk-orchestrator/internal/orchestrator/orchestrator.go:170-180 | for flag, review and block: some matched summary shows the action if and only if some rule with it fired |
| `Orchestrator.ActionTrip` | services/risk-orchestrator/internal/orchestrator/orchestrator.go:215-226 | a known action survives the trip through the proto enum, an unknown one becomes approve |
| `Orchestrator.EventIsMostSevere` | services/risk-orchestrator/internal/orchestrator/orchestrator.go:170-180 | across rules engine and orchestrator the event's action is block if and only if some matched result it carries blocks, else review, flag, approve likewise; a fail-open event is a bare approve |
| `Orchestrator.BuildReasonCodes` | services/decision/internal/kafka/consumer.go:156-170 | the loop collects the codes of the matched results in order, with the fail-open and no-match defaults |
| `Orchestrator.ReasonCodesExactly` | services/decision/internal/kafka/consumer.go:156-170 | fail_open_applied alone if failing open, no_rules_matched alone if no result matched, else exactly action_rule:id for each matched result in order, whatever the outcome |
| `Orchestrator.MatchedCodesComplete` | services/decision/internal/kafka/consumer.go:160-169 | every matched result has its code, every code a matched result, and no codes means no match |
| `Orchestrator.ReasonsMatchAction` | services/decision/internal/kafka/consumer.go:110-170 | reasons are never empty, are exactly fail_open_applied when failing open, and otherwise name a matched rule of the outcome unless it is approve |
| `Decisions.DecisionStore.GetDecision` | services/decision/internal/db/store.go:89-109 | the row of the payment event and tenant, or not found |
| `Decisions.DecisionStore.RecordDecision` | services/decision/internal/db/store.go:50-86 | inserts unless the payment has a decision, returns the one the table then holds, and rejects an unknown outcome |
| `Decisions.DecisionStore.OverrideDecision` | services/decision/internal/db/store.go:134-176 | replaces the outcome and logs previous and new, or changes nothing if the decision or the outcome is unknown |
| `Decisions.DecisionConsumer.HandleRiskEvaluated` | services/decision/internal/kafka/consumer.go:78-149 | one message records its decision and publishes whichever the table then holds, best effort |
| `Decisions.StepsFollowTheStore` | services/decision/internal/kafka/consumer.go:78-149 | a step of a run does to table, log and topics what the store and the consumer do, row by row |
| `Decisions.StepKeepsInv` | services/decision/internal/db/store.go:50-176 | every step keeps decisions unique, their override history linked and every copy on a topic true |
| `Decisions.RunKeepsInv` | services/decision/internal/db/store.go:50-176 | so it holds in every run with lost and repeated events and concurrent overrides |
| `Decisions.AtMostOneDecision` | services/decision/internal/db/store.go:50-86 | a payment event has at most one decision per tenant |
| `Decisions.OverridesAreLinked` | services/decision/internal/db/store.go:134-176 | in commit order overrides link previous to prior new outcome from the recorded to the current one, and the row is marked exactly if there are any |
| `Decisions.StoredOrderExactly` | services/decision/internal/db/store.go:155-170 | read by created_at overrides come in commit order, whatever happens to ties, if and only if later commits also began later; then they link up |
| `Decisions.StoredLinksExactly` | services/decision/internal/db/store.go:155-170 | if no two overrides of a decision set the same outcome, they link up by created_at, whatever happens to ties, if and only if later commits also began later |
| `Decisions.ReversedCanLink` | services/decision/internal/db/store.go:155-170 | three overrides that recur to an outcome and link up by created_at although they began in the reverse of their commit order |
| `Decisions.StoredOrderCanBreakLinks` | services/decision/internal/db/store.go:155-170 | runs, from every published event, in which the override committed last began first and the history by created_at does not end at the outcome |
| `Decisions.OnlyOverridesChange` | services/decision/internal/db/store.go:50-176 | between any two points of a run a decision changes at most in outcome and mark, and only if overridden in between, so no redelivery reverts an override |
| `Decisions.DecisionAgreesWithResults` | services/decision/internal/kafka/consumer.go:110-124 | while not overridden a decision's outcome is block if and only if a matched result it was recorded from blocks, else review, flag, approve likewise, with reasons that agree; a fail-open one is approve with exactly its one code |
| `Cases.CaseStore.CreateCase` | services/case-management/internal/db/store.go:50-75 | opens a case unless the decision has one and returns the one in the table |
| `Cases.CaseStore.AssignCase` | services/case-management/internal/db/store.go:120-154 | sets assignee and in_review and logs it, or reports not found and changes nothing |
| `Cases.CaseStore.UpdateCaseStatus` | services/case-management/internal/db/store.go:157-191 | sets and logs the status, or rolls back on a missing case or unknown status |
| `Cases.CaseStore.EscalateCase` | services/case-management/internal/db/store.go:194-196 | the same with the status escalated |
| `Cases.CaseService.AssignCase` | services/case-management/internal/grpc/case-service.go:112-139 | an incomplete request changes nothing; otherwise the case is assigned and the assignment logged |
| `Cases.CaseService.UpdateCaseStatus` | services/case-management/internal/grpc/case-service.go:143-176 | only named statuses reach the store, so its CHECK never fires; an error changes nothing |
| `Cases.CaseService.EscalateCase` | services/case-management/internal/grpc/case-service.go:180-207 | an incomplete request changes nothing; otherwise the case is escalated and the escalation logged |
| `Cases.CaseService.HandleDecisionMade` | services/case-management/internal/kafka/consumer.go:93-116 | a case is opened exactly for review and block outcomes, with the matching priority and deadline, unless the decision has one |
| `Cases.StepsFollowTheStore` | services/case-management/internal/kafka/consumer.go:93-116 | a step of a run does to cases and log what the store and the consumer do, row by row |
| `Cases.DeadlinesExactly` | services/case-management/internal/kafka/consumer.go:161-185 | critical, high, medium and any other priority are due in 4, 24, 48 and 72 hours; only review and block get another priority than medium |
| `Cases.StepKeepsInv` | services/case-management/internal/db/store.go:50-196 | every step keeps cases unique, logs explaining statuses, and consumer-opened cases true to their message |
| `Cases.RunKeepsInv` | services/case-management/internal/db/store.go:50-196 | so it holds in every run beside the decision pipeline |
| `Cases.AtMostOneCase` | services/case-management/internal/db/store.go:50-75 | a decision has at most one case per tenant, however messages repeat |
| `Cases.OpenedCaseMatchesDecision` | services/case-management/internal/kafka/consumer.go:100-185 | a case the consumer opened has an outcome its decision held at some moment, review or block, with the matching priority and a deadline 24 or 4 hours after it was opened |
| `Cases.LogExplainsStatus` | services/case-management/internal/db/store.go:120-196 | replaying a case's action log in commit order from open gives its current status |
| `Cases.StoredLogExactly` | services/case-management/internal/db/store.go:144-186 | replaying it by created_at does, whatever happens to ties, if and only if each action that began last leads to the current status |
| `Cases.StoredLogCanMislead` | services/case-management/internal/db/store.go:144-186 | a run that assigns and then resolves a case whose log by created_at replays to in_review |
| `Ordering.OnlyOrderExactly` | services/decision/internal/db/store.go:155-170 | rows listed by a key come back in their own order, whatever happens to ties, if and only if the keys increase, equal rows apart |
| `RateLimiter.Limiter.Allow` | services/notification/internal/cache/cache.go:36-47 | counts the call, restarting at 1 after expiry, refreshes the expiry, and allows up to the limit |
| `RateLimiter.KeysSeparate` | services/notification/internal/cache/cache.go:36-38 | tenants without a colon never share a key, nor do two channels of one tenant |
| `RateLimiter.BumpExactly` | services/notification/internal/cache/cache.go:36-47 | a count goes up by one if the previous call was less than 60 seconds ago and starts again at 1 otherwise |
| `RateLimiter.AllowedExactly` | services/notification/internal/cache/cache.go:36-47 | a call is allowed if and only if fewer than limit calls precede it in its burst of calls less than a minute apart |
| `RateLimiter.RefusalLasts` | services/notification/internal/cache/cache.go:36-47 | after a refusal every call is refused until one follows a full minute of silence |
| `RateLimiter.SilenceResets` | services/notification/internal/cache/cache.go:36-47 | a call after a full minute of silence is allowed if the limit admits any |
| `RateLimiter.AllowedBound` | services/notification/internal/cache/cache.go:36-47 | within a window no burst ends, so the allowed calls are bounded by the last count |
| `RateLimiter.AtMostLimitPerWindow` | services/notification/internal/cache/cache.go:36-47 | at most limit calls are allowed in any half-open minute |
| `RateLimiter.AtMostLimitPerMinute` | services/notification/internal/cache/cache.go:36-47 | the same of any set of calls: those within 60 seconds of each other that saw a count within the limit number at most the limit |
| `RateLimiter.SteadyTrafficStarves` | services/notification/internal/cache/cache.go:36-47 | one call every 59 seconds is refused for good after the first limit of them |
| `Notifications.NotificationStore.CreateNotification` | services/notification/internal/db/store.go:48-61 | inserts a pending notification with no attempts, whatever its creation time, or rejects an unknown channel |
| `Notifications.NotificationStore.ListPendingNotifications` | services/notification/internal/db/store.go:76-100 | the due notifications by creation time, ties in any order, cut off at the limit |
| `Notifications.ListingSound` | services/notification/internal/db/store.go:76-100 | a listing holds due notifications only, each once, and as many as the limit allows |
| `Notifications.ListingExactly` | services/notification/internal/db/store.go:76-100 | a listing comes oldest first, holds only pending or retrying rows with fewer than 5 attempts, and leaves such a row out only if the limit is reached by rows no younger |
| `Notifications.NotificationStore.MarkDelivered` | services/notification/internal/db/store.go:103-112 | marks the named row delivered and no other |
| `Notifications.NotificationStore.MarkFailed` | services/notification/internal/db/store.go:115-126 | counts an attempt on the named row, which fails for good at the fifth, and on no other |
| `Notifications.DueExactly` | services/notification/internal/db/store.go:76-126 | due means pending or retrying with fewer than 5 attempts; a failure counts one, and the fifth is the last |
| `Notifications.MarkKeepsInv` | services/notification/internal/db/store.go:103-126 | every mark keeps: pending means 0 attempts, retrying 1 to 4, failed at least 5 |
| `Notifications.AttemptsFilterIsImplied` | services/notification/internal/db/store.go:76-87 | so the lister's attempts filter is implied by the status |
| `Notifications.MarkDecreases` | services/notification/internal/db/store.go:103-126 | a mark given to a due notification decreases the attempts the table can still take |
| `Notifications.LateFailureRevives` | services/notification/internal/db/store.go:115-126 | a failure mark makes a delivered notification due again if and only if it has fewer than 4 attempts |
| `Notifications.DrainsWithinFivePerNotification` | services/notification/internal/db/store.go:76-126 | marks given to due notifications number at most 5 per due notification, and after that many none is due |
| `Notifications.RoundMarksDue` | services/notification/internal/db/store.go:76-126 | in a lone round that lists and gives each listed notification one mark, each mark goes to a notification that is still due |
| `Notifications.WorkerDrains` | services/notification/internal/db/store.go:76-126 | a worker with the table to itself that lists at least one notification a round and marks each once, whatever the outcomes, gives at most 5n marks for n due notifications and has drained them after 5n rounds |
| `Notifications.MarkSpendsExactly` | services/notification/internal/db/store.go:103-126 | every mark takes exactly one off what a due notification can still take, and nothing off any other |
| `Notifications.BatchSpends` | services/notification/internal/db/store.go:76-126 | after a listing, marks that name every listed row, among any others, take at least one off for each |
| `Notifications.RoundsExactly` | services/notification/internal/db/store.go:76-126 | what a run of such a worker is, round by round: a true listing of the table it meets, then marks that name every listed row, among any others |
| `Notifications.AnyWorkerDrains` | services/notification/internal/db/store.go:76-126 | in every interleaving of marks, any worker that gives each notification listed to it one mark gives at most 5n over a table of n, and among 5n + 1 of its rounds one lists nothing |
| `Notifications.EmptyListing` | services/notification/internal/db/store.go:76-87 | an empty listing with a positive limit means nothing is due at that moment |

## Left out

- AuditStore.HashFields: SHA-256 is an arbitrary function of the concatenated fields; distinct and non-empty digests are an explicit hypothesis of the lemmas that need them.
- AuditChain.Step: an insert and its commit are one step, so chains built while sequence numbers become visible out of order are not modelled; for the reader AuditLateCommits takes the two apart.
- Decisions.StoredLinksExactly: exact where no two overrides of the decision set the same outcome; where outcomes recur, only the sufficient direction of StoredOrderExactly is stated.
- Notifications.AnyWorkerDrains: the table's rows are fixed while the worker runs; notifications created meanwhile are not counted.
- AuditPaging.AuditService.QueryEvents: the SQL text building and a negative offset, which no caller passes, are not modelled.
- RateLimiter.Limiter.Allow: `INCR` and `EXPIRE` of one call act together, and Redis errors (which refuse nothing by themselves but return an error to the caller) are not modelled.
- AmountComparison.PipelineAmountsCompareExactly: a received amount whose truncation does not fit an int64, or is NaN, has a platform-dependent conversion and is not modelled.
- RuleStore.Store.ListRules: rows equal in priority and creation time may come in any order; the contract is a relation, not a function.
- RuleStore.Store.UpdateRule: the method is one transaction with nothing in between; RuleRaces splits it into its read and its commit.
- Notifications.NotificationStore.ListPendingNotifications: rows created at the same time may come in any order; the contract is a relation, not a function.
- RateLimiter.Key: two tenants one of which contains ":" may share a key, as in the original; KeysSeparate covers all others.
- Generated UUIDs are assumed new where a row is inserted; timestamps other than those that order or expire something are dropped.
- A database or decoding failure: the call returns an error and changes nothing, so it is no step of a run. A decoded cache entry that does not parse counts as a failed cache read.
- A query time equal to Go's zero time, which does not filter; absent times are the only ones that do not filter here.
- The text of error messages and of leaf reasons; reasons are kept as values, so that statements about equal results include them.
- Malformed messages on the topics: the consumers skip them, which changes no state.
- The gRPC `Evaluate` of the orchestrator, which runs and publishes without the in-flight lock; the decision table absorbs its duplicates like any other repeated event.
- The publisher adapter that copies rule results field by field into the Kafka schema.
- Publishing of rules.evaluated and case events, the case SLA cache, `SimulateRule`, and the get and list handlers: each is settled by reading one branch.
- Ingestion, log ingestion, explanation, workflow, tenant configuration, role checks, the GraphQL gateway and the frontend: outside the four pieces modelled.
- Contexts, tracing, metrics, logging, configuration, connection handling and deployment files: I/O.
