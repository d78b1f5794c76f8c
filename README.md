# Alert reconciler: a verified model

This project models the reconciler of an alerting tool in Dafny. The tool takes two inputs:

- the **desired** alerts, a list of alert definitions read from YAML;
- the **current** alerts, the list of results an alerting API reports, where each result embeds an alert and adds an identifier and two timestamps.

From these it computes a **plan**, a list of reconcile actions:

- a **create** for every desired name the API does not report, with a freshly generated 24-character identifier;
- an **update** for every name reported with content other than the desired one, carrying the reported identifier and the desired content;
- a **delete** for every reported name that is no longer desired, carrying the reported identifier and content.

Two more rules shape the plan:

- When the current list is empty, a fast path creates one action per desired alert, in list order.
- Otherwise both lists are first indexed by alert name, and a later entry with a repeated name overwrites an earlier one.

A summary tallies the plan's actions by kind.

Layout:

- `types.dfy` (module `Types`): the data shapes. Every entity is an immutable value, so each is a datatype. Go's whole-structure equality is Dafny's structural equality, so reordering the notification rules counts as a change.
- `random_ids.dfy` (module `RandomIds`): the identifier generator.
  - The process-wide pseudo-random generator is a class `Rng`. Its stream of raw values is a parameter, and it counts its draws.
  - `RandId` fills a character buffer in a loop, one draw per character.
- `indexer.dfy` (module `Indexer`): the two name indexers. They are loops proved against one generic specification function `IndexBy`, which is last-write-wins.
- `reconciler.dfy` (module `Reconciler`): the three classification passes and `Reconcile`.
  - Go map iteration order is unspecified. So each pass picks its next key nondeterministically, and its contract holds for every order.
  - `IsPlan` states what any outcome of the indexed path satisfies.
  - `IsFastPlan` states what the fast path produces.
- `tally.dfy` (module `Tally`): the summary, and its specification `Count`.
- `plan_properties.dfy` (module `PlanProperties`): what every plan has in common:
  - partition and classification;
  - the size of the plan;
  - empty exactly when the two sides are in sync;
  - independence from identifiers and timestamps;
  - the summary counts;
  - fast-path equivalence.
- `convergence.dfy` (module `Convergence`): the effect of carrying out a plan against the API. The API's alerts are taken as a map keyed by name. For that state, it proves that reconciling again afterwards yields an empty plan. This covers both indexed-path plans and fast-path plans whose desired names are distinct. Two cases are outside this result: a report listing one name twice, which a lemma shows needs a second run, and a fast path over a repeated desired name.
- `scenarios.dfy` (module `Scenarios`): the test scenarios and further examples, stated for arbitrary alerts.

The fast path and the indexed path agree on an empty current list only when the desired names are distinct. With a repeated name, the fast path emits one create per list entry, while the indexed path emits one per name. `PlanProperties.FastPathMatchesIndexed` proves both halves.

## Model

| member | source | states |
|---|---|---|
| Types.ApiResult.AlertName | types.go:15-20 | The promoted `AlertName` of a result is the name of its embedded alert. |
| Types.Action.Name | types.go:45-51 | Each action kind has its string value ("delete", "create", "update"), and each string identifies exactly one kind. |
| Types.ActionNamesDistinct | types.go:47-51 | Two action kinds have the same string value exactly when they are the same kind. |
| Types.NotificationOrderMatters | types.go:22-27 | Notification rules are ordered: the same two distinct rules in the other order make a different alert. |
| RandomIds.CharListIsAlphabet | main.go:19 | The alphabet has 36 symbols, each a lower-case letter or a digit. |
| RandomIds.Rng.Intn | main.go:185 | A draw returns the next raw value reduced into [0, n), and advances the generator by exactly one draw. |
| RandomIds.RandId | main.go:181-188 | The identifier has length n. Its i-th symbol is the alphabet symbol picked by the i-th draw. Exactly n draws are consumed. |
| RandomIds.DrawnFromAlphabet | main.go:182-188 | Whatever the generator's stream, every generated symbol is a lower-case letter or a digit. |
| RandomIds.NthIdDetermined | main.go:17-19 | The draws fix the identifier, and it is 24 symbols from `[a-z0-9]`. |
| Indexer.ConfigByAlertName | main.go:163-170 | The map's keys are exactly the desired names, and each name maps to the last alert in the list carrying it. |
| Indexer.ResultsByAlertName | main.go:172-179 | The map's keys are exactly the names of the results' embedded alerts, and each name maps to the last result carrying it. |
| Indexer.IndexByContents | main.go:163-179 | The index holds one key per name in the list. Every name maps to the last element carrying it, and every entry is stored under its own name. |
| Indexer.IndexBySize | main.go:163-179 | The index is never larger than the list. It is exactly as large when the names are distinct, and strictly smaller when one repeats. |
| Reconciler.CreateReconcileAction | main.go:153-161 | The action carries exactly the given identifier, kind and body. |
| Reconciler.CreateActionsForMissingAlerts | main.go:141-151 | In any iteration order, there is one create per desired name that is not reported, and no other action. Each carries the desired alert, and the i-th carries the i-th generated identifier. 24 draws are consumed per create. |
| Reconciler.CreateActionsForUpdatedAlerts | main.go:127-139 | In any iteration order, there is one update per name reported with content other than the desired one, and no other action. Each carries the reported identifier and the desired alert. |
| Reconciler.CreateActionsForDeletedAlerts | main.go:115-125 | In any iteration order, there is one delete per reported name that is not desired, and no other action. Each carries the reported identifier and alert. |
| Reconciler.Reconcile | main.go:80-114 | With no current alerts, there is one create per desired alert, in list order. Otherwise the plan groups creates, then updates, then deletes, with one justified action per name that needs one. Every create at position i carries the i-th generated identifier. The generator advances by 24 draws per desired alert on the fast path, and by 24 per missing name otherwise. |
| Reconciler.CreatesComeFirst | main.go:99-112 | In the concatenation, every create sits at the same position as in the missing pass's output, so its identifier is the one drawn for that position. |
| Reconciler.ConcatenationIsPlan | main.go:99-112 | The three passes' outputs, concatenated in the fixed order, are grouped by kind, name each alert at most once, and cover exactly the names needing an action. |
| Tally.Count | main.go:70-76 | The count of a kind is at most the plan's length, and it is zero exactly when no action has that kind. |
| Tally.CountsSum | main.go:70-76 | The three counts add up to the number of actions. |
| Tally.Summary | main.go:70-76 | The summary has an entry exactly for the kinds that occur, and each entry is that kind's count. |
| PlanProperties.PendingIsClassified | main.go:115-151 | A name needs an action exactly when it is desired only, reported only, or both with unequal content. |
| PlanProperties.JustifiedIsClassified | main.go:115-151 | An action emitted by a pass has the kind its name's classification calls for. |
| PlanProperties.PlanClassifies | main.go:96-114 | Partition: each action has its name's kind (desired only gives create, reported only gives delete, unequal gives update), and every classified name has an action. |
| PlanProperties.UniqueNamesCount | main.go:96-114 | A plan naming each alert once has as many names as actions. |
| PlanProperties.PlanSize | main.go:96-114 | The plan has exactly one action per name that needs one. |
| PlanProperties.PlanEmptyIffInSync | main.go:96-114 | The plan is empty exactly when the two sides hold the same names with equal embedded alerts. |
| PlanProperties.PendingIgnoresIds | main.go:127-151 | Identifiers and timestamps do not affect which names need an action. |
| PlanProperties.DecisionsIncluded | main.go:96-114 | Against two states that differ only in identifiers and timestamps, every (name, kind, body) of one plan occurs in the other. |
| PlanProperties.DecisionsIgnoreIds | main.go:96-114 | Plans against states that differ only in identifiers and timestamps have the same length and the same (name, kind, body) decisions. |
| PlanProperties.CountIsKindNames | main.go:70-76 | In a plan naming each alert once, the count of a kind is the number of names with an action of that kind. |
| PlanProperties.PlanKindNames | main.go:96-151 | The creates of a plan are about exactly the missing names, the updates about the changed names, and the deletes about the removed names. |
| PlanProperties.PlanCounts | main.go:63-76 | The summary counts equal the numbers of missing, changed and removed names. |
| PlanProperties.AllMissing | main.go:141-151 | Against an empty current index, exactly the desired names need an action. |
| PlanProperties.FastDecisionsIndexed | main.go:86-99 | With distinct desired names, every decision of the fast path is one of the indexed path's. |
| PlanProperties.IndexedDecisionsFast | main.go:86-99 | With distinct desired names, every decision of the indexed path is one of the fast path's. |
| PlanProperties.FastPathMatchesIndexed | main.go:86-114 | On an empty current list, the two paths have equal length and decisions exactly when the desired names are distinct. With a repeated name, the indexed path emits fewer actions. |
| Convergence.PlanConverges | main.go:80-114 | Carrying out a plan brings the current alerts in sync with the desired ones. |
| Convergence.ReconcileIsIdempotent | main.go:80-114 | Reconciling again after carrying out a plan yields an empty plan. |
| Convergence.FastPlanIsPlan | main.go:86-94 | With no current alerts and distinct desired names, the fast path's output is a plan in the indexed path's sense: one justified create per desired name. |
| Convergence.FastPlanConverges | main.go:86-94 | Carrying out the fast path's plan for distinct desired names brings the empty current state in sync with the desired alerts. |
| Convergence.FastPlanIsIdempotent | main.go:80-114 | After the initial provisioning run with distinct desired names, reconciling again yields an empty plan. |
| Convergence.DuplicateReportNeedsTwoRuns | main.go:115-125 | With nothing desired and a report listing one name twice, the plan deletes only the later entry. Once that entry is gone, the next plan deletes the earlier one. |
| Scenarios.ReportedNames | main_test.go:181-192 | Results reporting a list of alerts carry those alerts' names, and are distinct when the alerts are. |
| Scenarios.SingleAction | main.go:96-114 | When a single name needs an action, the plan is exactly one justified action for it. |
| Scenarios.SplitDistinct | main_test.go:112-125 | Distinct names across two lists are distinct within each list and shared by neither. |
| Scenarios.ExistingUnchanged | main_test.go:112-125 | Each reported alert is desired with the same content. |
| Scenarios.AddedMissing | main_test.go:112-125 | Each added alert is missing from the report and indexed under its own name. |
| Scenarios.NamesOfConcat | main.go:163-170 | The names of a concatenation are the names of its parts. |
| Scenarios.AddedPending | main_test.go:112-144 | With the existing alerts reported unchanged, exactly the added names need an action, and each is missing. |
| Scenarios.ExistingAlertsNotRecreated | main_test.go:112-144 | With the existing alerts already reported, the plan has one create per added alert and nothing else, and its bodies are the added alerts. |
| Scenarios.ChangedAlertIsUpdated | main.go:127-139 | A changed alert gives a single update, with the reported identifier and the new content. |
| Scenarios.RemovedAlertIsDeleted | main.go:115-125 | An alert no longer desired gives a single delete, with its reported identifier and body. |
| Scenarios.UndesiredAlertIsDeleted | main.go:115-125 | With nothing desired, a single reported alert gives a single delete. |
| Scenarios.ReorderedNotificationsAreUpdated | main.go:127-139 | Swapping an alert's two distinct notification rules gives a single update, with the reported identifier and the reordered alert. |
| Scenarios.IdenticalAlertNeedsNoAction | main.go:127-139 | An alert reported with exactly its desired content gives no action. |

## Left out

- The command-line entry point (main.go:25-68) is not modelled. It parses flags, reads the two files, decodes JSON and YAML, encodes the plan as JSON and prints the summary line. These are I/O and serialization with no decisions of their own.
- The clock seeding of the generator (main.go:21-23) is not modelled. The generator's stream of raw values is a parameter, and no property depends on its distribution.
- Timestamps are opaque values. The reconciler only copies them and never compares them.
- The JSON and YAML field tags in types.go are not modelled.
- Go's distinction between a nil and an empty slice under `reflect.DeepEqual` is not modelled. Both are the empty sequence here.
- Integer fields (`threshold`, `delayMin`, `intervalMin`) are unbounded. The reconciler only compares them, so Go's integer width does not matter.
- Fresh identifiers are not checked against identifiers the API already reports. The source does no such check, so no freshness beyond shape (24 symbols from `[a-z0-9]`) is stated.
- Reconciler.Reconcile: the fast path's identifiers are stated as the i-th draws, not as distinct from each other. The source draws them from an arbitrary pseudo-random stream that may repeat.
- Convergence.PlanConverges, Convergence.ReconcileIsIdempotent: the API's alerts are a map keyed by name, so a report listing one name twice is not covered. On such a report the reconciler is not idempotent: the index keeps only the later entry, the plan deletes only that one, and the next run deletes the earlier one (`Convergence.DuplicateReportNeedsTwoRuns`). A fast path over a repeated desired name is not covered either. It creates one alert per list entry, so the API would hold two alerts of one name, which a name-keyed state cannot represent. The fast path with distinct names is covered by `Convergence.FastPlanConverges` and `Convergence.FastPlanIsIdempotent`.
- Convergence.Step and Convergence.Apply: the API's effect of carrying out an action is an assumption of this model, not code of the reconciler. The reconciler never calls the API.
- Concurrency is not modelled. The source shares the generator process-wide, and the model passes it explicitly.
