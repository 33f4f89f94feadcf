# Identity resolution and cluster merge — a Dafny model

This project models the core of a contact-identity service. A caller submits an
email, a phone number, or both. The service looks up stored contact rows and does
one of four things:

- it returns a row that already holds the submitted value;
- it creates a new primary row;
- it attaches a new secondary row to an existing cluster;
- it merges two clusters under the primary that was created earlier.

It then gathers the anchor's cluster and answers with a consolidated view. The
view holds the primary id, the distinct emails, the distinct phone numbers and
the secondary ids.

The model is functional:

- the contact table is a `Store`: a `map<nat, Contact>` keyed by id, plus the
  next value of the id sequence;
- each handler is a pure function from a store and a request to a new store and
  the row the service continues with;
- the aggregation is a pure projection of the gathered rows.

`findOne` may return any matching row. It is modelled as `FindOne` with a
`hint`: the hinted row is returned when it matches, and the lowest-id match
otherwise. Every match can be reached by hinting its own id, and every theorem
below holds for every `Choice` of hints. `createdAt` is an integer, and the clock
is the `now` parameter.

Files, one module each:

- `wrappers.dfy`: `Option` and `Result`.
- `contact.dfy`: the `Contact` row and its `linkPrecedence` enum.
- `store.dfy`: the repository calls the service makes.
- `clusters.dfy`: clusters and the store invariants.
- `resolver.dfy`: `handleEmailOnly`, `handlePhoneNumberOnly`,
  `handleEmailAndPhoneNumber` and the merge.
- `aggregation.dfy`: the gathered rows and the view.
- `service.dfy`: the `identifyService` entry point.
- `preservation.dfy`, `lifecycle.dfy`, `theorems.dfy`, `cases.dfy`,
  `earliest.dfy`: the proofs.
- `scenarios.dfy`: worked requests on concrete tables.

The store invariant `Valid` has three parts:

- the database guarantees hold: each row sits under its own positive id, and
  that id is below the sequence;
- a row is primary exactly when its `linkedId` is null;
- every `linkedId` names a stored primary, so clusters are stars of depth one.

`Valid` alone survives every call, for every choice of lookup results. No call
deletes a row, turns a secondary back into a primary, or changes a stored row's
email, phone number or creation time.

A second invariant, `ValuesClustered`, says that all rows carrying the same
email, or the same phone number, are in one cluster. It also survives every
call. Together with `Valid` it makes a repeated request a no-op that returns the
same view.

## Model

| member | source | states |
|---|---|---|
| ContactEntity.Build | src/entities/Contact.ts:10-32 | A created row takes the columns it is given, and its precedence is primary when none is given. |
| ContactEntity.IsSet | src/services/identifyService.ts:127-129 | A `linkedId` counts as set exactly as a JavaScript condition reads it: null and 0 are false, and every positive id is true. |
| ContactStore.Select | src/services/identifyService.ts:168-176 | `find` returns each stored row satisfying the condition exactly once, and no other row. |
| ContactStore.FindOne | src/services/identifyService.ts:41-46 | `findOne` returns null exactly when no row matches. Otherwise it returns a stored matching row, and any matching row can be the one returned. |
| ContactStore.Insert | src/services/identifyService.ts:17-21 | Saving a new entity adds exactly one row under a fresh id, stamped with the clock; no stored row changes. |
| ContactStore.Demote | src/services/identifyService.ts:95-98 | The first merge update makes the loser a secondary of the winner and touches no other row. |
| ContactStore.Repoint | src/services/identifyService.ts:99-102 | After the second merge update no row links to the loser; rows linked to it now link to the winner, and other rows are unchanged. |
| ContactStore.FindById | src/services/identifyService.ts:72-74 | The lookup by id finds a row exactly when that id is stored, and then returns the stored row with that id. |
| ContactStore.Save | src/services/identifyService.ts:114-117 | Saving a loaded entity stores it under its own id and leaves every other row as it was; no new id is drawn. |
| Resolver.HandleEmailOnly | src/services/identifyService.ts:11-24 | A known email returns a stored row holding it and writes nothing. A new email adds one unlinked primary holding that email and no phone number, created now; no stored row changes. |
| Resolver.HandlePhoneNumberOnly | src/services/identifyService.ts:26-38 | A known phone number returns a stored row holding it and writes nothing. A new one adds one unlinked primary holding that number and no email, created now; no stored row changes. |
| Resolver.HandleSingleField | src/services/identifyService.ts:11-37 | A known email or phone returns a stored row holding it and writes nothing; with a matching hint it returns that row. An unknown value adds one primary row holding only that value, with no link; nothing else changes. |
| Resolver.PrimaryOf | src/services/identifyService.ts:69-81 | A primary match resolves to itself. A secondary match resolves to the stored row its `linkedId` names, or to nothing. |
| Resolver.LinkTarget | src/services/identifyService.ts:127-129 | A new secondary links to the matched row's `linkedId` when that is set, otherwise to the matched row's own id. |
| Resolver.Attach | src/services/identifyService.ts:122-141 | With exactly one match, one secondary is added holding both values. It links to the match's `linkedId` when set, else to the match's id; no stored row changes. |
| Resolver.Survivor | src/services/identifyService.ts:89-92 | The survivor is the primary with the strictly earlier `createdAt`; on equal timestamps it is the phone-side primary. |
| Resolver.Loser | src/services/identifyService.ts:89-92 | The demoted primary is the one the survivor rule does not pick. It is never created earlier than the survivor, and on equal timestamps it is the email-side primary. |
| Resolver.Relinked | src/services/identifyService.ts:104-112 | A matched entity other than the survivor is marked secondary and linked to the survivor; the survivor itself is unchanged. Id, email, phone number and creation time never change. |
| Resolver.Merge | src/services/identifyService.ts:89-119 | A merge creates nothing, returns the survivor, and leaves the loser a secondary linked to the survivor. |
| Resolver.HandleEmailAndPhoneNumber | src/services/identifyService.ts:40-150 | No match: one new primary holding both values. One match: one new secondary holding both values, linked into the matched cluster. Two matches: no row is created. |
| Aggregation.PresentValues | src/services/identifyService.ts:181-186 | The filtered column holds exactly the non-null, non-empty values of the rows. |
| Aggregation.Distinct | src/services/identifyService.ts:181-186 | The Set spread keeps every value and holds no value twice. |
| Aggregation.FirstPrimary | src/services/identifyService.ts:179-180 | `find` returns the first primary row, and returns nothing only when no row is primary. |
| Aggregation.SecondaryIds | src/services/identifyService.ts:187-189 | The ids listed are exactly the ids of the secondary rows, each once when row ids are distinct. |
| Aggregation.Project | src/services/identifyService.ts:178-197 | Emails and phone numbers are duplicate-free, with no null or empty values, and the secondary ids are exactly the secondaries. The primary id is a gathered primary's, or the anchor's when none was gathered. |
| Aggregation.Gather | src/services/identifyService.ts:168-176 | The aggregation query returns exactly the stored rows matching its four alternatives, each once. |
| IdentifyService.Given | src/services/identifyService.ts:156-161 | A request field counts as given exactly as a JavaScript condition reads it: absent and empty are false, and every non-empty string is true. |
| IdentifyService.Resolve | src/services/identifyService.ts:154-165 | The call fails with `InvalidInput` exactly when neither field is given (empty strings count as absent). With both fields it takes the combined path. |
| IdentifyService.Identify | src/services/identifyService.ts:152-198 | A failed call leaves the store as it was; it fails exactly when neither field is given. |
| Preservation.SingleFieldPreserves | src/services/identifyService.ts:11-37 | On a valid store the single-field handlers keep both invariants. Afterwards every row holding the value is in the returned row's cluster. |
| Preservation.MergeAbsorbsLoser | src/services/identifyService.ts:89-117 | On a valid store the merge rewrites only the loser and the rows linked to it. The final `save` of the two matched entities writes back what the two updates stored. |
| Preservation.MergePreserves | src/services/identifyService.ts:89-119 | A merge on a valid store keeps both invariants and returns a stored row. Every row holding the email or the phone ends in the survivor's cluster. |
| Preservation.AttachPreserves | src/services/identifyService.ts:122-141 | Attaching keeps both invariants and puts both submitted values in the matched cluster. |
| Preservation.BothFieldsPreserve | src/services/identifyService.ts:40-150 | The combined handler keeps both invariants, for every choice of lookup results, and leaves both values in the returned row's cluster. |
| Lifecycle.LinkTargetIsPrimary | src/services/identifyService.ts:122-141 | On a valid store a new secondary links to the primary of the matched row's cluster, never to another secondary. |
| Lifecycle.MergeKeepsValid | src/services/identifyService.ts:89-119 | On a valid store the merge keeps every primary unlinked and every link pointing at a stored primary. It only ever demotes, and it changes no row's values or creation time. |
| Lifecycle.BothFieldsKeepValid | src/services/identifyService.ts:40-150 | The combined handler keeps a valid store valid and returns a stored row, for every choice of lookup results; it deletes nothing and promotes nothing. |
| Lifecycle.IdentifyPreservesValid | src/services/identifyService.ts:152-198 | Every call on a valid store leaves it valid, even when some email or phone number is already stored in two clusters. |
| Lifecycle.IdentifyKeepsHistory | src/services/identifyService.ts:152-198 | No call deletes a row, turns a secondary back into a primary, or changes a stored row's email, phone number or creation time; the id sequence never goes back. |
| Theorems.ResolvePreserves | src/services/identifyService.ts:154-165 | Every successful resolution on a valid store keeps both invariants and returns a stored row whose cluster owns every submitted value. |
| Theorems.IdentifyPreservesInvariants | src/services/identifyService.ts:152-198 | On a valid store whose values are clustered, every call that completes leaves the store valid and its values still clustered. |
| Theorems.ClusterView | src/services/identifyService.ts:167-196 | For a stored anchor the view describes the anchor's cluster. It gives the cluster's primary id, every non-empty email and phone number once, and every secondary id once. |
| Theorems.IdentifyAnswersWithCluster | src/services/identifyService.ts:152-198 | A valid call answers with a stored primary. Its view lists the submitted email and phone and exactly the rows linked to that primary. Every row holding a submitted value is in that cluster. |
| Theorems.IdentifyIsIdempotent | src/services/identifyService.ts:152-198 | Repeating a call gives the same store and the same answer, whatever the lookups pick and the clock reads the second time. The answer's lists match in the model's ascending row order. |
| BothFieldsCases.SameClusterWritesNothing | src/services/identifyService.ts:83-121 | When both values are already in one cluster, nothing is written and the row the email lookup picked is returned. |
| BothFieldsCases.OneKnownValueAttaches | src/services/identifyService.ts:122-141 | When only one value is known, one secondary holding both is added, linked to the primary of that value's cluster, whichever row the lookup picked. |
| BothFieldsCases.TwoClustersMerge | src/services/identifyService.ts:89-119 | When the values are in different clusters, the strictly earlier primary survives (the phone-side one on a tie) and the other becomes its secondary. Rows linked to the demoted primary are re-pointed; nothing else changes or is created. |
| EarliestPrimary.IdentifyKeepsPrimaryEarliest | src/services/identifyService.ts:89-92 | With a clock never behind a stored row, every call keeps each cluster's primary its earliest-created row. |
| Scenarios.FirstEmailCreatesPrimary | src/services/identifyService.ts:17-23 | On an empty table a new email creates primary 1 and answers `{1, [email], [], []}`. |
| Scenarios.KnownEmailNewPhoneAttaches | src/services/identifyService.ts:122-131 | A known email with a new phone number adds secondary 2 linked to 1 and answers `{1, [email], [phone], [2]}`. |
| Scenarios.BridgingRequestMergesUnderEarlierPrimary | src/services/identifyService.ts:89-119 | A request bridging two primaries demotes the later one. Repeating the request changes nothing and gives the same answer. |
| Scenarios.EqualTimesKeepPhonePrimary | src/services/identifyService.ts:89-92 | With equal timestamps the phone-side primary survives, although its id is larger. |

## Behaviour as coded

- When the two primaries have equal `createdAt`, the phone-side primary survives.
  It is not the one with the smaller id (`Scenarios.EqualTimesKeepPhonePrimary`).
- The view lists emails and phone numbers in the order the aggregation query
  returns rows, deduplicated by first occurrence. The primary's own values are
  not placed first. The model gathers rows in ascending id order. `Project` and
  `Theorems.ClusterView` are stated for any row order. The lemmas that equate
  two whole views do depend on that order: `Theorems.IdentifyIsIdempotent`,
  `Theorems.SameClusterSameView` and the worked scenarios.
- The aggregation has no not-found error. If no primary row is gathered, the
  anchor's id is reported as the primary id.
- A request with neither field fails inside the service (`InvalidInput`). The
  request validator is not relied on.

## Left out

- HTTP routing, the controller, server bootstrap and database configuration:
  these are transport and connection setup, with no decision logic.
- The request validator: its rules live in a schema library that is not part of
  this model. The service's own check for "at least one field" is modelled.
- The request's phone number is modelled as a string. The validator accepts a
  positive integer, and its conversion is not modelled.
- Logging and the catch-and-rethrow around the service: they have no effect on
  the result.
- Repository failures: every find, update and save is modelled as succeeding,
  and the theorems are about calls that complete. The merge makes three separate
  writes with no transaction. If the re-pointing update failed after the
  demotion, the demoted primary's old secondaries would still link to a row
  that is now secondary, which breaks `Valid`, and the error would be rethrown
  to the caller. A failing write is not modelled.
- The commented-out alternative merge strategy: it is dead code.
- Concurrency and transactions: the code uses none. Each repository call is
  modelled as one atomic step, and each request runs alone.
- `updatedAt`, `deletedAt` and soft-delete filtering: these are managed by the
  ORM, and the store is taken to hold only live rows.
- The database's choice among several rows matching one `findOne`: it is the
  hint parameter, and the properties are proved for every hint.
- The row order of `find`: see above.
- Theorems.IdentifyIsIdempotent: the repeated call's view equals the first
  one as ordered lists only because the model's `find` returns rows in
  ascending id order. The program's query has no ORDER BY, and the repeated
  call can anchor on a different row of the same cluster. For the program the
  promise is the same store, the same primary id and the same sets of emails,
  phone numbers and secondary ids. `Theorems.SameClusterSameView` rests on the
  same stand-in.
- Resolver.PrimaryOf: a secondary row without a `linkedId` resolves to nothing.
  The program would look it up by a null id, which the ORM drops, so the lookup
  returns an arbitrary row. A valid store never holds such a row.
- Resolver.Merge: its own contract states only what holds on any store. The
  re-pointing of the loser's secondaries is stated for valid stores, in
  `Preservation.MergeAbsorbsLoser` and `BothFieldsCases.TwoClustersMerge`.
  On an invalid store the final `save` can write stale link values back.
- ContactStore.WellFormed is required by the handlers: unique positive ids below
  the sequence. This is the database's own guarantee for a serial primary key,
  not something the service checks.
