# Case-status lifecycle engine

A Dafny model of the case-status gateway of the social-care case viewer API. A *case status* is
one episode of a person's involvement: Child in Need ("cin"), Child Protection ("cp") or Looked
After Child ("lac"). The stored type string is matched case-insensitively. Each status owns a list
of *answers*. An answer is an option/value pair with a start date, a nullable end date, a nullable
discard time and a group id. All answers created by one operation share one group id, called a
*generation*. Answers are never deleted. They are retired in one of two ways:

- *Ended*: the end date is set. The answer was in force and has now closed.
- *Discarded*: the discard time is set. The answer was superseded.

The model is functional:

- The rows the gateway loads are a `seq<CaseStatus>`.
- `ISystemTime.Now` and `DateTime.Today` arrive as a `Clock`.
- The value `Guid.NewGuid()` would produce arrives as a `group` parameter.
- Every operation returns the status it would commit, or the exception it would throw, as a `Result`.
- A failure carries no state, so a refused operation writes nothing.

Files:

- `wrappers.dfy`: `Option` and `Result`.
- `seqs.dfy`: order-preserving `Filter`.
- `model.dfy`: the entities, the request records, the error kinds, the ASCII `ToLower` and the answer predicates (active, live, kept).
- `versioning.dfy`: building a generation, the retirement modes, and the stable `OrderBy(StartDate)` sort.
- `gateway.dfy`: the gateway operations.
- `properties.dfy`: lemmas that relate several operations.

Three behaviours of the code that are easy to misread:

- Closing an LAC status builds the closing generation from all request answers (CaseStatusGateway.cs:162, 271).
- Renewing an LAC status both discards and ends each live answer (CaseStatusGateway.cs:250-251).
- Replacing answers discards the whole active generation as soon as any active answer starts after today (CaseStatusGateway.cs:334).

## Model

| member | source | states |
|---|---|---|
| CaseStatusGateway.Lookup | SocialCareCaseViewerApi/V1/Gateways/CaseStatusGateway.cs:141 | finds nothing exactly when no row has the id; otherwise finds the first row with that id |
| CaseStatusGateway.StatusesOfPerson | SocialCareCaseViewerApi/V1/Gateways/CaseStatusGateway.cs:66-75 | a status is returned exactly when it is a row of that person |
| CaseStatusGateway.ActiveStatuses | SocialCareCaseViewerApi/V1/Gateways/CaseStatusGateway.cs:37-64 | returns exactly the person's statuses with no end date or one after today, each with its discarded answers removed; no returned answer is discarded |
| CaseStatusGateway.ClosedStatuses | SocialCareCaseViewerApi/V1/Gateways/CaseStatusGateway.cs:77-102 | returns exactly the person's statuses whose end date is after the given date (a null end date never qualifies), each showing only its active answers |
| CaseStatusGateway.CreateCaseStatus | SocialCareCaseViewerApi/V1/Gateways/CaseStatusGateway.cs:104-137 | the new status is open and never edited; it has one answer per request pair, in request order, all in one generation starting on the status start date, open, undiscarded and created now |
| CaseStatusGateway.CreateCaseStatusAnswer | SocialCareCaseViewerApi/V1/Gateways/CaseStatusGateway.cs:287-319 | fails with not-found exactly when the status is missing; otherwise keeps the earlier answers and every scalar field unchanged and appends one open generation of the request pairs starting on the request date |
| CaseStatusGateway.ReplaceCaseStatusAnswers | SocialCareCaseViewerApi/V1/Gateways/CaseStatusGateway.cs:321-374 | fails with not-found exactly when the status is missing; inactive answers and scalar fields stay unchanged; if any active answer starts after today every active answer is discarded now, otherwise every one is ended on the request date; then one new generation is appended |
| CaseStatusGateway.ValidateUpdate | SocialCareCaseViewerApi/V1/Gateways/CaseStatusGateway.cs:231-242 | a missing status is not-found; an already closed status given an end date before today is invalid-end-date; anything else passes the status through |
| CaseStatusGateway.CloseStatus | SocialCareCaseViewerApi/V1/Gateways/CaseStatusGateway.cs:146-163 | sets the end date and changes no other scalar field; a non-LAC status keeps its answers; an LAC status ends exactly its active answers on the end date, leaves the others alone, appends a closing generation of all request pairs dated [end, end], and has no active answer left |
| CaseStatusGateway.UpdateCin | SocialCareCaseViewerApi/V1/Gateways/CaseStatusGateway.cs:170-176 | notes always take the request value; the start date changes only when one is supplied; nothing else changes |
| CaseStatusGateway.RestartCp | SocialCareCaseViewerApi/V1/Gateways/CaseStatusGateway.cs:178-189 | sets the start date; every earlier answer, even one discarded before, is stamped discarded now with its end date kept; one open generation of the request pairs starting on the new date is appended; only that generation is undiscarded |
| CaseStatusGateway.RenewLive | SocialCareCaseViewerApi/V1/Gateways/CaseStatusGateway.cs:244-265 | each live answer is discarded now and ended on the new start date, the rest are untouched; the list grows by exactly the number of live answers; the successors carry the live answers' pairs as a multiset, in start-date order, in one open generation starting on the new date; no earlier answer is live afterwards |
| CaseStatusGateway.RestartLac | SocialCareCaseViewerApi/V1/Gateways/CaseStatusGateway.cs:191-221 | the overlap guard fails with invalid-start-date before anything changes; a missing start date fails next; with a start date and no overlap the call succeeds with the live answers renewed |
| CaseStatusGateway.UpdateCaseStatus | SocialCareCaseViewerApi/V1/Gateways/CaseStatusGateway.cs:139-229 | the whole update, including the type switch at lines 145-223 (the `ApplyUpdate` helper); each error occurs exactly when its own guard holds: not-found when the status is missing, invalid-end-date for backdating an already closed status, invalid-start-date when the LAC overlap guard trips, missing-start-date for a "cp" or "lac" restart without a start date; every success stamps the editor and changes only the fields its branch allows; with an end date a non-LAC status keeps its answers; "cin" and other types keep their answers |
| AnswerVersioning.NewGroup | SocialCareCaseViewerApi/V1/Gateways/CaseStatusGateway.cs:267-285 | yields one answer per pair, whose pairs read back as the input sequence, all under the one group id with the given dates, undiscarded and unedited |
| AnswerVersioning.SortByStart | SocialCareCaseViewerApi/V1/Gateways/CaseStatusGateway.cs:215-217 | the ordering of the live answers is a permutation of them sorted by start date |
| AnswerVersioning.SortByStartIsStable | SocialCareCaseViewerApi/V1/Gateways/CaseStatusGateway.cs:217 | answers with equal start dates keep their relative order, as `OrderBy` promises |
| AnswerVersioning.InputsOfSort | SocialCareCaseViewerApi/V1/Gateways/CaseStatusGateway.cs:248-264 | ordering the live answers keeps the multiset of option/value pairs that the successors copy |
| GatewayProperties.CreateThenLookup | SocialCareCaseViewerApi/V1/Gateways/CaseStatusGateway.cs:27-35 | a status created under an unused id is what a lookup of that id returns |
| GatewayProperties.ClassifyIgnoresCase | SocialCareCaseViewerApi/V1/Gateways/CaseStatusGateway.cs:168 | a type string selects the "cin", "cp" or "lac" branch exactly when it spells that word with letters in either case |
| GatewayProperties.MultipleGroupsMeans | SocialCareCaseViewerApi/V1/Gateways/CaseStatusGateway.cs:192-199 | the group count of the undiscarded answers exceeds one exactly when two undiscarded answers have different group ids |
| GatewayProperties.LacOverlapMeans | SocialCareCaseViewerApi/V1/Gateways/CaseStatusGateway.cs:192-211 | the LAC guard trips exactly when two undiscarded answers differ in group and some undiscarded answer starts on or after the requested date |
| GatewayProperties.SingleGroupNeverOverlaps | SocialCareCaseViewerApi/V1/Gateways/CaseStatusGateway.cs:199 | when the undiscarded answers form one generation, the guard never trips, whatever the start date |
| GatewayProperties.ReplaceRetiresOneWay | SocialCareCaseViewerApi/V1/Gateways/CaseStatusGateway.cs:333-350 | each active answer is either discarded or ended, never both; all active answers get the same retirement; it is discard exactly when some active answer starts after today |
| GatewayProperties.CreateEstablishesSingleActiveGroup | SocialCareCaseViewerApi/V1/Gateways/CaseStatusGateway.cs:116-131 | a new status has all its active answers in one generation |
| GatewayProperties.ReplaceEstablishesSingleActiveGroup | SocialCareCaseViewerApi/V1/Gateways/CaseStatusGateway.cs:330-369 | after a replace, whatever came before, every active answer lies in the appended part and belongs to the new generation, so the active answers form one generation |
| GatewayProperties.UpdateKeepsSingleActiveGroup | SocialCareCaseViewerApi/V1/Gateways/CaseStatusGateway.cs:146-223 | every successful update keeps the active answers within one generation |
| GatewayProperties.CreateAnswerCanSplitActiveGroup | SocialCareCaseViewerApi/V1/Gateways/CaseStatusGateway.cs:296-314 | adding answers retires nothing, so a status can end up with two active generations |
| GatewayProperties.CreateHasOneGroup | SocialCareCaseViewerApi/V1/Gateways/CaseStatusGateway.cs:116-131 | a new status with answers has exactly one generation |
| GatewayProperties.AppendedAddsOneGroup | SocialCareCaseViewerApi/V1/Gateways/CaseStatusGateway.cs:298-314 | with a fresh group id and a non-empty request, the answers appended by `CreateCaseStatusAnswer` add exactly one generation |

## Left out

- Entity Framework persistence is not modelled: `Include`, `DbSet.Add` and `SaveChanges`. Loading is a lookup in a sequence of rows, and committing is returning the new status.
- The `ToDomain()` mapping and the eagerly loaded `Person` are not modelled. An operation returns the stored record itself.
- Row ids of answers and the `CaseStatusId` foreign key on answers are not modelled. An answer belongs to the status whose list holds it.
- The store assigns the id of a new status. Here it is a parameter.
- `Guid.NewGuid()`, `ISystemTime.Now` and `DateTime.Today` are parameters. A fresh group id is a lemma precondition where freshness matters. A clock tick and a calendar date are both plain integers.
- Classify: `ToLower()` is modelled for ASCII letters only. Culture-specific lower-casing is out of scope, for example the Turkish dotless i.
- A null `Answers` list in a create, update or answer request is not modelled. Requests always carry a sequence. In the source a null list throws `NullReferenceException` when the answers are iterated (CaseStatusGateway.cs:118, 271, 300, 355).
- The API controllers, use cases, health check, worker entity and exception declarations hold no case-status logic and are not part of this model.
