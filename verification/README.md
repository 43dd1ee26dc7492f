# Scholarship platform: verified model

A Dafny 4.11 model of the backend of a scholarship platform: resumable catalogue ingestion, the
catalogue's lifecycle under concurrent writers, private documents over two stores, keyset
pagination, the signing-key cache, deterministic matching and the match cache.
`dafny verify dfyconfig.toml` checks everything.

Where the code changes state step by step, the model is a class whose methods make the same steps,
and each method is tied to a function on values; the theorems are about those functions, over every
input, every run or every interleaving. Where several requests interleave, the machine's step
functions are what the methods are tied to.

| component | files |
|---|---|
| Tables and what one ingested record does to them | `Catalogue`, `CatalogueTheorems`, `AppliedRecords`, `Reingestion`, `Duplicates`, `DryRuns`, `Database` |
| Ingestion runs: claims, retries, batches, failures | `IngestionRuns`, `IngestionTheorems`, `IngestionOutcomes`, `RawRecords`, `Orchestrator` |
| Canonical source URLs | `SourceUrl`, `SourceUrlTheorems`, `CanonicalUrls`, `UrlAddresses` |
| Administrators and ingestion writing the same rows | `Lifecycle`, `LifecycleTheorems`, `StatusHistory`, `ReviewedContent`, `CatalogAdmin` |
| Documents: rows, objects and a delete queue | `Documents`, `DocumentTheorems`, `DocumentQuotas`, `DocumentRequests`, `DocumentLeaks`, `DocumentDrain`, `DocumentService` |
| Keyset pagination and its opaque cursors | `Keyset`, `KeysetTheorems`, `Base64Url`, `Pagination`, `PaginationTheorems`, `CatalogueBrowsing`, `CatalogueOrder` |
| Signing-key cache | `Jwks`, `KeyAvailability` |
| Matching engine | `MatchingText`, `TextMeaning`, `MatchingEngine`, `RuleMeaning`, `ScoreMeaning`, `MatchingTheorems` |
| Profiles, stored matches, recalculation | `Profiles`, `MatchCache`, `MatchCacheTheorems`, `Recalculation`, `MatchFreshness` |
| Shared datatypes | `Prelude`, `Rules` |

## Where the code falls short of its promise

Each point below is a theorem about the model of the code as it is.

- A record that brings a new website for its provider is reported as an update by a dry run, but a
  real run fails on it, because the change is recorded as a provider id that changes to itself and
  the history table refuses that (`NewWebsiteIsNeverStored`). An amount that rounds to 10^12 or more is
  announced as created and overflows its column (`FirstRecordIsStoredExactly`). A dry run tells the real outcome
  exactly when no constraint stops a record (`DryAgreesExactlyWhenNotRefused`,
  `DryPassPredictsExactlyWhenNoneRefused`).
- A source whose records were all created can be ingested again exactly when no two records of one
  provider disagree on its website (`SourceIsReingestableExactlyWhenWebsitesAgree`); any two that do
  make a source that cannot (`DisagreeingWebsitesCannotBeReingested`).
- Amounts are compared before they are rounded to cents, so an amount that is not a whole number of
  cents is an update on every pass (`RepeatIsUnchangedExactlyForCents`).
- Ingestion writes "no reviewer notes" over the notes a review leaves, so a record that says just
  what the row says sends a reviewed scholarship back to review exactly when it has notes
  (`RepeatKeepsReviewExactlyWithoutNotes`).
- The duplicate check hashes the URL inside every requirement: a scholarship published under a second
  URL is reported exactly when it has no requirements, and otherwise created twice if it can be stored
  (`RepublishedIsReportedExactlyWithoutRequirements`, `OneScholarshipUnderTwoUrls`).
- A source URL that cannot be split, such as `https://[::1`, or a payload that cannot be serialized
  raises outside the worker's handlers and leaves the run `running`, never to be claimed again,
  exactly when a claim reaches it
  (`UnsplittableUrlStrandsRun`, `OneBracketStrandsRun`).
- An expected version above the current one is not refused when the request starts; ingestion can
  make it come true and the publication then skips the review (`PublishIsSafeExactlyForSeenVersions`).
- A review is not tied to what was reviewed: what is published has shown only the reviewed content
  exactly when no edit and no trusted source changed a value since (`PublishedAsReviewedExactly`), and
  any scholarship can be published under a title put in after its review (`UnreviewedTitleIsPublished`).
- A replacement gives back the size it read before it took the profile's lock, so two of them can
  exceed the byte quota (`RaceOverrunsQuota`); the key of a queued delete names the document and not
  the object, so a second failed delete loses an object (`SecondFailedDeleteStrands`).
- The catalogue hands out title cursors it then refuses (`LongTitleStopsBrowsing`).
- A completed match job of a profile version is never started over, whatever has changed in the
  catalogue since it ended (`JobAfterAsking`).
- Profile updates do not compare versions; a lost update leaves a match current that a fresh
  calculation contradicts (`LostUpdateServesWrongMatch`).
- The canonical URL drops the port (`EquivalentUrlsAreOne`) and the brackets of an address, and keeps
  white space before the last slash, such as a no-break space (`NoBreakSpaceIsNotFixed`);
  canonicalizing again changes it, or fails, in exactly the last two cases (`CanonicalAgainExactly`).

## Model

| member | source | states |
|---|---|---|
| IngestionTheorems.CompletedRunIsOnePass | backend/app/services/ingestion.py:533-676 | For every batch size, every pattern of interrupted fetches, failing commits and crashing calls: a run that ends completed leaves catalogue, history, quarantine and outcome counters as one left-to-right pass over the whole source would, and its cursor is the source's length |
| IngestionTheorems.PersistedStateConserves | backend/app/services/ingestion.py:563-675 | In every persisted state, of a run left running too, created, updated, unchanged, duplicates and rejected add up to the cursor and the tables are those of one pass over the source up to the cursor or some record behind it, with a quarantine row for each counted duplicate and rejection; if the run is not running the pass ends at the cursor and there are no other rows |
| IngestionTheorems.ClaimsAreBounded | backend/app/repositories/postgres.py:915-928 | A run over N records is claimed at most N + 3 times; the failures charged to its items never exceed its claims, so a dead-lettered item means a third claim |
| IngestionTheorems.OnlyClaimableRunsMove | backend/app/repositories/postgres.py:915-928 | Once a run is terminal, or stuck running, no later call changes anything |
| IngestionOutcomes.ClaimsExactly | backend/app/services/ingestion.py:678-698 | A call charges the run an attempt exactly when the source permits fetching, its robots file allows it, the adapter keeps the limits, the claim is committed and the run is queued or partial, and changes nothing at all otherwise; a run of another adapter or version is claimed only to fail |
| IngestionOutcomes.ClaimEnds | backend/app/services/ingestion.py:637-675 | However fetches and records fail, a claim that ends leaves the run dead-lettered exactly when it was the third or later and a record failed or the fetch failed without a record, completed exactly when nothing is left and the fetch did not fail, and partial otherwise |
| IngestionOutcomes.InterruptedClaimEnds | backend/app/services/ingestion.py:637-675 | A claim that is only interrupted moves the cursor over exactly what it read; dead-lettered exactly on a fetch error with nothing read at the third claim or later, completed exactly when there was none and nothing is left, partial otherwise |
| IngestionOutcomes.FailingRecordEnds | backend/app/services/ingestion.py:596-636 | A claim that meets a record that cannot get through stops at that record, dead-lettered at the third claim or later and partial before |
| IngestionOutcomes.FailureIsCharged | backend/app/services/ingestion.py:596-636 | Such a claim charges one failure to that record's item, and none to any other |
| IngestionOutcomes.InterruptedRunsComplete | backend/app/services/ingestion.py:533-676 | Any number of claims that are only interrupted and each read at least one record, followed by one fault-free claim more than the source has records, end completed |
| IngestionOutcomes.OneAttemptDecides | backend/app/services/ingestion.py:700-718 | The first attempt that is not interrupted before it has a whole batch and one record more, or the last there is, decides a fetch: it errs exactly when that attempt stopped short, and returns exactly what that attempt yielded |
| IngestionOutcomes.FetchedCountsReadable | backend/app/services/ingestion.py:563-600 | In every state of a run the fetched counter is the number of readable records before the cursor, plus at most one a claim |
| IngestionOutcomes.ItemsTellOutcomes | backend/app/repositories/postgres.py:1193-1264 | In every state of a run the item of each readable record before the cursor says rejected if the record was quarantined and completed if it was accepted |
| IngestionOutcomes.ThirdFailureIsFinal | backend/app/repositories/postgres.py:1243-1264 | In every state of a run an item is a dead letter exactly after three failures, and a run that can be claimed has none |
| IngestionTheorems.UnreadableUrlStrandsRun | backend/app/services/ingestion.py:570-583 | In any state a run can be claimed in, with any cursor and batch size: a claim in which nothing else goes wrong leaves the run running exactly when the next batch holds a record that raises while its raw row is built and every record of the batch before it gets through; cursor and counters then stay as claimed, whatever is called afterwards |
| RawRecords.UnsplittableUrlStrandsRun | backend/app/services/ingestion.py:570-583 | For records as delivered: a claim strands the run exactly when the batch reaches a payload that cannot be serialized or a URL that cannot be split; a URL that is only not an absolute HTTPS one is quarantined |
| RawRecords.OneBracketStrandsRun | backend/app/services/ingestion.py:197-207 | Any source that starts with the URL `https://[::1` strands its run at cursor 0 for good |
| IngestionTheorems.CanCompleteExactlyWhenPassSucceeds | backend/app/services/ingestion.py:533-676 | A run can be completed by some sequence of calls exactly when one pass over its source meets no record that always fails: one that crashes the normalizer, or whose write a constraint refuses |
| IngestionTheorems.CalmRunCompletes | backend/app/services/ingestion.py:652-675 | Without faults every claim completes the run or moves its cursor a whole batch |
| IngestionTheorems.PassConserves | backend/app/repositories/postgres.py:973-1207 | One pass accounts for each record once and quarantines each duplicate and rejection |
| IngestionOutcomes.RejectionIsReported | backend/app/repositories/postgres.py:1180-1208 | A rejected record, in a dry run too, only adds a report with its code, summary and raw record, and is counted as rejected |
| IngestionOutcomes.OutcomeIsCounted | backend/app/services/ingestion.py:600-636 | An accepted record is counted under the outcome it was told, and nowhere else |
| IngestionTheorems.FetchIsPrefix | backend/app/services/ingestion.py:700-718 | Fetching with retries yields the next records in order, all there is room for unless it reports an error |
| CatalogueTheorems.HistoryUndoesIngestion | backend/app/repositories/postgres.py:1065-1176 | Undoing the history rows written since any point, last first, restores provider, columns and requirements of that point; the version has grown by the number of updates |
| AppliedRecords.OutcomeTellsTables | backend/app/repositories/postgres.py:973-1178 | What the reported outcome says of the tables, on the record's own fields: the row holds every field, amounts to the nearest cent; status, verification and version as the source's trust demands; the link names the latest record; the provider has its website; a duplicate's report lists exactly the scholarships linked under another URL by the same fingerprint; and no other row or link changes |
| CatalogueTheorems.SecondPassChangesNothing | backend/app/repositories/postgres.py:973-1178 | After a pass over consistent records without duplicates, a second pass reports every record unchanged and leaves rows, providers, history, quarantine and statuses as they were |
| CatalogueTheorems.RepeatIsUnchangedExactlyForCents | backend/app/repositories/postgres.py:1064-1091 | Ingesting an accepted record again finds nothing to change exactly when its amount is a whole number of cents |
| Reingestion.PassRepeatsExactlyWhenWebsitesAgree | backend/app/repositories/postgres.py:973-1178 | After a pass that created a scholarship for each of any number of records, a second pass gets through exactly when no two records of one provider bring different websites; it updates exactly the records with rounded amounts and changes no provider, column or requirement |
| Reingestion.SourceIsReingestableExactlyWhenWebsitesAgree | backend/app/services/ingestion.py:533-676 | For runs with any faults: once a run has created every record of its source, another run over it can be completed exactly then |
| DryRuns.DryAgreesExactlyWhenNotRefused | backend/app/repositories/postgres.py:973-1178 | A dry run of any record on any tables names the real outcome exactly when neither the history table, nor a unique column, nor the range of the amount or of the provider's canonical name stops the record, and the real one is an error otherwise |
| DryRuns.UpdateIsStoppedExactly | backend/app/repositories/postgres.py:1043-1178 | A constraint stops an update exactly when it brings a new website for the same provider, an amount that rounds to 10^12 or more, a provider name over 300 characters, or any change while another row has its URL |
| DryRuns.FirstRecordIsStoredExactly | supabase/migrations/20260806000100_persistence_foundation.sql:64 | From the empty tables every priced record is created by a dry run; a real one errs exactly when the amount rounds to 10^12 or more or the provider's name is over 300 characters |
| DryRuns.DryPassPredictsExactlyWhenNoneRefused | backend/app/repositories/postgres.py:973-1178 | For records none of which touches what decides about a later one, the tally of a dry pass is the real pass's exactly when no constraint stops any of them on the tables as they were |
| DryRuns.DryRunPredictsRealRun | backend/app/services/ingestion.py:533-676 | For runs with any faults: after such a completed dry run a real run can be completed exactly then, and every completed one has its counters |
| Reingestion.DisagreeingWebsitesCannotBeReingested | backend/app/repositories/postgres.py:307-322 | From the empty catalogue, any two records of one provider with different websites are both created and no later pass over them gets through |
| Duplicates.DuplicateExactlyWithoutRequirements | backend/app/services/ingestion.py:331-385 | A record with a new URL is reported as a duplicate exactly when it has no requirements and an active link holds its fingerprint |
| Duplicates.RepublishedIsReportedExactlyWithoutRequirements | backend/app/repositories/postgres.py:983-1042 | A record told only by its URL from one already linked is reported exactly when it has no requirements; with some it is created as a second scholarship, unless a value does not fit its column or its URL or source id is taken |
| Duplicates.OneScholarshipUnderTwoUrls | backend/app/repositories/postgres.py:973-1042 | From the empty catalogue, any scholarship delivered under two URLs gets through exactly when its values fit their columns, and then ends as one row and a report without requirements, and as two rows with at least one |
| CatalogueTheorems.ApplyKeepsPrintsCarryUrl | backend/app/repositories/postgres.py:973-1178 | Every stored fingerprint with requirements keeps naming the URL it was stored under, through any accepted record |
| IngestionDatabase.Database.ApplyNormalized | backend/app/repositories/postgres.py:973-1178 | The statements of one record end in exactly the tables, outcome and item status of the specification, and in an error exactly when it says so |
| IngestionDatabase.Database.WriteUpdate | backend/app/repositories/postgres.py:1095-1176 | The update writes the demoted row, one history row a changed column, and the requirements, and fails exactly when the history or the unique URL refuses |
| IngestionDatabase.Database.CollectChanges | backend/app/repositories/postgres.py:1064-1072 | The loop over the columns finds exactly the differing ones, in column order |
| IngestionDatabase.Database.FailItem | backend/app/repositories/postgres.py:1243-1264 | A failure is charged to every item of the record; it is final exactly when one of them reaches three |
| Orchestrator.IngestionOrchestrator.RunBatch | backend/app/services/ingestion.py:533-676 | One call of the worker, whatever fails, leaves run row, items and tables as the specification of a call says |
| Orchestrator.IngestionOrchestrator.FetchWithRetries | backend/app/services/ingestion.py:700-718 | The retry loop returns what the specified attempt returns |
| SourceUrlTheorems.CanonicalAgainExactly | backend/app/services/ingestion.py:197-207 | Canonicalizing a canonical URL changes nothing exactly when the host that was read holds no colon or bracket and the URL did not end blank: its path, without the last slashes, in white space and no parameter kept |
| CanonicalUrls.ReadsExactly | backend/app/services/ingestion.py:197-200 | A text has a canonical URL exactly when, trimmed and without line breaks, it is an HTTPS URL with a host, no user name or password, and brackets only around an address |
| CanonicalUrls.OtherSchemeIsNotRead | backend/app/services/ingestion.py:199 | A URL of any scheme but https has no canonical form, whatever else is in order |
| CanonicalUrls.QueryKeeps | backend/app/services/ingestion.py:201-207 | The canonical query holds each parameter as often as it was given, and none whose key starts with utm_ or is fbclid, gclid, ref or source, case aside |
| CanonicalUrls.QueryIsInOrder | backend/app/services/ingestion.py:207 | And in the order of keys and then values |
| UrlAddresses.Ipv4Exactly | backend/app/services/ingestion.py:198 | An IPv4 tail of an address in brackets is exactly four numbers below 256 with dots between, without leading zeros (section 3.2.2 of RFC 3986) |
| UrlAddresses.FullIpv6Exactly | backend/app/services/ingestion.py:198 | Groups of one to four hexadecimal digits with colons between are an address exactly when there are eight (section 2.2 of RFC 4291) |
| UrlAddresses.ShortIpv6Exactly | backend/app/services/ingestion.py:198 | Two runs of groups around a double colon are one exactly when they are at most seven together |
| UrlAddresses.FutureExactly | backend/app/services/ingestion.py:198 | Later versions are exactly a v, hexadecimal digits, a dot and something more |
| UrlAddresses.UnpairedBracketRaisesUnderAnyScheme | backend/app/services/ingestion.py:198 | An unpaired bracket raises under any scheme, not only https |
| SourceUrlTheorems.UnpairedBracketRaises | backend/app/services/ingestion.py:198 | Whatever stands around it, an authority with an opening bracket and no closing one, or the reverse, is not an invalid URL but an exception |
| SourceUrlTheorems.SpaceBeforeSlashIsNotFixed | backend/app/services/ingestion.py:206 | Every path with white space, of ASCII or beyond, before its last slash gives a canonical URL whose own canonical URL has lost that white space |
| SourceUrlTheorems.NoBreakSpaceIsNotFixed | backend/app/services/ingestion.py:198-206 | `https://example.org/a`, a no-break space and a slash: the canonical URL keeps the space, the canonical URL of that is `https://example.org/a` |
| SourceUrlTheorems.EquivalentUrlsAreOne | backend/app/services/ingestion.py:197-207 | Host case, port, trailing slashes, parameter order, tracking parameters and the fragment never change the canonical URL |
| SourceUrlTheorems.QueryRoundTrip | backend/app/services/ingestion.py:201-207 | Any parameters, blank ones included, are read back from the query they are written to |
| SourceUrlTheorems.QuoteRoundTrip | backend/app/services/ingestion.py:207 | Any octets are read back from their percent encoding (section 2.1 of RFC 3986) |
| SourceUrlTheorems.ParseUrl | backend/app/services/ingestion.py:198-200 | A URL put together from parts is read back as those parts, less port and fragment |
| LifecycleTheorems.EveryReachableStateIsSafe | backend/app/services/catalog.py:28-39 | In every interleaving with honest versions, published implies verified, each verified row has been vouched for since it last entered review, and every publication passed a review with requirements present |
| LifecycleTheorems.VersionFixesRow | backend/app/repositories/postgres.py:382-462 | Along any run one version of a scholarship is one row |
| StatusHistory.WritesFollowLifecycle | backend/app/services/catalog.py:28-39 | Along every run each written action starts from a status that admits it and ends in the one it is named after; a review verifies, a submission withdraws that; edits, creations and ingestion move status and verification in the listed ways only |
| StatusHistory.ActionGetsThroughExactly | backend/app/services/catalog.py:266-329 | An undisturbed action is written exactly when its status admits it, the version is current, a review has notes, and a publication finds the row verified, with a requirement and its deadline not passed; it sets the notes and no other column |
| StatusHistory.EditGetsThroughExactly | backend/app/services/catalog.py:209-264 | An undisturbed edit is written exactly when it is not empty, leaves the URL alone, keeps amount with currency and deadline time with deadline, and the row is not archived and of that version; it sets the given columns and takes a published row back to review unless only notes change |
| StatusHistory.CreationGetsThroughExactly | backend/app/services/catalog.py:183-207 | A creation appends an unverified draft of version one exactly when the schema accepts its fields, its provider's name fits and no row has its URL |
| StatusHistory.ExpiredStaysOver | backend/app/services/catalog.py:28-39 | Without ingestion an expired or archived scholarship never leaves these two, whatever administrators do |
| StatusHistory.UnpublishedCanReturn | backend/app/services/catalog.py:28-39 | An unpublished scholarship, or a draft, with a requirement and time left can be published by administrators alone |
| LifecycleTheorems.PublishIsSafeExactlyForSeenVersions | backend/app/services/catalog.py:266-329 | Publishing is safe against all ingestion in between exactly when the expected version is not above the version read |
| LifecycleTheorems.GuessedVersionPublishesUnverified | backend/app/services/catalog.py:266-329 | For any version guessed too high there is an interleaving that publishes an unverified row |
| ReviewedContent.PublishedAsReviewedExactly | backend/app/services/catalog.py:209-329 | Along every honest run from the empty catalogue, a scholarship published by an administrator has shown only the content it was last vouched for with exactly when no edit and no trusted source changed a value of it since; nothing else can |
| ReviewedContent.PublishedColumnExactly | backend/app/repositories/postgres.py:404-462 | Every change of a content column between the vouching write and the publication is an edit's or a trusted source's, and the column is published as the last of them left it |
| ReviewedContent.UnreviewedTitleIsPublished | backend/app/services/catalog.py:209-329 | A run from the empty catalogue that publishes any publishable scholarship under a title edited in after its review |
| ReviewedContent.RunsAreChained | backend/app/repositories/postgres.py:382-462 | Along every run the log tells each row's whole history: every write is logged with the row it replaced |
| LifecycleTheorems.RepeatKeepsReviewExactlyWithoutNotes | backend/app/repositories/postgres.py:1157-1172 | An untrusted record that says what the row says leaves the row alone exactly when it has no reviewer notes, and keeps status and verification exactly then or when there is nothing to lose |
| LifecycleTheorems.NextIngestionDemotesReviewed | backend/app/repositories/postgres.py:1157-1172 | Whatever an untrusted source sends next for a row with reviewer notes sends it back to review and drops the notes |
| CatalogAdmin.CatalogAdminService.Update | backend/app/services/catalog.py:209-264 | An edit is the machine's read and commit; it succeeds exactly when the version matches and the row is not archived |
| CatalogAdmin.CatalogAdminService.Transition | backend/app/services/catalog.py:266-329 | A transition is the machine's read, requirements check and commit; a refused one changes nothing |
| CatalogAdmin.CatalogAdminService.Create | backend/app/services/catalog.py:183-207 | A creation appends the draft or changes nothing |
| DocumentTheorems.LiveObjectsAreStored | backend/app/services/documents.py:140-312 | In every interleaving of creates, replacements, deletes and queued jobs with any step failing half way, each live row's object is stored, named by no queued delete, and shared with no other row |
| DocumentTheorems.EveryRunIsSafe | backend/app/services/documents.py:140-312 | The invariant behind it holds from any safe state along any run |
| DocumentQuotas.CountQuotaAlwaysHolds | backend/app/repositories/postgres.py:729-747 | The number of live documents never exceeds its limit in any interleaving |
| DocumentQuotas.ByteQuotaHoldsWhenReadsHold | backend/app/services/documents.py:209-217 | The byte quota holds along every run in which no replacement is granted on a size larger than its row then has |
| DocumentQuotas.ReplacementKeepsQuotaExactlyWhenReadHolds | backend/app/services/documents.py:209-217 | A replacement about to take the lock keeps the byte quota whatever its size exactly when the size it read is not larger than the row's |
| DocumentQuotas.RaceOverrunsQuota | backend/app/services/documents.py:209-217 | Two replacements from the empty state leave 16 live bytes under a quota of 10 |
| DocumentRequests.ReplaceIs | backend/app/services/documents.py:199-251 | The interleaved steps of one undisturbed replacement add up to its outcome told directly |
| DocumentLeaks.RequestTracksExactly | backend/app/services/documents.py:140-265 | One request keeps every stored object owned by a row or queued for deletion exactly when it meets none of the listed failures |
| DocumentLeaks.HistoryTracksExactly | backend/app/services/documents.py:140-312 | The same for whole histories of requests and jobs |
| DocumentLeaks.CleanHistoryIsTracked | backend/app/services/documents.py:304-312 | Told from the requests alone: with the queue up, clean uploads and no lost replacement commit, every stored object stays tracked if no document has two deletes fail for one reason |
| DocumentDrain.DrainedStorageIsLiveExactlyWhenTracked | backend/app/services/documents.py:140-312 | After any requests with any failures, running the queued deletes in any order empties the queue and touches no live object; storage then holds the live rows' objects and nothing else exactly when every object was tracked |
| DocumentLeaks.RequestsKeepQuotas | backend/app/services/documents.py:293-302 | Run one at a time, with any failures, requests keep both quotas and all live objects |
| DocumentLeaks.SecondFailedDeleteStrands | backend/app/services/documents.py:304-312 | With deletes failing, the second replacement of any document always strands an object, the first never |
| DocumentSaga.DocumentService.Create | backend/app/services/documents.py:140-190 | The service's create, with any fault, ends where the machine's steps end |
| DocumentSaga.DocumentService.Replace | backend/app/services/documents.py:199-251 | The same for replace |
| DocumentSaga.DocumentService.Delete | backend/app/services/documents.py:253-265 | The same for delete |
| DocumentSaga.DocumentService.DeleteOrSchedule | backend/app/services/documents.py:304-312 | The object is gone, or its delete is queued exactly when its key was not reserved |
| DocumentSaga.DocumentService.Reserve | backend/app/services/work_queue.py:31-35 | A key is given out once |
| KeysetTheorems.WalkListsOnce | backend/app/repositories/postgres.py:174-232 | With rows inserted, deleted and changed between pages, no position is listed twice, and one present at every page is listed exactly once by a finished walk |
| KeysetTheorems.WalkOfUnchangedTable | backend/app/services/catalog.py:116-139 | The pages of an unchanged table add up to its sorted list, in at most one page more than it has rows |
| KeysetTheorems.PageLists | backend/app/services/catalog.py:116-139 | A page lists exactly the rows after its start and not after its cursor, each once |
| Keyset.BeforeTransitive | backend/app/repositories/postgres.py:174-217 | The list orders, nulls last and ids breaking ties, are transitive |
| Keyset.BeforeTotal | backend/app/repositories/postgres.py:174-217 | And strict and total |
| Base64Url.RoundTrip | backend/app/services/catalog.py:43-56 | Any bytes come back from their unpadded token of URL-safe characters (section 5 of RFC 4648) |
| Pagination.ClauseIsOrder | backend/app/repositories/postgres.py:174-217 | For each of the four orders the cursor clause selects exactly what the order puts after the cursor |
| Pagination.MatchClauseIsOrder | backend/app/repositories/postgres.py:528-550 | The same for the match list |
| Pagination.CursorRoundTrip | backend/app/services/catalog.py:43-66 | A cursor is read back exactly under its own order with a value of at most 100 characters |
| Pagination.MatchCursorRoundTrip | backend/app/services/matches.py:31-50 | A match cursor with a score in [0, 1] is always read back |
| PaginationTheorems.BrowseIsWalkExactlyForShortValues | backend/app/services/catalog.py:116-139 | Following the service's cursors over a changing catalogue gives the pages of the keyset walk, none refused, exactly when every followed page ends on a value of at most 100 characters |
| CatalogueBrowsing.ClientSeesEachOnce | backend/app/services/catalog.py:116-139 | Over listings that change between pages, filtered and sorted by each query: what is shown passed the filter at its page, nothing is shown twice with one sort value, and what passes at every page is shown once by the end |
| CatalogueBrowsing.FilteredCatalogueIsShownWhole | backend/app/repositories/postgres.py:126-232 | An unchanged catalogue is shown in order, exactly the listings that pass the filter, each once, if their sort values are short |
| CatalogueOrder.EarlierPrecedesLater | backend/app/repositories/postgres.py:174-217 | Over any changing catalogue, of two listings a client is shown the earlier has the nearer deadline, the later publication, the larger amount or the alphabetically smaller title, or the other has none, or they tie and the ids are in the order of that sort |
| CatalogueOrder.FilteredListingsInOrder | backend/app/repositories/postgres.py:126-232 | Of an unchanged catalogue exactly the listings that pass the filter are shown, in that order, if titles sorted by are at most 100 characters long |
| CatalogueBrowsing.RowsArePresent | backend/app/repositories/postgres.py:126-173 | The query can list exactly the listings that pass the filter, under their sort value |
| PaginationTheorems.LongTitleStopsBrowsing | backend/app/services/catalog.py:57-64 | A first page by title that ends on a longer title promises a next page and its cursor is refused |
| PaginationTheorems.MatchBrowseIsWalk | backend/app/services/matches.py:98-120 | Following the match cursors gives the pages of the keyset walk; none is refused |
| CatalogueOrder.MatchesByScore | backend/app/repositories/postgres.py:528-550 | The pages of an unchanged match list add up to exactly its matches, the higher score first and ties by id |
| Jwks.AtMostOneFetch | backend/app/auth/jwks.py:80-104 | In every interleaving of lookups at most one is fetching |
| Jwks.ReturnedKeysAreCurrent | backend/app/auth/jwks.py:80-104 | A returned key is in the most recently stored set and was decided before that set's fetch began plus the fresh and the stale window |
| Jwks.DroppedKeysStayDropped | backend/app/auth/jwks.py:80-104 | A key a stored set no longer has is returned again only after a later set has it |
| KeyAvailability.FreshKeyIsReturnedAtOnce | backend/app/auth/jwks.py:80-84 | In any reachable state a lookup is answered at once, with the last stored set's key, exactly when that set has one and its fresh window is open |
| KeyAvailability.LockedLookupFetchesExactly | backend/app/auth/jwks.py:86-92 | With the lock the lookup is answered the same way or begins a fetch |
| KeyAvailability.FailedFetchServesStale | backend/app/auth/jwks.py:93-96 | A fetch that raises or brings no usable key leaves the cache alone, and its lookup gets the last stored set's key exactly when there is one and the stale window was open when the fetch began |
| KeyAvailability.FetchedKeysAreStored | backend/app/auth/jwks.py:98-104 | A fetch that brings usable keys stores them all, its windows counted from its start, and answers from them alone |
| Jwks.ByKeyIdKeepsLast | backend/app/auth/jwks.py:107-121 | A key id is cached exactly when a usable candidate carries it, as the last of them (section 5 of RFC 7517) |
| Jwks.JWKSCache.Get | backend/app/auth/jwks.py:80-104 | An undisturbed lookup answers and stores what the double check, the fetch and the two windows prescribe |
| Jwks.JWKSCache.NormalizePayload | backend/app/auth/jwks.py:107-121 | The loop fills the specified key set |
| MatchingTheorems.LearningNeverReversesVerdict | backend/app/services/matching_engine.py:154-283 | Extending a profile keeps every decided rule outcome and any decided overall outcome |
| MatchingTheorems.OverallIsMinimum | backend/app/services/matching_engine.py:265-272 | The overall outcome is the worst hard outcome, or eligible when there is none |
| MatchingTheorems.OverallIgnoresOrderAndSoftRules | backend/app/services/matching_engine.py:265-272 | Results with the same hard members have the same overall outcome |
| MatchingTheorems.EligibleExactlyWhenHardRulesPass | backend/app/services/matching_engine.py:242-283 | Eligible exactly when the deadline has not passed and every hard rule has evidence and passes |
| RuleMeaning.MeasuredRuleMet | backend/app/services/matching_engine.py:108-152 | A rule on grades, age, experience or birth date is met exactly when the profile's value is its target, or above it for a lower and below it for an upper bound; grades compare by their share of the scale, ages by birthdays that have come |
| RuleMeaning.BoundsAreMonotone | backend/app/services/matching_engine.py:108-152 | A value that has not fallen still meets every lower bound it met, one that has not risen every upper bound |
| RuleMeaning.BoundsMeetAtTarget | backend/app/services/matching_engine.py:108-152 | Of a lower and an upper bound with one target one is always met, and both exactly when the value equals the target; a list as the target meets neither |
| RuleMeaning.OneOfSeveralMet | backend/app/services/matching_engine.py:108-113 | A rule that asks for one of several numbers is met exactly by a profile whose number is among them |
| RuleMeaning.TextRuleMet | backend/app/services/matching_engine.py:79-108 | A rule on a text is undecided exactly when the profile says nothing on its field; otherwise equals and in are met exactly when a text of the profile is a target, not_equals and not_in when none is, contains when one holds a target |
| RuleMeaning.CalculatedExactly | backend/app/schemas/match.py:57-142 | A match can be calculated exactly when each rule asks for existence with true, or compares its field, by an operator that fits it, with a target it can have: a grade within a scale of at most 100, whole numbers from zero, a date, or texts with a word in each |
| RuleMeaning.MatchTells | backend/app/services/matching_engine.py:242-297 | A match holds one result a rule, hard ones first, and a failed hard one more exactly when the deadline has passed; its reasons and missing fields are exactly those of its results |
| TextMeaning.SameTextExactlyForSameWords | backend/app/services/matching_engine.py:79-80 | Two texts count as the same exactly when they have the same words, case aside |
| TextMeaning.TokensAreMaximalRuns | backend/app/services/matching_engine.py:24 | The tokens of a text are exactly its maximal runs of letters and digits, case aside |
| MatchingTheorems.TotalIsBoundedAndNear | backend/app/services/matching_engine.py:451-525 | For all inputs and all weights within 1e-9 of summing to one, every score is in [0, 1] and the total is within 4e-5 of the sum of the stored weighted scores |
| ScoreMeaning.AcademicIsMean | backend/app/services/matching_engine.py:323-355 | The academic score is the mean of what study level, fields of study and rules on grades would score alone |
| ScoreMeaning.FieldAlone | backend/app/services/matching_engine.py:333-351 | Fields of study score fully exactly when one has the profile's tokens, nothing exactly when none shares any, and half when the profile has none |
| ScoreMeaning.InterestsScore | backend/app/services/matching_engine.py:308-320 | Interests and goals score nothing exactly when they share no word with the scholarship, fully exactly when the words are the same, half when either has none |
| ScoreMeaning.ExperienceScore | backend/app/services/matching_engine.py:379-388 | Experience scores the share of its rules that are met, an undecided one counting half, and fully without any |
| ScoreMeaning.HardRulesWeighMore | backend/app/services/matching_engine.py:358-368 | Hard rules are worth seven tenths beside soft ones and everything without; none count as met |
| ScoreMeaning.DocumentsScore | backend/app/services/matching_engine.py:397-403 | Documents score fully exactly when each required kind is ready, nothing exactly when some are required and none is ready |
| ScoreMeaning.TimingStepsDown | backend/app/services/matching_engine.py:404-418 | The time left steps down at 90, 30 and 14 days of the calendar before the deadline |
| ScoreMeaning.NextDayIsNextNumber | backend/app/services/matching_engine.py:408 | The ordinals behind the number of days count the days of the Gregorian calendar |
| ScoreMeaning.TotalOfOne | backend/app/services/matching_engine.py:478-515 | A score that has all the weight is the total, for each of the five |
| ScoreMeaning.TotalIsListed | backend/app/services/matching_engine.py:508-525 | Every total is a whole number of hundred-thousandths between none and all, the unit and range of match cursors |
| ScoreMeaning.ConfidentExactly | backend/app/services/matching_engine.py:422-448 | A match is fully confident exactly when the profile says everything that offer and rules look at, documents aside |
| ScoreMeaning.ConfidentIsDecided | backend/app/services/matching_engine.py:154-283 | Full confidence leaves no rule undecided but those on documents and on the deadline |
| MatchingTheorems.BetterOutcomesNeverLowerScores | backend/app/services/matching_engine.py:323-388 | Improving any outcomes lowers no component, no weighted score, not the total and not the overall outcome |
| MatchingTheorems.UnreadFieldsDoNotMatter | backend/app/services/matching_engine.py:451-525 | The whole match is independent of the name, the wish for aid and the willingness to move |
| MatchingEngine.BestField | backend/app/services/matching_engine.py:341-349 | The loop's result is reached by one field of study and by none exceeded |
| MatchingEngine.ComputeConfidence | backend/app/services/matching_engine.py:422-448 | The two loops compute the share of wanted columns that are known |
| MatchingEngine.CountKnown | backend/app/services/matching_engine.py:440-447 | Counts exactly the known columns, in whatever order the set is visited |
| Profiles.VersionMovesExactlyWithMatchingPart | backend/app/services/profile.py:130-139 | An update moves the version exactly when it changes a field other than the name |
| Profiles.SaveFixesMatchingPart | backend/app/services/profile.py:96-146 | A save that keeps the version keeps everything matching reads, through the rounding of the columns |
| Profiles.SavedFieldIs | backend/app/services/profile.py:107-146 | Of a saved row each field is the patch's if the patch names it and the stored one otherwise, grades to the nearest thousandth |
| Profiles.FirstSaveIs | backend/app/services/profile.py:107-134 | A first save needs name, country and study level, starts at version one and holds nothing but the patch |
| Profiles.ProfileService.Update | backend/app/services/profile.py:96-160 | An update writes the planned row and queues one rematch for a new version, or changes nothing |
| MatchCacheTheorems.CurrentMatchesAreFresh | backend/app/repositories/postgres.py:554-574 | In every interleaving of catalogue writers, calculations and profile updates none of which is lost, a match that counts as current equals a fresh calculation on profile and scholarship as they are now |
| MatchCacheTheorems.UpdateIsSafeExactlyForVersionRead | backend/app/services/profile.py:107-146 | A profile update keeps one version for one matching part, whatever it changes, exactly when the version it read is still the row's |
| MatchCacheTheorems.LostUpdateServesWrongMatch | backend/app/services/profile.py:96-160 | From any sound state, two updates of one version serve a current match whose verdict a fresh calculation reverses |
| Recalculation.ImmediateLeavesAllCurrent | backend/app/services/matches.py:228-297 | After an immediate recalculation every candidate has a current match, kept or freshly calculated, no other match is touched, and the counts add up |
| Recalculation.RepeatIsExisting | backend/app/services/matches.py:157-177 | Repeating it with nothing changed answers existing and writes nothing |
| Recalculation.ExistingExactlyWhenAllCurrent | backend/app/services/matches.py:157-177 | Existing is answered exactly when every open scholarship has a current match |
| Recalculation.CountTellsAll | backend/app/services/matches.py:158-164 | The counts come from separate queries over scholarships and over stored matches; they are equal exactly when the current matches are the candidates', one each |
| Recalculation.CurrentAreCandidates | backend/app/repositories/postgres.py:554-574 | Whatever matches are stored, those the join finds current belong to candidates |
| Recalculation.CandidatesAreTheOpenRows | backend/app/repositories/postgres.py:260-303 | The candidates are exactly the published scholarships whose deadline has not passed |
| MatchFreshness.JoinIsCurrent | backend/app/repositories/postgres.py:554-574 | The join finds exactly the matches of open scholarships that count as current in the interleavings |
| MatchFreshness.AnswersServeFresh | backend/app/services/matches.py:145-226 | In every sound state: after existing and after an immediate recalculation the stored result of each open scholarship is what a calculation gives on profile and scholarship as they are now |
| MatchFreshness.MovedProfileIsRecalculated | backend/app/services/matches.py:157-177 | Once an update has moved the profile version no match is current, and existing is answered exactly when nothing is open |
| MatchFreshness.MovedRowIsRecalculated | backend/app/services/matches.py:157-177 | The same for a scholarship that has been written since its match was stored |
| MatchFreshness.AnswerTells | backend/app/services/matches.py:157-226 | Which of the five answers is given, exactly, and what its counts are of; an immediate answer excludes only what it has calculated |
| MatchFreshness.SoundAfterAnswer | backend/app/services/matches.py:228-297 | What a recalculation writes keeps the state sound |
| MatchFreshness.OpenIsUnexpired | backend/app/repositories/postgres.py:260-303 | A published scholarship is a candidate exactly when the engine would not call it expired |
| MatchFreshness.JobAfterAsking | backend/app/repositories/postgres.py:646-668 | After asking for a job of a version there is one that has not failed; it starts over exactly when there was none or one that had failed or been cancelled |
| Recalculation.MatchingService.Recalculate | backend/app/services/matches.py:145-226 | The service's answer, stored matches and job row are the specified ones, a failed or cancelled job being put back in the queue; an invalid requirement rolls everything back |
| Recalculation.MatchingService.ListCurrent | backend/app/repositories/postgres.py:554-574 | The loop over the stored matches finds exactly the current ones |
| Recalculation.MatchingService.CalculateImmediately | backend/app/services/matches.py:228-297 | The loop leaves the specified matches and counts |

## Left out

- Values: timestamps (first and last seen, `verified_at`, `published_at`, `calculated_at`) are reduced to set or not set or dropped; generated ids are indices and counters; texts of messages, evidence lists, AI explanations and safe error summaries are not kept.
- DryRuns.DryAgreesExactlyWhenNotRefused: does not model the check that a source was last seen no earlier than first seen, which stops only a real run when a record is fetched with an earlier time than its link has, nor the size limit of index entries, which stops only a real run for a URL of some thousand octets; an infinite amount counts as one that is too large.
- IngestionTheorems.CanCompleteExactlyWhenPassSucceeds: the same two limits are not among the reasons for which a record always fails.
- `normalize_source_record`: its validation; what it produces is part of a source record, and `FromNormalizer` states what it guarantees.
- The fingerprint is an injective pair of its requirements and everything else it hashes; SHA-256 itself is not modelled.
- The quarantine's candidate list is a set and is not cut to twenty; raw records and items are one table.
- A unit of work is atomic and rolled back on error, and a commit that errs counts as rolled back. `LoseCommit` is the rolled-back commit of a replacement, whose compensating handler has been left by then.
- DocumentTheorems.LiveObjectsAreStored: does not model a create whose commit succeeds while its answer is lost; the compensation at backend/app/services/documents.py:164-190 then deletes the object of a live row.
- DocumentLeaks.RequestTracksExactly: does not model a cancelled request; cancellation is no `Exception`, so after an upload nothing is compensated and the object is untracked.
- Jwks.AtMostOneFetch: does not model that the thread of a fetch goes on when its lookup is cancelled, so the next lookup can fetch beside it.
- Profiles.VersionMovesExactlyWithMatchingPart: does not model that the stored decimal grade average compares unequal to the float it was set from, so patching the same value can move the version.
- Scholarship providers are identified by canonical name and are always active.
- Full-text search, row-level security, authentication tokens, HTTP fetching, object storage and AI providers: only success, failure and partial effect remain; list filters are an arbitrary predicate.
- The other queued jobs of a document (scan, derived cleanup) appear only as failures of the transaction; renaming, download links and file signature checks are not modelled.
- JSON: cursors pass through an arbitrary codec that reads back what it writes.
- Base64Url.RoundTrip: does not model that Python's decoder skips characters outside the alphabet; such a text is an error here.
- Pagination.ClauseIsOrder: titles are ordered by code points, not by a database collation.
- SourceUrlTheorems.CanonicalAgainExactly: text is its UTF-8 octets, so lone surrogates do not occur; invalid UTF-8 behind percent signs is not repaired, leading control characters are not skipped, and the exception for hosts that change under Unicode normalization is not modelled.
- SourceUrlTheorems.ParseUrl: letters of a host outside ASCII are not lowered, and hosts that change under Unicode normalization are read instead of refused.
- SourceUrlTheorems.EquivalentUrlsAreOne: the same about hosts outside ASCII.
- MatchingTheorems.TotalIsBoundedAndNear: scores are exact reals with half-even rounding where the code rounds; binary floating point and the 28-digit decimal context are not modelled.
- MatchingEngine.ComputeConfidence: letters outside ASCII are not folded in tokens and texts.
- MatchCacheTheorems.CurrentMatchesAreFresh: documents, weights and reference date are those of the match's own calculation, because the cache key does not contain them; deleting a profile is not modelled.
- Recalculation.MatchingService.Recalculate: the job that a large recalculation queues is not run, so job statuses change only here; one algorithm version is assumed.
- Recalculation.CountTellsAll: the queries read one state; as separate statements they can see commits made in between.
- CatalogueBrowsing.ClientSeesEachOnce: the filter is one predicate on what a listing holds; a filter on other columns, which may change between pages, is taken to have been applied to the tables.
- Celery jobs, the frontend, application tracking, notifications, embeddings, settings and response shaping.
