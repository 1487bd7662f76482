# killthenoise issue pipeline, modelled in Dafny

This project models the server core of killthenoise. The server gathers issue
reports from Slack, HubSpot, Jira and Google Docs into one table of issues and
ranks them by `frequency * severity`. The model covers:

- **Issue store** (`IssueModel`, `issue_model.dfy`). The PostgreSQL `issues`
  table is modelled as a `Store` class. Its fields are the rows, the SERIAL
  counter and a logical clock. The write methods update these fields in place.
  Each method's contract ties the new state to a pure operation on a `Table`
  value: `CreateOp`, `UpdateOp`, `DeleteOp`, `DeleteSourceOp`, `Query` (the
  query behind `findAll`) and `TopOp` (the query behind `getTopIssues`). Every
  successful insert or update stamps the current clock value and then advances
  the clock; a delete does neither.
  As a result, `created_at` strictly increases along the rows, and
  `ORDER BY created_at DESC` is the reverse of insertion order. The CHECK
  constraint on `severity` is a failure of the operation.
- **Reconciler** (`IntegrationService`, `integration.dfy`).
  - `processIngestedData` is a method with a loop, proved against the fold
    `Reconcile`.
  - `runAllIntegrations` is a method with a loop, proved against `Sweep`. Each
    adapter's answer is a parameter (`fetch`).
  - The mock adapters of Slack and Jira serve as test vectors.
- **Jira linkage** (`JiraService`, `jira.dfy`). It has the two lookup tables,
  the batch pass (a loop proved against `Link`), and the pass over all issues.
- **Request handling** (`IssueController`, `controller.dfy`). It covers the
  validation and defaults of a manual create, the removal of protected fields
  before an update, the responses for an invalid id and for an unknown id, the
  query parameters of the listing, and the default limit of the top-issues route.
- **HubSpot sync** (`HubSpotService`, `hubspot.dfy`). It covers the token-reuse
  rule, the mapping from priority to severity, the record built for each ticket,
  and the import that deletes every hubspot row and then inserts one row per
  ticket (a loop proved against `SyncOp`).
- **Dashboard cards** (`Dashboard`, `dashboard.dfy`). These are the totals
  computed from the top-ten list.
- **JavaScript built-ins** (`JsText`, `js_text.dfy`). These are `parseInt`
  without a radix and `toLowerCase`, both used by the handlers.

The model follows the code where the code and the design disagree:

- The reconciler compares the observation only with the newest issue of its
  source. This is because `findAll({source, limit: 1})` returns one row. As a
  result, `(source, source_id)` is *not* kept unique.
  - `IntegrationService.InterleavingDuplicates` proves that observations A, B,
    A leave two issues with A's identity.
  - `IntegrationService.SlackMockTwiceDuplicates` proves that running the
    Slack adapter twice creates four issues.
  - In the model, running the single-item Jira adapter twice merges, and the
    frequency becomes 24 (`IntegrationService.JiraMockTwice`). Against
    PostgreSQL the merge's UPDATE fails on the double `updated_at` assignment
    (see "## Left out"), so the code as written leaves the frequency at 12.
- The frequency added on a merge is `data.frequency || 1`, so a negative
  observed frequency lowers the stored frequency. The frequency of an identity
  is therefore not monotone.
- A negative `LIMIT` or `OFFSET` is a database error, not an empty result.
  `getTopIssues` with a limit of 0 returns nothing. `findAll` ignores a limit
  of 0, because the code only adds a `LIMIT` clause for a truthy limit.
- `IssueModel.create` inserts nine columns. The `jira_exists` value that the
  controller carefully computes is therefore not stored, and neither is the
  `jira_exists` that the HubSpot sync builds. Nor is the `created_at` taken
  from a ticket's `createdate`.
- `updateIssue` with a body that holds nothing but `id`, `created_at` or
  `updated_at` answers 404 even when the issue exists. This is because the
  store's `update` returns `null` for an empty field list.

## Model

| member | source | states |
|---|---|---|
| IssueModel.DeclaredSeverityAcceptsNull | server/src/db.ts:44 | the declared severity column, whose CHECK passes on NULL, accepts NULL, which is not a severity in [1,5] |
| IssueModel.NotNullSeverityInRange | server/src/db.ts:44 | with NOT NULL added the column accepts exactly the values in [1,5] |
| IssueModel.IdsDistinct | server/src/db.ts:39 | in a valid table two rows with the same id are the same row |
| IssueModel.FilterRows | server/src/models/Issue.ts:64-66 | the conjunctive WHERE clause keeps at most as many rows as it is given |
| IssueModel.FilterRowsMembers | server/src/models/Issue.ts:64-66 | a row is kept iff it is one of the rows and passes the test, so nothing is added |
| IssueModel.OrOne | server/src/services/integrationService.ts:196-197 | defaulting a number to 1: the value itself when it is truthy, and 1 when it is absent or 0, so never 0 |
| IssueModel.StringOr | server/src/controllers/issueController.ts:100-102 | defaulting a string: the value when truthy, otherwise the default |
| IssueModel.Page | server/src/models/Issue.ts:74-82 | OFFSET and then LIMIT: the result is a contiguous slice that starts after the skipped rows, has at most `limit` rows, and has all the remaining rows when there is no limit |
| IssueModel.ReverseIsNewestFirst | server/src/models/Issue.ts:72 | the reverse of insertion order is strictly newest-first by `created_at` |
| IssueModel.FindAllSound | server/src/models/Issue.ts:32-86 | findAll succeeds iff limit and offset are not negative; then every row returned is stored and matches every truthy filter, the rows are newest first, and there are at most `limit` of them |
| IssueModel.QueryRowsMatch | server/src/models/Issue.ts:44-70 | every row the query returns is stored and matches every truthy filter |
| IssueModel.QueryNewestFirst | server/src/models/Issue.ts:72-82 | in a valid table the query's rows are newest first, also after OFFSET and LIMIT |
| IssueModel.FindAllComplete | server/src/models/Issue.ts:44-72 | with no limit and no offset, findAll returns exactly the matching rows, each once |
| IssueModel.FalsyFiltersIgnored | server/src/models/Issue.ts:44-70 | filters that are absent, empty, or a severity of 0 impose no constraint |
| IssueModel.CreateOp | server/src/models/Issue.ts:95-116 | a create succeeds iff the severity is in [1,5]; it then appends one row with a fresh id and advances the clock; a failed create changes no row; validity is preserved |
| IssueModel.CreateStoresOnlyNamedColumns | server/src/models/Issue.ts:96-112 | the new row holds the nine inserted columns; the Jira columns are NULL and the timestamps come from the store, whatever else the caller supplied |
| IssueModel.UpdateOp | server/src/models/Issue.ts:119-135 | an update that does not yield null had fields to set and an existing id; validity is preserved |
| IssueModel.ReplaceKeepsValid | server/src/models/Issue.ts:119-135 | replacing one row by a row with the same id and `created_at`, a valid severity and the current stamp, then advancing the clock, keeps the table valid |
| IssueModel.UpdateSetsSuppliedFields | server/src/models/Issue.ts:119-134 | null iff there is no field besides id/created_at or the id is unknown, and then nothing changes; a severity outside [1,5] fails; otherwise exactly that row gets the supplied columns and a new `updated_at`, its id and `created_at` are kept, and every other row is untouched |
| IssueModel.DeleteOp | server/src/models/Issue.ts:138-141 | the answer is true iff a row had the id; afterwards exactly the rows with other ids remain |
| IssueModel.DeleteSourceOp | server/src/services/hubspotService.ts:54 | exactly the rows of other sources remain; validity is preserved |
| IssueModel.Ranked | server/src/models/Issue.ts:147 | the rows sorted by `frequency*severity` descending, then by `created_at` descending, as a permutation of the table |
| IssueModel.TopIssuesAreTop | server/src/models/Issue.ts:144-152 | min(limit, rows) issues in ranking order, a sub-multiset of the table, and every row left out ranks no higher than every row returned |
| IssueModel.TopDominates | server/src/models/Issue.ts:147-152 | every row cut off by the LIMIT ranks after every row kept |
| IssueModel.RankedTimesDiffer | server/src/models/Issue.ts:147 | in a valid table two positions of the ranking hold rows with different `created_at` |
| IssueModel.RankingStrict | server/src/models/Issue.ts:147 | in a valid table no two rows tie on both keys, so the ranking order is strict |
| IssueModel.Store.constructor | server/src/db.ts:37-50 | an empty, valid table |
| IssueModel.Store.FindAll | server/src/models/Issue.ts:32-86 | the method that pushes one condition per truthy filter returns `Query` of the state |
| IssueModel.Store.FindById | server/src/models/Issue.ts:89-92 | some row iff a row has the id, and then that row |
| IssueModel.Store.Create | server/src/models/Issue.ts:95-116 | the new state and the answer are `CreateOp` of the old state |
| IssueModel.Store.Update | server/src/models/Issue.ts:119-135 | the new state and the answer are `UpdateOp` of the old state |
| IssueModel.Store.Delete | server/src/models/Issue.ts:138-141 | the new state and the answer are `DeleteOp` of the old state |
| IssueModel.Store.DeleteWhereSource | server/src/services/hubspotService.ts:54 | the new state is `DeleteSourceOp` of the old state |
| IssueModel.Store.GetTopIssues | server/src/models/Issue.ts:144-153 | the answer is `TopOp` of the state |
| IntegrationService.FindBySourceId | server/src/services/integrationService.ts:181 | the first issue with the observation's source_id, or none iff there is no such issue |
| IntegrationService.LatestIn | server/src/models/Issue.ts:64-77 | a row it gives is stored and belongs to the source |
| IntegrationService.LatestInExists | server/src/models/Issue.ts:64-77 | there is no row iff the source has no row |
| IntegrationService.LatestInNewest | server/src/models/Issue.ts:72-77 | in insertion order the row given is the newest of its source |
| IntegrationService.LookupSeesOnlyLatest | server/src/services/integrationService.ts:176-181 | the existence check returns exactly the newest issue of the source, or nothing |
| IntegrationService.ReconcileOne | server/src/services/integrationService.ts:174-204 | one observation keeps the table valid |
| IntegrationService.Reconcile | server/src/services/integrationService.ts:170-208 | one outcome per observation; validity is preserved |
| IntegrationService.MergeStep | server/src/services/integrationService.ts:183-188 | when the newest issue carries the source_id, the observation is exactly the store update with the merge fields, and a merge unless the update fails |
| IntegrationService.MergeUpdate | server/src/services/integrationService.ts:183-188 | merging into a stored issue succeeds, keeps the row count, advances the clock, sums that row's frequency and stamps it with the store clock, and leaves every other row untouched |
| IntegrationService.MergesIntoLatest | server/src/services/integrationService.ts:183-188 | when the newest issue carries the source_id, the observation merges into it: the frequency becomes old + the observed frequency (1 when it is missing or 0), `updated_at` becomes the store clock, and all other columns and rows are unchanged |
| IntegrationService.CreatesOtherwise | server/src/services/integrationService.ts:190-204 | otherwise one issue is appended, with the observation's fields, severity and frequency defaulting to 1 when missing or 0, status open, tags defaulting to [] and a fresh id; when the severity breaks the CHECK the error is swallowed and no row changes; either way the next id is drawn |
| IntegrationService.MergeIffLatestMatches | server/src/services/integrationService.ts:176-189 | an observation merges iff the newest issue of its source carries its source_id |
| IntegrationService.OneWritePerObservation | server/src/services/integrationService.ts:183-204 | an observation that is not rejected makes exactly one write; a rejected one changes no row and no stamp; every create, refused or not, draws the next id, and a merge draws none |
| IntegrationService.RowsGrowOnlyByCreation | server/src/services/integrationService.ts:183-201 | the store grows by one row exactly when an issue is created |
| IntegrationService.BatchGrowth | server/src/services/integrationService.ts:173-205 | a batch grows the store by the number of creations and makes one write per observation that was not rejected |
| IntegrationService.ReconcileSplit | server/src/services/integrationService.ts:173-205 | in-order processing: a batch is its first part, then its second part started from the table the first part left; a rejection does not stop the rest |
| IntegrationService.ReconcileStep | server/src/services/integrationService.ts:173-205 | the i-th outcome is the i-th observation applied to the table the earlier ones left |
| IntegrationService.CreatedIsLatest | server/src/services/integrationService.ts:190-200 | a newly created issue becomes the newest issue of its source |
| IntegrationService.RepeatedObservationMerges | server/src/services/integrationService.ts:176-188 | the same observation twice, into a store holding no issue of its source, leaves one issue whose frequency is the sum of both |
| IntegrationService.CreateThenMerge | server/src/services/integrationService.ts:176-200 | the first of two observations with the same identity creates an issue from its fields, and the second merges into it with the frequencies summed |
| IntegrationService.TwoCreations | server/src/services/integrationService.ts:176-200 | two observations of a new source with different source_ids create two issues, and the second is then the newest |
| IntegrationService.InterleavingDuplicates | server/src/services/integrationService.ts:176-181 | observations A, B, A create three issues, and two of them have A's `(source, source_id)` |
| IntegrationService.ProcessOne | server/src/services/integrationService.ts:174-204 | one pass of the loop body leaves the state and the outcome that `ReconcileOne` gives |
| IntegrationService.ProcessIngestedData | server/src/services/integrationService.ts:170-208 | the loop leaves the state and the outcomes that `Reconcile` gives |
| IntegrationService.SweepOne | server/src/services/integrationService.ts:242-268 | one config keeps the table valid |
| IntegrationService.Sweep | server/src/services/integrationService.ts:242-269 | one log entry per config; validity is preserved |
| IntegrationService.SweepIsOneReconciliation | server/src/services/integrationService.ts:242-269 | the sweep leaves the store as one reconciliation of what the active, non-failing adapters fetched, in config order |
| IntegrationService.RunAllIntegrations | server/src/services/integrationService.ts:211-272 | the loop leaves the state and log that `Sweep` gives |
| IntegrationService.JiraMockTwice | server/src/services/integrationService.ts:115-133 | running the Jira adapter twice gives one issue with frequency 24 and severity 4 |
| IntegrationService.PairTwiceDuplicates | server/src/services/integrationService.ts:176-200 | running two observations of a new source with different source_ids twice creates an issue on every one of the four observations |
| IntegrationService.SlackMockTwiceDuplicates | server/src/services/integrationService.ts:29-66 | running the Slack adapter twice creates four issues |
| JiraService.FindMatchingJiraIssue | server/src/services/jiraService.ts:39-64 | found iff the title is a key of the match table or a name every object inherits; a table entry gives its key and status, any other title neither |
| JiraService.GetJiraIssueStatus | server/src/services/jiraService.ts:81-92 | the table status for a known key, the inherited member for a name every object inherits, `'Unknown'` for any other key; a returned string is never empty |
| JiraService.TablesAgree | server/src/services/jiraService.ts:39-90 | each match's status is the status its key reports |
| JiraService.JiraPatchColumns | server/src/services/jiraService.ts:107-120 | the update writes only the three Jira columns: true with the key and status (or `'Unknown'`) on a match, otherwise false with both cleared |
| JiraService.Link | server/src/services/jiraService.ts:100-128 | the batch pass keeps the table valid |
| JiraService.LastTitleFor | server/src/services/jiraService.ts:103-113 | the title of the last snapshot with that id, or none iff there is no such snapshot |
| JiraService.LinkedColumns | server/src/services/jiraService.ts:107-120 | the patched row differs from the old row only in the Jira columns and the stamp, and those columns come from the title |
| JiraService.InheritedTitleUnlinks | server/src/services/jiraService.ts:105-120 | a title naming an inherited member counts as found but has no key, so the pass clears the row's Jira columns and changes nothing else |
| JiraService.LinkOneEffect | server/src/services/jiraService.ts:103-125 | one snapshot sets the Jira columns of its row from its title and changes nothing else |
| JiraService.LinkEffect | server/src/services/jiraService.ts:100-128 | after the pass each row's Jira columns come from the last snapshot with its id, whatever they were before; rows not in the batch are untouched |
| JiraService.LinkTwiceIsLinkOnce | server/src/services/jiraService.ts:100-128 | running the pass twice gives the rows of running it once, apart from `updated_at` |
| JiraService.PassCanUnlink | server/src/services/jiraService.ts:114-120 | a linked issue whose title has no match ends unlinked |
| JiraService.ProcessIssuesForJiraMatches | server/src/services/jiraService.ts:100-128 | the loop leaves the state `Link` gives |
| JiraService.AllIssuesCoverage | server/src/services/jiraService.ts:135 | the pass over all issues sees at most 1000 stored issues, and every issue when there are no more than 1000 |
| JiraService.ProcessAllExistingIssues | server/src/services/jiraService.ts:131-138 | the state is `Link` over the first 1000 issues, newest first |
| JsText.ToLower | server/src/services/hubspotService.ts:57 | same length, and each ASCII capital is lowered |
| JsText.ToLowerIdempotent | server/src/services/hubspotService.ts:57 | lower-casing twice equals lower-casing once |
| JsText.ToLowerIgnoresCase | server/src/services/hubspotService.ts:57 | strings that differ in the case of one letter lower-case alike |
| JsText.ParseInt | server/src/controllers/issueController.ts:37 | NaN iff no digit follows the white space, sign and `0x` |
| JsText.ParseIntRoundTrip | server/src/controllers/issueController.ts:37 | `parseInt` reads back the decimal form of every integer |
| JsText.ParseDecimal | server/src/controllers/issueController.ts:37 | `parseInt` reads back the decimal form of every natural number |
| JsText.ParseNegativeDecimal | server/src/controllers/issueController.ts:37 | `parseInt` reads a minus sign followed by the decimal form of a positive number as its negation |
| JsText.ParseIntIgnoresTrailing | server/src/controllers/issueController.ts:37 | digits followed by a character that is not a digit parse as the digits' value |
| JsText.ParseIntNaN | server/src/controllers/issueController.ts:39-45 | a string with no digit at its start is NaN |
| HubSpotService.GetAccessToken | server/src/services/hubspotService.ts:6-35 | a token row remains iff there was one |
| HubSpotService.TokenReuseRule | server/src/services/hubspotService.ts:6-35 | with no token the call fails; a token expiring more than 120000 ms from now is reused without a write; otherwise the refreshed token is returned and stored with expiry now + expires_in*1000 |
| HubSpotService.RefreshedTokenReused | server/src/services/hubspotService.ts:11-28 | a refreshed token is reused by a later call that comes before two minutes ahead of its new expiry |
| HubSpotService.PrioritySeverity | server/src/services/hubspotService.ts:57-61 | the mapped severity is always in [1,5] |
| HubSpotService.PriorityIgnoresCase | server/src/services/hubspotService.ts:57 | priorities that lower-case alike map alike |
| HubSpotService.PriorityBands | server/src/services/hubspotService.ts:57-61 | high is 5, medium 3 and low 1 in any case; anything else, including no priority, is 2 |
| HubSpotService.CreateFromTicket | server/src/services/hubspotService.ts:57-77 | the if-chain on the priority and the create leave the state `CreateOp` gives for the ticket's record |
| HubSpotService.CreateFromTickets | server/src/services/hubspotService.ts:56-78 | the loop over the tickets leaves the state that creating their records in order gives |
| HubSpotService.TicketIssues | server/src/services/hubspotService.ts:56-75 | one record per ticket, in ticket order |
| HubSpotService.CreateAll | server/src/services/hubspotService.ts:56-78 | the creates in turn keep the table valid |
| HubSpotService.TicketColumns | server/src/services/hubspotService.ts:63-75 | a ticket's row has the subject as title ('Ticket' when missing or empty), the content as description ('' when missing), source hubspot, the ticket id, the mapped severity, frequency 1, open, bug, tags [hubspot], and no Jira link |
| HubSpotService.CreateAllAppends | server/src/services/hubspotService.ts:56-78 | creating records with valid severities appends one row per record, in order |
| HubSpotService.SourceSplit | server/src/services/hubspotService.ts:54 | rows of other sources followed by rows of one source: each source filter picks out its own part |
| HubSpotService.SyncShape | server/src/services/hubspotService.ts:54-78 | after a sync the rows are the rows of other sources, then one row per ticket |
| HubSpotService.SyncSplits | server/src/services/hubspotService.ts:54-78 | after a sync only hubspot rows follow the rows of other sources |
| HubSpotService.SyncKeepsOtherSources | server/src/services/hubspotService.ts:54 | the rows of every other source are the same rows, in the same order |
| HubSpotService.SyncedAreAdded | server/src/services/hubspotService.ts:54-78 | the hubspot rows after a sync are exactly the rows created for the tickets |
| HubSpotService.SyncMirrorsTickets | server/src/services/hubspotService.ts:56-77 | the hubspot rows match the tickets one to one and in order, each with its ticket's columns |
| HubSpotService.FetchTickets | server/src/services/hubspotService.ts:37-79 | a failed request changes nothing; otherwise the state is `SyncOp` of the old state and the tickets |
| IssueController.JiraFlag | server/src/controllers/issueController.ts:103 | true iff the supplied value is the boolean true |
| IssueController.ValidateCreate | server/src/controllers/issueController.ts:77-104 | a missing or empty title or source gives 'Title and source are required'; otherwise a truthy severity outside [1,5] gives 'Severity must be between 1 and 5'; these are the only refusals |
| IssueController.AcceptedSeverityInRange | server/src/controllers/issueController.ts:85-98 | an accepted request has a severity in [1,5]; a severity of 0 or none becomes 1 |
| IssueController.CreateDefaults | server/src/controllers/issueController.ts:93-104 | frequency 1, status open, tags [] and type bug as defaults; `jira_exists` is the supplied boolean or false |
| IssueController.AcceptedCreateSucceeds | server/src/controllers/issueController.ts:85-106 | the store never refuses an accepted request |
| IssueController.CreateIssue | server/src/controllers/issueController.ts:72-121 | a refused request is a 400 and stores nothing; otherwise the state is `CreateOp` of the record, and the reply is 201 with the row |
| IssueController.GetIssueById | server/src/controllers/issueController.ts:35-69 | 400 iff the id is NaN, 404 iff no issue has the id, and otherwise that issue |
| IssueController.Unprotected | server/src/controllers/issueController.ts:139-141 | exactly `id`, `created_at` and `updated_at` are removed |
| IssueController.StrippedTimestampIsNotFound | server/src/controllers/issueController.ts:136-151 | a body with only protected fields is a 404 and changes nothing, whereas without the stripping the store would re-stamp the issue |
| IssueController.UpdateKeepsIdentity | server/src/controllers/issueController.ts:136-143 | a successful update keeps the id and `created_at` and stamps the store clock, whatever the body says |
| IssueController.UpdateIssue | server/src/controllers/issueController.ts:124-166 | 400 with no change for a NaN id; otherwise the state is `UpdateOp` of the stripped body, and the reply is 404 for null |
| IssueController.DeleteIssue | server/src/controllers/issueController.ts:169-203 | 400 with no change for a NaN id; otherwise the state is `DeleteOp`, and the reply is 404 when nothing was deleted |
| IssueController.IdOutcomesAgree | server/src/controllers/issueController.ts:143-189 | an unknown id is a 404 for update and for delete, and no issue has the id after a delete |
| IssueController.NumberParam | server/src/controllers/issueController.ts:13-15 | an absent or empty parameter gives no number |
| IssueController.GetAllIssues | server/src/controllers/issueController.ts:6-32 | the listing is findAll's answer for the parsed filters, or a 500 |
| IssueController.FalsySeverityParamIgnored | server/src/controllers/issueController.ts:13 | a severity parameter that is absent, empty, non-numeric or 0 filters nothing |
| IssueController.ListedIssuesMatch | server/src/controllers/issueController.ts:8-18 | the listed issues match every filter supplied, are newest first, and number at most `limit` |
| IssueController.TopLimit | server/src/controllers/issueController.ts:208 | the limit is 10 when none is supplied |
| IssueController.GetTopIssues | server/src/controllers/issueController.ts:206-224 | the route lists iff the limit parses to a non-negative number; the list has min(limit, rows) issues in ranking order, the best rows; with no limit, ten |
| Dashboard.CountCritical | client/src/pages/Dashboard.tsx:51 | the critical count is at most the list length |
| Dashboard.CountOpen | client/src/pages/Dashboard.tsx:52 | the open count is at most the list length |
| Dashboard.ComputeStats | client/src/pages/Dashboard.tsx:50-55 | the total is the list length, the critical and open counts are at most that total, and the average is 0 for an empty list |
| Dashboard.CountsAppend | client/src/pages/Dashboard.tsx:50-55 | the counts and the severity sum of a concatenation add up |
| Dashboard.CriticalCountExtremes | client/src/pages/Dashboard.tsx:51 | the critical count equals the total iff every issue has severity >= 4, and is 0 iff none has |
| Dashboard.OpenCountExtremes | client/src/pages/Dashboard.tsx:52 | the open count equals the total iff every issue is open, and is 0 iff none is |
| Dashboard.SeveritySumBounds | client/src/pages/Dashboard.tsx:53-55 | with severities in [1,5] the sum lies between n and 5n |
| Dashboard.AverageInRange | client/src/pages/Dashboard.tsx:53-55 | the average of a non-empty list of valid issues lies in [1,5] |
| Dashboard.DashboardOfTopTen | client/src/pages/Dashboard.tsx:44-55 | on the top-ten request the total is min(10, rows), the counts are bounded by it, and the average is 0 for an empty store and in [1,5] otherwise |

## Left out

- SQL text, `$n` parameter numbering, the connection pool and the DDL mechanics are not modelled. The store is a table value.
- The DDL in `server/src/db.ts` has no `type` column and no `jira_*` columns, although the code reads and writes them. The model assumes these columns exist.
- The `VARCHAR` length limits and the 32-bit `INTEGER` range are not modelled, because integers are unbounded here. An over-long title, or a frequency beyond 2^31-1, would be a database error that the model does not raise. In the same way, an id route parameter beyond 2^31-1 (`GET /api/issues/3000000000`) is a database error, so the program answers 500, whereas `GetIssueById`, `UpdateIssue` and `DeleteIssue` answer 404.
- `processIngestedData` sends `updated_at` to `update`, and `update` then appends its own `updated_at = CURRENT_TIMESTAMP`. PostgreSQL rejects such a double assignment. The model uses "set the supplied fields, then stamp".
- `Date.now()`, `new Date()` and `CURRENT_TIMESTAMP` are a logical clock and a `now` parameter. The HubSpot sync's two readings of `Date.now()` are one value.
- HTTP and Express plumbing are left out: JSON bodies, status codes beyond the ones named, `console` logging, and the routes. The OAuth code exchange, the axios calls and the `HubSpotTokenModel` SQL are also left out. Their answers are parameters: `refresh`, `response` and `fetch`.
- The Jira matcher's logging and the unreachable `catch` of `getJiraIssueStatus` are not modelled. Its lookup cannot throw.
- The mock adapters of HubSpot and Google Docs are not modelled. They are constant data, and only the Slack and Jira mocks serve as test vectors.
- `getIssuesWithAnalytics` and the analytics join are left out.
- The dashboard's `Math.round(avg * 10) / 10` is display rounding and is left out.
- There is no concurrency to model: every `await` is sequential.
- JsText.ParseInt: a number parsed from a long string is an exact integer. JavaScript doubles lose precision beyond 2^53, and this is not modelled.
- JsText.IsSpace: only the ASCII and common Unicode white space that `parseInt` skips is modelled. The other Unicode space separators are not.
- JsText.ToLower: lowers the ASCII letters only. Non-ASCII case mapping is not modelled.
- IssueController.ValidateCreate: it models numeric JSON fields only. A severity sent as a string such as `"3"` is not modelled, although JavaScript would compare it numerically and PostgreSQL would cast it.
- IssueController.ValidateCreate: a fractional severity such as 2.5 passes the range test, and the insert into the INTEGER column then fails with a 500. This is not modelled, because severities are integers here.
- IssueController.UpdateIssue: a JSON `null` for `severity`, `frequency`, `status` or `tags` is not modelled, because a patch carries values only. None of these columns is NOT NULL, so the program stores NULL (see Findings for severity). A NULL frequency or severity then sorts first in the top-issues ranking, because PostgreSQL puts NULLs first in a descending order.
- IssueController.UpdateIssue: an update key that is not a column, and a `null` for a NOT NULL column such as `title` or `source`, make the UPDATE fail with a 500. Neither is modelled, because a patch holds only the table's columns and their values.
- IssueController.GetTopIssues: a `NaN` limit is a 500, because the database rejects it. The database's exact error is not modelled.
- HubSpotService.GetAccessToken: a refresh response without a `refresh_token` is not modelled. The `updated_at` that `HubSpotTokenModel.update` stamps is also not modelled.
- HubSpotService.TicketToIssue: `createdate` is a millisecond number, and 0 counts as missing. Date parsing is not modelled, and `create` does not store this value anyway.

## Findings

| source | as written | input that shows it | evidently intended | confidence | as-written member | corrected member |
|---|---|---|---|---|---|---|
| server/src/db.ts:44 | `severity` has the range CHECK but no NOT NULL, and a CHECK whose expression is NULL passes | `PUT /api/issues/1` with the body `{"severity": null}` stores a NULL severity | every stored severity lies in [1,5], as the create validation, the dashboard average and the ranking assume | medium, not executed | IssueModel.DeclaredSeverityAcceptsNull | IssueModel.NotNullSeverityInRange |

The model stores a non-null `severity` checked by `ValidSeverity`, which is the corrected column. `TableValid` keeps every severity in [1,5] only under that correction.
