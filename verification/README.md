# Verified models for nudgebee

Dafny models of the parts of the repository where being almost right is not good enough: the
accounting of end-to-end test results, the report's history, the migration gate, the SQL placeholder
rewriting, the design-system ratchet and the rule-overlap report. Each module follows one component,
gives it the form it has in the source (classes and loops where the source updates state, functions
where it computes values), and proves what the component is for over every input or every run.

`dafny verify dfyconfig.toml` checks everything.

## What is modelled and proved

**Result accounting** (`Attempts`, `Slack`, `Report`, `Agreement`, `Tables`). Playwright reports
attempts of many tests interleaved. `SlackReporter` keeps eight sets up to date as attempts end; the
invariant `Valid` says that each set is a function of the whole log, whatever the interleaving, so the
four verdict sets are disjoint and complete and no test sets off two alerts of a kind; `SetsMean`,
`FailAlertsMean` and `SkipAlertsMean` say of the bare attempts which tests are in a set or have been
alerted on. The report recomputes the verdicts from the attempt log (`RowsMean`). The generator promises that the two summaries cannot
disagree. That is not true of every log, for two reasons. A serial group is retried as a whole, so a
test that passed may pass again, which Slack counts as recovered on retry and the report does not
count as flaky (`PassedTwice`), or may be skipped, which is passed for Slack and skipped for the
report (`SkippedAfterPassing`). And the reporters name tests differently: a test "C" in a group
"A - B" and a test "B - C" in a group "A" are one row and two Slack tests (`OneRowTwoTests`), with
" > " in the titles it is the other way round (`TwoRowsOneTest`). Both reasons have exact conditions:
`SameStoryIff`, per test, for what is said about it, `TotalsAgreeIff` for telling tests apart, and
`AgreementIff` for both together. `ContractSuffices` shows that the first holds whenever only failed
attempts are retried (`SummariesCannotDisagree`). The only thing asked of Playwright is that it
numbers the attempts of each test in order, whatever the reporters call the test; a test is known by
its two names together, which determine its file and its titles (`TestIsItsPath`). The pass rate recomputed from recorded outcomes is the one in the
summary if and only if nothing passed or no skipped test carries a watcher error (`SamePassRate`), as
long as names are unique (`RepeatedName`); the recorded total is right if and only if they are
(`RecordedTotalIff`).

**History and page** (`History`, `Packing`). The trend file holds exactly the latest 20 of all runs
ever recorded, in whatever order and however often their reports are generated (`FileIsLatest`), and
generating a recorded run again changes nothing (`RegenerationIsIdempotent`, `UnchangedIff`). A
streak computed from it is never longer than the one in the unbounded record (`StreakIsSound`). One
that is not marked "at least" is not always exact: generate a run again whose predecessors have all
been dropped, and the mark is missing (`DroppedRunGoesUnmarked`). `UnmarkedIsExactIff` says exactly
when it is exact, and `UnmarkedIsExact` that a file which is not full, or holds an earlier run, is
enough. The same holds of the run compared with (`PreviousAmongEverything`). The page re-reads
runs from one character per test; its comparison with the previous run gives the generator's own lists
if and only if no word of an old history file that lacks a character is in the way
(`ComparisonsAgree`).

**Scrubbing** (`Scrub`). A secret is safe if it neither begins nor ends with the mask character and
does not contain the mask. Masking removes a secret from every text if and only if it is safe
(`RemovedIffSafe`); whichever secrets out of a pool are configured, and in whatever order, every value
is scrubbed clean if and only if all of the pool are safe (`CleanIffSafe`). Nothing but secrets is lost:
what is between them is kept, in order (`ScrubHidesOnly`, `UnmaskingInverts`).

**Migration gate** (`SqlComments`, `Migrations`, `MigrationNames`). `Validate` is one pass that
compares a `V` label only with its last use and reads only the up file of a migration that is listed
last; its verdict is exactly the condition `Clean` on migrations, and every error it lists is true of
something the change introduces. `RunRatchets` is the point of the gate: after any run of accepted
changes, over several reference branches and with deletions, whatever was added since the start shares
neither timestamp nor label with any other migration. For files that is not quite so. Numbers in file
names are read as numbers, so `01_V2_a.up.sql` and `1_V2_a.up.sql` are one migration: both pass in one
change, with the same timestamp and label, and the first may be empty (`EmptyTwin`). Exactly such files
clash (`FilesClashIff`), exactly such contents go unread (`UnreadIff`), and without leading zeros
neither happens (`ShortNamesNeverClash`, `ShortNamesAreRead`). The emptiness test is measured against a
lexer that tracks literals, for every literal syntax (`EmptinessIsExact`): although the stripper
ignores literals its verdict is exact as long as the line comments before the first code end where
PostgreSQL ends them. The documentation in the source says it may err towards "empty" but never
towards "has SQL". A bare carriage return ends a line comment for PostgreSQL and not for the stripper,
so it errs both ways (`BareCarriageReturn`, `HiddenStatement`), and never otherwise: for every file the
verdict is right if and only if turning all line breaks into line feeds first would not change it
(`VerdictIff`). The table check reads its file in that way, so it needs no such condition
(`KeepsStatementTokens`).

**Placeholders** (`Placeholders`). A query means text interleaved with values. The rewriting preserves
that meaning if and only if the query holds no literal `?` (`MeaningPreserved`), and rebinding the
result to `$1 .. $k` gives a query with the same meaning that is rewritten to the same pair
(`RebindRoundTrip`), which rests on a placeholder taking every digit that follows it. With list
arguments, which the rewriting is for, the query that is sent means the caller's query with every list
spelled out, if and only if that has no literal `?`, and `PipelineMeaning` also says exactly when one
is sent at all.

**Design system** (`TokenRatchet`, `NameStatus`, `Colors`, `Suggestions`). The budget loop is a
multiset difference, hence a ratchet over every chain of versions, and it is fixed which hits are
reported (`NewTokenViolations`); the reader of git's listing inverts
the printer; the colour form is canonical; a scale suggests what renders the same if and only if it has
no stale entry (`StaleEntry` shows one).

**Rule overlap** (`RuleOverlap`). The overlap test is exact except for rules limited to an empty
account list (`NoAccounts`), and the report does not depend on the order of the rules; how often each finding is reported is a
number of pairs of rules (`StoppedMeans`, `CopiesMean`).

## Model

| member | source | states |
|---|---|---|
| Slack.SlackReporter.constructor | app-e2e-tests/notifications/SlackReporter.ts:13-23 | a fresh reporter tracks the empty log |
| Slack.SlackReporter.OnTestEnd | app-e2e-tests/notifications/SlackReporter.ts:200-251 | after any attempt, every tracked set is again what the whole log makes of it: last attempt that was not skipped decides, and nothing is posted twice |
| Slack.SlackReporter.Track | app-e2e-tests/notifications/SlackReporter.ts:200-251 | the set updates and alerts of one attempt, branch by branch |
| Slack.SlackReporter.TrackFailure | app-e2e-tests/notifications/SlackReporter.ts:237-248 | a failure counts as failed or as API failure, never both, and only the former sets off an alert |
| Slack.SlackReporter.SendFailureAlert | app-e2e-tests/notifications/SlackReporter.ts:406-415 | posts for failed and timed-out attempts only, with a webhook, and once per test |
| Slack.SlackReporter.SendSkippedAlert | app-e2e-tests/notifications/SlackReporter.ts:479-500 | posts for unmuted skips only, with a webhook, and once per test |
| Slack.SlackReporter.RetryOutcomes | app-e2e-tests/notifications/SlackReporter.ts:264-276 | retried tests split into retry-passed, retry-failed and those skipped in every attempt |
| Slack.CountOutcomes | app-e2e-tests/notifications/SlackReporter.ts:268-276 | the counting loop measures the intersections |
| Slack.FollowTracks | app-e2e-tests/notifications/SlackReporter.ts:200-251 | following attempts one by one equals reading the log as a whole, for every interleaving |
| Slack.Exclusive | app-e2e-tests/notifications/SlackReporter.ts:222-249 | in every reachable state the four verdict sets are disjoint and their union is all tests seen |
| Slack.AtMostOneAlertEach | app-e2e-tests/notifications/SlackReporter.ts:20-22 | each test sets off at most one failure and one skip alert, and only a deserved one |
| Slack.SetsMean | app-e2e-tests/notifications/SlackReporter.ts:200-251 | for every reachable state and test: in which set it is, said of the statuses, errors and retry numbers of its attempts in the log |
| Slack.FailAlertsMean | app-e2e-tests/notifications/SlackReporter.ts:406-415 | a failure alert has been posted if and only if there is a webhook and some attempt of the test failed or timed out without a watcher error |
| Slack.SkipAlertsMean | app-e2e-tests/notifications/SlackReporter.ts:219-228 | a skip alert has been posted if and only if there is a webhook and the test was skipped for an unmuted reason before it did anything else |
| Report.E2EReportReporter.constructor | app-e2e-tests/notifications/E2EReportReporter.ts:57-58 | no attempts recorded yet |
| Report.E2EReportReporter.OnTestEnd | app-e2e-tests/notifications/E2EReportReporter.ts:66-121 | the attempt log is the log of attempts with collapsed statuses and the first error's mark |
| Report.AttemptsMean | app-e2e-tests/notifications/E2EReportReporter.ts:66-121 | field by field what is written for an attempt |
| Report.GroupByKey | app-e2e-tests/scripts/generate-e2e-report.js:168-175 | attempts of each key in arrival order, keys in order of first appearance |
| Report.ReadResults | app-e2e-tests/scripts/generate-e2e-report.js:168-224 | one row per key, judged from its attempts in retry order |
| Report.SortedStays | app-e2e-tests/scripts/generate-e2e-report.js:178-178 | sorting attempts that arrive in retry order changes nothing |
| Report.SortIsStable | app-e2e-tests/scripts/generate-e2e-report.js:178-178 | the sort orders attempts by retry number and keeps those of one number as they are |
| Report.KeysInOrder | app-e2e-tests/scripts/generate-e2e-report.js:168-175 | keys are listed in the order in which they first appear |
| Report.RowsMean | app-e2e-tests/scripts/generate-e2e-report.js:177-211 | a row has the suite and name of an attempt that ends its test, one retry less than attempts, and status, flakiness and API failure read off the attempts of its key |
| Agreement.FactsAgree | app-e2e-tests/scripts/generate-e2e-report.js:177-211 | for one test, report and Slack say the same if and only if its attempts are well behaved |
| Agreement.SameStoryIff | app-e2e-tests/scripts/generate-e2e-report.js:189-211 | over a whole log on which the reporters tell tests apart alike, every list agrees if and only if every test is well behaved |
| Agreement.TotalsAgreeIff | app-e2e-tests/scripts/generate-e2e-report.js:244-258 | neither total exceeds the number of tests; both equal it if and only if the reporters tell the tests apart alike; when one of them merges no tests, equal totals mean just that |
| Agreement.AgreementIff | app-e2e-tests/scripts/generate-e2e-report.js:189-211 | for every log in which Playwright numbers the attempts of each test: both list every test once and say the same of it if and only if they tell tests apart alike and every test is well behaved |
| Agreement.TestIsItsPath | app-e2e-tests/notifications/E2EReportReporter.ts:96-107 | within a project the two names of a test together are equal only for one file and one list of titles |
| Agreement.TotalsAgree | app-e2e-tests/scripts/generate-e2e-report.js:244-258 | total and retried agree whatever the attempts, where the reporters tell tests apart alike |
| Agreement.SummariesAgree | app-e2e-tests/scripts/generate-e2e-report.js:233-266 | all seven counters of the report equal the sizes of the reporter's sets, flaky being retried-and-passed |
| Agreement.ContractSuffices | app-e2e-tests/scripts/generate-e2e-report.js:180-211 | retrying only failed attempts, with watcher errors first and none on skips, makes every test well behaved |
| Agreement.SummariesCannotDisagree | app-e2e-tests/scripts/generate-e2e-report.js:200-207 | under that contract all counters agree and every retried test is counted as passed or failed on retry |
| Agreement.SkippedAfterPassing | app-e2e-tests/notifications/SlackReporter.ts:219-230 | passed then skipped: Slack keeps it passed, the report says skipped |
| Agreement.PassedTwice | app-e2e-tests/notifications/SlackReporter.ts:264-276 | passed then passed again: recovered on retry for Slack, not flaky for the report |
| Agreement.OneRowTwoTests | app-e2e-tests/notifications/E2EReportReporter.ts:96-107 | titles parted differently around " - ": one key, two Slack names, totals 1 and 2 |
| Agreement.TwoRowsOneTest | app-e2e-tests/notifications/SlackReporter.ts:100-102 | titles parted differently around " > ": one Slack name, two keys, totals 2 and 1 |
| Tables.JudgeIsProper | app-e2e-tests/scripts/generate-e2e-report.js:183-211 | a flaky row ends green and a row with an API failure does not |
| Tables.OutcomeMeans | app-e2e-tests/scripts/generate-e2e-report.js:416-417 | which rows are recorded as passed, flaky, failed, API failure and skipped, by their fields |
| Tables.ModuleTable | app-e2e-tests/scripts/generate-e2e-report.js:723-737 | each module's row counts the outcomes of exactly its tests |
| Tables.ModuleBalanced | app-e2e-tests/scripts/generate-e2e-report.js:730-736 | the four columns of a module sum to its total |
| Tables.ModuleColumns | app-e2e-tests/scripts/generate-e2e-report.js:723-737 | each column of a module counts the rows of the module with the fields it is for |
| Tables.ModuleTotals | app-e2e-tests/scripts/generate-e2e-report.js:723-743 | the columns add up to the suite totals; failed and skipped do so exactly when no skipped test carries a watcher error |
| Tables.RecordOutcomes | app-e2e-tests/scripts/generate-e2e-report.js:421-432 | the recorded outcomes are those of the rows when names are unique |
| Tables.Tally | app-e2e-tests/scripts/generate-e2e-report.js:634-647 | outcome counts and pass rate of a recorded run, every key of the record once |
| Tables.RateMeans | app-e2e-tests/scripts/generate-e2e-report.js:645-646 | the rate is a percentage of the tests that ran, and zero if none did |
| Tables.TallyIsOverall | app-e2e-tests/scripts/generate-e2e-report.js:634-647 | in whatever order the record lists its names, its counts are those of the rows |
| Tables.SamePassRate | app-e2e-tests/scripts/generate-e2e-report.js:253-260 | for unique names the pass rate recomputed from the record is that of the summary if and only if nothing passed or no skipped test carries a watcher error |
| Tables.RepeatedName | app-e2e-tests/scripts/generate-e2e-report.js:425-428 | two tests of one name are recorded once: 1 of 2 against 2 of 3 |
| Tables.RecordedTotalIff | app-e2e-tests/scripts/generate-e2e-report.js:425-428 | the recorded total is at most the number of tests, and equal if and only if names are unique |
| Tables.ByTag | app-e2e-tests/scripts/generate-e2e-report.js:272-289 | each tag's row counts exactly the tests that carry it |
| Tables.TagBalanced | app-e2e-tests/scripts/generate-e2e-report.js:279-285 | the four columns of a tag sum to its total, and its green tests are the passed and the flaky ones |
| Tables.TagColumns | app-e2e-tests/scripts/generate-e2e-report.js:272-289 | each column of a tag counts how often the rows with the fields it is for carry the tag |
| Tables.GroupFailures | app-e2e-tests/scripts/generate-e2e-report.js:710-714 | the failing tests under their causes, in order |
| Tables.FailingMeans | app-e2e-tests/scripts/generate-e2e-report.js:484-484 | the failing tests are those that failed or carry a watcher error |
| Tables.CauseConcat | app-e2e-tests/scripts/generate-e2e-report.js:710-714 | the tests of a cause keep the order of the run |
| Tables.CausesPartition | app-e2e-tests/scripts/generate-e2e-report.js:710-717 | the cause groups partition the failures: their sizes add up to the number of failures |
| History.Generate | app-e2e-tests/scripts/generate-e2e-report.js:411-477 | prior runs, previous run, page runs and the new file of one generation |
| History.PushAndSort | app-e2e-tests/scripts/generate-e2e-report.js:435-463 | filter, push and sort put the run in its place and replace an earlier version |
| History.FileIsSorted | app-e2e-tests/scripts/generate-e2e-report.js:462-463 | after every sequence of generations the file is strictly sorted and at most 20 long |
| History.SortedMeans | app-e2e-tests/scripts/generate-e2e-report.js:462-462 | strictly sorted means pairwise increasing, so no duplicates |
| History.FileIsLatest | app-e2e-tests/scripts/generate-e2e-report.js:435-474 | the bounded file is the latest 20 of everything ever recorded, in any order of generation |
| History.KeepsTwenty | app-e2e-tests/scripts/generate-e2e-report.js:462-463 | twenty runs are kept, and all as long as there are fewer |
| History.LatestVersions | app-e2e-tests/scripts/generate-e2e-report.js:433-435 | each run counts with its latest generated version |
| History.RegenerationIsIdempotent | app-e2e-tests/scripts/generate-e2e-report.js:433-463 | generating a recorded run again leaves the file unchanged, whatever was recorded in between, even for a run too old to be kept |
| History.UnchangedIff | app-e2e-tests/scripts/generate-e2e-report.js:433-463 | a generation leaves the file unchanged if and only if that very run is on file or the file is full of newer ones |
| History.PreviousIsGreatestEarlier | app-e2e-tests/scripts/generate-e2e-report.js:406-414 | the run compared with is the greatest of all runs ever recorded that are strictly earlier, when the file holds one |
| History.PreviousAmongEverything | app-e2e-tests/scripts/generate-e2e-report.js:406-414 | it is the last of the unbounded record before that instant; when the file holds none, there never was one or the file is full |
| History.PageComparesWithPrevious | app-e2e-tests/scripts/generate-e2e-report.js:476-476 | on the page the run before the current one is that run |
| History.FailStreak | app-e2e-tests/scripts/generate-e2e-report.js:498-508 | length, start and open end of the row of failures |
| History.StreakMeans | app-e2e-tests/scripts/generate-e2e-report.js:498-508 | the row of failures is as long as possible: all of it failed and what is before it did not |
| History.StreakIsSound | app-e2e-tests/scripts/generate-e2e-report.js:495-508 | against the unbounded record a streak is a lower bound, and exact when the file goes back beyond it |
| History.UnmarkedIsExactIff | app-e2e-tests/scripts/generate-e2e-report.js:507-507 | a streak without the mark is exact if and only if an earlier run is on file, or none was ever recorded, or the last one did not fail |
| History.UnmarkedIsExact | app-e2e-tests/scripts/generate-e2e-report.js:507-507 | it is exact whenever the file is not full or holds an earlier run |
| History.DroppedRunGoesUnmarked | app-e2e-tests/scripts/generate-e2e-report.js:507-507 | 21 failing runs, run 2 generated again: a streak of 1 without the mark, although run 1 failed |
| Packing.CollectNames | app-e2e-tests/scripts/generate-e2e-report.js:554-563 | every name of any run once, with its position |
| Packing.Pack | app-e2e-tests/scripts/generate-e2e-report.js:578-578 | one character per name |
| Packing.PackedRoundTrip | app-e2e-tests/scripts/generate-e2e-report.js:553-578 | the character at a test's position decodes to the recorded outcome exactly for words that have a character, each its own letter |
| Packing.Classify | app-e2e-tests/scripts/generate-e2e-report.js:481-520 | the generator's new, known, unseen and fixed lists |
| Packing.ClassesMean | app-e2e-tests/scripts/generate-e2e-report.js:481-520 | each of the four lists, by the fields of the rows and the recorded words |
| Packing.SelectConcat | app-e2e-tests/scripts/generate-e2e-report.js:481-520 | the lists keep the order of the rows |
| Packing.CompareRun | app-e2e-tests/scripts/generate-e2e-report.js:2356-2371 | the page's four lists from two packed runs |
| Packing.ComparisonsAgree | app-e2e-tests/scripts/generate-e2e-report.js:2354-2371 | both computations give the same four lists if and only if no uncoded word of the previous run interferes |
| Percentiles.NearestRank | app-e2e-tests/scripts/generate-e2e-report.js:227-231 | at least p percent of samples are at most the result, fewer than p percent are below it |
| TestLists.BuildTestListBlock | app-e2e-tests/notifications/SlackReporter.ts:593-608 | shows the longest prefix that fits and counts all the rest |
| TestLists.BlockReads | app-e2e-tests/notifications/SlackReporter.ts:593-608 | read line by line: the first tests in order, each with a bullet, and a last line whose number and the lines before it make up all tests |
| TestLists.Shown | app-e2e-tests/notifications/SlackReporter.ts:598-602 | the greatest number of leading tests that fit |
| TestLists.BlockLength | app-e2e-tests/notifications/SlackReporter.ts:593-608 | the text exceeds the limit by no more than the footer |
| TestLists.BlockFits | app-e2e-tests/notifications/SlackReporter.ts:335-361 | with its heading a block stays within 3000 characters for fewer than 10^150 tests |
| Scrub.SplitJoin | app-e2e-tests/scripts/generate-e2e-report.js:149-149 | splitting loses nothing but the separators |
| Scrub.MaskingRemoves | app-e2e-tests/scripts/generate-e2e-report.js:149-149 | masking a safe secret removes it and re-creates no other safe one |
| Scrub.RemovedIffSafe | app-e2e-tests/scripts/generate-e2e-report.js:149-149 | masking removes a secret from every text if and only if it neither begins nor ends with the mask character nor contains the mask |
| Scrub.ScrubString | app-e2e-tests/scripts/generate-e2e-report.js:146-151 | with safe secrets, none is left in the text and the text is otherwise kept; a text without secrets is unchanged |
| Scrub.ScrubbedHides | app-e2e-tests/scripts/generate-e2e-report.js:146-150 | the scrubbed text is the text with some occurrences of secrets masked and everything between them kept, in order |
| Scrub.UnmaskingInverts | app-e2e-tests/scripts/generate-e2e-report.js:149-149 | for any secret, putting it back where the masks are gives back a text that had no mask character |
| Scrub.ScrubIsClean | app-e2e-tests/scripts/generate-e2e-report.js:146-159 | with safe secrets, none in any string of any scrubbed value, whose shape and keys stay |
| Scrub.ScrubHidesOnly | app-e2e-tests/scripts/generate-e2e-report.js:146-159 | scrubbing a value masks secrets in its strings and changes nothing else |
| Scrub.CleanIffSafe | app-e2e-tests/scripts/generate-e2e-report.js:140-159 | for every choice and order of secrets out of a pool every value is scrubbed clean, if and only if all of the pool are safe |
| Scrub.CleanIsKept | app-e2e-tests/scripts/generate-e2e-report.js:146-159 | a clean value is returned as it is |
| Scrub.ScrubIsIdempotent | app-e2e-tests/scripts/generate-e2e-report.js:146-159 | with safe secrets, scrubbing twice is scrubbing once |
| Scrub.SpelledByMask | app-e2e-tests/scripts/generate-e2e-report.js:140-149 | a secret containing the mask can be spelled out by masking another |
| SqlComments.StripSqlComments | api-server/migrations/validate_migrations.py:81-115 | exactly the characters outside every comment, by nesting depth |
| SqlComments.Scan | api-server/migrations/validate_migrations.py:95-115 | the scanning loop, position by position |
| SqlComments.HasExecutableSql | api-server/migrations/validate_migrations.py:131-149 | something visible survives the stripping |
| SqlComments.SpacesAre | api-server/migrations/validate_migrations.py:149-149 | which code points count as white space |
| SqlComments.BlockEnds | api-server/migrations/validate_migrations.py:98-106 | nested and unterminated block comments end where the lexer ends them |
| SqlComments.EmptinessIsExact | api-server/migrations/validate_migrations.py:91-94 | the verdict equals that of a lexer that tracks literals, for every literal syntax, if the line comments before the first code end alike in both |
| SqlComments.CrLfSuffices | api-server/migrations/validate_migrations.py:109-111 | carriage returns in CR LF pairs only are enough for all line comments to end alike |
| SqlComments.UniversalIsExact | api-server/migrations/validate_migrations.py:91-111 | with every line break read as a line feed the verdict is exact for every file |
| SqlComments.VerdictIff | api-server/migrations/validate_migrations.py:109-111 | the verdict on a file is right if and only if turning its line breaks into line feeds would not change it |
| SqlComments.BareCarriageReturn | api-server/migrations/validate_migrations.py:109-111 | an all-comment file that is reported to hold SQL |
| SqlComments.HiddenStatement | api-server/migrations/validate_migrations.py:109-111 | a file with a statement that is reported empty |
| SqlComments.KeepsStatementTokens | api-server/migrations/validate_migrations.py:280-282 | read as the table check reads it and unless a literal hides a marker, exactly the statement tokens are kept, in order, up to white space |
| SqlComments.KeepsRawTokens | api-server/migrations/validate_migrations.py:81-115 | the same of the raw text when its line comments end alike |
| Migrations.IndexStamps | api-server/migrations/validate_migrations.py:203-213 | every timestamp with all the identities that carry it |
| Migrations.CollectNew | api-server/migrations/validate_migrations.py:229-236 | each new identity once, by timestamp |
| Migrations.CheckIdent | api-server/migrations/validate_migrations.py:236-286 | which errors one new migration gets, each exactly when it is true |
| Migrations.CheckIdents | api-server/migrations/validate_migrations.py:235-286 | no error exactly when each is right and all labels differ |
| Migrations.Validate | api-server/migrations/validate_migrations.py:203-286 | no error if and only if the change is clean, where an up file counts that is the last listed of its migration; every error is true of something new, and every true one but a shared label is listed |
| Migrations.CleanIffFilesClean | api-server/migrations/validate_migrations.py:214-286 | the condition on files is the condition on migrations and every up file being filled; when no two files are read alike, it is the verdict |
| Migrations.UnreadIff | api-server/migrations/validate_migrations.py:211-213 | an accepted change is accepted whatever an up file holds if and only if a file listed later is read alike |
| Migrations.ShadowIsAccepted | api-server/migrations/validate_migrations.py:203-213 | a file listed before a new one and read alike is accepted whatever it holds |
| Migrations.Gate | api-server/migrations/validate_migrations.py:194-200 | passes exactly when a reference could be read and the change is clean |
| Migrations.SeenDecides | api-server/migrations/validate_migrations.py:262-265 | comparing a label with its last use decides for all uses |
| Migrations.CleanSeparates | api-server/migrations/validate_migrations.py:243-265 | in an accepted change a new migration clashes with nothing |
| Migrations.StepRatchets | api-server/migrations/validate_migrations.py:21-29 | one accepted merge keeps the references ratcheted |
| Migrations.RunRatchets | api-server/migrations/validate_migrations.py:21-29 | after any run of accepted changes all additions are labelled and fresh in timestamp and label, against every other migration and the legacy |
| Migrations.FilesClashIff | api-server/migrations/validate_migrations.py:21-29 | of two files of one direction after such a run, one of them added, exactly those clash that are read alike |
| MigrationNames.ReadWritten | api-server/migrations/validate_migrations.py:54-56 | the pattern reads back the parts a file name is written from |
| MigrationNames.ReadsInFull | api-server/migrations/validate_migrations.py:54-78 | `<ts>_V<N>_<name>.up.sql`, its down file and `<ts>.up.sql` are read as the numbers and the name they spell |
| MigrationNames.WrittenIfRead | api-server/migrations/validate_migrations.py:54-56 | whatever it reads is written from those parts |
| MigrationNames.ShortNamesParseApart | api-server/migrations/validate_migrations.py:68-78 | names without leading zeros are read alike only if they are equal |
| MigrationNames.ZeroInFront | api-server/migrations/validate_migrations.py:74-75 | a zero in front gives another name that is read alike |
| MigrationNames.ShortNamesNeverClash | api-server/migrations/validate_migrations.py:21-29 | without leading zeros an added file has another timestamp and another label than every other file of its direction, after any run of accepted changes |
| MigrationNames.ShortNamesAreRead | api-server/migrations/validate_migrations.py:214-286 | without leading zeros the verdict is the condition on files, so no new up file is empty |
| MigrationNames.EmptyTwin | api-server/migrations/validate_migrations.py:206-213 | two new names of one migration, the first file empty: accepted |
| Placeholders.PrepareQueryForIn | runbook-server/common/rdbms.go:36-66 | fails exactly when some placeholder is out of range, naming the first; otherwise the arguments follow the placeholders |
| Placeholders.MeaningPreserved | runbook-server/common/rdbms.go:33-66 | read by position the result means what the query meant by number, if and only if the query has no literal question mark |
| Placeholders.RebindTokens | runbook-server/common/rdbms.go:136-147 | the rebound query is read back placeholder for placeholder |
| Placeholders.RebindRoundTrip | runbook-server/common/rdbms.go:136-147 | rebinding keeps the meaning, and rewriting again gives the same pair |
| Placeholders.PipelineMeaning | runbook-server/common/rdbms.go:136-147 | with list arguments: exactly when a query is sent, and that it means the caller's query with every list spelled out if and only if that has no literal question mark |
| Placeholders.SpellMeaning | runbook-server/common/rdbms.go:141-144 | spelling lists out keeps the positional meaning |
| Placeholders.RebindMeaning | runbook-server/common/rdbms.go:145-145 | read by number, the rebound query means what it meant by position |
| TokenRatchet.NewHits | app/scripts/check-ds.js:294-307 | the hits whose ordinal exceeds the base count, in file order |
| TokenRatchet.FillBudget | app/scripts/check-ds.js:295-298 | the budget of a key is its count in the base |
| TokenRatchet.ExcessCounts | app/scripts/check-ds.js:286-293 | per key the increase is reported and nothing else |
| TokenRatchet.SilentIffNoIncrease | app/scripts/check-ds.js:286-307 | silent if and only if no key became more frequent |
| TokenRatchet.ReorderingIsSilent | app/scripts/check-ds.js:286-293 | moving values about reports nothing |
| TokenRatchet.ApplyAllowMarkers | app/scripts/check-ds.js:269-278 | in file order and with lines numbered from 1, exactly the hits without a marker on their line or on a comment right above; where asked for, a marker covers only a line with one hit |
| TokenRatchet.NewTokenViolations | app/scripts/check-ds.js:294-308 | in file order and with lines numbered from 1, exactly the hits that are one too many of their key and have no marker; per key as many as there are; none if and only if all excess hits are covered |
| TokenRatchet.ChainRatchets | app/scripts/check-ds.js:286-308 | over any chain of accepted versions a key's count rises by no more than the excused hits |
| NameStatus.ChangedFiles | app/scripts/check-ds.js:352-366 | the record reader, total on every listing |
| NameStatus.ParseInvertsPrint | app/scripts/check-ds.js:352-366 | one change per record that is no deletion, with the right base file, never past the end |
| NameStatus.ExpectedMeans | app/scripts/check-ds.js:355-366 | what each record of the listing stands for: renames, copies, additions, deletions and the rest |
| Colors.NormalForm | app/scripts/ds-tokens.js:94-101 | the result is canonical and denotes the same colour |
| Colors.NormalizesAlikeIffSameColor | app/scripts/ds-tokens.js:94-101 | equal forms if and only if equal RGBA values (section 5.2 of CSS Color Module Level 4) |
| Colors.NormalizingIsIdempotent | app/scripts/ds-tokens.js:94-101 | normalising twice is normalising once |
| Suggestions.LoadScale | app/scripts/ds-tokens.js:129-142 | pixels to the property last declared with them |
| Suggestions.SuggestParts | app/scripts/ds-tokens.js:348-360 | all parts are replaced, or none when one is off the scale |
| Suggestions.FaithfulIff | app/scripts/ds-tokens.js:129-142 | every entry renders to its pixels if and only if no property is declared again after the pixels it is suggested for |
| Suggestions.StaleEntry | app/scripts/ds-tokens.js:129-142 | a property declared twice is still suggested for its first pixels and renders to its second |
| Suggestions.OneValueEach | app/scripts/ds-tokens.js:113-142 | one declared value per property suffices |
| Suggestions.SuggestionsRender | app/scripts/ds-tokens.js:343-376 | parts, spacing units scaled by 8 and negatives render to the value replaced |
| Suggestions.SuggestsUnitsIff | app/scripts/ds-tokens.js:365-375 | a number of spacing units gets a suggestion if and only if it is not zero and a property with a step is declared last for eight pixels each |
| RuleOverlap.OverlapIsExact | notifications-server/scripts/rule_outcome_report.py:54-63 | two rules of one source can match one event exactly when the test says so, but for a rule limited to no accounts |
| RuleOverlap.NoAccounts | notifications-server/scripts/rule_outcome_report.py:54-63 | a rule limited to no accounts is taken to overlap with an unlimited one, although no event matches both |
| RuleOverlap.OverlapIsSymmetric | notifications-server/scripts/rule_outcome_report.py:54-63 | the order of the two rules does not matter |
| RuleOverlap.ChatChannels | notifications-server/scripts/rule_outcome_report.py:70-75 | the channels of each chat platform, without webhooks and email |
| RuleOverlap.ReportPair | notifications-server/scripts/rule_outcome_report.py:88-98 | everything there is to report about two rules, as often as it applies |
| RuleOverlap.GroupRules | notifications-server/scripts/rule_outcome_report.py:84-86 | the rules of each tenant and source in order |
| RuleOverlap.Report | notifications-server/scripts/rule_outcome_report.py:82-99 | the findings are those of all pairs, with multiplicity, and stopped emails are filed under that platform |
| RuleOverlap.StoppedMeans | notifications-server/scripts/rule_outcome_report.py:66-98 | a stopped email is reported as often as there are two rules of one tenant and source that can match one event, of which the one is suppressed or expires later and the other is neither and has an email mapping with channels |
| RuleOverlap.CopiesMean | notifications-server/scripts/rule_outcome_report.py:66-95 | extra copies are reported as often as there are two such rules that do not stop and have different channels on a chat platform |
| RuleOverlap.ReportPermutes | notifications-server/scripts/rule_outcome_report.py:82-99 | the same findings for the rules in any order, up to the order of the two names |

## Left out

- Text of errors and titles: whether a message carries the `[GraphQLWatcher]` mark is an input, so removing colour codes from messages is not modelled; an attempt carries the two reporters' names for its test, which only `OneRowTwoTests`, `TwoRowsOneTest` and `TestIsItsPath` derive from titles; that suites are file paths without a colon is asked by the last.
- Rows carry no durations, screenshots, steps or messages; how a cause is read off a message is a parameter, and so are a row's tags; slowdowns, the sorting of the tables and the comparison with another environment would only add easy members.
- Statuses other than passed, failed and skipped in a results file written by something else than the reporter.
- History.Generate: a file that was not written by the generator (unsorted or with duplicate stamps) is not promised to become sorted at once; ISO stamps are modelled as the instants they denote, years 0 to 9999.
- Migrations.Validate: warnings, the `CREATE TABLE` pattern (a parameter here; the file name pattern is one too, instantiated in `MigrationNames`), unreadable files, and runs without any reference.
- MigrationNames.ReadWritten: ASCII digits only, where Python's `\d` takes all decimal digits of Unicode; and no line feed at the end, which the pattern's `$` lets pass.
- Placeholders.PrepareQueryForIn: the regular expression engine is modelled by its result; `sqlx.In` and `Rebind` are modelled from their documented behaviour, without `driver.Valuer` arguments, and which Go values count as lists is an input.
- Scrub.ScrubString: which environment variables count as secrets, their trimming and sorting; any list of non-empty texts is allowed instead. Object keys are kept as they are, as in the source.
- RuleOverlap.Report: groups are visited in order of first appearance instead of sorted, which changes only the order of the list.
- RuleOverlap.OverlapIsExact: an event matches a rule as the script reads it; the router's own reading, with lists of severities, exceptions and rules over several sources, is not part of this model.
- SqlComments.EmptinessIsExact: the lexer shares Python's notion of white space, so U+00A0 and the other Unicode spaces, which PostgreSQL does not treat as white space, count as blank in both; the byte order mark and undecodable bytes are taken care of before the model begins.
- Percentiles.NearestRank: over real numbers, without floating-point rounding.
- Colors.NormalForm: trimmed input, and not the `rgb()` and `hsl()` forms, which rest on floating-point parsing.
- NameStatus.ChangedFiles: untracked files, which are appended as they come; restricted imports, whose set comparison is simpler than the multiset one.
- Syntax trees of TypeScript files, CSS parsing, HTML pages, Slack posting, git, the file system and the environment: inputs and outputs of the models.
