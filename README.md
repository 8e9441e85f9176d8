# Activity exporters: row shaping and aggregation

This project is a Dafny model of three batch exporters. Each one pages through a REST API,
turns the raw records into rows and summarises them.

- `gdocs_export.py` reads Google Drive activity. The model covers:
  - the acceptance filter: the actor is the current user, the action is CREATE, EDIT or COMMENT,
    and the first named target is a Google Doc;
  - the row built from an accepted activity;
  - the page loop;
  - first-occurrence deduplication on `(timestamp, action, file_id)`;
  - the per-file rollup;
  - the summary list, sorted by last activity.
- `gh_export.py` reads GitHub. The model covers:
  - `req`, with its single rate-limit retry;
  - `Link`-header pagination;
  - the search, commit and repository listings;
  - the PR detail lookups;
  - PR, issue, review and commit rows;
  - `add_row` and its per-category summary;
  - the "By repo" rollup.
- `calendar_export.py` reads Google Calendar. The model covers:
  - `parse_event_time`;
  - the row of each event, including the choice of meeting link;
  - the page loop;
  - the per-week counts.

Shared pieces live in their own modules:

- `IsoTime`:
  - dates, UTC date-times and `iso` / `parse_ts`, which follow `datetime.fromisoformat` after
    `replace("Z", "+00:00")`;
  - `default_range`, with today passed in as a date;
  - the query bounds of a window;
  - strftime's `%W` week number.
- `Text`: the string operations the code uses (`split`, `join`, slicing, `strip`, `upper`).
- `Tally`: counting, sums and a descending sort.
- `Paging`: the page shape both Google listings share, and which pages a token-driven page loop
  requests.

## How the model is built

The code's loops are modelled as methods. Each one is proved against a function that specifies
it. The properties the exporters rely on are then proved as lemmas about those functions.
HTTP traffic goes through `GhFetch.Session`. This class holds three things:

- the responses the server is scripted to return;
- the requests sent so far;
- the pauses taken.

Each response carries the reading of `time.time()` taken once it arrives. The Google listings are
modelled as a sequence of pages.

Points where the code's behaviour is easy to misread; the model follows the code:

- Rate-limit backoff happens only on status 403 with `X-RateLimit-Remaining: 0`. A 429 is raised
  like any other error (gh_export.py:15).
- When a commit listing fails part way through, the commits already yielded have already been
  added as rows. Only the rest of that repository is skipped (gh_export.py:73-79).
- An activity is judged by its first named target only. Later targets are never looked at, even
  when the first named one is not a document (gdocs_export.py:134-139).
- An unparsable timestamp is kept as it was, not replaced by an empty value (gh_export.py:49-50,
  gdocs_export.py:44-45).

## Model

| member | source | states |
|---|---|---|
| DocsActivity.FirstPresent | gdocs_export.py:61-63 | the index is the first key present; every earlier key is absent |
| DocsActivity.ActionLabelPriority | gdocs_export.py:60-64 | the label is OTHER iff no action key is present; CREATE iff `create` is present; EDIT iff `edit` but not `create`; COMMENT iff `comment` but neither of the two before it |
| DocsActivity.ActivityTimePreference | gdocs_export.py:66-71 | a present `timestamp` wins even when empty; otherwise a non-empty `endTime`; otherwise `startTime`; the result is "" exactly in the cases where none of these supplies a value |
| DocsActivity.FirstNamed | gdocs_export.py:134-137 | the index is the first target with a non-empty item name; every earlier target is unnamed |
| DocsActivity.ChooseTarget | gdocs_export.py:133-137 | the target loop with its `break` leaves the first named target, or the last target when none is named; the name is non-empty iff some target is named |
| DocsActivity.ActivityRowAccepted | gdocs_export.py:119-151 | a row is produced iff some actor is the current user, the label is CREATE/EDIT/COMMENT, a named target exists and it is a Google Doc; the row's fields are the label, the normalised time and its first 10 characters, and the title; the file id is the part after the last `/` and holds no `/`; the URL is the editor URL of that same id |
| DocsActivity.AcceptActivity | gdocs_export.py:119-151 | the loop body with its `continue`s yields exactly the row the filter specifies |
| DocsActivity.PageRows | gdocs_export.py:119-151 | the activity loop of one page appends the rows of its accepted activities, in order |
| DocsActivity.RowsOfAppend | gdocs_export.py:113-151 | the rows of two runs of activities are the rows of each, concatenated |
| DocsActivity.RowsOfActions | gdocs_export.py:126-127 | every row carries CREATE, EDIT or COMMENT |
| DocsActivity.CollectRows | gdocs_export.py:113-156 | the query loop requests the first page without a token and each later page with the previous page's token; it stops after the first page without a token; the rows are those of all activities on the pages served |
| DocsActivity.Dedup | gdocs_export.py:159-167 | the `seen`-set loop computes the first-occurrence filter |
| DocsActivity.DedupSubsequence | gdocs_export.py:159-167 | the output is a subsequence of the input |
| DocsActivity.DedupKeys | gdocs_export.py:159-167 | the output holds exactly the keys of the input |
| DocsActivity.DedupDistinct | gdocs_export.py:159-167 | no two output rows share a key |
| DocsActivity.DedupKeepsFirst | gdocs_export.py:161-166 | the row at a key's first position is kept |
| DocsActivity.DedupOfDistinct | gdocs_export.py:159-167 | rows whose keys are already distinct pass through unchanged |
| DocsActivity.DedupIdempotent | gdocs_export.py:159-167 | deduplicating twice gives the same rows as once |
| DocsSummary.Absorb | gdocs_export.py:194-214 | folding a row into a record keeps first/last as valid date-times |
| DocsSummary.AbsorbRow | gdocs_export.py:194-214 | the in-place updates of one record equal the fold step |
| DocsSummary.StampTime | gdocs_export.py:199-205 | a parsed timestamp lowers `first` and raises `last` only when it is earlier or later than the value held (or none is held), and adds its day |
| DocsSummary.CountAction | gdocs_export.py:207-214 | exactly the counter named by the action (if any) goes up by one, and the total always does |
| DocsSummary.StatsOf | gdocs_export.py:182-214 | a file's record, built from its rows, has valid first/last times |
| DocsSummary.RollupOf | gdocs_export.py:177-214 | the rollup's records all have valid times, and its order lists only recorded ids |
| DocsSummary.RollUp | gdocs_export.py:177-214 | the `setdefault` loop computes the rollup fold, insertion order included |
| DocsSummary.RollupKeys | gdocs_export.py:178-193 | there is a record for an id iff the id is non-empty and some row carries it; the order lists each record once |
| DocsSummary.RollupPerFile | gdocs_export.py:177-214 | each record is the fold of exactly that file's rows, in order |
| DocsSummary.StatsCounts | gdocs_export.py:205-214 | total_actions counts the file's rows; creates, edits and comments count their labels; active days ≤ total_actions |
| DocsSummary.StatsAccepted | gdocs_export.py:207-214 | if every row is CREATE, EDIT or COMMENT, creates + edits + comments = total_actions |
| DocsSummary.ParsedTimes | gdocs_export.py:199-200 | the parsable timestamps are valid date-times |
| DocsSummary.StatsFirstLast | gdocs_export.py:199-204 | first and last are set iff some timestamp parses; first is the earliest parsed time and last the latest, so first ≤ last |
| DocsSummary.StatsDays | gdocs_export.py:205 | the active days are exactly the dates of the parsed timestamps |
| DocsSummary.LastNonEmptyIsLast | gdocs_export.py:194-197 | the value is "" iff all entries are empty; otherwise it is the last non-empty entry |
| DocsSummary.StatsTitleUrl | gdocs_export.py:194-197 | title and URL are the last non-empty ones among the file's rows, so they change only on non-empty values |
| DocsSummary.BuildFileList | gdocs_export.py:216-232 | the `files_list` loop gives one summary per record, in insertion order |
| DocsSummary.RowsForCount | gdocs_export.py:178-181 | a file's row count is the number of times its id occurs |
| DocsSummary.FileIdsCovered | gdocs_export.py:178-181 | every non-empty id has rows in the rollup input |
| DocsSummary.SummariesTotal | gdocs_export.py:214-229 | summed totals equal summed id counts |
| DocsSummary.SummarizeFiles | gdocs_export.py:176-235 | the list is a permutation of the file summaries, sorted by last activity, latest first, with files without a timestamp last; the totals add up to the rows with a file id; each file has active days ≤ total_actions, and its first and last activity are both set or both empty; creates + edits + comments = total_actions when every row is accepted |
| IsoTime.FormatDate | calendar_export.py:23-24 | `isoformat()` of a date has 10 characters |
| IsoTime.FormatIso | gh_export.py:48 | the `%Y-%m-%dT%H:%M:%SZ` text has 20 characters |
| IsoTime.FormatDisplay | gdocs_export.py:218-219 | the `%Y-%m-%d %H:%M:%S %Z` text of a UTC time has 23 characters: a date, a space, a clock and " UTC" |
| IsoTime.DisplayRoundTrip | gdocs_export.py:218-219 | the date and clock fields of that text parse back to the date-time shown |
| IsoTime.ParseDate | calendar_export.py:135 | a parsed `YYYY-MM-DD` is a valid date |
| IsoTime.FromIsoFormat | gh_export.py:48 | a parse result is a valid date-time |
| IsoTime.ParseIso | gdocs_export.py:80-86 | `parse_ts` yields only valid date-times |
| IsoTime.DateRoundTrip | calendar_export.py:23-24 | `isoformat()` of a valid date parses back to it |
| IsoTime.IsoRoundTrip | gh_export.py:48 | the canonical form parses back to the date-time it came from |
| IsoTime.IsoEmpty | gh_export.py:46 | `iso` gives "" iff its input is "" |
| IsoTime.IsoShape | gh_export.py:44-50 | an unparsable non-empty input comes back unchanged; a parsable one becomes canonical text of the same instant |
| IsoTime.IsoIdempotent | gdocs_export.py:38-45 | normalising twice is normalising once |
| IsoTime.RankOrder | gdocs_export.py:201-203 | the integer rank orders valid date-times exactly as the date-time comparison does, and tells distinct ones apart |
| IsoTime.PrevDay | calendar_export.py:23 | the day before is valid and one ordinal earlier |
| IsoTime.SubDays | calendar_export.py:23 | `d - timedelta(n)` exists iff n is below the ordinal, and it is n ordinals earlier |
| IsoTime.DefaultRangeSpan | calendar_export.py:21-25 | the default window exists iff today is more than 182 days after 0001-01-01; until parses to today; since parses to the day 182 days earlier |
| IsoTime.ResolveWindowMeaning | calendar_export.py:65-67 | both bounds given: they are the window; either missing: the window exists iff today is more than 182 days after 0001-01-01, its `until` parses to today and its `since` to the day 182 days earlier |
| IsoTime.ParseDateAndClock | calendar_export.py:72-73 | a date, `T`, a clock and `Z` parse to that date at that time |
| IsoTime.QueryBoundsSpan | calendar_export.py:72-73 | `timeMin` parses to the start of since; `timeMax` parses to 23:59:59 on until |
| IsoTime.Weekday | calendar_export.py:136 | the weekday lies in 0..6 |
| IsoTime.DayOfYear | calendar_export.py:136 | the day of the year lies in 1..366 |
| IsoTime.WeekOfYear | calendar_export.py:136 | `%W` lies in 0..53 |
| IsoTime.WeekStartsOnMonday | calendar_export.py:136 | `%W` goes up by one exactly on Mondays and is otherwise the previous day's week |
| Paging.PagesServed | calendar_export.py:120-122 | the loop serves pages up to and including the first one without a token, or all of them |
| Paging.RequestTokensStep | calendar_export.py:86 | one more request carries the token of the page before it |
| Paging.PagesServedNext | calendar_export.py:120-122 | while the last page had a token, another page is served |
| Paging.PagesServedAt | calendar_export.py:120-122 | the loop stops exactly at the first page without a token |
| GhFetch.BackoffSeconds | gh_export.py:16-17 | the pause is `max(reset - now + 2, 10)`, with a missing reset read as 0, so at least 10 |
| GhFetch.Fetch | gh_export.py:13-21 | `req` uses at most the scripted responses; an answered call used one |
| GhFetch.FetchRetriesOnce | gh_export.py:13-21 | there is a second attempt iff the first response is 403 with Remaining "0"; that is the only pause, of at least 10 s; an answer is the last response used and never an error status; a raise carries the last status, which is an error |
| GhFetch.SecondRateLimitRaises | gh_export.py:15-20 | a rate-limited retry is raised as 403, not retried again |
| GhFetch.Session.constructor | gh_export.py:94 | a new session has its script and has sent nothing |
| GhFetch.Session.Send | gh_export.py:14 | sending records the request and takes the next scripted response |
| GhFetch.Session.Sleep | gh_export.py:18 | a pause is recorded and nothing else changes |
| GhFetch.Req | gh_export.py:13-21 | sends the request once, or twice after one backoff pause when rate-limited, and returns the outcome `Fetch` gives for the scripted responses |
| GhFetch.AngleTargetShape | gh_export.py:37-38 | the `<([^>]+)>` match is non-empty, holds no `>`, and occurs between `<` and `>` in the part; there is no match without `<` |
| GhFetch.LastTargetWins | gh_export.py:35-38 | there is no next URL iff no part qualifies; otherwise it comes from a qualifying part after which none qualifies, so the last one wins |
| GhFetch.NextUrlShape | gh_export.py:31-41 | a next URL is non-empty and holds no `,` or `>`; a missing or empty header ends pagination |
| GhFetch.ParseNextUrl | gh_export.py:31-38 | the loop over `link.split(",")` computes the next URL |
| GhFetch.CrawlFrom | gh_export.py:23-42 | pagination uses at most the scripted responses |
| GhFetch.CrawlUnfold | gh_export.py:26-42 | a crawl is its first call followed by the rest |
| GhFetch.CrawlCalls | gh_export.py:26-40 | the first call is the starting request; there is one call per page plus one for a failed last call; a finished crawl's last page has no next URL |
| GhFetch.CrawlFollowsLinks | gh_export.py:39-42 | each later call goes to the previous page's next URL, with params dropped |
| GhFetch.CrawlStatuses | gh_export.py:20-27 | every yielded page has a non-error status; a failed crawl ends on an error status |
| GhFetch.CrawlSleeps | gh_export.py:13-21 | at most one pause per call, each of at least 10 s |
| GhFetch.NextPage | gh_export.py:27-42 | one loop pass is the first step of the crawl: the page is yielded when answered, and the crawl stops or goes on at the next URL without parameters |
| GhFetch.Paginate | gh_export.py:23-42 | `paginate` yields the crawl's bodies and ends as the crawl ends; it consumes, sends and sleeps exactly as the crawl says |
| GhFetch.FetchAll | gh_export.py:58-61 | the lookups use at most the script and give at most one result per request |
| GhFetch.FetchAllShape | gh_export.py:130-141 | the run stops early iff a request goes unanswered; each result is the body of a successful scripted response; only the given requests are sent; pauses are at most one per result plus one, each ≥ 10 s |
| GhFetch.FetchAllStep | gh_export.py:130-141 | the run from request i is that request's exchange followed by the rest |
| GhFetch.FetchEach | gh_export.py:130-141 | one `req` per request in order: an HTTP error gives None, and an unanswered request stops the run |
| GhReport.MakeRowShape | gh_export.py:103-116 | null title/url become ""; an empty time stays empty; an unparsable time is kept; a parsable one becomes canonical text of the same instant |
| GhReport.Report.constructor | gh_export.py:101-102 | no rows; all four counters are 0 |
| GhReport.Report.AddRow | gh_export.py:103-116 | exactly one row is appended; only its category's counter goes up, by one; every counter still counts its category's rows |
| GhReport.LastTwo | gh_export.py:124 | `[-2:]` keeps the last two parts, or all of them when there are fewer |
| GhReport.RepoFullSegments | gh_export.py:124 | splitting repo_full on `/` gives back the last two path segments, so it has at most two |
| GhReport.DropParams | gh_export.py:124 | `urlparse` splits `;params` off the path: the result is a prefix of the path, equal to it when there is no `;`, and cut at a `;` with no `/` after the cut |
| GhReport.KeptHasNoParams | gh_export.py:124 | every `;` left in the kept path has a `/` after it, so the last segment keeps no parameters |
| GhReport.ParamsDropped | gh_export.py:124 | a path without `;`, followed by `;` and slash-free parameters, loses exactly the parameters |
| GhReport.HttpsRawPath | gh_export.py:124 | the path of an https URL without query or fragment is what follows the host, less its parameters |
| GhReport.HttpsPath | gh_export.py:124 | the `urlparse` path of an https URL without `;` is what follows the host |
| GhReport.ApiUrlPath | gh_export.py:124 | the path of an API repository URL is `/repos/owner/name` |
| GhReport.ApiUrlParams | gh_export.py:124 | `;params` after an API repository URL leave its path `/repos/owner/name` |
| GhReport.ThreeSegments | gh_export.py:124 | `/a/b/c` stripped and split gives `[a, b, c]` |
| GhReport.ApiSegments | gh_export.py:124 | an API repository URL has path segments `repos`, owner, name |
| GhReport.RepoFullOfApiUrl | gh_export.py:124 | repo_full of an API repository URL is `owner/name` |
| GhReport.SearchIssues | gh_export.py:52-56 | the items of every page served; success iff pagination finished; HTTP traffic as pagination specifies |
| GhReport.ListCommits | gh_export.py:70-79 | the commits of the pages yielded, with the window's bounds as query; an error status ends the listing quietly, and only an unanswered request is fatal |
| GhReport.ListUserRepos | gh_export.py:63-68 | the full names on every page served; success iff pagination finished |
| GhReport.CommitArgsShape | gh_export.py:170-174 | message ≤ 300 chars, no newline, a prefix of the message, and the whole first line when it fits; id is the first min(12, len) chars of the sha; URL is html_url, or the github.com commit URL when that is empty |
| GhReport.PrExtraShape | gh_export.py:130-141 | a failed lookup gives no extras; otherwise all six columns; `merged` is "True" iff there is a merge time; `merged_at` is empty iff there is none |
| GhReport.IssueLabels | gh_export.py:150-152 | the labels column is empty iff there are no labels (or one empty name); without commas in names, splitting it gives the names back |
| GhReport.AddAll | gh_export.py:147-161 | one `add_row` per record, in order; the counters stay valid |
| GhReport.AddCommits | gh_export.py:168-174 | one commit row per commit, in order |
| GhReport.AddPullRequests | gh_export.py:123-142 | one row per PR whose lookup returned, with empty extras after an HTTP error; an unanswered lookup stops the run before that PR's row |
| GhReport.Counts.Bump | gh_export.py:191 | only the given category's counter goes up, by one |
| GhReport.ByRepo | gh_export.py:188-191 | one entry per repository of the rows; each counter counts that repository's rows of that category; the insertion order lists each entry once |
| GhReport.ReposOfStep | gh_export.py:191 | one more row adds one to its own repository and category, and nothing else |
| GhReport.TotalIsRowCount | gh_export.py:201 | a repository's four counters add up to its number of rows |
| GhReport.ReposOfLength | gh_export.py:186-191 | a category's rows across repositories match the summary's count |
| GhReport.LinesSum | gh_export.py:202 | a category's counters over the lines add up to that category's rows in those repositories |
| GhReport.LinesTotal | gh_export.py:201 | the lines' totals add up to the rows of those repositories |
| GhReport.SortedLinesRepos | gh_export.py:200 | sorting keeps each repository exactly once, with its own counters |
| GhReport.SortedLinesSums | gh_export.py:195-202 | after sorting, the totals add up to the number of rows and each category's counters to its rows |
| GhReport.RepoSummary | gh_export.py:188-202 | repositories ordered by total, descending, each once, each with its own per-category counts; the totals add up to the number of rows; each category's counters add up to `summary[category]` |
| Calendar.ParseEventTimeCases | calendar_export.py:45-52 | a present dateTime wins, and null gives ""; otherwise a present date becomes date + `T00:00:00Z`, which parses to midnight of that day; otherwise "" |
| Calendar.FirstVideo | calendar_export.py:103-104 | the index is the first entry point whose upper-cased type is VIDEO |
| Calendar.MeetLinkPreference | calendar_export.py:100-108 | the link is the URI of the first VIDEO entry when it has one; otherwise the first entry's URI; "" without entries |
| Calendar.ChooseMeetLink | calendar_export.py:102-108 | the loop with its `break`, then the fallback, computes that link |
| Calendar.RowOfShape | calendar_export.py:91-98 | date is empty iff start is, and otherwise start's first 10 characters; the title is never empty: the stripped summary, or "(No title)" when blank; attendees_count is the list length, 0 when absent |
| Calendar.PageRows | calendar_export.py:90-119 | the loop over one page appends each event's row |
| Calendar.RowsOf | calendar_export.py:90-119 | exactly as many rows as events |
| Calendar.RowsOfEach | calendar_export.py:90-119 | the k-th row is the k-th event's own row |
| Calendar.RowsOfAppend | calendar_export.py:77-119 | the rows of two runs of events are the rows of each, concatenated |
| Calendar.EventsStep | calendar_export.py:90-119 | one more page adds its events' rows |
| Calendar.RequestsAppend | calendar_export.py:78-87 | one more token adds one request |
| Calendar.CollectEvents | calendar_export.py:72-122 | the listing loop requests pages within the window's bounds, each request carrying the previous page's token, until a page has no token; every event on every page served gives one row |
| Calendar.WeeksOfCount | calendar_export.py:131-139 | each row with a parsable date contributes one week and no other row does; weeks lie in 0..53 and years in 1..9999 |
| Calendar.WeekRankInjective | calendar_export.py:145 | distinct week keys have distinct ranks |
| Calendar.WeeksOfStep | calendar_export.py:132-137 | one more row adds one to its own week and nothing else |
| Calendar.CountByWeek | calendar_export.py:131-139 | one entry per week that occurs; each entry counts that week's dated rows; the order lists each once |
| Calendar.ByWeek | calendar_export.py:131-146 | every week occurs once, latest first, with its row count; the counts add up to the rows with a parsable date |
| Text.Take | gdocs_export.py:143 | `s[:n]` has length min(n, len) and is a prefix |
| Text.Split | gh_export.py:124 | `split` gives at least one part, none holding the separator, and `[s]` without one |
| Text.JoinSplit | gh_export.py:124 | joining the parts of a split gives the string back |
| Text.SplitJoin | gh_export.py:124 | splitting a join of separator-free parts gives the parts back |
| Text.SplitAppend | gh_export.py:124 | splitting around a separator splits each side |
| Text.LastPartIsSuffix | gdocs_export.py:147 | `split("/")[-1]` is a suffix with no `/`, and a `/` precedes it when it is shorter |
| Text.TrimStart | calendar_export.py:94 | only leading whitespace is removed |
| Text.TrimEnd | calendar_export.py:94 | only trailing whitespace is removed |
| Text.StripProperties | calendar_export.py:94 | `strip()` has no whitespace at either end, and is empty iff the string is all whitespace |
| Text.FirstPart | gh_export.py:171 | `split(sep)[0]` is a prefix without the separator, followed by it when shorter, and the whole string when there is none |
| Text.NatToStringValue | gh_export.py:142 | `str(n)` is a run of digits that denotes `n`, with no leading zero unless `n` is 0 |
| Text.StripChar | gh_export.py:124 | `strip("/")` neither starts nor ends with `/`, and leaves a string with no `/` at its ends alone |
| Text.StripCharSlice | gh_export.py:124 | `strip("/")` is a slice of the input, and every character outside that slice is `/` |
| Tally.SortDescCorrect | gdocs_export.py:235 | the descending sort is sorted by the key and is a permutation |
| Tally.SumCountsCovers | gh_export.py:200-201 | with distinct keys covering every element, the counts add up to the length |
| Tally.SumOfPermutation | gdocs_export.py:235 | sums do not change under reordering |
| Tally.DistinctPermutation | calendar_export.py:145 | a reordering of distinct elements is distinct |

## Left out

- OAuth and the token file (`get_creds`): credentials and interactive consent are outside the model.
- The Google API client calls are not modelled. The Drive and Calendar listings are given as the
  sequence of pages the server returns; when that sequence ends while the last page still has a
  token, the model stops there.
- In the Drive query loop, the request is modelled by its page token only. The `filter` string is
  left out; its bounds are those of `IsoTime.QueryBounds`.
- `time.sleep` is recorded as a duration in the session, and the clock is read from each response.
  The 0.2 s pause between Drive pages is not modelled.
- Sessions: one `GhFetch.Session` per response body type (search pages, PR details, commit pages,
  repository pages). The interleaving of these calls on a single `requests.Session` is not captured.
- GhReport.AddPullRequests: makes all the detail lookups first and then adds the rows. The code
  alternates them, but the lookups touch only the session and the rows only the report, so
  the result is the same.
- Network errors are modelled as `NoAnswer`, an unanswered request that ends the run.
  The exception types of `requests` are not modelled beyond that.
- `main()` is not a single member. Its phases are the methods above, and their order is as in the
  code.
- CSV and Markdown writing, console output and argparse are not modelled: they are presentation
  and I/O only.
- `fromisoformat`: only its common forms are modelled (see `IsoTime`): date only, or date-time with
  an optional fraction of 3 or 6 digits and an optional `±HH:MM` offset. Other forms are
  treated as unparsable. The offset is read and dropped, as the code's `strftime` with a literal
  `Z` prints the wall-clock time.
- `strptime("%Y-%m-%d")` is modelled as an exact `YYYY-MM-DD` parse. Python also accepts
  unpadded fields.
- `%Y` is written with four digits. Python's output differs for years below 1000.
- `upper()` is modelled for ASCII letters only; other letters are left as they are. `strip()` uses
  the full set of characters for which `str.isspace()` is true.
- Calendar.ByWeek: the weeks are ordered by `WeekRank` (year × 100 + week). For four-digit years this
  is the string order of the `%Y-W%W` labels that the code sorts.
- Tally.SortDescCorrect: proves that the result is sorted and a permutation, but not that it is
  stable. The sort itself is stable: `InsertDesc` places a row after every row whose key is at
  least its own, so rows with equal keys keep their input order, as in Python's `sort`.
- `urlparse` is modelled for URLs with an `http://` or `https://` scheme and for plain paths:
  the query, the fragment, the host and the last segment's `;params` are split off. Other
  schemes (whose parameters `urlparse` keeps, and whose host it finds differently) are not
  modelled.
- A null `commit` object is read as `{}` by the code itself (gh_export.py:171, 173). A null
  `message` (gh_export.py:171), a null `author` (gh_export.py:173) or a null `sha` (gh_export.py:170,
  whose `[:12]` then raises at gh_export.py:174) makes the code raise; the model reads a missing
  message, author date or sha as "".
- Drive records are typed in the model, so the code's crashes on null objects are not modelled: a
  null `user` or `knownUser` (gdocs_export.py:49-51), a null `primaryActionDetail`
  (gdocs_export.py:61-62, where `k in None` raises) and a null `timeRange` (gdocs_export.py:69-70)
  make the code raise, and the model reads each of them as absent.
- A non-numeric `X-RateLimit-Reset` header makes `int()` raise. The model reads the header as a
  number, or 0 when it is absent.
- In the GitHub exporter, the pages' JSON decoding is taken as given: bodies are typed records.
