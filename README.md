# YouTrack dashboard core in Dafny

This project models the data layer of a small dashboard over a YouTrack issue tracker.
It covers three modules.

- The **period resolver** (`period_utils.py`) turns a period key (`current_month`,
  `previous_month`, `last_6_months`, `last_1_year`) and a reference date into an
  inclusive range of calendar dates. It also prints the range as a query fragment,
  `field: {YYYY-MM-DD} .. {YYYY-MM-DD}`.
- The **issue queries** (`youtrack_queries.py`) build tracker queries and page through
  the matching issues 100 at a time. They read each issue's Type and State custom
  fields and fold the issues into nested count maps:
  - per project, type and state;
  - per project and type;
  - per month and type for one project.
  They also build the web link to an issue search.
- The **metadata helpers** (`youtrack_metadata.py`) cover the rest:
  - a time-to-live cache around every public call;
  - the project synonym table;
  - the assignee table from lower-cased login or name to login, built over paged user
    listings;
  - the lists of Type and State values, read through a project's custom-field bundles.

How the model is arranged:

- Each tracker endpoint is a parameter. A query maps to its full list of matches, and
  a request with `$skip`/`$top` returns one slice of that list. The fetch loops are
  methods that page through the slices, and they are proved to see every match once,
  in order.
- Each aggregation loop is a method. It is proved equal to a fold over the issues.
  The fold is proved to yield the intended tallies: every count is the number of
  matching issues, keys exist only for positive counts or configured projects, no
  excluded type appears, and the overall counts are the sums of the per-project
  counts.
- The cache is a class whose entry map the calls update in place.
- Dates follow Python's `date`: years 1 to 9999, the Gregorian leap rule, and
  `isoformat` as in section 5.6 of RFC 3339.
- A date Python cannot represent (`replace(year=10000)`, one day before 0001-01-01)
  is the error `DateOutOfRange`, not an exception.
- `date.today()`, `time.time()` and the environment are parameters.
- A JSON string field that is missing or null is `""`, since the source always reads
  such fields through `x or ""`.

Modules:

- `wrappers.dfy`: Option and Result.
- `strings.dfy`: ASCII `lower`, `upper`, `strip`, `split`, `join`, `replace`, decimal
  printing.
- `scan.dfy`: the early-return search.
- `sorting.dfy`: `sorted` by a key.
- `tally.dfy`: counting and nested count maps.
- `dates.dfy`: `date`, `replace`, `timedelta(days=1)`, `isoformat`.
- `period_utils.dfy`
- `issues.dfy`: issue records, field extractors and the configured lists.
- `query_builder.dfy`
- `issue_fetcher.dfy`
- `aggregation.dfy`
- `metadata.dfy`

## Model

| member | source | states |
|---|---|---|
| Dates.FirstDayOfMonth | period_utils.py:14-15 | the first day of `d`'s month, a valid date not after `d` |
| Dates.LastDayOfMonth | period_utils.py:17-22 | fails exactly for December 9999; otherwise the last day of `d`'s month, which has the month's length and is not before `d` |
| Dates.LastDayOfMonthOrdinal | period_utils.py:17-22 | the result is one day before the first of the next month, as the source computes it |
| Dates.PreviousDay | period_utils.py:41-42 | `d - timedelta(days=1)` fails only on 0001-01-01 |
| Dates.PreviousDayOrdinal | period_utils.py:41-42 | the day before has the ordinal one less |
| Dates.MakeDate | period_utils.py:47-51 | `date(y, m, d)` succeeds exactly for a year in 1..9999, a month in 1..12 and a day within the month |
| Dates.DaysInMonth | youtrack_queries.py:102 | `monthrange(y, m)[1]`: 28 to 31, and February has 29 exactly in leap years |
| Dates.IsoFormat | period_utils.py:80 | ten characters `YYYY-MM-DD` with dashes at 4 and 7 and digits elsewhere |
| Dates.ParseIsoFormat | period_utils.py:80 | reading an ISO date back gives the date it was printed from |
| Dates.FormatParseIso | period_utils.py:80 | a string that reads as a date is that date's ISO form |
| PeriodUtils.ParsePeriodKey | period_utils.py:35-65 | a key is recognised exactly when it is one of the configured `PERIOD_KEYS`, and names its resolver |
| PeriodUtils.ParsePeriodKeyName | period_utils.py:35-60 | every resolver's name is recognised as that resolver |
| PeriodUtils.CurrentMonthRange | period_utils.py:36-39 | the first to the last day of `today`'s month; fails only in December 9999 |
| PeriodUtils.PreviousMonthRange | period_utils.py:40-43 | the whole previous calendar month, across a year boundary in January; one month before `today`'s; fails only in January of year 1 |
| PeriodUtils.Last6MonthsRange | period_utils.py:44-54 | from the first of the month five months back, in the previous year when `month <= 5`, to the end of `today`'s month: six months counting both ends |
| PeriodUtils.Last1YearRange | period_utils.py:55-59 | from the first of the same month a year earlier to the end of `today`'s month: thirteen months counting both ends |
| PeriodUtils.GetPeriodRange | period_utils.py:27-67 | an unknown key fails with the key and the valid keys, and only an unknown key does; a resolved range has valid ends, starts on a first day, ends on a last day, is not empty, and ends no earlier than `today` except for `previous_month` |
| PeriodUtils.ParseRangeFragment | period_utils.py:80 | a fragment that parses names two valid dates |
| PeriodUtils.ParseRangeFragmentRoundTrip | period_utils.py:80 | the printed fragment `field: {start} .. {end}` reads back as `(start, end)` |
| PeriodUtils.FieldPeriodFilter | period_utils.py:72-80 | fails exactly when the period range fails, with the same error |
| PeriodUtils.FieldPeriodFilterRoundTrip | period_utils.py:72-80 | a filter reads back as exactly the resolved range |
| PeriodUtils.CreatedFilterRoundTrip | period_utils.py:82-89 | the `created` filter reads back as the resolved range |
| PeriodUtils.CurrentMonthExample | period_utils.py:76-77 | 2025-08-15 gives 2025-08-01 .. 2025-08-31 |
| PeriodUtils.PreviousMonthExample | period_utils.py:40-43 | 2025-01-10 gives 2024-12-01 .. 2024-12-31 |
| PeriodUtils.Last6MonthsExample | period_utils.py:44-54 | 2025-03-20 gives 2024-10-01 .. 2025-03-31 |
| PeriodUtils.Last1YearLeapExample | period_utils.py:55-59 | 2024-02-29 gives 2023-02-01 .. 2024-02-29 |
| Strings.Strip | youtrack_queries.py:22 | `strip()`: the result is a slice of the input with only whitespace before and after it, and has no whitespace at either end |
| Strings.StripIdempotent | youtrack_queries.py:22 | stripping twice is stripping once |
| Strings.StripUpper | youtrack_queries.py:22 | stripping and upper-casing commute |
| Strings.StripLower | youtrack_queries.py:23 | stripping and lower-casing commute |
| Strings.SplitIsWords | youtrack_metadata.py:141 | `split()` yields only non-empty words without whitespace |
| Strings.SplitWord | youtrack_metadata.py:141 | a single word splits into itself |
| Strings.SplitAtSpace | youtrack_metadata.py:141 | a whitespace character separates: the split of the text around it is the split of the part before followed by the split of the part after |
| Strings.SplitJoin | youtrack_metadata.py:141 | splitting words joined by single spaces gives the words back |
| Strings.ReplaceAbsent | youtrack_metadata.py:141 | replacing a pattern that does not occur changes nothing |
| Strings.JoinAppend | youtrack_queries.py:156 | joining one more part appends the separator and the part |
| Scan.FirstHit | youtrack_queries.py:168-176 | the result is the fallback or the value of an element that hits |
| Scan.FirstHitAt | youtrack_queries.py:168-176 | the first element that hits decides the result |
| Scan.FirstHitNone | youtrack_queries.py:168-176 | with no hit the result is the fallback |
| Issues.DisplayName | youtrack_queries.py:171-175 | a non-record value gives None; otherwise the trimmed `name`, or the trimmed `localizedName` when `name` is empty; None when that is blank; a result is never empty and is stripped |
| Issues.ExtractFromFirstMatch | youtrack_queries.py:168-176 | the first custom field whose trimmed, lower-cased name is in the list decides the result, even when its value is not a record |
| Issues.ExtractFromNoMatch | youtrack_queries.py:176 | with no such field the result is None |
| Issues.ExtractFromIgnoresLater | youtrack_queries.py:168-176 | fields after the first matching one are never consulted |
| Issues.ExtractType | youtrack_queries.py:163-176 | a type found is non-empty and stripped |
| Issues.ExtractState | youtrack_queries.py:178-185 | a state found is non-empty and stripped |
| Issues.NormalizeActiveProjectsShape | youtrack_queries.py:22 | the project list holds the stripped, upper-cased form of every configured code that is not blank and nothing else; each is a non-empty code without lower-case letters or surrounding whitespace; the list is no longer than the configured one, and when no code is blank it is the codes' normalisations position by position |
| Issues.NormalizeActiveProjectsIdempotent | youtrack_queries.py:22 | normalising the normalised list changes nothing |
| Issues.NormalizeExcludedTypes | youtrack_queries.py:23 | the set holds exactly the stripped, lower-cased configured types that are not blank, each a fixed point of that normalisation |
| Issues.ExcludedTypeMatches | youtrack_queries.py:23 | a type equal to a configured one up to case and surrounding whitespace is excluded |
| IssueFetcher.Page | youtrack_queries.py:62-68 | a response is the slice of the matches from `$skip`, at most `$top` long, and empty exactly past the end |
| IssueFetcher.IterIssues | youtrack_queries.py:48-75 | yields every match once in order, requesting offsets 0, p, 2p, ..., with `n / p + 1` requests |
| QueryBuilder.ProjectsOrClause | youtrack_queries.py:254-260 | the clause is empty exactly when no project code is non-empty |
| QueryBuilder.ProjectsOrClauseRoundTrip | youtrack_queries.py:254-260 | parsing the clause gives back the non-empty codes in order, for codes without a closing brace |
| QueryBuilder.ClauseSkip | youtrack_queries.py:259 | an empty code contributes no term |
| QueryBuilder.Qt | youtrack_queries.py:125-128 | the stripped value, quoted exactly when it is non-empty and contains whitespace |
| QueryBuilder.QtSingleToken | youtrack_queries.py:125-128 | the result is one whitespace-free token, or quotes around the stripped value |
| QueryBuilder.RStripSlash | youtrack_queries.py:140 | `rstrip("/")`: a prefix of the input not ending in `/`, with only slashes removed |
| QueryBuilder.IssuesQueryShape | youtrack_queries.py:146-156 | project, date range and subtask exclusion, then the type only when given and the state only when given, separated by single spaces |
| QueryBuilder.YtIssuesUrl | youtrack_queries.py:132-157 | `#` exactly when the base URL is empty after removing trailing slashes; otherwise the result fails with the period resolver's error when it fails and is a link when it succeeds, and a link's base is the URL without trailing slashes and its query that of the resolved range |
| Tally.CountSnoc | youtrack_queries.py:224-245 | one more issue raises a count by one exactly when it matches |
| Tally.CountByKey | youtrack_queries.py:236-243 | counting per key and adding up over a duplicate-free list of keys that covers every issue gives the total count |
| Tally.Inc1 | youtrack_queries.py:117 | `d[k] = d.get(k, 0) + 1` raises `k` by one, adds only `k`, and leaves every other key alone |
| Tally.Inc2 | youtrack_queries.py:237-243 | the two-level update raises one leaf by one and leaves every other leaf alone |
| Tally.Inc3 | youtrack_queries.py:237-239 | the three-level update raises one leaf by one and leaves every other leaf alone |
| Tally.TotalUpdate | youtrack_queries.py:245 | setting one entry changes the sum of all entries by the difference between the new and the old value |
| Aggregation.StartingMap | youtrack_queries.py:218 | `{p: {} for p in ACTIVE_PROJECTS}`: one empty entry per active project and no other key |
| Aggregation.ClassifyAllowed | youtrack_queries.py:227-234 | an issue is counted under a project exactly when its type, or `Unspecified`, is not excluded and its project code is not blank; a kept issue keeps its type and state |
| Aggregation.PeriodCountsQuery | youtrack_queries.py:213-216 | fails exactly when the period filter fails, and with the period filter's error |
| Aggregation.CountsQueryShape | youtrack_queries.py:213-216 | the outer `strip()` removes only the space an empty project clause leaves: the query is the project clause (when some code is active), the created clause and `has: -{subtask of}`, one space apart |
| Aggregation.PeriodCountsQueryShape | youtrack_queries.py:213-216 | for a resolving key the query is the project clause (when some code is active), the `created` filter of the resolved range and the subtask exclusion, one space apart |
| Aggregation.TallyTypeState | youtrack_queries.py:218-245 | the loop computes the fold over the issues |
| Aggregation.FoldTypeStateTallies | youtrack_queries.py:218-251 | `raw` is the number of issues; `after_exclude` the number counted, which is also the sum of all overall counts; every overall and per-project leaf is the number of counted issues with that project, type and state; the projects are the active ones plus those of counted issues; no excluded type is a key and every count is positive |
| Aggregation.CountsByTypeAndState | youtrack_queries.py:187-251 | no active project gives the empty result with an empty query; otherwise it fails exactly when the query fails, and on success carries the query and the tallies of exactly the issues the tracker matches |
| Aggregation.OverallIsSumOfProjects | youtrack_queries.py:236-243 | every overall count is the sum of the per-project counts |
| Aggregation.TallyType | youtrack_queries.py:291-315 | the loop computes the fold over the issues |
| Aggregation.FoldTypeTallies | youtrack_queries.py:291-325 | `raw` is the number of issues; `after_exclude` the number kept, which is the sum of overall counts plus the kept issues without a project; each count is the number of counted issues with that project and type; keys as for the state counts |
| Aggregation.CountsByType | youtrack_queries.py:265-325 | the same early return, failure cases and query as the type-and-state counts, with the type tallies of the matched issues |
| Aggregation.OverallTypeIsSumOfProjects | youtrack_queries.py:313-315 | every overall type count is the sum of the per-project counts |
| Aggregation.MonthsShown | youtrack_queries.py:95 | between 1 and 12 months |
| Aggregation.TallyMonth | youtrack_queries.py:111-117 | the month loop computes the fold over the month's issues |
| Aggregation.FoldMonthTallies | youtrack_queries.py:111-117 | each count is the number of non-excluded issues of that type, with or without a project; no excluded type is a key and every count is positive |
| Aggregation.MonthlyCountsByType | youtrack_queries.py:85-122 | an empty project gives no months; otherwise it fails exactly for a year `date` cannot represent; on success it has one entry per month shown, in order, keyed `YYYY-MM`, each holding the tallies of that month's query |
| Aggregation.MonthKeysOrdered | youtrack_queries.py:96 | the month keys of a year are distinct and increase in string order |
| Sorting.SortByCorrect | youtrack_metadata.py:103 | `sorted`: the result is ordered and a permutation of the input |
| Sorting.SortByPermutation | youtrack_metadata.py:31 | two inputs with the same elements and distinct keys sort to the same list |
| Metadata.MakeKey | youtrack_metadata.py:31 | the key keeps the positional arguments and holds the keyword arguments ordered by name |
| Metadata.KeywordOrderIrrelevant | youtrack_metadata.py:31 | the order in which keyword arguments are passed does not change the key |
| Metadata.TtlCache.constructor | youtrack_metadata.py:25-27 | a new cache has the given lifetime and no entries |
| Metadata.TtlCache.Call | youtrack_metadata.py:30-39 | the function runs exactly when no entry younger than the lifetime exists for the key; a hit returns the stored value and changes nothing; a miss returns the function's value and stores it with the call time |
| Metadata.TtlCache.CacheClear | youtrack_metadata.py:42 | every entry is forgotten, so no key is fresh at any time |
| Metadata.DedupFrom | youtrack_metadata.py:144-145 | keeps exactly the elements not already seen, without duplicates |
| Metadata.DedupOrder | youtrack_metadata.py:144-145 | the kept elements are in the order of their first occurrence |
| Metadata.NameTokens | youtrack_metadata.py:141 | every token is a non-empty word without whitespace |
| Metadata.NameTokensOfWords | youtrack_metadata.py:141 | a name of words joined by single spaces, without "argaam", has exactly those words as tokens |
| Metadata.SynonymsShape | youtrack_metadata.py:136-145 | a synonym list starts with the lower-cased short name, has no duplicates, holds exactly the raw synonyms, and keeps their first-occurrence order |
| Metadata.FetchProjects | youtrack_metadata.py:129-148 | the loop computes the fold of the per-record updates |
| Metadata.FoldProjectsKeys | youtrack_metadata.py:131-146 | the table has exactly one key per non-empty short name in the listing |
| Metadata.FoldProjectsLast | youtrack_metadata.py:146 | a short name maps to the synonyms of the last record carrying it |
| Metadata.KeysOfFacts | youtrack_metadata.py:194-200 | a user contributes keys exactly when the login is not blank; the login key is the lower-cased login, and a name key exists exactly when the name is not blank and differs from it |
| Metadata.AddKeysFacts | youtrack_metadata.py:196-200 | one user adds exactly the keys it writes and changes nothing else; the login maps to itself unless the name entry overwrites it, and the name maps to the login |
| Metadata.StoreUser | youtrack_metadata.py:193-200 | the loop body performs exactly the user's key updates |
| Metadata.AddPage | youtrack_metadata.py:193-200 | the inner loop applies every user of the page in order |
| Metadata.AssigneeKeys | youtrack_metadata.py:193-200 | the table's keys are exactly the keys some user writes |
| Metadata.AssigneeValues | youtrack_metadata.py:193-200 | every value is the login key of some user |
| Metadata.LoginMapsToItself | youtrack_metadata.py:196-198 | a user's lower-cased login maps to itself, provided no user's name key equals it |
| Metadata.NameMapsToLogin | youtrack_metadata.py:199-200 | a user's lower-cased name, present and different from the login, maps to that login unless a later user writes that key |
| Metadata.UsersFetched | youtrack_metadata.py:184-205 | no users for `max_users <= 0`; never more than the listing holds; at least `min(n, max_users)`; fewer than `max_users + 100` |
| Metadata.FetchAssignees | youtrack_metadata.py:172-207 | the table is built from exactly the users read, which are whole pages up to `max_users` or the end of the listing; pages are requested at `$skip` = page * 100, one per page read plus the empty page that ends a listing of full pages |
| Metadata.ReadUserPages | youtrack_metadata.py:184-205 | the paging loop, with the same contract for any per-user keys |
| Metadata.LimitExit | youtrack_metadata.py:184 | leaving the loop on the user limit means whole pages up to the limit were read |
| Metadata.EmptyPageExit | youtrack_metadata.py:191-192 | leaving on an empty page means the whole listing was read |
| Metadata.ShortPageExit | youtrack_metadata.py:203-204 | leaving on a short page means the whole listing was read |
| Metadata.FindBundleIdForField | youtrack_metadata.py:81-94 | a bundle id found belongs to a field whose name matches in any case |
| Metadata.FindBundleIdFirstMatch | youtrack_metadata.py:89-93 | the first field whose name matches in any case decides the result, even when it has no bundle id |
| Metadata.FindBundleIdNoMatch | youtrack_metadata.py:94 | with no matching field there is no bundle id |
| Metadata.NamedValues | youtrack_metadata.py:103-112 | the values are exactly the names of the bundle values that have one |
| Metadata.NamedValuesAppend | youtrack_metadata.py:112 | filtering keeps the bundle's order |
| Metadata.EnumBundleValues | youtrack_metadata.py:96-103 | the named values, sorted, as a permutation |
| Metadata.FetchTaskTypes | youtrack_metadata.py:151-158 | empty when the Type field has no bundle id or an empty one; otherwise a sorted permutation of the named values of the enum bundle |
| Metadata.FetchTaskStates | youtrack_metadata.py:161-169 | empty when the State field has no bundle id or an empty one; otherwise the named values of the state bundle in bundle order |
| Metadata.NoTypeFieldNoTypes | youtrack_metadata.py:155-157 | a project with no field named Type, in any case, has no types |
| Metadata.NoStateFieldNoStates | youtrack_metadata.py:166-168 | a project with no field named State, in any case, has no states |

## Left out

- HTTP transport is left out: sessions, headers, timeouts, retries, `raise_for_status`, JSON decoding and `urljoin`. Each endpoint is a parameter that returns the decoded records.
- Environment handling is left out: the `.env` loading and the `RuntimeError` a module raises at import when `YOUTRACK_URL` or `YOUTRACK_TOKEN` is missing. Once the module is imported, the monthly counts' checks of those two values are always true, so only the project test is modelled.
- `quote` in `yt_issues_url` is not modelled. The link carries the base URL and the query before URL encoding.
- `_qt` is modelled although the source never calls it.
- The `ValueError` message text is not modelled. The error carries the unknown key and the list of valid keys that the message names.
- `date.today()` and `time.time()` are parameters. The cache clock is an integer tick count, and floating-point time is not modelled.
- Strings are ASCII: `lower`, `upper`, `strip`, `isspace` and `split` ignore non-ASCII letters and whitespace.
- `NameTokens`: the `if tok` filter in `fetch_projects` is proved to drop nothing, so it has no counterpart.
- `fetch_projects` takes the listing as returned. The request's `$top` of 1000 rows is the endpoint's concern.
- A bundle value whose `name` is JSON null is not modelled. Such a value counts as unnamed, where the source would keep None and then fail to sort it.
- A custom field whose `field.name` is JSON null is not modelled; the source would fail on `.lower()`. A missing or null name is "".
- `_iter_issues_minimal` is a generator, and its laziness is not modelled. The fetch returns the whole list, and the loops run over it.
- The result dictionaries are records and maps. The monthly result is a sequence of (month key, counts) pairs in key order, which is the order of the source's rebuilt dictionary.
- `LoginMapsToItself`: stated only for a table where no user's name key equals the login key. In the source, a later user's name can overwrite an earlier user's login entry.
- `NameMapsToLogin`: stated only when no later user writes the same key, for the same reason.
- Wrapping the public functions in the cache is not modelled. `TtlCache` models the wrapper for any function, and the fetchers are modelled uncached.
- `App.py` and `chart_theme.py` are not part of this model. The values read from `config.py` are parameters (`ACTIVE_PROJECTS`, `EXCLUDED_TYPES`) or constants (`PERIOD_KEYS`).
- The `__main__` probe in `youtrack_metadata.py` is not modelled.
