# Bounded, date-filtered paginated scans of a GitHub REST client

This project models the one piece of real logic in `GitHubIntegration`
(`mle/integration/github.py`): the paginated scans behind `get_issues`,
`get_pull_requests` and `get_commit_history`, and the default analysis
period of `get_user_activity`. The endpoint is a fixed sequence of pages
(`pages[n-1]` answers the request for page `n`; pages past the end are empty).
Timestamps are seconds since the epoch in UTC. Dates are day numbers. A start
date means that day at 00:00:00, an end date that day at 23:59:59.

- `Dates` (`dates.dfy`): start and end of day, the optional `Window`, and the
  proof that the window compares whole calendar days.
- `Pages` (`pages.dfy`): the page source, the stream of items up to the first
  empty page, and the truthiness of `limit` (`None` and `0` mean no cap).
- `IssueScan` (`issue_scan.dfy`): `_process_items`. The method
  `ProcessItems` is the imperative loop. It is proved equal to the functions
  `ScanItems`/`ScanPages`, and the lemmas state what the scan promises.
- `CommitScan` (`commit_scan.dfy`): `get_commit_history`. The method
  `GetCommitHistory` gathers, truncates and then filters. It is proved equal
  to `CommitHistory`.
- `UserActivity` (`user_activity.dfy`): the date defaults of `get_user_activity`.
  "Today" is a parameter.

Modelling choices:
- `limit` is `Option<int>`, and Python's truthiness is kept. A negative limit
  ends the issue scan after the first stored item.
- In the commit scan a negative limit slices `commits[:limit]` the Python way,
  which drops the last `-limit` commits of the first page.
- A username filters commits only when it is given and non-empty.
- A commit's `author` may be null (`login` is `None`). With a username given,
  such a commit that passes the dates makes the filter raise, as the code does
  at line 205. The model returns `Failure(AuthorMissing(sha))` for it.
- With three non-empty pages, when neither the limit nor an item older than
  the start date stops it first, the issue scan makes four requests: it also
  requests page 4 and stops on its empty answer (line 63), and `fetched`
  counts that request.
- Descending order is a precondition of the lemmas that need it, stated over
  the whole stream. Order within each page is not enough
  (`PerPageOrderIsNotEnough`).

## Model

| member | source | states |
|---|---|---|
| Dates.StartOfDayByDay | mle/integration/github.py:73 | a timestamp is at or after `start_date` 00:00:00 exactly when its calendar day is the start day or later |
| Dates.EndOfDayByDay | mle/integration/github.py:69-71 | a timestamp is at or before `end_date` 23:59:59 exactly when its calendar day is the end day or earlier |
| Dates.InWindowByDay | mle/integration/github.py:200-204 | the inclusive window admits a timestamp exactly when its day lies between the given start and end days |
| IssueScan.ProcessItems | mle/integration/github.py:37-90 | the imperative scan returns the dictionary of the scan specification and requests exactly pages 1, 2, ..., fetched in that order |
| IssueScan.ScanItemsAppend | mle/integration/github.py:66-86 | walking `a + b` is walking `a`, then, unless that stopped, walking `b` from where `a` left the dictionary |
| IssueScan.ScanPagesIsStreamScan | mle/integration/github.py:59-90 | the page loop builds the same dictionary as one walk over all items up to the first empty page, and it ends as exhausted exactly when that walk does not stop |
| IssueScan.HaltIsNeverExhausted | mle/integration/github.py:66-86 | inside a page the walk stops only on an old item or on the limit |
| IssueScan.ScanPagesShape | mle/integration/github.py:59-88 | every page requested before the last is non-empty, at most one request goes past the last page, and the scan is exhausted exactly when its last request came back empty |
| IssueScan.ScanPagesLocal | mle/integration/github.py:59-88 | any two sources that answer the requested pages alike give the same outcome |
| IssueScan.NoFetchAfterStop | mle/integration/github.py:74 | the scan's outcome depends on no page after its last request |
| IssueScan.NewerItemIsSkipped | mle/integration/github.py:69-72 | an item newer than `end_date` 23:59:59 changes nothing and does not stop the walk |
| IssueScan.OlderItemEndsWalk | mle/integration/github.py:73-74 | the first item older than `start_date` 00:00:00 ends the walk with the dictionary held just before it, whatever follows on the page |
| IssueScan.OlderItemEndsScan | mle/integration/github.py:73-74 | when that item is on page p, the scan makes exactly p requests, ends as passed-start, and stores nothing after it on page p or on later pages |
| IssueScan.ScanItemsCapped | mle/integration/github.py:85-86 | from below the cap, the walk never exceeds the cap, and it holds the cap exactly when it stopped on the limit |
| IssueScan.ScanItemsUncapped | mle/integration/github.py:85 | with limit None or 0 the walk stops only on an old item |
| IssueScan.ScanRespectsLimit | mle/integration/github.py:85-86 | with a positive limit L the result has at most L entries, and the scan stops on the limit exactly when it holds L (one entry for a negative limit); with None or 0 the limit never ends it |
| IssueScan.ScanItemsFaithful | mle/integration/github.py:69-83 | every record stored is in the window, sits under its own number and is the projection of an item seen |
| IssueScan.ScanWithinWindow | mle/integration/github.py:69-83 | every record returned has created_at at or after the start day 00:00:00 and at or before the end day 23:59:59, is keyed by its number and comes from an item on a scanned page |
| IssueScan.OldTailFiltersToNothing | mle/integration/github.py:73-74 | in a newest-first sequence whose items are all older than the start, no item is in the window |
| IssueScan.DescendingWalkIsFilterThenGather | mle/integration/github.py:50-74 | with newest-first items, the early-stopping walk builds the same dictionary as filtering to the window first and collecting up to the limit |
| IssueScan.DescendingScanLosesNothing | mle/integration/github.py:50-86 | with newest-first pages, the whole scan equals filter-then-collect over every item up to the first empty page: the early stop loses no in-window item |
| IssueScan.GatherUncapped | mle/integration/github.py:85 | without a cap, collecting is inserting every item |
| IssueScan.DescendingUncappedScanIsWindowFilter | mle/integration/github.py:50-86 | with newest-first pages and no cap, the scan returns exactly the dictionary of all in-window items |
| IssueScan.InsertAllOverwrites | mle/integration/github.py:76-83 | a number is a key exactly when some item carries it, its record is the last such item's, and other keys keep their records |
| IssueScan.PerPageOrderIsNotEnough | mle/integration/github.py:50-51 | if only each page is sorted, an old item ending page 1 hides an in-window item on page 2 |
| CommitScan.PyPrefix | mle/integration/github.py:191 | `commits[:limit]` is a prefix of the list, of length min(limit, len) for a non-negative limit and len + limit (at least 0) for a negative one |
| CommitScan.GetCommitHistory | mle/integration/github.py:165-213 | the imperative gather-then-filter returns the specified history, or the error raised, and requests exactly pages 1, 2, ..., fetched |
| CommitScan.GatherIsStreamPrefix | mle/integration/github.py:182-193 | without a cap the gathered list is every commit up to the first empty page; with a positive cap L it is the first L of them in arrival order; no date is consulted |
| CommitScan.NegativeLimitKeepsFirstPage | mle/integration/github.py:190-192 | a negative limit stops after the first request and keeps the first page less its last `-limit` commits |
| CommitScan.GatherStopsAtLimit | mle/integration/github.py:184-193 | with a positive limit L, the pages before the last request hold fewer than L commits, and the last request came back empty or brought the total to L: no page is requested after L commits are held |
| CommitScan.GatherPagesLocal | mle/integration/github.py:184-193 | the gathered list depends on no page after the last request |
| CommitScan.GatherShape | mle/integration/github.py:184-193 | every page requested before the last is non-empty, and without a cap the last request is the first empty page |
| CommitScan.FilterCommitsSpec | mle/integration/github.py:195-211 | the filter raises exactly when a commit passes the dates with a username given and a null author; otherwise every selected commit's sha is kept, every kept record comes from a selected commit, and there are no more keys than commits |
| CommitScan.CommitHistoryWithinWindow | mle/integration/github.py:195-213 | every returned commit's date is within [start 00:00:00, end 23:59:59], its login equals the username when one is given, and the call fails exactly on a null author as above |
| CommitScan.CommitHistoryBounded | mle/integration/github.py:184-213 | with a positive limit L the returned dictionary has at most L entries |
| CommitScan.UncappedHistoryKeepsEverySelected | mle/integration/github.py:184-211 | without a limit, every selected commit on any page up to the first empty one is returned: there is no early stop on date |
| UserActivity.DayOfEndOfDay | mle/integration/github.py:289-290 | formatting today at 23:59:59 as a date gives today |
| UserActivity.ActivityPeriod | mle/integration/github.py:288-299 | an explicit end date raises TypeError; otherwise the end is today 23:59:59, and the start is the given day at 00:00:00 or, by default, today-6, whose datetime is 23:59:59 |
| UserActivity.DefaultWindowIsLastSevenDays | mle/integration/github.py:288-297 | with no dates the scans cover exactly 7 * 86400 seconds: the timestamps whose day lies in today-6 .. today |
| UserActivity.DefaultActivityIsLastSevenDays | mle/integration/github.py:301-304 | every issue, pull request and commit returned by the three scans at lines 302-304 lies within the last seven days, today included |
| UserActivity.ExplicitEndDateRaises | mle/integration/github.py:292-293 | as written, any explicit end date raises before anything is fetched |
| UserActivity.IntendedActivityPeriod | mle/integration/github.py:288-299 | with `tzinfo` spelled right, an explicit end date ends the period that day at 23:59:59, and the default start is six days before the end day |
| UserActivity.IntendedPeriodExtendsActual | mle/integration/github.py:288-299 | the corrected period equals the code's wherever the code does not raise, and with no start date it covers the seven days ending on the end day |

## Findings

| source | as written | input that shows it | evidently intended | confidence | as-written member | corrected member |
|---|---|---|---|---|---|---|
| mle/integration/github.py:292-293 | `.replace(hour=23, minute=59, second=59, zinfo=timezone.utc)` passes an unknown keyword, so `replace` raises `TypeError` | `get_user_activity("u", end_date="2024-01-31")` | `tzinfo=timezone.utc`: the period ends on the given day at 23:59:59 UTC | high (not executed) | UserActivity.ExplicitEndDateRaises | UserActivity.IntendedActivityPeriod |

The default path of `get_user_activity` is the same in both versions
(`IntendedPeriodExtendsActual`). The lemmas about the default window hold for both.

## Left out

- HTTP transport and authentication (`_make_request`, `__init__`): network I/O. The endpoint is a fixed sequence of pages, so transport errors are not modelled.
- Server-side query parameters (`state`, `per_page`, `sort`, `direction`, `since`, `until`, `creator`, `author`): what the server does with them is not visible. Newest-first order is a stated precondition instead. The 100-item page size is not enforced.
- `datetime.strptime`, `strftime` and `datetime.now`: library parsing and the wall clock. Timestamps are integers, dates are day numbers and "today" is a parameter. Parse errors are not modelled. In the two scans an empty date string is falsy and so the same as no date.
- IssueScan.ProcessItems: Python dictionaries keep insertion order, and the model's `map` does not. Keys and values are modelled, not their order.
- CommitScan.GetCommitHistory: `commit_history` (lines 195-211) is an insertion-ordered dictionary too; the model's `map` keeps its keys and values but not their order.
- UserActivity.DefaultActivityIsLastSevenDays: speaks only of the three scans at lines 302-304; the per-pull-request commits fetched at line 314 are not date-filtered and are not modelled.
- UserActivity.ActivityPeriod: `get_user_activity` tests `is None` (lines 288, 295), so an empty date string there reaches `strptime` and raises `ValueError`; the model's `None` stands only for an absent date, and that `ValueError` is not modelled.
- Issue records keep `created_at` as the parsed timestamp rather than the original string. An issue's `user` is taken to be present.
- `get_source_code`, `get_readme`, `get_license`, `get_contributors`, `get_releases`, `get_pull_request_commits`, `get_pull_request_diff`: a recursive remote directory walk, base64 decoding, and single requests with JSON field projection. None of them has scan logic.
- The report assembly and per-PR commit fetching in `get_user_activity` (lines 301-358): I/O fan-out and dictionary building. Only the period and the windows it hands to the scans are modelled.
- Re-running a scan on an unchanged source gives the same result. In the model this holds automatically, because every scan is a function of its inputs.
- `print` logging and the `__main__` example.
