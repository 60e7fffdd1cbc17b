# ship — a verified model of the commit feed core

`ship` is a small web application that shows the commits an owner has pushed
to an allowlist of GitHub repositories. It has a feed of the newest commits
and a calendar heatmap of how many were made each day. This project models
its core in Dafny and proves properties of that model:

- the date-range resolver (`DateRange`, with the calendar arithmetic it
  relies on in `Calendar`);
- the GitHub client (`GitHub`): the paging loop, entry normalisation, the
  commit-message splitter and the token lookup;
- the `GET /api/commits` handler (`CommitsRoute`), with its bounded worker
  pool (`WorkerPool`), the stable newest-first sort (`StableSort`) and the
  per-day tallies (`DayTally`);
- the repository allowlist, display names and emoji (`RepoAllowlist`,
  `RepoIcons`);
- the client components: the heatmap statistics (`ShippingHeatmap`), the
  feed's query and range controls (`CommitFeed`), and the rotating quote
  (`RotatingQuote`).

Pure code is modelled as functions and lemmas. The loops that build the
page, the day tallies, the heatmap statistics and the grid, and the shuffle,
are methods proved against those functions. The components' state is held
in classes whose methods are the event handlers.

Representation:

- Instants are integers, in milliseconds since 1970-01-01T00:00:00Z.
- Calendar days are day numbers: days since 1970-01-01. For four-digit
  years, their order is the order of the `YYYY-MM-DD` keys the source
  compares.
- JavaScript built-ins that the model does not open up are parameters of
  the model:
  - `Number(text)`;
  - `new Date(iso).getTime()`;
  - the `/rate limit/i` test;
  - the local day of an instant;
  - `format(day, "yyyy-MM-dd")`;
  - `Math.random()`.
- The GitHub HTTP API is a function from the request the paging loop makes
  to the response it receives.

Where each operation is defined: the functions below are the models
themselves. The rows of "## Model" state what is proved about them.

- `GitHub.SplitCommitMessage`: `splitCommitMessage`, src/lib/github.ts:28-33.
- `GitHub.Paginate` and `GitHub.ListCommits`: the paging loop of `listCommitsForRepo`, src/lib/github.ts:51-116. The method `GitHub.ListCommitsForRepo` is that loop, imperatively.
- `WorkerPool.MapAll`: `mapWithConcurrency`, src/app/api/commits/route.ts:40-60.
- `CommitsRoute.ToDayKey`: `toDayKey`, src/app/api/commits/route.ts:22-26.
- `CommitsRoute.Validate`: the query checks of `GET`, src/app/api/commits/route.ts:77-111.
- `CommitsRoute.FetchRepo`: the per-repository fetch and its failure policy, src/app/api/commits/route.ts:131-156.
- `StableSort.SortByKeyDesc` and `CommitsRoute.Merge`: the flattening and newest-first sort, src/app/api/commits/route.ts:158-162.
- `DayTally.DayCounts`, `DayTally.DayRepos` and `DayTally.Tally`: the per-day counting loop, src/app/api/commits/route.ts:170-179.
- `DayTally.TopTwo`: a day's top repositories, src/app/api/commits/route.ts:187-190.
- `CommitsRoute.Summaries`: the daily summaries, src/app/api/commits/route.ts:181-195.
- `CommitsRoute.Respond`: the whole `GET` handler, src/app/api/commits/route.ts:62-234. The method `CommitsRoute.Get` is that handler, imperatively.
- `Calendar.ParseYmd`: the shape test and `Date.UTC` round trip of `parseYyyyMmDd`, src/lib/date-range.ts:12-25.
- `ShippingHeatmap.Streak`: the current streak, src/components/shipping-heatmap.tsx:228-233.
- `ShippingHeatmap.NonZeroSorted`: the sorted positive counts behind the quartiles, src/components/shipping-heatmap.tsx:257-259.
- `RotatingQuote.Shuffle`: the Fisher-Yates shuffle, src/components/rotating-quote.tsx:660-667.
- `RotatingQuote.Steps`: repeated `(index + 1) % length`, src/components/rotating-quote.tsx:694.

## Model

| member | source | states |
|---|---|---|
| Text.TrimSpec | src/app/api/commits/route.ts:65-70 | `trim` removes exactly the leading and trailing JavaScript whitespace and keeps the middle untouched |
| Text.TrimKeeps | src/app/api/commits/route.ts:65-70 | a string that is empty or starts and ends with a non-space is its own trim |
| Text.JoinSplit | src/lib/github.ts:29-31 | splitting on a separator and joining with it again gives back the original string |
| Text.SplitPartsClean | src/lib/repo-allowlist.ts:52-53 | no part of `split(sep)` holds the separator |
| Text.SplitCount | src/lib/repo-allowlist.ts:52-53 | a string without the separator splits into itself alone, and one with it into several parts |
| Text.LastSegmentIsSuffix | src/lib/repo-allowlist.ts:52-53 | `split("/").at(-1)` is the suffix after the last slash; it holds no slash, and it is the whole string exactly when there is no slash |
| Text.LastSegmentSuffix | src/lib/repo-allowlist.ts:52-53 | the last part is a suffix without the separator, preceded by the separator whenever it is shorter than the whole |
| Text.DecimalRoundTrip | src/lib/date-range.ts:69 | the decimal text of a number reads back as that number |
| Calendar.DaysInMonth | src/lib/date-range.ts:16-23 | every month has 28 to 31 days, and it has 29 exactly for February of a leap year |
| Calendar.DayOf | src/app/api/commits/route.ts:25 | the UTC day of an instant is the day whose 24 hours contain it |
| Calendar.DayNumberOrder | src/lib/date-range.ts:65-67 | the day-number difference follows calendar order: earlier dates get smaller numbers, and equal numbers mean the same date |
| Calendar.YearStep | src/lib/date-range.ts:16 | consecutive New Year's days are one Gregorian year length apart |
| Calendar.NextDateNumber | src/lib/date-range.ts:16 | the next calendar date has the next day number |
| Calendar.RollDays | src/lib/date-range.ts:16 | `Date.UTC`'s overflow of a day past the end of its month gives a valid date, in a later month |
| Calendar.RollDaysOffset | src/lib/date-range.ts:16 | after overflow, the day number is the first of the month plus the day offset |
| Calendar.NextMonthFirst | src/lib/date-range.ts:16 | the first of a month comes its predecessor's length after the first of that one |
| Calendar.NewYearFirst | src/lib/date-range.ts:16 | New Year's day is 31 days after the first of December |
| Calendar.FieldsReportedBack | src/lib/date-range.ts:16-23 | a date built from positive fields with a month below 100 reports the same fields back exactly when they name a real date in a year from 100 on |
| Calendar.ParseYmdAccepts | src/lib/date-range.ts:12-25 | a `YYYY-MM-DD` string is accepted exactly when its year is 100 or more and it names a real Gregorian date; the result is that date's day number |
| DateRange.PresetConstants | src/lib/date-range.ts:3-6 | the presets lie between 1 and 365, and the largest and default range is 365 days |
| DateRange.ParseYyyyMmDd | src/lib/date-range.ts:12-25 | the parse succeeds exactly for well-shaped, real dates in years 100 to 9999, giving their UTC midnight |
| DateRange.StartOfUtcDay | src/lib/date-range.ts:27-29 | the start of the UTC day is a whole day, at or before the instant and less than a day before it |
| DateRange.BuildDateRangeFromPreset | src/lib/date-range.ts:40-50 | a preset gives `days` whole UTC days ending today: from midnight `days - 1` days back to the last millisecond of today, containing now |
| DateRange.BuildDateRangeFromYmd | src/lib/date-range.ts:52-79 | each error case in the source's order; success exactly when until is not before since and the span is within the maximum, with midnight-to-end-of-day bounds and an inclusive day count |
| DateRange.RangeBetween | src/lib/date-range.ts:62-78 | between two midnights: refused when until comes first or the inclusive span exceeds the maximum, otherwise the inclusive day count with midnight-to-end-of-day bounds |
| DateRange.UntilBeforeSinceIsCalendarOrder | src/lib/date-range.ts:65-67 | "until before since" is refused exactly when the until date is earlier in calendar order |
| GitHub.FirstNewline | src/lib/github.ts:29 | the position of the first line feed, or the length when there is none |
| GitHub.SplitLinesFirst | src/lib/github.ts:29-30 | the first line of `split(/\r?\n/)` is the text before the first line feed, less one carriage return right before it |
| GitHub.FirstLineNoFeed | src/lib/github.ts:29-30 | the first line holds no line feed |
| GitHub.SplitLinesSingle | src/lib/github.ts:29-31 | a message without a line feed is a single line, the whole message |
| GitHub.SplitLinesRest | src/lib/github.ts:29-31 | with a line feed, the lines after the first are the lines of the text after the first line feed |
| GitHub.JoinSplitLines | src/lib/github.ts:29-31 | rejoining the lines with line feeds turns CRLF pairs into line feeds and changes nothing else |
| GitHub.SplitCommitMessageSubject | src/lib/github.ts:28-33 | the subject is the first line, without a trailing carriage return, and holds no line feed |
| GitHub.SplitCommitMessageBody | src/lib/github.ts:28-33 | a one-line message has an empty body; otherwise the body is the trimmed, line-feed-normalised text after the first line feed |
| GitHub.ReadGitHubTokenFromEnv | src/lib/github.ts:47-49 | the token is the first of GITHUB_TOKEN, SHIP_GITHUB_TOKEN, GH_TOKEN that is set, and is missing exactly when none is set |
| GitHub.Authorization | src/lib/github.ts:60-80 | a `Bearer` header is sent exactly when the resolved token is a non-empty string; an explicit token wins over the environment |
| GitHub.RequestFor | src/lib/github.ts:60-86 | each request carries the repository, the window and the page; `per_page` is the option's value, 100 when unset; the revalidation period is the option's value, 60 when unset; the `Authorization` header is the one resolved from the token |
| GitHub.Timestamp | src/lib/github.ts:98-99 | the committer date when present, else the author date; an empty chosen date means none, so an empty committer date drops the entry even when an author date exists |
| GitHub.ToItem | src/lib/github.ts:100-108 | a normalised entry keeps the sha, the URL and the timestamp, is tagged with the repository, and takes its subject and body from `splitCommitMessage` of the message (the empty string when there is none) |
| GitHub.NormalizePage | src/lib/github.ts:97-109 | entries without a date are dropped; every kept one is tagged with the repository and has a non-empty timestamp |
| GitHub.NormalizePageCons | src/lib/github.ts:97-109 | an entry's contribution is its normalised item when it has a date and nothing otherwise, ahead of the rest of the page |
| GitHub.NormalizePageAppend | src/lib/github.ts:97-109 | normalising two pieces of a page one after the other gives the normalisation of the whole, so each entry is handled on its own and in order |
| GitHub.NormalizePageKeepsTimed | src/lib/github.ts:97-109 | when every entry has a date, each is normalised in place and none is dropped |
| GitHub.ErrorOf | src/lib/github.ts:35-92 | a non-OK answer becomes an API error with its status and the body's message, or `GitHub API error (<status>)` when the body has none; a thrown error keeps its message |
| GitHub.PaginateStops | src/lib/github.ts:62-111 | the loop from a page past `maxPages` returns what it has, untruncated; otherwise it stops at a page no later than `maxPages`, and every page before that one was full |
| GitHub.PaginateReachesPage | src/lib/github.ts:62-67 | a loop starting within `maxPages` requests its first page |
| GitHub.PaginateFails | src/lib/github.ts:88-92 | the loop fails exactly when the page it stopped at answered neither OK nor 409, and with that page's error |
| GitHub.PaginateCollects | src/lib/github.ts:94-115 | a successful loop returns the commits gathered so far followed by the normalised entries of the pages it read, in order |
| GitHub.PaginateTruncated | src/lib/github.ts:111-112 | a successful loop is truncated exactly when it stopped at page `maxPages` and that page was full |
| GitHub.AppendPage | src/lib/github.ts:97-109 | the inner loop appends exactly the page's normalised entries, in page order, to the commits gathered so far |
| GitHub.ListCommitsPages | src/lib/github.ts:62-111 | pages are requested from 1 and never beyond `maxPages` (default 3); a page is followed by another only when it came back full |
| GitHub.ListCommitsErrors | src/lib/github.ts:88-92 | a failure happens exactly when the last page requested answered neither OK nor 409, and it carries that page's error |
| GitHub.ListCommitsTruncated | src/lib/github.ts:111-112 | `truncated` holds exactly when page `maxPages` was requested and came back full |
| GitHub.ListCommitsCollects | src/lib/github.ts:94-115 | the commits are the normalised entries of the pages read, in order, all tagged with the repository |
| GitHub.PagesFromBound | src/lib/github.ts:61-97 | pages of at most `perPage` entries give at most `perPage` commits each |
| GitHub.ListCommitsBound | src/lib/github.ts:61-97 | at most `perPage × maxPages` commits are returned |
| GitHub.ListCommitsForRepo | src/lib/github.ts:51-116 | the imperative loop returns exactly the outcome of the paging specification |
| WorkerPool.MapAllSuccess | src/app/api/commits/route.ts:40-60 | the pool succeeds exactly when every task succeeds, and then its results are in input order |
| WorkerPool.MapAllFailure | src/app/api/commits/route.ts:40-60 | a failure is the error of the first failing task, all tasks before it having succeeded |
| WorkerPool.MapWithConcurrency | src/app/api/commits/route.ts:40-60 | the shared-counter loop claims indices 0, 1, 2, … once each, stops at the first failure, and gives the specification's result |
| StableSort.SortByKeyDescSorted | src/app/api/commits/route.ts:160-162 | sorting newest first gives a list in non-increasing key order |
| StableSort.SortByKeyDescPermutes | src/app/api/commits/route.ts:160-162 | the sorted list is a permutation of the input |
| StableSort.SortByKeyDescStable | src/app/api/commits/route.ts:160-162 | the sort keeps ties in their original order: for every key, the elements with that key appear in input order |
| StableSort.SortByKeyDescLength | src/app/api/commits/route.ts:160-162 | sorting keeps the length |
| DayTally.TallyNames | src/app/api/commits/route.ts:176-177 | a repository tally lists each repository once, in first-seen order |
| DayTally.TallyCounts | src/app/api/commits/route.ts:176-177 | each repository's tally is the number of times it occurs |
| DayTally.TallySum | src/app/api/commits/route.ts:176-177 | the tallies add up to the number of commits |
| DayTally.TopTwoFacts | src/app/api/commits/route.ts:187-190 | the top repositories are two entries of the tally (all of it when it is shorter), taken without repeats, the larger first, and every entry left out has a count no larger than the last one kept |
| DayTally.TopTwoTies | src/app/api/commits/route.ts:187-190 | ties keep tally order: for each count, the entries kept with that count are the first of the tally's entries with that count |
| DayTally.SortedKeys | src/app/api/commits/route.ts:195 | the day keys, listed once each in ascending order |
| DayTally.DayCountsMeaning | src/app/api/commits/route.ts:172-174 | a day has a count exactly when some kept commit falls on it, and the count is the number of such commits |
| DayTally.DayReposMeaning | src/app/api/commits/route.ts:175-178 | a day's repository tally is the tally of the repositories of that day's commits |
| DayTally.DayCountsTotal | src/app/api/commits/route.ts:172-174 | the day counts add up to the number of commits kept |
| DayTally.TallyDays | src/app/api/commits/route.ts:170-179 | the counting loop builds exactly the specified day counts, and the repository tallies only when asked to |
| RepoAllowlist.Slug | src/lib/repo-allowlist.ts:52-53 | the slug is a suffix that holds no slash; it is the whole name exactly when there is no slash, and otherwise a slash comes right before it |
| RepoAllowlist.RepoDisplayName | src/lib/repo-allowlist.ts:51-55 | the display name is the override of the lower-cased slug, or the slug itself when there is none |
| RepoAllowlist.DisplayNameReadsSlug | src/lib/repo-allowlist.ts:51-55 | the owner part never changes the display name |
| RepoAllowlist.AllowlistShape | src/lib/repo-allowlist.ts:1-21 | 19 distinct entries, all under the owner `enzo-prism/` |
| RepoAllowlist.AllowlistOverrides | src/lib/repo-allowlist.ts:1-55 | every allow-listed repository is under `enzo-prism/`, and the lower-cased slug of each has an override |
| RepoAllowlist.AllowlistDisplayNames | src/lib/repo-allowlist.ts:1-55 | so every allow-listed repository is shown under its override, never under the fallback |
| RepoAllowlist.AllowedIsCaseSensitive | src/lib/repo-allowlist.ts:47-49 | membership is an exact string match: `enzo-prism/drnjo` is not allowed |
| RepoAllowlist.DrNjoKey | src/lib/repo-allowlist.ts:51-55 | a `DrNjo` slug finds its override through lower-casing |
| RepoAllowlist.UnknownSlug | src/lib/repo-allowlist.ts:51-55 | a slug without an override is shown as is |
| RepoIcons.EmojiForRepo | src/lib/repo-icons.ts:24-29 | no emoji exactly when the slug's entry is `null`; a missing entry gives the folder emoji; otherwise the entry |
| RepoIcons.EmojiReadsSlug | src/lib/repo-icons.ts:24-29 | the owner part never changes the emoji |
| RepoIcons.NullEntries | src/lib/repo-icons.ts:1-22 | exactly two slugs, `density` and `yt-keywords`, have no emoji |
| RepoIcons.DrNjoKey | src/lib/repo-icons.ts:24-29 | a `DrNjo` repository gets the briefcase through lower-casing |
| RepoIcons.ShipKey | src/lib/repo-icons.ts:24-28 | `ship` has no entry and gets the folder emoji |
| RepoIcons.DensityKey | src/lib/repo-icons.ts:24-27 | `density` gets no emoji |
| CommitsRoute.TrimParam | src/app/api/commits/route.ts:66-70 | a present parameter is trimmed; an absent one stays absent |
| CommitsRoute.CoerceTz | src/app/api/commits/route.ts:71-73 | the offset is 0 when missing, empty or not finite, and otherwise clamped to ±840 minutes |
| CommitsRoute.CoercePage | src/app/api/commits/route.ts:74-75 | the page is 1 unless given as a positive finite number, which is floored; it is 0 exactly for a value strictly between 0 and 1 |
| CommitsRoute.PresetOf | src/app/api/commits/route.ts:83-89 | a `range` is accepted exactly when it is a finite number equal to one of the presets |
| CommitsRoute.ValidateRules | src/app/api/commits/route.ts:77-111 | every 400 rule in the source's order: both forms, a bad preset, a missing bound, a bad date range, a bad repository; the default range is 365 days; `all` selects the whole allowlist and anything else must be allowlisted |
| CommitsRoute.BudgetFor | src/app/api/commits/route.ts:113-128 | the revalidation period, concurrency and page cap of each token, scope and range-length case |
| CommitsRoute.BudgetBounds | src/app/api/commits/route.ts:113-128 | concurrency is 1 to 4 and pages 1 to 8; with a token longer ranges never get fewer pages, and a token never gets fewer pages than none |
| CommitsRoute.OptionsFor | src/app/api/commits/route.ts:133-141 | each repository is listed 100 per page, over the selected window, with the budget's page cap and revalidation period and the handler's token; the `Authorization` header is sent exactly when the handler has a token |
| CommitsRoute.FetchRepoPolicy | src/app/api/commits/route.ts:131-156 | a single repository's error always propagates; for all projects only 401 and rate-limited 403 are fatal, and any other failure becomes an empty, untruncated result plus a failure record |
| CommitsRoute.MergeFacts | src/app/api/commits/route.ts:158-162 | the merged list is newest first, a permutation of all repositories' commits, and stable among equal instants |
| CommitsRoute.FlattenLength | src/app/api/commits/route.ts:158-164 | the total is the sum of the repositories' commit counts |
| CommitsRoute.TotalPages | src/app/api/commits/route.ts:165 | at least one page, and the fewest pages of 50 that hold every commit |
| CommitsRoute.JsSlice | src/app/api/commits/route.ts:168 | `slice(start, end)` within bounds is the sub-list from `start` up to `end`; an end past the list stops at its end; an end at or before the start gives nothing; never more than the list |
| CommitsRoute.JsSliceFromEnd | src/app/api/commits/route.ts:168 | a negative bound counts from the end of the list, and one before its start means the start |
| CommitsRoute.PageOfFacts | src/app/api/commits/route.ts:164-168 | the page asked for is clamped to the last page; the slice starts at `(page - 1) × 50` and every page before the last is full |
| CommitsRoute.PageZeroIsEmpty | src/app/api/commits/route.ts:166-168 | a page of 0 slices from -50 to 0 and returns no commits |
| CommitsRoute.PagesOf130 | src/app/api/commits/route.ts:164-168 | 130 commits make three pages of 50, 50 and 30, and page 10 shows the third |
| CommitsRoute.TruncateTowardZero | src/app/api/commits/route.ts:24 | an instant is truncated toward zero, as a JavaScript `Date` does |
| CommitsRoute.ToDayKeyBounds | src/app/api/commits/route.ts:22-26 | with no offset the key is the UTC day, and any accepted offset moves it by at most one day |
| CommitsRoute.LateEveningKeys | src/app/api/commits/route.ts:22-26 | 23:30 UTC keys to the next day at UTC+8 (offset -480) and stays on its day at UTC-8 (offset 480) |
| CommitsRoute.SummariesOf | src/app/api/commits/route.ts:181-194 | one summary per day key, in the order given, with that day's count and top repositories |
| CommitsRoute.SummaryTotalOf | src/app/api/commits/route.ts:181-194 | the summaries' counts add up to the counts of their days |
| CommitsRoute.SummariesAscending | src/app/api/commits/route.ts:181-195 | the summaries are in strictly ascending day order |
| CommitsRoute.SummariesCounts | src/app/api/commits/route.ts:181-195 | each summary is for a counted day and carries that day's count |
| CommitsRoute.SummariesCover | src/app/api/commits/route.ts:181-195 | there is a summary for every counted day and for no other day |
| CommitsRoute.SummariesSum | src/app/api/commits/route.ts:181-195 | the summaries' counts add up to the total of the day counts |
| CommitsRoute.SummariesTop | src/app/api/commits/route.ts:183-192 | top repositories are empty for a single repository, and otherwise the top two of that day's tally, taken from it without repeats, the larger first |
| CommitsRoute.SummariesFacts | src/app/api/commits/route.ts:170-195 | over the whole list, there is a summary for each day with commits, its count is that day's number of commits, they add up to the total, and for all projects the top repositories are the top two of that day's commits |
| CommitsRoute.KeptAll | src/app/api/commits/route.ts:172-174 | the route counts every commit, with no day filter |
| CommitsRoute.ErrorReply | src/app/api/commits/route.ts:221-233 | API errors are 502, with the rate-limit, authentication or generic message; other errors are 500 with their own message |
| CommitsRoute.FailuresFacts | src/app/api/commits/route.ts:130-153 | a failure record exists exactly for each repository that failed, at most one each |
| CommitsRoute.RespondInvalid | src/app/api/commits/route.ts:77-111 | a query that fails validation gets a 400 with the validation message |
| CommitsRoute.RespondFails | src/app/api/commits/route.ts:130-156 | a valid request gets an error reply exactly when some repository's fetch failed fatally |
| CommitsRoute.RespondFirstFatal | src/app/api/commits/route.ts:130-156 | an error reply is the mapping of the first fatally failing repository in allowlist order; every earlier one succeeded or was recorded as failed |
| CommitsRoute.RespondSingleRepo | src/app/api/commits/route.ts:130-156 | for a single repository the request fails exactly when its listing fails, with that error's mapping |
| CommitsRoute.AssemblePayload | src/app/api/commits/route.ts:158-206 | the payload's total is the number of merged commits, it shows the requested page, its page count is for 50 per page, and its summaries add up to the total |
| CommitsRoute.AssembleHeaders | src/app/api/commits/route.ts:197-219 | the cache periods and auth mode follow the token; truncated when any repository was truncated; partial exactly when truncated or, for all projects, some repository failed; the failure count is set exactly in that case |
| CommitsRoute.RespondSuccess | src/app/api/commits/route.ts:113-220 | when no fetch is fatal, each repository's outcome is its own fetch and the reply is the assembled JSON |
| CommitsRoute.Get | src/app/api/commits/route.ts:62-234 | the handler's imperative steps give exactly the specified reply |
| ShippingHeatmap.ClampPercentileIndex | src/components/shipping-heatmap.tsx:67-70 | 0 for an empty list, otherwise an index in range that is left alone when already in range |
| ShippingHeatmap.Quantile | src/components/shipping-heatmap.tsx:72-76 | 0 for no values, otherwise one of the values |
| ShippingHeatmap.QuartilesOrdered | src/components/shipping-heatmap.tsx:256-265 | on an ascending list the quartiles sit at the floored positions `(n - 1) × k / 4` and are in order |
| ShippingHeatmap.IntensityLevel | src/components/shipping-heatmap.tsx:108-114 | the shade is 0 to 4, 0 exactly for no commits, 1 up to the first quartile, and 4 exactly above all three |
| ShippingHeatmap.IntensityMonotone | src/components/shipping-heatmap.tsx:108-114 | more commits never give a lighter shade |
| ShippingHeatmap.Pluralize | src/components/shipping-heatmap.tsx:78-80 | the singular for exactly one, otherwise the given plural or the singular plus `s` |
| ShippingHeatmap.ParseYmdToLocalDate | src/components/shipping-heatmap.tsx:90-106 | exactly the well-shaped real dates are read, as their day number |
| ShippingHeatmap.OrderedRange | src/components/shipping-heatmap.tsx:193-197 | the two ends are put in order, whichever way they were given |
| ShippingHeatmap.TotalOf | src/components/shipping-heatmap.tsx:219-220 | the loop over the counts gives their total |
| ShippingHeatmap.Streak | src/components/shipping-heatmap.tsx:228-233 | the streak is the run of days with commits ending at the last day of the range, stopped by the first day without any or by the range start |
| ShippingHeatmap.CurrentStreak | src/components/shipping-heatmap.tsx:228-233 | the backwards loop gives that streak |
| ShippingHeatmap.StreakBounds | src/components/shipping-heatmap.tsx:228-233 | the streak fits in the range, and is 0 when the last day has no commits |
| ShippingHeatmap.BestDayUnique | src/components/shipping-heatmap.tsx:235-246 | there is only one best day: the most commits, the latest day among ties |
| ShippingHeatmap.BestDay | src/components/shipping-heatmap.tsx:235-246 | visiting the days in any order, the loop finds that best day and its count, and none when no day has commits |
| ShippingHeatmap.Positive | src/components/shipping-heatmap.tsx:257-258 | the filter keeps exactly the positive counts |
| ShippingHeatmap.CountsInOrder | src/components/shipping-heatmap.tsx:257 | the values listed are exactly the counts of the map |
| ShippingHeatmap.CountsOf | src/components/shipping-heatmap.tsx:257 | a value is listed exactly when it is the count of one of the listed days |
| ShippingHeatmap.NonZeroSortedAscending | src/components/shipping-heatmap.tsx:257-259 | the sorted positive counts are in ascending order |
| ShippingHeatmap.NonZeroSortedMembers | src/components/shipping-heatmap.tsx:257-259 | the sorted list holds exactly the positive day counts |
| ShippingHeatmap.ThresholdsFacts | src/components/shipping-heatmap.tsx:256-265 | the thresholds are ordered; all 0 when no day has commits, otherwise each is a positive count of some day |
| ShippingHeatmap.Weekday | src/components/shipping-heatmap.tsx:268-269 | a weekday index from 0 (Monday) to 6 (Sunday) |
| ShippingHeatmap.WeekCount | src/components/shipping-heatmap.tsx:270-271 | at least one week |
| ShippingHeatmap.GridFacts | src/components/shipping-heatmap.tsx:267-276 | the grid starts on the Monday on or before the first day and ends on the Sunday on or after the last day; it spans whole weeks, and each day of the range has its own column and row |
| ShippingHeatmap.CellAt | src/components/shipping-heatmap.tsx:279-299 | a cell is in range exactly for the range's days; outside it is empty; inside it has the day's count, and for all projects the top two repositories |
| ShippingHeatmap.CellTopRepos | src/components/shipping-heatmap.tsx:286-294 | a cell's top repositories are at most two, the larger first, taken without repeats from that day's tally |
| ShippingHeatmap.BuildGrid | src/components/shipping-heatmap.tsx:267-317 | the nested loops build one column of seven cells for each week, each cell being the one for its date |
| ShippingHeatmap.Summarise | src/components/shipping-heatmap.tsx:219-265 | from the day counts: their total, the streak ending on the last day, the best day (none exactly when the total is zero) and the quartiles of the sorted positive counts |
| ShippingHeatmap.Compute | src/components/shipping-heatmap.tsx:186-317 | all the statistics: counts of the in-range commits, repository tallies only for all projects, total, active days, streak, best day (none exactly when there are no commits), quartiles and grid |
| ShippingHeatmap.TotalZeroIffNoCounts | src/components/shipping-heatmap.tsx:219-246 | the counts add up to zero exactly when each is zero, so no best day is found exactly when the total is zero |
| ShippingHeatmap.NoCountsNoTotal | src/components/shipping-heatmap.tsx:219-220 | no counts, no total |
| CommitFeed.GetFullMessage | src/components/commit-feed.tsx:38-40 | empty parts are left out, and two parts are joined by a blank line |
| CommitFeed.FullMessageRoundTrip | src/components/commit-feed.tsx:38-40 | the server's `splitCommitMessage` applied to the full message gives back the subject and body, for a non-empty one-line subject not ending in a carriage return and a trimmed body without carriage-return/line-feed pairs |
| CommitFeed.EmptySubjectMoves | src/components/commit-feed.tsx:38-40 | without a subject the round trip fails: `"\nbody"` splits into an empty subject and `body`, whose full message `body` splits back as a subject with no body |
| CommitFeed.QueryFor | src/components/commit-feed.tsx:85-99 | the query starts with the repository, then `since`/`until` for a picked custom range and `range` otherwise |
| CommitFeed.Param | src/components/commit-feed.tsx:85-99 | a parameter is found exactly when the query sets it |
| CommitFeed.QueryParams | src/components/commit-feed.tsx:85-99 | the route reads back the repository and either the two dates or the range, and never a time zone or page |
| CommitFeed.QueryForms | src/components/commit-feed.tsx:85-99 | `since` and `until` come together, exactly when `range` is absent, and exactly for a custom range with a start |
| CommitFeed.OpenEndedIsOneDay | src/components/commit-feed.tsx:90-93 | a custom range without an end asks for that one day |
| CommitFeed.CustomWithoutRangeIsRefused | src/components/commit-feed.tsx:89-96 | once the custom selection is cleared, the feed sends `range=custom`, which the route refuses with its "Invalid `range`" message |
| CommitFeed.FeedState.RequestQuery | src/components/commit-feed.tsx:85-99 | the query of the current state |
| CommitFeed.FeedState.OnSelectCustomRange | src/components/commit-feed.tsx:137-160 | clearing the picker clears the range and the error; otherwise the mode becomes custom, a span over 60 days is cut to 60 with an error and the popover closed, and a picked end closes it too; a stored range never exceeds 60 days |
| CommitFeed.FeedState.Clear | src/components/commit-feed.tsx:264-269 | back to 7 days, with no custom range, no error and the popover closed |
| CommitFeed.FeedState.OnToggle | src/components/commit-feed.tsx:225-227 | only `7`, `30` and `60` change the mode, and nothing else changes |
| RotatingQuote.Pick | src/components/rotating-quote.tsx:663 | the drawn index lies between 0 and `i` |
| RotatingQuote.Swap | src/components/rotating-quote.tsx:664 | the two elements change places |
| RotatingQuote.SwapKeeps | src/components/rotating-quote.tsx:664 | a swap leaves every other position as it was |
| RotatingQuote.SwapAt | src/components/rotating-quote.tsx:664 | the destructuring assignment on the array performs that swap in place |
| RotatingQuote.ScaleIsProduct | src/components/rotating-quote.tsx:663 | the repeated sum used for `Math.random() * (i + 1)` is that product |
| RotatingQuote.ScaleBelow | src/components/rotating-quote.tsx:663 | for a random number in `[0, 1)` the product lies in `[0, i + 1)` |
| RotatingQuote.SwapMultiset | src/components/rotating-quote.tsx:664 | a swap keeps the elements |
| RotatingQuote.ShuffleFromFacts | src/components/rotating-quote.tsx:660-667 | the steps from position `i` down are a permutation that leaves every position above `i` alone |
| RotatingQuote.ShuffleIsPermutation | src/components/rotating-quote.tsx:660-667 | the shuffle keeps the length and the elements |
| RotatingQuote.CopyOf | src/components/rotating-quote.tsx:661 | the spread gives a fresh array with the same elements |
| RotatingQuote.ShuffleQuotes | src/components/rotating-quote.tsx:660-667 | the in-place loop on a fresh copy gives the specified shuffle, a permutation of the input |
| RotatingQuote.NextIndex | src/components/rotating-quote.tsx:694 | the next index stays in range |
| RotatingQuote.NextIndexStep | src/components/rotating-quote.tsx:694 | a step moves to the next quote, and from the last back to the first |
| RotatingQuote.StepsUp | src/components/rotating-quote.tsx:694 | before the end, `k` steps move `k` places |
| RotatingQuote.StepsWrap | src/components/rotating-quote.tsx:694 | past the end, the steps wrap round to the front |
| RotatingQuote.Distance | src/components/rotating-quote.tsx:694 | the number of steps from one quote to another is less than the number of quotes |
| RotatingQuote.RotationCycles | src/components/rotating-quote.tsx:690-699 | after as many steps as there are quotes the rotation is back where it started, and every quote is shown on the way |
| RotatingQuote.Rotator.Mount | src/components/rotating-quote.tsx:674-678 | mounting stores the shuffled quotes, a permutation of all of them, and shows the first |
| RotatingQuote.Rotator.Tick | src/components/rotating-quote.tsx:680-688 | the interval starts the fade only with more than one quote |
| RotatingQuote.Rotator.FadeDone | src/components/rotating-quote.tsx:690-699 | the end of a fade steps to the next quote, wrapping round, and stops fading; nothing happens with no quotes or no fade |
| RotatingQuote.Rotator.Current | src/components/rotating-quote.tsx:701 | a quote is shown exactly when there are quotes, and it is the one at the index |

## Left out

- Network, caching and timers are not modelled.
  - The HTTP request, its headers other than `Authorization`, and the Next.js cache options are reduced to the `PageRequest` value.
  - Timeouts and aborts are left out.
  - The intervals and timeouts of the rotating quote are the methods `Tick` and `FadeDone`.
- Rendering is not modelled: the JSX, CSS classes, skeletons, tooltips, date and month labels (`formatDayLabel`, `formatMonthLabel`, the `monthLabels` list), `formatDateTime`, and the rest of the components.
- The literal list of 161 quotes is not modelled. `Mount` takes the quote list as a parameter.
- ISO-8601 text is represented by numbers.
  - `toISOString()` renderings of instants are left out, as is the `slice(0, 10)` of a day key.
  - Instants and days are numbers. The key order equals the day order only for years 0 to 9999.
  - The result of `new Date(iso)` is the parameter `instantOf`. An unparsable date (NaN) is not modelled.
- `Number(text)` is the parameter `toNumber`; JavaScript's number grammar is not modelled. Likewise, the local day of an instant (`localDayOf`) and `format` (`formatDay`) are parameters.
- `URLSearchParams` encoding and decoding are not modelled. A query is its list of name/value pairs.
- `toLowerCase` is modelled for ASCII letters only. Every slug in the allowlist and the maps is ASCII.
- Object lookups of inherited property names are treated as missing keys (e.g. `DISPLAY_NAME_OVERRIDES["constructor"]`).
- `Cache-Control` and the other headers are a record of their values, not their text. The `Cache-Control: no-store` of error replies is left out.
- CommitsRoute.Get: the worker pool runs its workers one after another. So when several repositories fail fatally, the reported error is the one with the lowest index. Concurrent workers may report whichever fails first in time, so this is stated for the sequential schedule only.
- CommitsRoute.Get: `commits.sort` in place is modelled as a stable insertion sort on a sequence (`SortByKeyDesc`). Array sorting in JavaScript is stable, so the order is the same, but the in-place update of the array is not modelled.
- CommitsRoute.Get: the failure records are collected in index order, not in order of completion; only their number reaches the reply.
- ShippingHeatmap.NonZeroSortedMembers: the values are listed in key order before sorting. Any order gives the same sorted list, but that independence is not proved.
- CommitFeed.FeedState: the repository picker, dialog and loading state, and the fetch effect with its abort, are not modelled.
- CommitsRoute.ToDayKey: the arithmetic is exact. `instant - tz * 60000` is computed on reals and `TruncateTowardZero` truncates it, while JavaScript computes on 64-bit doubles; the two agree for instants and offsets of the sizes in use, but rounding of very large values is not modelled.
- The time zone of the day keys follows the code. `tz` is an optional query parameter, in minutes, that is subtracted from the instant (the sign `getTimezoneOffset` uses). The key is the UTC day of `instant - tz minutes`. No caller in the repository sends `tz` (the feed's query never sets it, see `CommitFeed.QueryParams`), so the feed's daily summaries are keyed by UTC day.
