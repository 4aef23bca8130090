# Vigility Analytics: a verified model of the filtered analytics engine

Vigility Analytics records product interactions and shows them on a dashboard.
Clients post feature clicks (`POST /track`) and time spent (`POST /track-time`).
Users register and log in (`POST /register`, `POST /login`).
`GET /analytics` turns the stored events into one report: a bar chart of clicks per feature, a daily line chart, gender and age pies, time spent per feature, the five latest clicks, a 90-day heatmap, the five most active users and a summary with a trend.
The report is filtered by date range, gender and age group; a selected feature narrows the line chart.

This project models that engine in Dafny, together with the dashboard code that turns the report into what the user sees.

- **Store** (`store.dfy`). The `users`, `feature_clicks` and `time_spent` tables are sequences of records. The joins are functions over them. Instants are whole seconds since 1970-01-01 UTC, and a date is a day number.
- **Filter** (`predicates.dfy`). `BuildConditions` pushes typed clauses in the route's order. `ClausesMeaning` states what the list means without the list. The rewrite that re-targets the clauses at `time_spent` is `HoldsOnDuration`: the same clauses, read against the duration's timestamp.
- **Grouping** (`seqs.dfy`, `aggregate.dfy`). One generic `GROUP BY … ORDER BY … DESC` layer serves every projection. Ordering is a stable insertion sort by an integer key, and `LIMIT n` is `Take`.
- **Projections** (`projections.dfy`, `rounding.dfy`). One function per query, each with a lemma saying what it returns.
- **Trend** (`trend.dfy`). The previous window and `Math.round` of the percentage.
- **Report** (`engine.dfy`). `Analytics` builds the whole report from one snapshot of the tables. Its lemmas relate the parts to each other.
- **Ingestion and accounts** (`ingest.dfy`, `auth.dfy`, `http.dfy`).
  - `EventStore` and `UserTable` are classes whose methods append rows and return the HTTP reply.
  - Login is a function of the table.
- **Dashboard** (`dashboard.dfy`, `bar_chart.dfy`, `heatmap_view.dfy`, `feature_time_list.dfy`, `top_users.dfy`, `spans.dfy`, `text.dfy`).
  - The filter state is a class whose methods are the handlers.
  - The heatmap is built by methods with loops, as the component builds it.
  - The formatters and the bar colouring are functions.

Where the design and the code differ, the model follows the code:

- An unknown `gender` value is not treated as `All`. It becomes an exact-match clause, so it matches nothing (`Predicates.UnknownGenderMatchesNothing`).
- An unknown `age_group` adds no clause, so it fails open (`Predicates.UnknownAgeGroupFailsOpen`).
- The trend's previous-period count uses the date bounds only. The current count uses every filter (`Trend.PreviousClausesMeaning`).
- The heatmap's month labels and the time list's durations are computed as the components compute them (`HeatmapView.Build`, `FeatureTimeList.TimeList`), including the two defects listed under Findings. The corrected versions are separate members, and lemmas relate each to the code as written.

## Model

| member | source | states |
|---|---|---|
| Store.DayBounds | backend/src/routes/analytics.js:43-51 | `timestamp >= 'start'` holds exactly when the day is on or after `start`; `timestamp <= 'end 23:59:59'` exactly when the day is on or before `end` |
| Store.JoinClicks | backend/src/routes/analytics.js:77-78 | every joined row pairs a click with the user its `user_id` names, and every click whose user exists appears |
| Store.JoinDurations | backend/src/routes/analytics.js:131-132 | the same for `time_spent JOIN users` |
| Store.JoinedUserDetermined | backend/src/database.js:19-26 | in joined rows the user is determined by the user id (the primary key) |
| Predicates.BuildConditions | backend/src/routes/analytics.js:40-72 | the pushed condition list is `Clauses(q)`, and the copied line list is `LineClauses(q)` |
| Predicates.ClausesMeaning | backend/src/routes/analytics.js:43-70 | a row passes every condition exactly when its day is in the inclusive range, its gender matches any non-`All` gender, and its age is in any known bucket |
| Predicates.LineClausesMeaning | backend/src/routes/analytics.js:85-93 | the line chart's conditions also require the exact feature name when `feature_name` is given |
| Predicates.UnfilteredQueryHasNoClauses | backend/src/routes/analytics.js:43-72 | with no dates and gender/age group empty or `All`, the list is empty and every row passes |
| Predicates.UnknownAgeGroupFailsOpen | backend/src/routes/analytics.js:58-69 | an age group outside the three buckets gives the same conditions as `All` |
| Predicates.UnknownGenderMatchesNothing | backend/src/routes/analytics.js:53-56 | a gender outside `Male`/`Female`/`Other`/`All`/empty rejects every row |
| Predicates.FeatureNameOnlyNarrowsLine | backend/src/routes/analytics.js:85-91 | `feature_name` leaves the base conditions alone and adds exactly one clause to the line list |
| Predicates.SelectClicks | backend/src/routes/analytics.js:72-79 | keeps exactly the joined clicks that pass every condition |
| Predicates.SelectDurations | backend/src/routes/analytics.js:128-133 | keeps exactly the joined durations that pass every condition read against `ts.` |
| Seqs.SortBy | backend/src/routes/analytics.js:81 | `ORDER BY … DESC`: the result is ordered largest first and is a permutation of the input |
| Seqs.Take | backend/src/routes/analytics.js:145 | `LIMIT n`: the first `n` rows, or all of them when there are fewer |
| Seqs.TakeSortedKeepsLargest | backend/src/routes/analytics.js:144-145 | nothing left out by `LIMIT` ranks above anything kept |
| Seqs.SumOfSortBy | backend/src/routes/analytics.js:81 | reordering does not change a sum |
| Aggregate.GroupBy | backend/src/routes/analytics.js:80 | one group per key, keys distinct, counts adding up to the rows and totals to the weights |
| Aggregate.OrderedKeys | backend/src/routes/analytics.js:80-81 | the ordered groups are sorted by the order key, and there is one per key present |
| Aggregate.OrderedDescribes | backend/src/routes/analytics.js:171-176 | each group counts the rows of its key (`COUNT`), sums their weights (`SUM`) and holds their largest weight (`MAX`) |
| Aggregate.OrderedSums | backend/src/routes/analytics.js:130 | the group totals add up to the total of all rows |
| Projections.BarChartSpec | backend/src/routes/analytics.js:75-82 | one bar per feature present, most clicked first, each counting its rows; the bars add up to the rows |
| Projections.LineChartSpec | backend/src/routes/analytics.js:95-102 | one point per day present, strictly oldest first, each counting that day's rows |
| Projections.ClicksSince | backend/src/routes/analytics.js:164 | keeps exactly the clicks on or after the window's first day |
| Projections.HeatmapSpec | backend/src/routes/analytics.js:161-167 | days strictly increasing, all in the window, each counting every click of that day by any user |
| Projections.SameDayRows | backend/src/routes/analytics.js:164 | the window holds every click of any day inside it |
| Projections.Pie | backend/src/routes/analytics.js:105-111 | one slice per label some user carries, counting that label's distinct users |
| Projections.PieSum | backend/src/routes/analytics.js:106 | with distinct labels, the slices add up to the distinct users among them |
| Projections.PieCoversUsers | backend/src/database.js:24 | when every user's label is listed, the slices count every distinct user once |
| Projections.GenderPieSpec | backend/src/routes/analytics.js:105-111 | a gender's slice is present exactly when it has users, counting them; the slices add up to `unique_users` |
| Projections.AgeBucketsAgree | backend/src/routes/analytics.js:58-69 | the pie's `CASE` buckets (lines 115-119) and the `age_group` filter's buckets are the same sets of ages |
| Projections.AgePieSpec | backend/src/routes/analytics.js:113-125 | an age bucket's slice is present exactly when it has users; the slices add up to `unique_users` |
| Projections.TimeEntries | backend/src/routes/analytics.js:130 | each entry carries its group's feature, its `SUM` and its `AVG` |
| Projections.TimeSpentOrder | backend/src/routes/analytics.js:129-136 | one entry per feature with tracked time, largest total first |
| Projections.TimeSpentEntries | backend/src/routes/analytics.js:130 | an entry's total is the sum of that feature's durations, and its average is that sum over their number |
| Projections.TimeSpentTotals | backend/src/routes/analytics.js:130 | the totals add up to all the tracked time |
| Projections.RecentActivityOrder | backend/src/routes/analytics.js:139-146 | at most five entries (fewer only with fewer rows), newest first, each from a different matching row: their multiset is contained in the rows' |
| Projections.RecentActivityLatest | backend/src/routes/analytics.js:144-145 | no row newer than the last entry is left out |
| Projections.TopUsersOrder | backend/src/routes/analytics.js:170-179 | at most five entries (fewer only when fewer users clicked), most clicks first |
| Projections.TopUsersEntry | backend/src/routes/analytics.js:171-176 | each entry has its user's details, click count and latest click time |
| Projections.TopUsersComplete | backend/src/routes/analytics.js:177-178 | every user with more clicks than the last entry is listed |
| Projections.AvgSession | backend/src/routes/analytics.js:182-187 | 0 without rows; otherwise the mean rounded half away from zero |
| Rounding.JsRound | backend/src/routes/analytics.js:207 | `Math.round`: the nearest integer, halves rounded up |
| Rounding.SqlRound | backend/src/routes/analytics.js:183 | `ROUND`: the nearest integer, halves rounded away from zero |
| Trend.PreviousWindow | backend/src/routes/analytics.js:194-198 | the previous period ends the day before `start` and spans as many days as the current one |
| Trend.PreviousClausesMeaning | backend/src/routes/analytics.js:200-204 | the previous count keeps a row exactly when its day is in that window, whatever the other filters |
| Trend.TrendPercent | backend/src/routes/analytics.js:190-208 | present exactly when both dates are given and the previous count is positive; then within half a unit of `100·(cur−prev)/prev` |
| Trend.EmptyWindowNoTrend | backend/src/routes/analytics.js:191-206 | an end date before the start date gives no trend |
| Trend.TrendDirection | backend/src/routes/analytics.js:207 | equal counts give 0, no drop gives a non-negative trend, and a positive trend means a rise |
| Trend.TrendExample | backend/src/routes/analytics.js:207 | 140 clicks after 100 is a 40 percent rise |
| Engine.MatchedMeaning | backend/src/routes/analytics.js:72-79 | a click is counted exactly when its user exists and passes the filter |
| Engine.SummaryAgreesWithBars | backend/src/routes/analytics.js:148-158 | `total_clicks` is the sum of the bars, and `unique_features` is the number of bars |
| Engine.SummaryAgreesWithPies | backend/src/routes/analytics.js:152-154 | both pies add up to `unique_users` |
| Engine.RecentActivityLength | backend/src/routes/analytics.js:139-146 | recent activity has `min(total_clicks, 5)` entries |
| Engine.HeatmapIgnoresQuery | backend/src/routes/analytics.js:161-167 | the heatmap is the same for every query |
| Engine.FeatureNameOnlyChangesLine | backend/src/routes/analytics.js:85-102 | `feature_name` changes the line chart and nothing else in the report |
| Engine.NoDurationsNoAverage | backend/src/routes/analytics.js:224 | with no tracked time, the average session is 0 and the time list is empty |
| Engine.NoClicksEmptyCharts | backend/src/routes/analytics.js:75-179 | with no clicks, the bar, line, heatmap and top-users lists are empty |
| Engine.NoClicksEmptySummary | backend/src/routes/analytics.js:105-158 | with no clicks, the pies and recent activity are empty, the counts are 0 and there is no trend |
| Ingest.TrackedLabelIsClean | backend/src/routes/analytics.js:12-19 | what `/track` stores is non-empty with no surrounding space, and a blank name is refused |
| Ingest.EventStore.Track | backend/src/routes/analytics.js:7-34 | 400 with nothing stored for a missing, non-string or blank name; otherwise one click with the trimmed name and the next id, echoed with 201 |
| Ingest.EventStore.TrackTime | backend/src/routes/analytics.js:234-253 | 400 with nothing stored for an empty name or a zero duration; otherwise one row with the name as given, and 201 |
| Ingest.AppendClick | backend/src/database.js:28-34 | appending the next id with a clean label keeps ids increasing and labels clean |
| Ingest.AppendDuration | backend/src/database.js:36-43 | appending the next id keeps duration ids increasing |
| Auth.ParseGender | backend/src/routes/auth.js:20-22 | accepts exactly `Male`, `Female` and `Other`, as the inverse of the column's names |
| Auth.ParseGenderName | backend/src/database.js:24 | every stored gender parses back to itself |
| Auth.RegistrationError | backend/src/routes/auth.js:12-26 | each message is returned exactly when its check is the first to fail, in the route's order; none exactly when all pass |
| Auth.ZeroAgeIsMissing | backend/src/routes/auth.js:12-18 | an age of 0 is reported as a missing field, and a numeric string as out of range |
| Auth.FindByName | backend/src/routes/auth.js:28 | finds a user with that exact name, and finds none exactly when there is none |
| Auth.AppendUser | backend/src/database.js:19-21 | appending a new name with the next id keeps names unique and ids increasing |
| Auth.UserTable.Register | backend/src/routes/auth.js:8-50 | 400 with the first failed check's message, or 409 for a taken name, with nothing inserted; otherwise one row with the next id, echoed with 201 |
| Auth.Login | backend/src/routes/auth.js:52-81 | 400 for a missing credential; 200 only for a user of that name whose hash matches, echoing that user; otherwise 401 |
| Auth.LoginSucceedsExactly | backend/src/routes/auth.js:60-68 | with unique names, login succeeds exactly when the named user exists and the password matches |
| Auth.SameNameSameUser | backend/src/database.js:21 | with unique names, a name determines the user |
| Auth.LoginHidesUnknownUsers | backend/src/routes/auth.js:61-68 | an unknown user and a wrong password get the same 401 reply |
| Text.Trim | backend/src/routes/analytics.js:12 | `trim()`: the part between two all-space margins, with no space at either end; empty exactly for an all-space string |
| Text.Lower | frontend/src/components/Dashboard.jsx:166 | `toLowerCase()` on ASCII: same length, each character lowered |
| Text.IntToStringRoundTrip | frontend/src/components/TopUsers.jsx:28 | the decimal text of an integer reads back as that integer |
| Text.IntToStringInjective | frontend/src/components/TopUsers.jsx:28 | different integers print differently |
| Spans.SpanOf | frontend/src/components/Dashboard.jsx:21-27 | a whole number of seconds decomposes into seconds, minutes and seconds below 60, or hours and minutes below 60, adding up to it |
| Spans.DenotesUnique | frontend/src/components/Dashboard.jsx:21-27 | that decomposition is the only well-formed one |
| Dashboard.SecondsSpan | frontend/src/components/Dashboard.jsx:21-27 | `formatSeconds`: "—" exactly for a missing or zero value; otherwise a well-formed span of the value |
| Dashboard.SecondsSpanIsSpanOf | frontend/src/components/Dashboard.jsx:23-26 | any non-zero value is shown as its one well-formed span |
| Dashboard.Toggle | frontend/src/components/Dashboard.jsx:111 | clicking the selected bar clears the selection; clicking any other selects it |
| Dashboard.RequestFor | frontend/src/components/Dashboard.jsx:85-88 | the request carries the filters, plus the selected feature as `feature_name` |
| Dashboard.DashboardView.ChangeFilter | frontend/src/components/Dashboard.jsx:104-108 | replaces one filter, keeps the rest of the state, and reports the key's event |
| Dashboard.DashboardView.ClickBar | frontend/src/components/Dashboard.jsx:110-113 | toggles the selection, keeps filters and search, and reports `bar_chart_click` |
| Dashboard.DashboardView.ChangeSearch | frontend/src/components/Dashboard.jsx:374-375 | sets the search text only, and reports `feature_search` |
| Dashboard.DashboardView.ClearSelection | frontend/src/components/Dashboard.jsx:331 | clears the selection only |
| Dashboard.DashboardView.ClearFilters | frontend/src/components/Dashboard.jsx:121-124 | default filters, no selection, empty search |
| Dashboard.ApplyChangesOneFilter | frontend/src/components/Dashboard.jsx:105 | a change replaces exactly its own filter |
| Dashboard.ClearedRequestsEverything | frontend/src/components/Dashboard.jsx:31-33 | the initial (and cleared) state asks for every click: no condition for the charts or the line |
| Dashboard.ClickBarOnlyChangesLine | frontend/src/components/Dashboard.jsx:110-113 | a bar click changes the line chart and nothing else in the report |
| Dashboard.FilteredBars | frontend/src/components/Dashboard.jsx:165-167 | keeps exactly the bars whose lower-cased name contains the lower-cased search, never more bars |
| Dashboard.FilteredBarsKeepsOrder | frontend/src/components/Dashboard.jsx:165-167 | the search keeps the bars in their original order: it filters the two parts of a split chart separately and joins the results, and keeps a single bar exactly when its name matches |
| Dashboard.FilteredBarsSorted | frontend/src/components/Dashboard.jsx:165-167 | the search keeps the bars most clicked first |
| Dashboard.FilteredBarsDistinct | frontend/src/components/Dashboard.jsx:165-167 | the search keeps the bar names distinct |
| Dashboard.EmptySearchKeepsAll | frontend/src/components/Dashboard.jsx:165-167 | an empty search keeps every bar, in order |
| Dashboard.ClickedBarStandsOut | frontend/src/components/Dashboard.jsx:386 | after clicking bar `k` of the searched chart, exactly the other bars are dimmed |
| Dashboard.TrendBadge | frontend/src/components/Dashboard.jsx:218-221 | shown exactly when the trend is present; up exactly when it is non-negative; its magnitude |
| Dashboard.BadgeUpWithoutDrop | frontend/src/components/Dashboard.jsx:219-220 | with no drop in clicks, the badge points up |
| BarChartView.PaletteAlpha | frontend/src/components/BarChart.jsx:7-20 | every palette colour ends in `0.85)` and holds it nowhere else, so the hover colour's `replace` rewrites that ending; neither colour is the grey |
| BarChartView.ChartData | frontend/src/components/BarChart.jsx:25-36 | the empty state exactly for no bars; otherwise labels, values, colours and hover colours are parallel to the bars |
| BarChartView.OnClick | frontend/src/components/BarChart.jsx:55-59 | a click on element `k` reports `labels[k]`; a click on nothing reports nothing |
| BarChartView.ColorsCycle | frontend/src/components/BarChart.jsx:28-31 | without a selection, bar `i` has palette colour `i mod 10` |
| BarChartView.SelectionDimsOthers | frontend/src/components/BarChart.jsx:28-36 | with bar `k` selected, exactly the other bars are grey, on screen and on hover |
| BarChartView.BarChartDistinct | backend/src/routes/analytics.js:80 | the chart's bars have distinct names |
| HeatmapView.Weekday | frontend/src/components/ActivityHeatmap.jsx:15 | `getDay()` is a weekday 0 to 6 |
| HeatmapView.MonthLandmarks | frontend/src/components/ActivityHeatmap.jsx:15 | `getMonth()` changes at 1970-02-01 and at 1972-03-01, after a leap day |
| HeatmapView.CountMap | frontend/src/components/ActivityHeatmap.jsx:6-7 | the map built by the loop is `LastWins(data)` |
| HeatmapView.LastWinsLookup | frontend/src/components/ActivityHeatmap.jsx:7 | a date is in the map exactly when some entry names it; with one entry per date, the map holds its count |
| HeatmapView.Days | frontend/src/components/ActivityHeatmap.jsx:9-16 | exactly 91 cells; cell `j` is day `today − 90 + j`, with its count or 0 |
| HeatmapView.DaysWellFormed | frontend/src/components/ActivityHeatmap.jsx:15 | consecutive days have consecutive weekdays |
| HeatmapView.WeekdayOfIndex | frontend/src/components/ActivityHeatmap.jsx:15 | day `i` falls `i` weekdays after the first |
| HeatmapView.MaxCount | frontend/src/components/ActivityHeatmap.jsx:18-19 | no count exceeds the result, which is 0 or some day's count |
| HeatmapView.Weeks | frontend/src/components/ActivityHeatmap.jsx:21-34 | the columns flatten to `firstDay` empty slots then the days in order; columns are non-empty; each but the last ends on a Saturday and holds seven slots |
| HeatmapView.FlattenIndex | frontend/src/components/ActivityHeatmap.jsx:74-76 | in full weeks, flattened slot `p` is row `p mod 7` of column `p / 7` |
| HeatmapView.DayPosition | frontend/src/components/ActivityHeatmap.jsx:25-34 | day `i` sits in column `(firstDay + i) / 7`, in the row of its weekday |
| HeatmapView.LabelsCollide | frontend/src/components/ActivityHeatmap.jsx:37-45 | with the component's `i / 7`, the August and September labels both land over column 0; placed by the day's column, September moves to column 1 |
| HeatmapView.GridOpeningOnNovember25 | frontend/src/components/ActivityHeatmap.jsx:11-15 | on 2025-11-25 the grid opens with Wednesday 2025-08-27 through Monday 2025-09-01 |
| HeatmapView.LabelsMeaning | frontend/src/components/ActivityHeatmap.jsx:37-45 | consecutive labels name different months; each names the month of a Sunday-to-Wednesday day in its column |
| HeatmapView.LabelsShiftByPadding | frontend/src/components/ActivityHeatmap.jsx:37-45 | the as-written labels name the same months in the same order as the corrected ones, each at most one column to the left |
| HeatmapView.MonthLabelLoop | frontend/src/components/ActivityHeatmap.jsx:37-45 | the label loop as written returns `MonthLabelsAsWritten(days)`: each label over column `i / 7` of its day's index `i` |
| HeatmapView.BuildMonthLabels | frontend/src/components/ActivityHeatmap.jsx:37-45 | the corrected label loop returns `MonthLabels(days)`, which places each label over its day's column |
| HeatmapView.Band | frontend/src/components/ActivityHeatmap.jsx:50-57 | `getColor` as a band 0 to 4, with 0 exactly for no clicks |
| HeatmapView.ColorOfBand | frontend/src/components/ActivityHeatmap.jsx:50-57 | `getColor`'s string for any count is its band's colour, and two counts get the same colour exactly when they share a band |
| HeatmapView.BandMonotone | frontend/src/components/ActivityHeatmap.jsx:52-56 | more clicks never give a lighter band, and the busiest day gets the darkest |
| HeatmapView.Build | frontend/src/components/ActivityHeatmap.jsx:4-48 | 91 days ending today with their counts; each day in its column and weekday row; the columns, joined, are the `firstDay` empty slots then the days, each column non-empty and every one but the last ending on Saturday with seven slots; the max is the largest count (0 or attained), and some day is in the darkest band; the labels as the component places them, `MonthLabelsAsWritten(days)` |
| HeatmapView.CellsCountClicks | frontend/src/components/ActivityHeatmap.jsx:7-15 | fed the server's heatmap, each cell of the window shows the clicks of its day |
| FeatureTimeList.SixtySecondsShown | frontend/src/components/FeatureTimeList.jsx:10-17 | as written, 119.6 seconds shows as `1m 60s`, 3599.6 as `59m 60s` and 59.6 as `60s` |
| FeatureTimeList.DurationSpan | frontend/src/components/FeatureTimeList.jsx:10-17 | the corrected text: the well-formed span of the value rounded to whole seconds |
| FeatureTimeList.AsWrittenDenotesOffTheEdge | frontend/src/components/FeatureTimeList.jsx:10-17 | the as-written text is the well-formed span of the rounded value exactly when the value is not at the edge: neither 59.5 to 60 seconds nor leftover seconds of 59.5 or more |
| FeatureTimeList.CorrectedAgreesOffTheEdge | frontend/src/components/FeatureTimeList.jsx:10-17 | the as-written and the corrected formatters agree exactly on the values off the edge |
| FeatureTimeList.TimeList | frontend/src/components/FeatureTimeList.jsx:1-35 | the empty state exactly for no data; otherwise one row per entry, in order, formatted by `formatDuration` as written |
| FeatureTimeList.TotalShownExactly | frontend/src/components/FeatureTimeList.jsx:35 | a whole-second total is never at the edge, so it shows as its exact span |
| FeatureTimeList.AverageShownOffTheEdge | frontend/src/components/FeatureTimeList.jsx:34 | an average off the edge shows as the span of its value rounded to whole seconds |
| TopUsersPanel.FormatTime | frontend/src/components/TopUsers.jsx:8-19 | "—" exactly without a time; otherwise whole minutes below an hour, whole hours below a day, or whole days, each rounded down |
| TopUsersPanel.RankLabel | frontend/src/components/TopUsers.jsx:6-28 | medals for the first three places, `#n` for place `n` below them |
| TopUsersPanel.RankLabelsDistinct | frontend/src/components/TopUsers.jsx:28 | different places get different labels |
| TopUsersPanel.MaxClicks | frontend/src/components/TopUsers.jsx:21 | at least 1, and the first entry's count when that is positive |
| TopUsersPanel.WidthsWithinPanel | frontend/src/components/TopUsers.jsx:21-38 | with entries most clicked first, every bar is 0 to 100 percent wide, and the first fills the panel |
| TopUsersPanel.Panel | frontend/src/components/TopUsers.jsx:1-45 | the empty message exactly for no data; otherwise row `i` shows entry `i` with its place, details, time and bar |

## Left out

- The Express plumbing (routing, the JSON body parser, the `500` handlers) and the `authenticateToken` middleware are not modelled. The authenticated user's id is a parameter.
- JWT tokens are left out. Replies carry everything except the token.
- bcrypt is left out. `Register` takes the hash as a parameter, and `Login` takes the comparison as a predicate.
- The clock and the time zone are not modelled. "Now" and "today" are parameters.
  - Date strings are day numbers and timestamps are whole seconds.
  - The server's local time and the browser's are taken to be UTC, so the local `setDate`/`getDay`/`getMonth` calls agree with the UTC `toISOString` ones.
  - Malformed date strings are not modelled.
- Trend.PreviousWindow: assumes both dates are midnights, so `Math.ceil` of their distance is a whole number of days. An end before the start is still covered.
- Floating point is not modelled: `AVG`, the trend ratio, the heatmap ratio and bar widths are exact reals.
- Projections: tie order is not modelled. SQL leaves the order of rows with equal sort keys unspecified, and the model fixes one. Pie slices come in label order, as SQLite usually returns them, which SQL does not promise either.
- Ingest.EventStore.TrackTime: `feature_name` is a string and `duration` an integer. A non-string name or a non-integer, string or `NaN` duration is not modelled; an empty string and 0 stand for the falsy cases.
- Auth.UserTable.Register: username, password and gender are strings, and `""` stands for missing. Age is any JSON value, but numbers are integers.
- Auth.Login: username and password are strings, and `""` stands for missing.
- Ingest.EventStore.Track: the two clock reads are parameters in milliseconds. The stored one is cut to whole seconds, and the echoed one is returned as read. The text formats are not modelled: the stored `YYYY-MM-DD HH:MM:SS` and the echoed `toISOString()` are both numbers here.
- Concurrency (WAL mode, requests interleaving during a report) is not modelled. Every report is computed from one snapshot of the tables.
- String lengths count Unicode code points, not UTF-16 units. `toLowerCase` lowers ASCII letters only.
- TopUsersPanel.Panel: the avatar initial (`username[0].toUpperCase()`) is not modelled. `formatTime` takes the stored timestamp as seconds read as UTC.
- HeatmapView.Build: month names are month numbers, because `toLocaleDateString` is left out. The rendered grid markup and the legend are not modelled.
- FeatureTimeList.DurationSpan: a `NaN` or missing average is not modelled.
- Dashboard.SecondsSpan: takes a whole number of seconds, as the server rounds the average. `Math.round(s % 60)` is then the remainder itself.
- The cookie persistence, toasts, auto-refresh timer, CSV export, demographic tab, time-on-page tracking and `trackEvent` calls of the dashboard are not modelled. The handlers return the event name they would track.
- The line chart, pie chart and recent-activity components only render data, and are not modelled.
- The login page, the auth context, the API client, the seed script and the server setup are not modelled.

## Findings

| source | as written | input that shows it | evidently intended | confidence | as-written member | corrected member |
|---|---|---|---|---|---|---|
| frontend/src/components/FeatureTimeList.jsx:11-15 | `formatDuration` floors the minutes first and then rounds the leftover seconds, which can round up to 60; under a minute it rounds without carrying into minutes | an average of 119.6 seconds shows `1m 60s` (3599.6 shows `59m 60s`); an average from 59.5 up to 60 seconds shows `60s` | round to whole seconds first, then split: `2m 0s`, `1h 0m` and `1m 0s` | high, not executed | FeatureTimeList.SixtySecondsShown | FeatureTimeList.DurationSpan |
| frontend/src/components/ActivityHeatmap.jsx:42 | the month label's column is `Math.floor(i / 7)`, which ignores the `firstDay` empty slots that open the first column | on 2025-11-25 the grid opens on Wednesday 2025-08-27 and September starts on Monday 2025-09-01 (day 5); both labels get column 0, though that Monday sits in column 1 | the column that holds the day, `Math.floor((firstDay + i) / 7)` | medium, not executed | HeatmapView.LabelsCollide | HeatmapView.BuildMonthLabels |
