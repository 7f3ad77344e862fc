# kill-your-selfie: a verified model of the dashboard's logic

The application logs "occurrences" (a timestamp, a location label, a target
and a free-text context), shows them on a dashboard, and manages users. Under
the web framework and the ORM there is a small layer of plain sequential
logic. This project models that layer in Dafny and proves properties of it:

- **Weekly bar chart** (`weekly.dfy`, `calendar.dfy`). Per-day counts are cut
  to a window ending today. Each kept day is named by its weekday. The seven
  weekday names are rotated to start after today's weekday. A padding loop
  then inserts zero bars for the weekdays that have no row.
- **Heat-map rows** (`heatmap.dfy`). Locations that lack a coordinate are
  dropped. Each remaining row becomes a point (latitude, longitude, count).
- **Option history** (`distinct.dfy`). The location and target lists of the
  occurrence form remove duplicates and keep the order of first occurrence.
- **The store** (`models.dfy`, `occurrences.dfy`). The location, occurrence
  and user tables are plain rows. The schema's keys, widths and foreign key
  together form the invariant `Valid`. Not-null columns hold plain values,
  so their constraint holds by type; missing values are listed below. A commit is accepted
  only when the new state is valid. Logging an occurrence creates a location
  with null coordinates when the label is new. Mapping a location sets its
  coordinates.
- **Authentication** (`auth.dfy`). A login looks the user up first and only
  then checks the password hash. The outcome is success, unknown user or
  wrong password.
- **Route decisions** (`app.dfy`, `sorting.dfy`). These cover the web root's
  redirect, the login page's redirect and error flash, the admin checkbox,
  and the sorted, never-empty option list of the map-location page.

Dates are day numbers counted from 1970-01-01, which was a Thursday. The
Sunday-first weekday index of day `d` is `(d + 4) % 7`. This stands in for
the `%w` and `%A` date formats. The current time `now` is a parameter. The
bcrypt check is a function parameter `checkHash`, and the login session is a
plain value that records the logged-in user's id.

The program has two copies of the occurrence module: `occurences.py` and
`occurrences.py`. The web layer imports `occurences` (app.py:9) but calls
`occurences.map_location` (app.py:140). Only `occurrences.py` defines that
function (occurrences.py:49-54). `occurrences.py` in turn builds rows from
`models.Occurrence`, but the models file defines only `Occurence`
(models.py:21). The model has one store that carries both operations, and
the module comment of `occurrences.dfy` records the mismatch.

## Model

| member | source | states |
|---|---|---|
| Distinct.Dedup | kill_your_selfie/util.py:5-11 | the location history has no repeated label, contains every input label, and contains only input labels |
| Distinct.DedupFirstOccurrenceOrder | kill_your_selfie/util.py:8-10 | any two labels in the history appear in the order of their first occurrence in the input |
| Distinct.DedupOfDistinct | kill_your_selfie/util.py:9-10 | on an input with no repeats the history is the input itself |
| Distinct.DistinctInOrder | kill_your_selfie/occurences.py:12-18 | the append-if-absent loop computes exactly the order-preserving deduplication, so its result has no repeats and holds the same elements as its input |
| Occurrences.LocationOptions | kill_your_selfie/occurrences.py:12-18 | the location history of a store has no repeats, contains every stored label, contains nothing else, and lists labels in the order of their first row |
| Occurrences.TargetOptions | kill_your_selfie/occurences.py:21-27 | the target history has no repeats, contains every logged target, contains nothing else, and lists targets in the order of their first row |
| Occurrences.LocationOptionsOfValid | kill_your_selfie/models.py:12 | because the label is the primary key, the location history of a valid store is the label column row for row |
| Occurrences.AddOccurrence | kill_your_selfie/occurences.py:30-46 | in a valid store, logging succeeds exactly when the timestamp is new and the label and target fit 80 characters; on success the store stays valid and exactly one occurrence with the given fields is appended; a known label leaves the locations unchanged; a new label adds one location with null coordinates; afterwards the label is stored; users are untouched; on failure the error is a constraint violation |
| Occurrences.FindLocation | kill_your_selfie/occurrences.py:51 | the lookup by label finds a row exactly when the label is stored, and the row it finds carries that label |
| Occurrences.MapLocation | kill_your_selfie/occurrences.py:49-54 | an unknown label fails with NoSuchLocation; in a valid store a known label succeeds; the result is valid; the label now maps to the given latitude and longitude; the labels, every other label's coordinates, the occurrences and the users are unchanged |
| Occurrences.AddThenMap | kill_your_selfie/occurrences.py:38-54 | a label that was just logged in a valid store can be mapped, and mapping keeps the new occurrence |
| Occurrences.OccurrenceLocationExists | kill_your_selfie/models.py:26 | in a valid store, the location of every occurrence can be looked up (the foreign key holds) |
| Models.Commit | kill_your_selfie/models.py:9-44 | a commit succeeds only with a state that meets every key, width and reference constraint; otherwise it fails with a constraint violation and the state is not valid |
| Weekly.InWindow | kill_your_selfie/stats.py:23-29 | every kept row comes from the input and has its day inside the window; no more rows are kept than given |
| Weekly.InWindowComplete | kill_your_selfie/stats.py:24-27 | every input row whose day lies in the window is kept |
| Weekly.InWindowAscending | kill_your_selfie/stats.py:19-29 | rows in ascending day order stay in ascending order after filtering |
| Weekly.RotatedWeekdays | kill_your_selfie/stats.py:32-44 | the rotated name list always has seven entries, including when the start index is 7 |
| Weekly.RotationShape | kill_your_selfie/stats.py:42-44 | position i of the rotation holds the Sunday-first name at index (weekday(now-7) + 1 + i) mod 7 |
| Weekly.RotationPermutation | kill_your_selfie/stats.py:32-44 | the rotation is a permutation of the seven weekday names |
| Weekly.RotationEndsToday | kill_your_selfie/stats.py:42-44 | the rotation names the seven days from now-6 to now, in that order |
| Weekly.FillEmbeds | kill_your_selfie/stats.py:46-52 | the padding loop keeps every given bar in its order and adds only bars with count 0 |
| Weekly.FillNames | kill_your_selfie/stats.py:46-52 | when the bars before the starting index already carry the weekday names, the output is at least as long as the weekday list, and its first bars carry exactly those names in order |
| Weekly.FillExact | kill_your_selfie/stats.py:46-52 | when the names of the remaining bars occur in order among the remaining weekday names, the output has exactly as many bars as there are weekdays |
| Weekly.FillMissingWeekdays | kill_your_selfie/stats.py:46-52 | the while loop, with its insert and append branches, terminates; it returns the padded list, which is at least as long as both the weekday list and the data, and whose first bars carry the weekday names in order |
| Weekly.WeeklyBarData | kill_your_selfie/stats.py:10-54 | the whole computation returns at least seven bars, and bar j is named after day now-6+j |
| Weekly.WeeklyBarsFixedTable | kill_your_selfie/stats.py:23-52 | with the window cut to now-6 … now, the chart is exactly seven bars: bar j names day now-6+j and carries that day's count, or 0 if the day has no row |
| Weekly.NoStaleDayCorrect | kill_your_selfie/stats.py:23-52 | when no row is dated now-7, the chart of `weekly_bar_data` is exactly the intended seven-bar table |
| Weekly.StaleDayLayout | kill_your_selfie/stats.py:25-26 | with a row dated now-7, the chart of `weekly_bar_data` is six zero bars followed by all window bars, and the first of those bars is named after today but carries the count from seven days ago |
| Weekly.StaleAndTodayKept | kill_your_selfie/stats.py:23-29 | when rows exist for both seven days ago and today, both pass the date filter, so the window holds at least two rows |
| Weekly.StaleDayWrong | kill_your_selfie/stats.py:25-26 | with a row dated now-7 and a positive count, the chart of `weekly_bar_data` differs from the intended table |
| Weekly.WeeklyBarsCorrectIff | kill_your_selfie/stats.py:23-52 | with positive counts, the chart of `weekly_bar_data` equals the intended table exactly when no row is dated now-7 |
| Weekly.StaleDayExample | kill_your_selfie/stats.py:25-26 | a concrete case: on Friday 2024-10-04, with rows for Friday 2024-09-27 (2) and Monday 2024-09-30 (3), the chart has eight bars; the Friday bar shows 2; the Monday slot shows 0 instead of 3 |
| Calendar.DayNameInjective | kill_your_selfie/stats.py:29 | within any seven consecutive days, two days share a weekday name only if they are the same day |
| Heatmap.HeatRows | kill_your_selfie/stats.py:72-75 | every row with both coordinates contributes its point (latitude, longitude, count), and there are no more points than rows |
| Heatmap.HeatRowsSelection | kill_your_selfie/stats.py:72-75 | the points are exactly the rows with both coordinates, projected, in input order: an increasing index list picks every such row and no other |
| Auth.ErrorText | kill_your_selfie/auth.py:17-22 | the text of an authentication error is its message: building an error from the text gives back the same error |
| Auth.FindUser | kill_your_selfie/auth.py:33 | the lookup finds nothing exactly when no user has the name; otherwise it finds a stored user with that name |
| Auth.FindUserUnique | kill_your_selfie/models.py:41 | usernames are unique, so in a valid user table the lookup returns the one user with that name |
| Auth.Authenticate | kill_your_selfie/auth.py:25-42 | an unknown user fails with "User with that username doesn't exist" and the session unchanged; success happens exactly when the user exists and the hash check accepts; success returns "success" and logs that user in; a known user with a rejected hash fails with "Wrong password"; no failure changes the session |
| Auth.UnknownUserIgnoresPassword | kill_your_selfie/auth.py:33-37 | for an unknown username, neither the password nor the hash check affects the outcome, which is a failure |
| Auth.AuthenticateStoredUser | kill_your_selfie/auth.py:33-40 | for a stored user in a valid table, login succeeds exactly when the hash check accepts that user's stored hash, and the session then holds that user's id |
| App.Index | kill_your_selfie/app.py:42-48 | the web root always redirects: home exactly when a user is logged in, login exactly when none is |
| App.Login | kill_your_selfie/app.py:57-67 | a GET renders the form and changes nothing; the page redirects exactly on a POST whose authentication succeeds and whose `next` is absent or names a known endpoint; the session after a POST is the one authentication produced, so the redirect goes to `next`, or home if `next` is absent, with that user logged in; a successful POST whose `next` names no endpoint ends in a server error, with that user already logged in; a failed POST flashes exactly one "Error: " message, the unknown-user text when the name is not stored and the wrong-password text when it is, and re-renders the form with the session unchanged |
| App.LoginThenIndexGoesHome | kill_your_selfie/app.py:42-67 | after a login that succeeds, whether it redirects or ends in a server error, the web root sends the user home |
| App.AdminFlag | kill_your_selfie/app.py:100 | the new user is an admin exactly when the form field `admin-state` is present and equal to "on"; an absent field means not an admin |
| App.MapLocationOptions | kill_your_selfie/app.py:134-137 | the option list is sorted and never empty; with no locations it is [""]; otherwise it holds the location history's elements; in a valid store it holds the stored labels |
| Sorting.Sort | kill_your_selfie/app.py:135 | the sort returns its input's elements, with multiplicities, in lexicographic code-point order |

## Left out

- The SQL aggregate queries (stats.py:13-21 and 60-71) are not modelled. Their results are inputs: `DayCount` rows, and `LocationCount` rows. The lemmas on the weekly chart require strictly ascending days, as the `GROUP BY … ORDER BY` query guarantees.
- The folium map and the HTML it produces (stats.py:77-79) are not modelled: this is a foreign library.
- bcrypt hashing (auth.py:37) is a function parameter, not an algorithm. flask_login's `login_user(user, remember=True)` becomes a new session that holds the user's id. The "remember" cookie is not modelled.
- `auth.create_user` and `auth.admin_required` are used by app.py:92,96 but auth.py does not define them. The new-user page is modelled only for its admin flag.
- Date parsing (`strptime`, app.py:115), float parsing of coordinates (app.py:142-143) and the text formats of `strftime` are not modelled. Coordinates are opaque reals with no arithmetic. Weekday names come from the day-number calendar above.
- `datetime.now()` is read three times in stats.py. It is one `now` parameter here, and time zones are not modelled.
- Form fields that are missing (Python's `None`) are not modelled for the login username and password, or for the location, target and context of a new occurrence (app.py:116-118). They are plain strings here. With `None` as target or context, the commit would fail on the not-null columns (models.py:27-28); the model cannot express that failure. The admin checkbox does model a missing field.
- The occurrence's `location_label` column is nullable (models.py:26 has no `nullable=False`). `Models.Occurrence` always carries a label, so an occurrence without a location is not modelled.
- Sorting.Sort: its contract does not state that the output is unique. Python's stable sort on strings gives the only sorted permutation, but this is not proved.
- Occurrences.AddOccurrence: each operation is modelled as running alone on the store. Two requests that log the same new label at once both find it missing (occurences.py:38), both insert a location (occurences.py:44-46), and the second commit fails on the primary key (models.py:12). This check-then-insert race between requests is not modelled: the model applies requests one after another, and the second one succeeds.
- Occurrences.AddOccurrence: the 80-character width test is exact. PostgreSQL's `VARCHAR(80)` (models.py:12, 26-27) also accepts a longer value whose extra characters are all spaces, and stores it truncated. In the model such a label or target fails with a constraint violation, and the truncated label is not modelled.
- Occurrences.AddOccurrence: psycopg2 refuses any string that contains a NUL character with a `ValueError`. The model accepts such strings in every field.
- Models.Commit: the width constraints are exact length tests. PostgreSQL's trailing-space truncation of over-width `VARCHAR` values and psycopg2's refusal of NUL characters are not modelled, for the same reasons as above.
- Row order: the full-table queries behind the option lists (`query.all()`, occurences.py:15,24) have no `ORDER BY`, so the database promises no order. The model fixes one: new rows go at the end, and an updated row stays in place. The first-occurrence order stated for `Occurrences.LocationOptions` and `Occurrences.TargetOptions` holds for that fixed order, not for whatever order PostgreSQL returns.
- `InvalidTimeError` (occurences.py:6-9, occurrences.py:6-9) is never raised, so it is not modelled.
- The unauthorized handler, logout, the home and base pages, and template rendering are framework plumbing. The model keeps only the template name of the login page.
- The map-location page calls `occurences.map_location` (app.py:140), but that module has no such function, so in the program the POST would fail. The model uses the function from occurrences.py instead (`Occurrences.MapLocation`).
- Notifications (an HTTP POST), the JavaScript charts, database session passthroughs, configuration and the entry point are I/O and framework code. They are not modelled.

## Findings

| source | as written | input that shows it | evidently intended | confidence | as-written member | corrected member |
|---|---|---|---|---|---|---|
| kill_your_selfie/stats.py:25-26 | the window runs from seven days before today to today inclusive (eight days), but only seven weekday names are padded (stats.py:42-52) | today Friday 2024-10-04 (day 20000), rows Friday 2024-09-27 with 2 and Monday 2024-09-30 with 3: eight bars, today's Friday bar shows 2, and the Monday slot shows 0 | the window is the seven days from now-6 to now, one bar per day with that day's count | not executed; high (the proof gives the exact layout of the output) | Weekly.StaleDayWrong | Weekly.WeeklyBarsFixedTable |

`Weekly.WeeklyBars` models the code as written. `Weekly.WeeklyBarsFixed` is the corrected chart, and the model proves it equals the intended table for every ascending input. `Weekly.WeeklyBarsCorrectIff` shows that the two agree exactly when no row is dated seven days before today.
