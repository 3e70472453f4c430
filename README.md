# Pinoké match schedule: selection logic

This project models, in Dafny, the two pieces of date-driven logic of the
Pinoké match-schedule site:

- the `GET /api/matches` handler (server/api/matches.js). It reads the
  catalogue of collections and the records of the first collection. It keeps
  the matches at the home venue "Amsterdamse Bos (Pinoké)" and attaches to
  each the UTC instant of its Amsterdam date and time. It drops those without
  a valid instant or dated before today (UTC) and sorts the rest by instant.
  It then returns today's matches, or, when there are none, at most four
  matches of the next date that has any, with the flag `isToday`. Any
  exception becomes a 500 error envelope.
- the display's state holder (app/composables/usePinokeMatches.js). It
  decides from category and sub-category how long a match lasts (50, 70, 60
  or 90 minutes, first rule wins) and keeps only the matches still being
  played. `updateMatches` re-filters the list only when it is today's list;
  `fetchMatches` installs a fresh reply, or on failure only raises `error`.

Modules, one concept each:

- `Wrappers` (wrappers.dfy): `Option` for `null`, `Result` for a thrown error
  and its message.
- `Seqs` (seqs.dfy): `filter`, `slice(0, n)` and `flat` as functions, with the
  facts both sides use (membership, multiplicity, order, idempotence).
- `Fixtures` (fixtures.dfy): the match record and the match with its instant
  `utcDate` (milliseconds since the epoch, `None` for `null`).
- `AmsterdamDate` (amsterdam_date.dfy): `parseAmsterdamDate`. It covers
  JavaScript's `split('-')`, the destructuring `[d, m, y]` (a missing part
  prints as "undefined"), the default time "00:00" and the text
  `${y}-${m}-${d}T${time}`.
- `MatchSelection` (match_selection.dfy): the UTC day of an instant, the
  stable sort by instant (an in-place array method proved equal to an
  insertion-sort function), and the today-or-next-date policy with its
  lemmas.
- `MatchesEndpoint` (matches_endpoint.dfy): the catalogue, the first
  collection, the record pipeline, the envelopes, the specification function
  `Respond` and the imperative handler `Handle` proved equal to it.
- `LiveMatches` (live_matches.dfy): the duration rule, the active filter and
  the class `MatchesState` with `UpdateMatches` and `FetchMatches`.

Modelling choices:

- Instants are integers in milliseconds. The date half of a UTC
  `toISO()` text is the day number `t / 86400000` (floor division). Comparing
  two "YYYY-MM-DD" texts, as line 153 does, is comparing day numbers.
- The Europe/Amsterdam conversion of the time-zone library is a parameter
  `zone` from the local ISO text to an instant, `None` when the library's
  result is invalid. Only the text handed to it is modelled.
- The network is a set of parameters. The catalogue reply is `CatalogReply`;
  an item without `data` throws, which is `CatalogThrew`. The collection
  source is a function from a name to its decoded elements, `None` when the
  fetch returned early or threw, both of which give an empty collection. The
  clock `now` is a parameter too.
- Text fields that are absent or `null` are the empty string. Every test the
  code makes on them (`===` against a non-empty literal, `includes`,
  truthiness) treats the three alike.
- On the display, a `utcDate` that is `null` or does not parse as a date is
  `None`. Neither is ever active, because `now < NaN` is false.

The handler keeps no result cache and does not deduplicate records. It
reads only the first collection of the catalogue and never scans later ones.
It makes no broadcaster cross-check and has no indoor-field duration rule.
It returns every today-dated match, finished or not; only the display
filters out finished matches.

## Model

| member | source | states |
|---|---|---|
| `AmsterdamDate.Split` | server/api/matches.js:30 | `split('-')` always yields at least one part and no part contains the separator |
| `AmsterdamDate.JoinSplit` | server/api/matches.js:30 | splitting the date text loses nothing: joining the parts with '-' gives the text back |
| `AmsterdamDate.SplitJoin` | server/api/matches.js:30 | parts without '-' joined and split again come back unchanged |
| `AmsterdamDate.LocalIso` | server/api/matches.js:28-32 | the result is `null` exactly when the date text is empty |
| `AmsterdamDate.LocalIsoReorders` | server/api/matches.js:30-32 | for a date `d-m-y` the text handed to the time-zone library is `y-m-d` + "T" + the time, and a missing time becomes "00:00" |
| `AmsterdamDate.ParseAmsterdamDate` | server/api/matches.js:28-33 | an empty date never yields an instant |
| `MatchSelection.DayKeyMonotone` | server/api/matches.js:153 | a later instant never has an earlier UTC day, so the day comparison agrees with the order of instants |
| `MatchSelection.InsertPermutes` | server/api/matches.js:156 | inserting into the sorted prefix adds exactly the new match |
| `MatchSelection.InsertSorted` | server/api/matches.js:156 | inserting into a sorted list keeps it sorted by instant |
| `MatchSelection.SortPermutes` | server/api/matches.js:156 | the sort keeps every match, as often as it occurs |
| `MatchSelection.SortSorted` | server/api/matches.js:156 | the sorted list is ascending by instant |
| `MatchSelection.InsertStable` | server/api/matches.js:156 | inserting a match leaves the order of the matches at any one instant as it was, with the new one last |
| `MatchSelection.SortStable` | server/api/matches.js:156 | the sort is stable: matches that start at the same instant keep their collection order |
| `MatchSelection.SortByInstant` | server/api/matches.js:156 | the in-place sort leaves the array equal to the stable sort of its old contents |
| `MatchSelection.SinkInto` | server/api/matches.js:156 | one pass of the in-place sort inserts the next element into the sorted prefix |
| `MatchSelection.FilterSorted` | server/api/matches.js:161 | filtering a sorted list by day keeps it sorted |
| `MatchSelection.FirstIsEarliest` | server/api/matches.js:165 | the first match of the sorted list is on the earliest day of all |
| `MatchSelection.TodayBranch` | server/api/matches.js:159-161 | when some qualifying match is dated today, the result is exactly today's matches, each as often as it qualifies, with no cap, in sorted order, and `isToday` is true |
| `MatchSelection.NextDay` | server/api/matches.js:164-165 | when no match is dated today, the day of the first sorted match is strictly after today and no later than any qualifying match |
| `MatchSelection.TakeSorted` | server/api/matches.js:166 | `slice(0, 4)` of a sorted list is sorted, drawn from the list, and keeps its earliest elements |
| `MatchSelection.NextDateBranch` | server/api/matches.js:163-171 | with no match today and some qualifying, the result is non-empty, on the earliest day, which is after today, is the first at most four sorted matches of that day, and `isToday` is false |
| `MatchSelection.NextDateContents` | server/api/matches.js:166 | the next-date result holds min(4, number of that day's matches) matches, all of that day, sorted, none later than a match of that day it left out |
| `MatchSelection.SelectFromSorted` | server/api/matches.js:159-167 | in either branch the result comes from the sorted list, is sorted and lies on one day |
| `MatchSelection.SelectionShape` | server/api/matches.js:159-171 | the result contains only qualifying matches, is sorted and on one day, is empty exactly when nothing qualifies, and `isToday` holds exactly when some qualifying match is dated today |
| `MatchesEndpoint.Decimal` | server/api/matches.js:48 | the status is printed as a non-empty run of decimal digits, without a leading zero, whose value is the status |
| `MatchesEndpoint.CollectionNames` | server/api/matches.js:53 | the names kept are exactly the non-empty names of the catalogue, each as often as it occurs there, in catalogue order (a subsequence), and the first name kept is the first non-empty catalogue name |
| `MatchesEndpoint.FetchCollections` | server/api/matches.js:40-54 | the catalogue yields names exactly when the request succeeded, and then exactly `CollectionNames` of the catalogue, none empty; a non-success status gives the error "Collections fetch failed: " + status + " " + status text, and a thrown request passes its own message on |
| `MatchesEndpoint.Records` | server/api/matches.js:147 | `m.data` throws, with the null-property message, exactly when some element is `null`; otherwise every element's `data`, position by position |
| `MatchesEndpoint.HomeMatches` | server/api/matches.js:148-152 | the result is the home-venue records of the collection, in collection order and with their multiplicity, each with its converted instant attached: the i-th match is the i-th home record annotated |
| `MatchesEndpoint.HomeMembers` | server/api/matches.js:148-152 | a list that is the home records annotated position by position holds exactly the home records' annotations: each entry is at the home venue, carries its converted instant and comes from the collection, and every home record appears |
| `MatchesEndpoint.Qualify` | server/api/matches.js:146-153 | every match kept has a valid instant on today's UTC day or later; every home record whose instant is valid and not before today is kept; each qualifying match occurs as often as among the home matches, and a non-qualifying one not at all; the kept matches stay in collection order (a subsequence of the home matches) |
| `MatchesEndpoint.Envelope` | server/api/matches.js:176-181 | the error envelope has status 500, status message "Server Error", and the error's message when it is non-empty, and "Server Error" when it is empty |
| `MatchesEndpoint.Handle` | server/api/matches.js:122-183 | the handler's steps (first collection only, flatten, filter, then the sort and day choice of `PickDay`) answer what `Respond` specifies |
| `MatchesEndpoint.PickDay` | server/api/matches.js:156-171 | the in-place sort followed by the today-or-next-date choice with reassignment yields the selection `Select` specifies over the stable sort |
| `MatchesEndpoint.ListingProperties` | server/api/matches.js:146-173 | every listed match is at the home venue with a valid instant equal to its converted local date and time, not before today's UTC day; the list is sorted by instant and on one day; `serverTime` is the clock; the list is empty exactly when no home match qualifies |
| `MatchesEndpoint.ListedAreHome` | server/api/matches.js:146-166 | every match the today-or-next-date choice keeps is a home match with its converted, valid instant on today's UTC day or later |
| `MatchesEndpoint.TodayRecordListed` | server/api/matches.js:146-172 | a home record of the first collection whose instant is valid and on today's UTC day is listed, and the answer says `isToday` |
| `MatchesEndpoint.ErrorCases` | server/api/matches.js:123-182 | the answer is the error envelope exactly when the catalogue fetch failed or the first collection holds a `null` element, and the envelope says 500 and "Server Error" with a message |
| `MatchesEndpoint.OnlyFirstCollection` | server/api/matches.js:127-137 | the answer depends on the collection source only through the first catalogue name |
| `LiveMatches.DurationMinutes` | app/composables/usePinokeMatches.js:35-44 | the duration is 50, 60, 70 or 90; it is 50 exactly for "Jongste jeugd", even when the sub-category names an age group; 70 exactly when otherwise the sub-category contains "Onder 12" or "Onder 14"; 60 exactly when otherwise it is "Trimhockey" |
| `LiveMatches.FilterActiveMatches` | app/composables/usePinokeMatches.js:25-49 | a match is kept exactly when it has an instant and `now` is before start plus duration (a match at its end instant is dropped); the result is an order-preserving subsequence of the input, and each active match occurs in it as often as in the input |
| `LiveMatches.FilterActiveIdempotent` | app/composables/usePinokeMatches.js:30-48 | filtering twice at the same instant equals filtering once |
| `LiveMatches.FilterActiveLater` | app/composables/usePinokeMatches.js:30-48 | filtering at an earlier instant and then a later one equals filtering at the later one |
| `LiveMatches.Received` | app/composables/usePinokeMatches.js:94-103 | the decoded answer counts as failed exactly for the error envelope; a listing delivers its matches and its `isToday` |
| `LiveMatches.MatchesState.constructor` | app/composables/usePinokeMatches.js:8-18 | the state starts loading, without error, with no matches, not today, never updated |
| `LiveMatches.MatchesState.UpdateMatches` | app/composables/usePinokeMatches.js:54-60 | a today list is replaced by its active part, any other list is unchanged, the update time is the clock, and the state invariant is kept |
| `LiveMatches.MatchesState.FetchMatches` | app/composables/usePinokeMatches.js:90-124 | on success `error` is false, `isToday` is `data.isToday` or false, `matches` is the active part of `data.matches` or of []; on failure `error` is true and the list, flag and update time stay; `loading` ends false; the invariant (matches timed; a today list active at its last refresh) is kept |

## Left out

- Network I/O: the two `fetch` calls, the status checks, the 100 ms throttle `delay`, the request headers and the decoding of the nested JSON text. The catalogue reply, the collection contents and the display's reply are inputs.
- The Europe/Amsterdam to UTC conversion with its daylight-saving rules: it needs the time-zone database. It is the parameter `zone`.
- Years outside 0000-9999: the library prints them with a sign and six digits, and the text comparison of line 153 then no longer follows the day order. The model compares day numbers.
- Fields of the wrong JSON type (a numeric `date`, say), and instants outside the range of a JavaScript `Date`.
- Vue reactivity, the `setInterval` timers of `startLiveUpdates` and `stopLiveUpdates`, the `toLocaleTimeString` formatting of `lastUpdate` (the model keeps the clock reading), and console logging.
- The state while a request is in flight: `FetchMatches` is one step from the settled reply, so an `updateMatches` between `loading = true` and the reply is not modelled.
- nuxt.config.ts: framework configuration with no logic.
