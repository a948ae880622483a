# Dating Tracker: calendar sync, calendar view and local sign-in, in Dafny

This project models the logic at the centre of the Dating Tracker web app.

- **Calendar event mapping** (`calendar_event.dfy`). A logged date becomes the
  event sent to the remote calendar: the title `"<type> Date - <location>"`, a
  description trimmed from a template, a two-hour window, and a colour id
  picked from the outcome.
- **The calendar service** (`calendar_sync.dfy`). A class holds the remote
  client (uninitialised or ready) and the browser's link store, which maps
  `calendar-event-<entry id>` to a remote event id. Every remote call is
  guarded by the client state. The sync pass visits every entry in order:
  it updates through an existing link or creates an event and records the
  new link, and it counts successes and failures.
- **The month calendar's helpers** (`calendar_view.dfy`). These are:
  - the entries on one day;
  - the best outcome of a day, by the ranking Great > Good > Okay > No spark > anything else;
  - the CSS class for an outcome;
  - the days of the previous month that pad the first week.
- **The local sign-in store** (`auth.dfy`). A class holds:
  - the list of email users;
  - the list of Google users;
  - the saved-session slot;
  - the signed-in user;
  - the loading flag.

  Its operations are login, sign-up, Google sign-in (an upsert by email),
  logout, and restoring a saved session on mount.

`entries.dfy` holds the shared `DateEntry` record and the four outcome names.
`wrappers.dfy` holds `Option`, which stands for JavaScript's `null`/`undefined`.

Conventions:

- **Dates.** Date and time strings are parsed by a function passed in as a
  parameter. The calendar service gets the instant in milliseconds, or
  `None` for an invalid date. The view gets a day number: days since
  1 January 1970, which was a Thursday.
- **Remote calls and storage.** Results of the remote calendar API and
  exceptions from browser storage are arbitrary values (`x := *`). The sync
  pass returns a ghost trace of what happened to each entry. Its contract
  ties the counters and the new link store to that trace; the lemmas say
  what every possible trace guarantees.
- **Colours.** The colour ids follow the code: "10", "7", "5", "8" and "1"
  for Great, Good, Okay, No spark and anything else. Green, blue, yellow,
  gray and default are only their names in the remote calendar.

## Model

| member | source | states |
|---|---|---|
| CalendarEvents.ColorId | src/lib/google-calendar.ts:69-76 | The id is one of "10", "7", "5", "8", "1". It is "1" exactly when the outcome is not one of the four known names. |
| CalendarEvents.ColorIdInjectiveOnKnown | src/lib/google-calendar.ts:69-76 | Two known outcomes get the same colour id only if they are the same outcome. |
| CalendarEvents.NatText | src/lib/google-calendar.ts:84 | A count is rendered as a non-empty run of decimal digits that denotes it, with no leading zero. |
| CalendarEvents.RatingText | src/lib/google-calendar.ts:84 | A rating is rendered in plain decimal, as JavaScript does for integers below 1e21 in magnitude: a leading minus exactly for a negative rating, then digits denoting its magnitude, with no leading zero. |
| CalendarEvents.NotesLine | src/lib/google-calendar.ts:85 | The notes line is empty exactly when the notes are empty (falsy). |
| CalendarEvents.TrimStart | src/lib/google-calendar.ts:88 | The result is a suffix of the input and does not begin with white space. |
| CalendarEvents.TrimEnd | src/lib/google-calendar.ts:88 | The result is a prefix of the input and does not end with white space. |
| CalendarEvents.TrimStartSkips | src/lib/google-calendar.ts:80-88 | Leading white space is removed up to the first other character, and nothing more. |
| CalendarEvents.TrimEndSkips | src/lib/google-calendar.ts:80-88 | Trailing white space is removed back to the last other character, and nothing more. |
| CalendarEvents.TrimFraming | src/lib/google-calendar.ts:80-88 | Trimming a text framed by the template's opening line break and closing indentation gives back the text. |
| CalendarEvents.DescriptionTextEnds | src/lib/google-calendar.ts:80-88 | The laid-out description starts with "Date Type: " and ends with the "Created by Dating Tracker App" line. |
| CalendarEvents.DescriptionLayout | src/lib/google-calendar.ts:80-88 | The description is the header lines, then the notes line, then the credit line. The notes line is "Notes: " + notes when notes are non-empty and absent otherwise. The description starts with "Date Type: " and ends with the credit line. |
| CalendarEvents.ToCalendarEvent | src/lib/google-calendar.ts:64-103 | The mapping succeeds exactly when the date parses and both the start and start + 2 h are valid time values. The start is the parsed instant and the end is two hours later, in the same time zone. Summary is type + " Date - " + location, location is copied verbatim, colour is `ColorId(outcome)` and the description is the trimmed template. |
| CalendarEvents.LateStartFails | src/lib/google-calendar.ts:65-66 | Every start less than two hours below the top of the time range is valid, yet the mapping fails, because its end is out of range. |
| CalendarSync.LinkKey | src/lib/google-calendar.ts:207 | The key is "calendar-event-" followed by the entry id. |
| CalendarSync.LinkKeyInjective | src/lib/google-calendar.ts:207 | Two entries share a key exactly when they share an id. |
| CalendarSync.Record | src/lib/google-calendar.ts:209-226 | Only a create whose id is truthy writes, and only that entry's key with that id. Every other key is kept. |
| CalendarSync.SuccessCount | src/lib/google-calendar.ts:201-231 | There are never more successes than entries. Every entry succeeded exactly when the count equals the number of entries. |
| CalendarSync.PassKeepsLinks | src/lib/google-calendar.ts:207-227 | A pass never removes a key and never changes a key that holds a non-empty id. |
| CalendarSync.LinkSurvivesPass | src/lib/google-calendar.ts:207-211 | An existing link is still present, with the same id, after any pass. |
| CalendarSync.PassWritesOnlyCreates | src/lib/google-calendar.ts:219-223 | Every key a pass adds or changes belongs to an entry whose create succeeded, and holds the id that create returned. |
| CalendarSync.CreatedEntriesLinked | src/lib/google-calendar.ts:219-223 | After a pass, every entry whose create succeeded is linked to its new id. |
| CalendarSync.LaterDuplicateNeverCreates | src/lib/google-calendar.ts:207-222 | Within one pass, a later entry with the id of a created entry never takes the create branch. |
| CalendarSync.SecondPassNeverRecreates | src/lib/google-calendar.ts:207-222 | In a later pass over the store a pass left, an entry created in the first pass never takes the create branch. |
| CalendarSync.UnmappableEntryFails | src/lib/google-calendar.ts:113-125 | An entry whose date gives no event (invalid, or a window leaving the time range) is never counted as a success. |
| CalendarSync.UninitialisedPassFails | src/lib/google-calendar.ts:200-234 | Without a client, every entry fails and the link store is unchanged. |
| CalendarSync.GoogleCalendarService.constructor | src/lib/google-calendar.ts:38-42 | The service starts uninitialised over the given link store. |
| CalendarSync.GoogleCalendarService.Initialize | src/lib/google-calendar.ts:45-61 | On success the client holds the access token. A failure leaves the client as it was. |
| CalendarSync.GoogleCalendarService.EventFor | src/lib/google-calendar.ts:64-103 | An event is produced exactly when the entry's date maps to a valid two-hour window. |
| CalendarSync.GoogleCalendarService.CreateEvent | src/lib/google-calendar.ts:107-126 | Without a client, or for an entry that gives no event, the result is null. |
| CalendarSync.GoogleCalendarService.UpdateEvent | src/lib/google-calendar.ts:129-149 | Without a client, or for an entry that gives no event, the result is false. |
| CalendarSync.GoogleCalendarService.DeleteEvent | src/lib/google-calendar.ts:152-169 | Without a client the result is false. |
| CalendarSync.GoogleCalendarService.GetEvents | src/lib/google-calendar.ts:172-197 | Without a client the result is empty. So it is when the lower bound (the given start, or `now` when none is given) or a given end is outside the time range. |
| CalendarSync.GoogleCalendarService.HasCalendarPermission | src/lib/google-calendar.ts:238-250 | Without a client the result is false. |
| CalendarSync.GoogleCalendarService.SyncEntry | src/lib/google-calendar.ts:205-231 | One loop iteration. The branch follows the stored link, the store changes only as `Record` says, and the success flag is the attempt's success. |
| CalendarSync.GoogleCalendarService.SyncDateEntries | src/lib/google-calendar.ts:200-235 | Every entry is attempted in order, and success + failed equals the number of entries. The store afterwards is the pass's store, and success counts the successful attempts. Without a client, nothing succeeds and the store is unchanged. |
| CalendarView.GetEntriesForDate | src/components/Calendar.tsx:43-48 | The result is exactly the entries on that day, with their multiplicities, in their original order. |
| CalendarView.OutcomeRank | src/components/Calendar.tsx:55-58 | The rank is at most 4. It is 0 exactly when the outcome is not a known name. |
| CalendarView.ReduceBest | src/components/Calendar.tsx:56-60 | The fold ends at a position at or after its start whose entry ranks at least as high as the starting accumulator. |
| CalendarView.BestEntry | src/components/Calendar.tsx:56-60 | The reduced entry is one of the entries and ranks at least as high as every entry. |
| CalendarView.ReduceBestIsEarliest | src/components/Calendar.tsx:56-60 | The fold ends at the earliest entry of maximal rank. |
| CalendarView.BestEntryIsEarliestMaximum | src/components/Calendar.tsx:56-60 | The reduced entry is the first one of maximal rank, so ties keep the earliest entry. |
| CalendarView.GetBestOutcomeForDate | src/components/Calendar.tsx:51-63 | The result is null exactly when no entry is on that day. Otherwise it is the outcome of an entry on that day whose rank is maximal among that day's entries. |
| CalendarView.BestOutcomeKeepsEarliest | src/components/Calendar.tsx:51-62 | The day's outcome is that of the earliest of its entries with maximal rank. |
| CalendarView.GetOutcomeColor | src/components/Calendar.tsx:66-74 | The default class is returned exactly when the outcome is not a known name. |
| CalendarView.OutcomeColorFollowsRank | src/components/Calendar.tsx:66-74 | Two outcomes get the same class exactly when they have the same rank, so each known outcome has its own class. |
| CalendarView.ColorIdFollowsRank | src/lib/google-calendar.ts:69-76 | The calendar colour ids and the view's ranking classify outcomes the same way. |
| CalendarView.Weekday | src/components/Calendar.tsx:35 | The weekday is in 0..6 (`getDay`, with day 0 a Thursday). |
| CalendarView.PaddingDays | src/components/Calendar.tsx:35-40 | There are as many padding days as the month's first weekday. They are consecutive days, the last is the day before the first of the month, and the first is a Sunday. |
| CalendarView.WeekdayBack | src/components/Calendar.tsx:35-38 | Going back `Weekday(d)` days from `d` lands on a Sunday. |
| CalendarView.PaddingDaysAscend | src/components/Calendar.tsx:36-40 | The padding days strictly ascend and all come before the first of the month. |
| CalendarView.RankAsWritten | src/components/Calendar.tsx:55-58 | Away from `Object.prototype`'s property names, the lookup finds the modelled rank. On one of those names it finds the inherited member, which compares through its string form. |
| CalendarView.LexLessTransitive | src/components/Calendar.tsx:59 | String `<` on character codes is transitive. |
| CalendarView.LexLessCommonPrefix | src/components/Calendar.tsx:59 | A common prefix keeps the string order of two texts. |
| CalendarView.GreaterAsWrittenTransitive | src/components/Calendar.tsx:59 | `>` on the looked-up values is transitive: two numbers compare numerically, two texts by character codes, and a text against a number is never greater. |
| CalendarView.ReduceRanksAsWritten | src/components/Calendar.tsx:56-60 | The fold as written over looked-up values stays inside the list. Its contract is only this bound; `ReduceAsWrittenPicksGreater` and `ReduceAsWrittenKeepsPick` characterise which position it ends at. |
| CalendarView.ReduceBestAsWritten | src/components/Calendar.tsx:56-60 | The reduce as written, over each entry's looked-up value (`LookedUp`, the value `outcomeRanking[outcome] \|\| 0` takes). It keeps the entry it holds or ends at a later one whose value compares greater. No entry after the one it ends at compares greater. |
| CalendarView.ReduceAsWrittenPicksGreater | src/components/Calendar.tsx:56-60 | The fold as written keeps the entry it holds or ends at a later one whose looked-up value compares greater. |
| CalendarView.ReduceAsWrittenKeepsPick | src/components/Calendar.tsx:56-60 | No entry after the one the fold as written ends at compares greater than it. |
| CalendarView.ReduceAsWrittenAgrees | src/components/Calendar.tsx:56-60 | When every lookup finds the modelled rank, the fold as written and the model end at the same entry. |
| CalendarView.LookupsFindRanks | src/components/Calendar.tsx:55-58 | When no outcome is an inherited property name, every lookup finds the modelled rank. |
| CalendarView.InheritedNameHidesGreat | src/components/Calendar.tsx:55-60 | Take a "toString" entry followed by a "Great" entry. As written the fold keeps "toString", while the model picks "Great", which ranks higher. |
| CalendarView.InheritedNamesCompareAsText | src/components/Calendar.tsx:55-60 | Take a "toString" entry followed by a "valueOf" entry. As written the fold ends at "valueOf", whose function text is greater. |
| Auth.FindCredentials | src/lib/auth-context.tsx:52 | The result is absent exactly when no user matches both email and password. Otherwise it is the index of the first match. |
| Auth.FindEmail | src/lib/auth-context.tsx:95 | The result is absent exactly when no user has the email. Otherwise it is the index of the first one that does. |
| Auth.Upsert | src/lib/auth-context.tsx:94-105 | The new record is in the list. If the email was present, the first record with it is replaced in place. Otherwise the new record is appended at the end. Every record with another email is kept, and nothing else is added. |
| Auth.UpsertKeepsEmailsUnique | src/lib/auth-context.tsx:94-105 | A list with one record per email keeps that property. |
| Auth.UpsertIdempotent | src/lib/auth-context.tsx:94-105 | Signing in twice with the same data leaves the list as a single sign-in does. |
| Auth.SignupKeepsEmailsUnique | src/lib/auth-context.tsx:129-146 | Appending a user whose email is in neither list keeps the email list free of duplicates. |
| Auth.AuthProvider.constructor | src/lib/auth-context.tsx:26-28 | The provider mounts with no user and loading set. |
| Auth.AuthProvider.RestoreSession | src/lib/auth-context.tsx:30-42 | A saved user becomes the session, and a slot that does not parse is cleared. Loading ends on every path. |
| Auth.AuthProvider.Login | src/lib/auth-context.tsx:44-70 | It succeeds exactly when some stored user matches both email and password. The session and the saved slot then hold the first match with the email method. A failure changes neither. Loading is false on return. |
| Auth.AuthProvider.LoginWithGoogle | src/lib/auth-context.tsx:72-116 | It succeeds exactly when the profile can be read. The Google list is then upserted by email, and the session and saved slot hold the new record. A failure changes none of them. One-record-per-email is preserved, and loading is false on return. |
| Auth.AuthProvider.Signup | src/lib/auth-context.tsx:118-161 | It succeeds exactly when the email is in neither list. Then exactly the new user is appended and becomes the session; otherwise nothing is written. Uniqueness of emails is preserved, and loading is false on return. |
| Auth.AuthProvider.Logout | src/lib/auth-context.tsx:163-174 | The session and the saved slot are cleared. |

## Left out

- The googleapis client is not modelled. OAuth2 set-up and the events and calendar-list calls are foreign calls, so their results (success, returned id, listed events) are arbitrary values. Request contents such as `maxResults` and the `q` filter are not modelled.
- JavaScript `Date` parsing, `toISOString` text and `Intl` time-zone resolution are not modelled. The parsed instant and the time zone name are parameters. Instants stay milliseconds rather than ISO strings. `isSameDay` and `getDay` work on day numbers, so the local time zone is not modelled.
- `new Date()` in `getEvents` is the parameter `now`. The clock in `loginWithGoogle` and in sign-up is a parameter, and so is sign-up's random id.
- `localStorage` and JSON are not modelled. The stores are fields holding maps, sequences and a session value. Corrupt JSON in the user lists, which makes `login` and `signup` throw with `isLoading` left true, is not modelled. Neither are storage write failures in the sign-in code, extra fields a stored record may carry into the upsert spread, or the `authMethod` field of stored email users.
- The saved-session slot is absent, a user or unparsable. An empty string or the text `null` are not modelled separately.
- `setTimeout` delays are not modelled. Each method runs as one atomic step, so the interim `isLoading = true` state that the page shows as a loading screen during the delay is not modelled.
- The gapi sign-out in `logout` is not modelled; it is a foreign call with no effect on this state.
- CalendarSync.GoogleCalendarService.SyncEntry: when storing the link throws after a successful create, the entry is counted as failed. The model does not record that the remote event then exists without a link.
- CalendarEvents.RatingText: ratings are unbounded integers printed in plain decimal. Three things are not modelled: the text of a fractional rating; the exponent form JavaScript prints for magnitudes of 1e21 and above (10^21 prints as "1e+21"); and the rounding of integers beyond 2^53, which a JavaScript number cannot hold exactly.
- CalendarEvents.IsJsWhitespace: lists the white-space and line-terminator characters that `trim` removes. Space-separator characters beyond those listed are not included.
- GoogleCalendarSync.tsx, GoogleSignIn.tsx, the page components and month navigation are not part of this model. They are UI, I/O and date-library glue.

## Findings

| source | as written | input that shows it | evidently intended | confidence | as-written member | corrected member |
|---|---|---|---|---|---|---|
| src/components/Calendar.tsx:55-60 | `outcomeRanking[outcome] \|\| 0` looks up a plain object literal, so an outcome naming an `Object.prototype` property finds a function (an object for `__proto__`). That value is truthy and `>` compares it through its string form: against a number that string becomes NaN and `>` is false both ways, and two such values compare as strings. | One day with an entry whose outcome is "toString", followed by an entry whose outcome is "Great" | Any unknown outcome ranks 0, so the day shows "Great" | not executed | CalendarView.InheritedNameHidesGreat | CalendarView.BestEntryIsEarliestMaximum |
