# Moodmate, modelled in Dafny

Moodmate is a mood-journaling web application. Users write short journal entries and pick a
mood for each. The server scores every entry's text for sentiment and stores a label with it.
The client shows the entries as a paginated list, as a calendar heatmap and as a per-day
sentiment chart. This project models the core of that application and proves properties of
the model:

- **Journal routes** (`JournalRoutes`): the thresholding of the sentiment score into a label,
  and the owner-scoped collection behind create, list, delete and update. The collection is a
  class over a sequence of records; the sentiment scorer is a parameter of it.
- **Journal record** (`JournalEntryModel`): the record, its mood enumeration and what the
  schema's validators accept.
- **Auth routes** (`AuthRoutes`): the register and login rules over a user table; the password
  hashing, comparison and token signing are parameters of the table.
- **Analytics** (`Analytics`): `groupDataByDate`, a loop that builds an insertion-ordered map of
  per-day counters and then sorts its values by date.
- **Dashboard** (`Dashboard`): the heatmap transform, the delete and day filters, pagination,
  and the page's state with its handlers.
- **Calendar heatmap** (`CalendarHeatmap`): the CSS class, tooltip and click guard of a day
  square.
- **Add journal** (`AddJournal`): when submit is enabled, the character counter, and the
  submit handler's state changes.
- **Theme context** (`ThemeContext`): the initial mode, the toggle, the persisted mode and the
  context hook.

`Wrappers` holds `Option`, `Result` and the HTTP error body. `Seqs` holds the order-preserving
`Filter` with its lemmas.

Behaviour of the code that the model keeps as written:

- **Create with invalid input.** `save` rejects an empty text or a mood outside the enum, and
  the handler's `catch` answers 500 "Something went wrong." (server/routes/journal.js:36-42;
  `JournalRoutes.JournalStore.Create`).
- **Update runs no validators.** `findOneAndUpdate` is called without `runValidators`, so an
  empty text or a mood outside the enum is stored as given (server/routes/journal.js:94-103;
  `JournalRoutes.JournalStore.Update`). The client's entries therefore carry the mood as a
  string.
- **The update snackbar always reports success.** `handleUpdate` sets "Journal entry updated!"
  and opens the snackbar in its `finally` block, so it does so even when the token request or
  the PUT failed (client/src/pages/Dashboard.tsx:161-165;
  `Dashboard.DashboardPage.HandleUpdate`).
- **An empty delete id is ignored.** `handleConfirmDelete` returns at once when
  `entryToDelete` is empty as well as when it is null, because `!""` is true in JavaScript
  (client/src/pages/Dashboard.tsx:174; `Dashboard.DashboardPage.HandleConfirmDelete`).
- **A token failure sends nothing.** In `handleUpdate` and `handleConfirmDelete` the access
  token is awaited before the request, so when it cannot be obtained no PUT or DELETE is sent
  (client/src/pages/Dashboard.tsx:131, 177-179).

## Model

| member | source | states |
|---|---|---|
| JournalEntryModel.MoodNamesAreTheEnum | server/models/JournalEntry.js:13-17 | the schema's mood enum is exactly the names of the three moods, one name per mood |
| JournalEntryModel.SchemaValidMeaning | server/models/JournalEntry.js:5-25 | a record passes the validators iff user, text are non-empty and the mood is one of the three; sentiment fields and timestamps never affect validity |
| JournalRoutes.LabelOf | server/routes/journal.js:20-26 | positive iff score > 1, negative iff score < -1, neutral iff -1 ≤ score ≤ 1 |
| JournalRoutes.FindEntry | server/routes/journal.js:70 | the filter `{ _id, userId }` selects a record owned by that user with that id, and finds none iff no record matches both |
| JournalRoutes.SortNewestFirst | server/routes/journal.js:55 | the listing is a permutation of its input, ordered by createdAt descending |
| JournalRoutes.InsertNewestFirstSorted | server/routes/journal.js:55 | inserting a record into a list sorted newest first keeps it sorted |
| JournalRoutes.JournalStore.Create | server/routes/journal.js:10-43 | no subject gives 401; empty text or mood outside the enum gives 500; otherwise exactly one record is appended with the subject as owner, the score of the text and its label; the store keeps every record's label agreeing with its score |
| JournalRoutes.JournalStore.List | server/routes/journal.js:46-62 | no subject gives 401; otherwise exactly the subject's records, as a multiset, newest first |
| JournalRoutes.JournalStore.Delete | server/routes/journal.js:65-79 | 404 iff no record has that id and owner; the records become those not matching `{ _id, userId }`, one fewer on success |
| JournalRoutes.JournalStore.Update | server/routes/journal.js:82-114 | 404 iff no record has that id and owner; otherwise that record alone is replaced, keeping id, owner and createdAt, with the new text and mood, the rescored label and the new updatedAt |
| JournalRoutes.UnmatchedWithoutMatch | server/routes/journal.js:70-72 | a delete whose filter matches nothing keeps the collection unchanged |
| JournalRoutes.UnmatchedRemovesMatch | server/routes/journal.js:70 | with unique ids, a delete removes exactly the matching record and keeps the others in order |
| JournalRoutes.CreatedEntryIsListed | server/routes/journal.js:28-55 | a created record is listed for its owner |
| JournalRoutes.ListingIsOwnerScoped | server/routes/journal.js:50-55 | a record is listed for a user iff it is stored and owned by that user |
| JournalRoutes.DeletedEntryIsNotListed | server/routes/journal.js:55-72 | after a delete by its owner a record is listed iff its id differs from the deleted id |
| AuthRoutes.FindByEmail | server/routes/auth.js:18 | `findOne({ email })` finds a user with that email, and finds none iff no user has it |
| AuthRoutes.FoundUserIsTheOnlyOne | server/routes/auth.js:18-21 | with unique emails, the user found by an email is the only one with that email |
| AuthRoutes.UserTable.Register | server/routes/auth.js:7-42 | a missing field gives 400 "Please fill in all fields"; a taken email gives 400 "Email already registered"; otherwise one user is added holding the hash, which matches the password; emails stay unique |
| AuthRoutes.UserTable.Login | server/routes/auth.js:44-81 | an unknown email and a wrong password both give 400 "Invalid credentials"; success iff the email is known and the password matches, returning the token of the user's id and the user's public fields |
| AuthRoutes.RegisteredUserCanLogIn | server/routes/auth.js:18-59 | a registered user is found by its email and its password matches its stored hash |
| Analytics.GroupDataByDate | client/src/pages/Analytics.tsx:49-63 | one point per day that has entries, each point counting exactly that day's entries per label, ascending by date, the counters summing to the number of entries; no entries give no points |
| Analytics.DaysMeaning | client/src/pages/Analytics.tsx:52-53 | a day is a key of the grouping iff some entry falls on it |
| Analytics.CountOutsideDays | client/src/pages/Analytics.tsx:54-55 | a day without entries has all three counters at zero, the value a new day is inserted with |
| Analytics.Bump | client/src/pages/Analytics.tsx:57 | incrementing the label's counter keeps the date and adds one to the total |
| Analytics.TallyStep | client/src/pages/Analytics.tsx:57 | visiting an entry adds one to its own day's counter for its label and changes no other day |
| Analytics.TallyUpdate | client/src/pages/Analytics.tsx:52-58 | the loop step for a day already present keeps the Map's invariant |
| Analytics.GroupedStep | client/src/pages/Analytics.tsx:52-58 | the loop step for a new day (insert zero counters, then increment) keeps the Map's invariant |
| Analytics.NothingGrouped | client/src/pages/Analytics.tsx:50 | the Map built from no entries has no keys |
| Analytics.FinishGrouping | client/src/pages/Analytics.tsx:60-62 | sorting the Map's values yields the per-day tallies, every day once, ascending, summing to the entry count |
| Analytics.SortByDate | client/src/pages/Analytics.tsx:60-62 | the sort is a permutation of the points and keeps their total |
| Analytics.SortByDateAscending | client/src/pages/Analytics.tsx:60-62 | sorting points of distinct days orders them strictly ascending by date |
| Analytics.SortByDateMembers | client/src/pages/Analytics.tsx:60-62 | the sorted series holds exactly the points of the Map |
| Analytics.InsertByDateAscending | client/src/pages/Analytics.tsx:60-62 | inserting a point of a new day keeps the series ascending |
| Analytics.StrLeTotal | client/src/pages/Analytics.tsx:61 | the date comparison orders any two strings |
| Analytics.StrLeTransitive | client/src/pages/Analytics.tsx:61 | the date comparison is transitive |
| CalendarHeatmap.ClassForValue | client/src/components/CalendarHeatmap.tsx:36-39 | "color-empty" iff the value is missing or has no mood, otherwise "mood-" followed by the mood |
| CalendarHeatmap.ClassNamesTheMood | client/src/components/CalendarHeatmap.tsx:36-39 | the mood can be read back from the class name, and an empty square's class names no mood |
| CalendarHeatmap.Tooltip | client/src/components/CalendarHeatmap.tsx:40-42 | "<date> – Mood: <mood>" for a dated value, "No data" otherwise |
| CalendarHeatmap.TooltipNoDataExactlyWhenUndated | client/src/components/CalendarHeatmap.tsx:40-42 | the tooltip reads "No data" iff the value has no date |
| CalendarHeatmap.ClickTarget | client/src/components/CalendarHeatmap.tsx:43-45 | onDateClick is called iff the value has a date, and with that date |
| Dashboard.BeforeT | client/src/pages/Dashboard.tsx:103 | `split('T')[0]` is a prefix without 'T' that stops at the first 'T' |
| Dashboard.BeforeTUnique | client/src/pages/Dashboard.tsx:103 | those three properties determine the day string uniquely |
| Dashboard.DayOfTimestamp | client/src/pages/Dashboard.tsx:103 | an ISO timestamp maps to the date written before its 'T' |
| Dashboard.ToHeatmap | client/src/pages/Dashboard.tsx:102-106 | one cell per entry in list order, with the entry's day, count 1 and the entry's mood |
| Dashboard.WithoutIdRemovesExactly | client/src/pages/Dashboard.tsx:186 | after a delete, an entry remains iff it was there and has another id, each with its old multiplicity |
| Dashboard.WithoutIdKeepsOrder | client/src/pages/Dashboard.tsx:186 | an absent id changes nothing; with unique ids exactly the deleted position is removed, the rest in order |
| Dashboard.DayEntriesMeaning | client/src/pages/Dashboard.tsx:407-408 | the day dialog lists exactly the entries of the selected day, each as often as in the list, and nothing with no day selected |
| Dashboard.HeatmapDayCountIsDialogSize | client/src/pages/Dashboard.tsx:102-106 | the heatmap has as many cells on a day as that day's dialog has entries |
| Dashboard.CellClickShowsItsEntry | client/src/pages/Dashboard.tsx:404-408 | clicking an entry's cell selects its day unless that day is empty, and the entry is in the selected day's dialog |
| Dashboard.PageSlice | client/src/pages/Dashboard.tsx:222-223 | page p shows the entries at indices (p-1)*5 onwards, clipped to the list, at most 5 |
| Dashboard.PageCount | client/src/pages/Dashboard.tsx:308 | the page count is the least count whose pages hold all entries, i.e. ceil(n/5) |
| Dashboard.EntryOnItsPage | client/src/pages/Dashboard.tsx:223 | entry i appears on page i/5+1 at position i%5 |
| Dashboard.NonEmptyPagesAreCounted | client/src/pages/Dashboard.tsx:308 | a page shows entries iff its number is at most the page count |
| Dashboard.PagesCoverTheList | client/src/pages/Dashboard.tsx:222-223 | the pages 1 to the page count, read in order, are exactly the list |
| Dashboard.DashboardPage.Shown | client/src/pages/Dashboard.tsx:222-223 | the list shows at most 5 entries |
| Dashboard.DashboardPage.Dialog | client/src/pages/Dashboard.tsx:407-408 | the day dialog lists exactly the entries written on the selected day, and nothing while no day is selected |
| Dashboard.DashboardPage.constructor | client/src/pages/Dashboard.tsx:49-68 | the initial state: no entries, loading, page 1, no dialogs, empty edit fields, mood happy |
| Dashboard.DashboardPage.FetchEntries | client/src/pages/Dashboard.tsx:89-118 | a fetched list replaces the entries and the heatmap is rebuilt from it; a failure keeps them; loading ends in both cases |
| Dashboard.DashboardPage.HandleDateClick | client/src/pages/Dashboard.tsx:84-87 | the day is selected and its dialog opens |
| Dashboard.DashboardPage.SetPage | client/src/pages/Dashboard.tsx:310 | the page changes and the list shows that page's slice |
| Dashboard.DashboardPage.HandleEdit | client/src/pages/Dashboard.tsx:121-126 | the edit dialog opens on the entry's text and mood |
| Dashboard.DashboardPage.HandleUpdate | client/src/pages/Dashboard.tsx:128-166 | no entry under edit: nothing is sent or changed; a token failure sends no PUT; otherwise the edited text and mood are sent for the entry's id; only a successful PUT resets the edit state, and a successful refetch after it replaces the entries and heatmap; past the guard the snackbar reports success on every outcome |
| Dashboard.DashboardPage.ReportUpdated | client/src/pages/Dashboard.tsx:161-165 | the `finally` block: the snackbar shows "Journal entry updated!" and loading ends, the heatmap still matching the entries |
| Dashboard.DashboardPage.ResetEdit | client/src/pages/Dashboard.tsx:140-145 | after a successful PUT the edit dialog closes, editEntry is null, the text is empty and the mood happy |
| Dashboard.DashboardPage.Refresh | client/src/pages/Dashboard.tsx:147-157 | the refetched list replaces the entries and the heatmap is recomputed from it |
| Dashboard.DashboardPage.ConfirmDelete | client/src/pages/Dashboard.tsx:168-171 | the id is remembered and the confirmation opens |
| Dashboard.DashboardPage.HandleConfirmDelete | client/src/pages/Dashboard.tsx:173-205 | no (or an empty) id: nothing happens; a token failure sends no DELETE and changes nothing; a sent DELETE that fails changes nothing; a successful one removes every entry with that id, recomputes the heatmap (equal length) and closes the confirmation |
| AddJournal.TrimStart | client/src/pages/AddJournal.tsx:129 | leading whitespace is removed: the result is a suffix, the removed part is whitespace, the result starts with non-whitespace |
| AddJournal.TrimEnd | client/src/pages/AddJournal.tsx:129 | trailing whitespace is removed: the result is a prefix, the removed part is whitespace, the result ends with non-whitespace |
| AddJournal.TrimEmptyIffBlank | client/src/pages/AddJournal.tsx:129 | the trimmed text is empty iff every character is whitespace |
| AddJournal.CanSubmitMeaning | client/src/pages/AddJournal.tsx:129 | submit is enabled iff the text has a non-whitespace character and at most 300 characters |
| AddJournal.NatToString | client/src/pages/AddJournal.tsx:95 | a length prints as a non-empty string of digits without a leading zero |
| AddJournal.NatToStringRoundTrip | client/src/pages/AddJournal.tsx:95 | reading the printed length back gives the length |
| AddJournal.MaxCharsNumeral | client/src/pages/AddJournal.tsx:32 | the limit prints as "300" |
| AddJournal.HelperTextShowsLength | client/src/pages/AddJournal.tsx:95 | the counter is the text's length, printed so that it reads back as that length, followed by "/300 characters" |
| AddJournal.ErrorMessage | client/src/pages/AddJournal.tsx:62 | the server's non-empty error message, otherwise "Something went wrong." |
| AddJournal.AddJournalForm.constructor | client/src/pages/AddJournal.tsx:28-31 | the form starts with empty text, mood happy and no messages |
| AddJournal.AddJournalForm.HandleSubmit | client/src/pages/AddJournal.tsx:36-64 | the text and mood are sent unless no token is obtained; a save shows "✅ Journal entry saved!" and resets text and mood; a failure shows the error and keeps them; error and success are never shown together |
| ThemeContext.InitialMode | client/src/context/ThemeContext.tsx:23-24 | the stored mode if non-empty, otherwise "light" |
| ThemeContext.Toggled | client/src/context/ThemeContext.tsx:28 | the result is light or dark, and is dark iff the previous mode was light |
| ThemeContext.ToggleTwice | client/src/context/ThemeContext.tsx:28 | toggling twice restores the mode iff it was light or dark |
| ThemeContext.UseThemeContext | client/src/context/ThemeContext.tsx:12-16 | fails with "useThemeContext must be used inside ThemeProvider" iff there is no provider, otherwise returns the context |
| ThemeContext.ThemeProvider.constructor | client/src/context/ThemeContext.tsx:23-49 | the mode is read from storage and then written back, so a later mount restores it |
| ThemeContext.ThemeProvider.ToggleTheme | client/src/context/ThemeContext.tsx:26-32 | the mode flips and the stored "themeMode" is the new mode; no other key changes |
| ThemeContext.ThemeProvider.Context | client/src/context/ThemeContext.tsx:47-52 | the mode handed to children is the one stored under "themeMode", so a provider mounted again on this storage starts in it |

## Left out

- The sentiment lexicon and its scoring are a parameter (a total function from text to score). The model also does not capture that the scorer runs before validation on create.
- bcrypt salting and hashing, and JWT signing and expiry, are parameters. The only property assumed is that a password matches its own hash. Salt rounds and the secret are not modelled.
- The User schema (server/models/User.js) is not part of this model. Stored emails are treated as non-empty strings, and uniqueness comes only from the register check.
- Token verification (server/middleware/verifyToken.js) and Auth0 are not part of this model. A handler receives the token's subject. Update and delete take it as a given string, as the code reads it without a check.
- Database I/O: a storage failure answering 500 on list, delete and update, and the "Server error" bodies of delete and the auth routes. The same applies to an `_id` that fails the ObjectId cast.
- Missing request fields are modelled as empty strings. JavaScript truthiness of `undefined` and `""` agree for every check in the core.
- `text.length` counts UTF-16 code units, while the model counts Unicode scalar values. They differ for characters outside the Basic Multilingual Plane, such as emoji.
- Analytics: the day key (`new Date(createdAt).toISOString()` up to the 'T') is a parameter, because date arithmetic is not modelled. The same holds for the heatmap's start and end dates and `toLocaleDateString`.
- `localeCompare` is modelled as character-code order. It agrees with that order on YYYY-MM-DD keys. For other strings the locale collation is not modelled.
- Analytics.SortByDate: ascending order is stated only when the dates are distinct, which is always the case for the Map's values.
- JournalRoutes.JournalStore.List: the order among records with equal createdAt is not stated, because the store does not fix it.
- Concurrency is not modelled: async ordering, last-write-wins edits, the check-then-insert race in register, and the 1.2 s `setTimeout` navigation after a save.
- Rendering is not modelled: JSX layout, animations, emoji and colour maps, the range buttons, the chart, the text-field `onChange` handlers that copy input into state, and the browser's enforcement of `maxLength`.
- How react-calendar-heatmap handles several values on one date is internal to the library. One cell per entry is modelled, and no per-day tie-break.
- Timestamps are integers supplied by the caller, since the clock is a parameter. createdAt and updatedAt are set to that value.
