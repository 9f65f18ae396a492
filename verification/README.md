# Lesson planner core in Dafny

A model of the logic inside the lesson planner, a React app that keeps a list of
school subjects. Each subject has a start time on some of the five weekdays, two
resource links and a weekly frequency. The model covers these parts:

- **Bulk import** (`Csv`, `TimeRange`, `Importer`). A pasted timetable is split
  into rows, and time ranges such as "1:30 - 2:00 PM" are read into 24-hour
  times. The cells are merged into one subject per case-insensitive name.
- **Quick add** (`QuickAdd`). Subject names and weekdays are toggled, and one
  subject is built per chosen name. `formatTime` renders "HH:MM" on the 12-hour
  clock.
- **The subject form** (`SubjectForm`). It covers the initial data, the field
  handlers with their day quota, the validator that collects every error at
  once, and the submit step.
- **The weekly schedule** (`Weekly`, `StableSort`). Each day's column holds the
  subjects taught that day, ordered by start time. The order comes from a
  stable sort by a collation key that gives `localeCompare`'s order on clock
  times.
- **The planner's list handlers** (`SubjectList`). Add, update, delete, bulk
  import and quick add each await the backend first. A failing call leaves the
  list as it was.
- **The theme** (`Theme`, `Gradient`, `ColorPicker`):
  - six presets;
  - the effective palette: preset, then custom colours, then the dark-mode
    overrides;
  - the theme service's load, update and read;
  - the background gradient computed from the background colour;
  - the picker's handlers.
- **The API configuration** (`ApiConfig`). It picks the backend URL from the
  environment or the page's host, including the dev-tunnel port rewrite 5173 →
  3001, and keeps the mutable configuration.

`Text` holds the string helpers the components rely on: trim, lower-case,
split/join, `indexOf`/`includes`/`replace`, `parseInt`, and string order.
`Schedule` holds the shared `Subject` record. `Wrappers` holds `Option`.

Things the program takes from its environment are parameters of the model:
- `crypto.randomUUID()` is a function from a counter to an id. A flag says
  whether the call throws; the importer, the quick adder and the new-subject
  form each take it and model the throw as "nothing is produced".
- The result of each backend call is a boolean, or a predicate per subject.
- `window.confirm` is a boolean.
- `import.meta.env.VITE_API_URL` and `window.location` are strings.
- What `localStorage` holds for the theme is a three-way value: missing,
  unparseable, or a saved theme.

## Model

| member | source | states |
|---|---|---|
| TimeRange.Search | src/components/BulkSubjectImporter.tsx:27 | The scan finds a range exactly when some position starts a "h:mm - h:mm [AM\|PM]" match. Both clocks it returns are well formed. |
| TimeRange.SearchFindsLeftmost | src/components/BulkSubjectImporter.tsx:27 | Like `String.match`, the scan returns the leftmost match. |
| TimeRange.ConvertHour | src/components/BulkSubjectImporter.tsx:35-49 | The rewritten hour reads as the 24-hour value of the 12-hour hour and meridiem. It is left verbatim for 12 PM and for any AM hour other than 12. |
| TimeRange.MeridiemRewriting | src/components/BulkSubjectImporter.tsx:38-49 | The four meridiem rules: a PM hour other than 12 gains 12, 12 AM becomes "00", and the other two cases keep the text. |
| TimeRange.ParseTimeRange | src/components/BulkSubjectImporter.tsx:25-55 | With no match the range is ("", ""). Without a meridiem the two clocks are returned as written. With one, both clocks are converted under that meridiem. |
| TimeRange.ParseCanonicalRange | src/components/BulkSubjectImporter.tsx:25-55 | For every well-formed "a - b [AM\|PM]" text, the parse yields a and b, converted when a meridiem is present. |
| TimeRange.MorningRangeIsNotPadded | src/components/BulkSubjectImporter.tsx:26-52 | "8:30 - 8:50 AM" yields "8:30" and "8:50": morning hours are not zero-padded. |
| TimeRange.AfternoonRangeIsShifted | src/components/BulkSubjectImporter.tsx:38-43 | "1:30 - 2:00 PM" yields "13:30" and "14:00". |
| TimeRange.RangeWithoutMeridiemIsVerbatim | src/components/BulkSubjectImporter.tsx:28-33 | "1:00 - 1:10" is returned unchanged. |
| TimeRange.NoDigitsNoRange | src/components/BulkSubjectImporter.tsx:54 | A text without digits yields the empty range. |
| Csv.HeaderIsNormalised | src/components/BulkSubjectImporter.tsx:59 | Each header is its comma-separated cell, trimmed and lower-cased. It is normalised and has no comma. |
| Csv.ValueIsTrimmed | src/components/BulkSubjectImporter.tsx:62 | Each value is its cell trimmed, and trimming it again changes nothing. |
| Csv.BuildRow | src/components/BulkSubjectImporter.tsx:63-66 | The row has exactly the headers as keys. A repeated header keeps the value of its last column, and a missing value is "". |
| Csv.KeepMeans | src/components/BulkSubjectImporter.tsx:68 | A row is kept if and only if its time is non-empty and some weekday cell is non-empty. |
| Csv.KeepOnlyExactly | src/components/BulkSubjectImporter.tsx:68 | A row survives the filter if and only if it is in the input and passes. |
| Csv.KeepOnlyAppend | src/components/BulkSubjectImporter.tsx:68 | The filter distributes over concatenation, so the surviving rows keep their input order. |
| Csv.RowsOf | src/components/BulkSubjectImporter.tsx:61-67 | There is one row per data line, built from the header line. |
| Csv.ParseCsv | src/components/BulkSubjectImporter.tsx:57-69 | The header line yields no row, and every row returned passes the filter. The result is the data rows with the failing ones removed, in their line order. |
| Csv.ParseCsvKeepsExactly | src/components/BulkSubjectImporter.tsx:57-69 | A row is returned if and only if it is a data row and passes the filter. |
| Importer.DayCellsExactly | src/components/BulkSubjectImporter.tsx:84-88 | A row contributes a cell for a day if and only if that day's name cell is not blank. The cell carries the row's start time. |
| Importer.Place | src/components/BulkSubjectImporter.tsx:114-116 | Placing a cell sets that day's time and appends the day. Every other day's time is unchanged, and so are the id, name, resources, `daysPerWeek`, start time and end time. |
| Importer.FindKey | src/components/BulkSubjectImporter.tsx:90 | The lookup finds an entry with the key, or reports that no entry has it. |
| Importer.KeysOf | src/components/BulkSubjectImporter.tsx:126 | The subjects' keys, in first-seen order, are distinct. |
| Importer.KeysOfMentions | src/components/BulkSubjectImporter.tsx:88-111 | A key gets an entry if and only if some cell names it. |
| Importer.MergeIsReference | src/components/BulkSubjectImporter.tsx:80-119 | The merge yields one entry per distinct key, in first-seen order. Each entry has: the i-th uuid; the first spelling of the name, trimmed; the last start time per day; and every day on which the key appears, in order. |
| Importer.MergeLoop | src/components/BulkSubjectImporter.tsx:80-119 | The imperative loop over the cells computes the same reference result. |
| Importer.Finalize | src/components/BulkSubjectImporter.tsx:122-124 | `daysPerWeek` becomes the number of selected days, and nothing else changes. |
| Importer.ProcessCsv | src/components/BulkSubjectImporter.tsx:71-134 | Blank input is ignored. The import fails exactly when some subject would need a uuid and none can be made. Otherwise the preview is the finalized merge. |
| Importer.PreviewAfter | src/components/BulkSubjectImporter.tsx:126-130 | The preview changes only when processing produced subjects. |
| Importer.FinalizedIsReference | src/components/BulkSubjectImporter.tsx:80-126 | Each previewed subject's id, name, times, frequency and resources match the independent per-key definition. |
| Importer.PreviewIsReference | src/components/BulkSubjectImporter.tsx:71-127 | The subjects previewed from a CSV text match the per-key reference for the text's cells. |
| Importer.RepeatedDayIsCountedTwice | src/components/BulkSubjectImporter.tsx:114-124 | When two rows put the same subject on the same day, the day is listed twice, the later time wins, and the subject is not consistent. |
| QuickAdd.Without | src/components/QuickSubjectAdder.tsx:50 | The filter removes exactly the toggled value and keeps every other one. |
| QuickAdd.WithoutConcat | src/components/QuickSubjectAdder.tsx:50 | The filter distributes over concatenation, so what remains keeps its order. |
| QuickAdd.ToggleOffKeepsOrder | src/components/QuickSubjectAdder.tsx:47-61 | Toggling off a chosen value closes the gap it leaves: the values before and after it stay, in order. |
| QuickAdd.Toggle | src/components/QuickSubjectAdder.tsx:47-61 | Toggling flips membership of the value and leaves every other value's membership alone. An absent value is appended at the end. |
| QuickAdd.ToggleTwice | src/components/QuickSubjectAdder.tsx:47-61 | Toggling a value twice restores the membership of every value. It restores the list itself when the value was absent. |
| QuickAdd.AddCustomSubject | src/components/QuickSubjectAdder.tsx:63-68 | When the trimmed name is non-blank and not yet chosen, the chosen names gain exactly one element at the end. Every earlier name is kept in place. The new element is the trimmed name and has no surrounding whitespace. The box is cleared, and the time and days are kept. Otherwise the state is unchanged. |
| QuickAdd.AppendFreshKeepsDistinct | src/components/QuickSubjectAdder.tsx:63-68 | Appending a value not yet in a duplicate-free list keeps it duplicate-free. |
| QuickAdd.HandlersKeepDistinct | src/components/QuickSubjectAdder.tsx:47-68 | The three handlers never introduce a duplicate name or day. |
| QuickAdd.CreateSubjects | src/components/QuickSubjectAdder.tsx:70-97 | With no time, no day or no subject, nothing is built. Nothing is built either when `randomUUID` throws. Otherwise one subject is built per name, in order. Each has: the i-th uuid; the time on exactly the chosen days; `daysPerWeek` equal to the number of days; and empty resources. |
| QuickAdd.CreatedSubjectsAreConsistent | src/components/QuickSubjectAdder.tsx:76-94 | Starting from distinct choices, every built subject is consistent. |
| QuickAdd.FormatTimeInvertsImport | src/components/QuickSubjectAdder.tsx:99-105 | For every "HH:MM" time, the 12-hour hour shown maps back to HH under the importer's meridiem rule. |
| QuickAdd.MidnightIsTwelveAm | src/components/QuickSubjectAdder.tsx:102-103 | "00:mm" shows as "12:mm AM". |
| QuickAdd.NoonIsTwelvePm | src/components/QuickSubjectAdder.tsx:102-103 | "12:mm" shows as "12:mm PM". |
| QuickAdd.AfternoonDropsTwelve | src/components/QuickSubjectAdder.tsx:102-103 | "13:mm" shows as "1:mm PM". |
| SubjectForm.FirstTime | src/components/SubjectForm.tsx:18 | The fallback start time is the first non-empty weekday time, or "" when there is none. |
| SubjectForm.Initial | src/components/SubjectForm.tsx:13-40 | Editing keeps the subject and fills a missing start time from its times. A new form has a fresh id, empty fields, one day per week and no days chosen. It cannot open when `randomUUID` throws. |
| SubjectForm.Open | src/components/SubjectForm.tsx:13-42 | The form opens with no errors. It fails to open exactly when a new subject needs an id and none can be made. |
| SubjectForm.OpenWithinQuota | src/components/SubjectForm.tsx:13-42 | A form that opens on a new subject is within its day quota. |
| SubjectForm.InputChange | src/components/SubjectForm.tsx:45-59 | Typing in a field sets that field to the value and leaves the other two text fields alone. It clears that field's error and no other error. The id, resources, frequency and times are unchanged. |
| SubjectForm.ResourceChange | src/components/SubjectForm.tsx:63-71 | A resource edit sets that link to the value and keeps the other link. The rest of the data and the errors are unchanged. |
| SubjectForm.FrequencyChange | src/components/SubjectForm.tsx:73-82 | The new quota is set and the chosen days are cut to a prefix of at most that length. Everything else in the data, and the errors, are unchanged. |
| SubjectForm.DaySelection | src/components/SubjectForm.tsx:84-114 | A chosen day is removed. A new day is appended only while under quota; otherwise the data is unchanged. Only the chosen days can change. The days error is always cleared. |
| SubjectForm.HandlersKeepQuota | src/components/SubjectForm.tsx:45-114 | No handler lets the chosen days exceed the quota or repeat. |
| SubjectForm.Validate | src/components/SubjectForm.tsx:116-146 | Each error is present if and only if its condition holds, with its message. The end time must sort after the start time as a string. |
| SubjectForm.ValidIff | src/components/SubjectForm.tsx:116-146 | The form is valid if and only if: the name is non-blank, both times are present, the start sorts before the end, and exactly `daysPerWeek` days are chosen. |
| SubjectForm.Finished | src/components/SubjectForm.tsx:156-165 | The saved subject has the start time on exactly the chosen days and keeps every other field. |
| SubjectForm.Submit | src/components/SubjectForm.tsx:148-167 | Submitting records the validation errors. It saves if and only if there are none, and then saves the finished subject. |
| SubjectForm.SubmittedIsConsistent | src/components/SubjectForm.tsx:116-165 | A subject saved from a form within quota is consistent. |
| Weekly.ScheduledExactly | src/components/WeeklySchedule.tsx:22-23 | A subject is listed for a day if and only if that day is selected and it has a time that day. |
| Weekly.SubjectsForDay | src/components/WeeklySchedule.tsx:21-25 | The column is a permutation of the filtered subjects. |
| Weekly.SubjectsForDaySpec | src/components/WeeklySchedule.tsx:21-25 | The column holds exactly the subjects shown that day and is ordered by the collation key of the day's time. Subjects with equal times keep the list's order. |
| Weekly.CollationChar | src/components/WeeklySchedule.tsx:24 | A digit keeps its place in the order and ':' sorts before every digit, as under `localeCompare`. |
| Weekly.CollationKey | src/components/WeeklySchedule.tsx:24 | The key has the time's length and maps each character on its own. |
| Weekly.CollationKeyInjective | src/components/WeeklySchedule.tsx:24 | Different times have different keys, so only equal times tie. |
| Weekly.PaddedTimesInClockOrder | src/components/WeeklySchedule.tsx:24 | Two "HH:MM" times are listed in clock order: earlier hour first, then earlier minute. |
| Weekly.UnpaddedHoursOrder | src/components/WeeklySchedule.tsx:24 | An imported "1:30" is listed before "10:00", the reverse of plain code-point order. An imported "9:00" is listed after "13:30". |
| Weekly.Columns | src/components/WeeklySchedule.tsx:32 | There is one column per weekday. |
| Weekly.ConsistentSubjectColumns | src/components/WeeklySchedule.tsx:21-33 | A consistent subject appears in a day's column if and only if it selects that day. |
| StableSort.SortIsSorted | src/components/WeeklySchedule.tsx:24 | The sort orders by key in code-point order. |
| StableSort.SortIsStable | src/components/WeeklySchedule.tsx:24 | Entries with equal keys keep their input order. |
| SubjectList.Replaced | src/App.tsx:118-120 | An update keeps the list's length and every id. Entries with another id are untouched. |
| SubjectList.ReplacedAt | src/App.tsx:118-120 | Every entry with the updated id becomes the new record. |
| SubjectList.ReplacedIdempotent | src/App.tsx:118-120 | Applying the same update twice equals applying it once, and an unknown id changes nothing. |
| SubjectList.RemovedExactly | src/App.tsx:135 | A delete keeps exactly the subjects with other ids. |
| SubjectList.RemovedAppend | src/App.tsx:135 | A delete keeps the order of what remains. |
| SubjectList.RemovedIdempotent | src/App.tsx:135 | Deleting twice equals deleting once. |
| SubjectList.RemovedAbsent | src/App.tsx:135 | Deleting an unknown id changes nothing. |
| SubjectList.AddThenRemove | src/App.tsx:95-141 | Deleting a just-added subject's id equals deleting it from the earlier list. |
| SubjectList.AddSubject | src/App.tsx:95-106 | On success the subject is appended and the form closes. On a backend failure the state is unchanged. |
| SubjectList.UpdateSubject | src/App.tsx:113-127 | On success the record replaces its id and the edit ends. On failure nothing changes. |
| SubjectList.DeleteSubject | src/App.tsx:129-141 | The list changes only when the user confirms and the backend succeeds. |
| SubjectList.EditSubject | src/App.tsx:108-111 | Editing opens the form on the subject and leaves the list alone. |
| SubjectList.CancelForm | src/App.tsx:143-148 | Cancelling closes every panel and forgets the edit. |
| SubjectList.SaveForm | src/App.tsx:150-156 | Saving updates while editing and adds otherwise. |
| SubjectList.BulkImport | src/App.tsx:158-171 | When every create call succeeds, the batch is appended in order. Otherwise nothing changes. |
| SubjectList.QuickAdd | src/App.tsx:173-186 | When every create call succeeds, the batch is appended in order and the panel closes. Otherwise nothing changes. |
| SubjectList.AddIsSingletonBatch | src/App.tsx:95-171 | Adding one subject changes the list the same way as importing a one-subject batch. |
| Theme.Overlay | src/services/themeService.ts:172 | The object spread takes each key from the overlay when it has the key, and from the base otherwise. |
| Theme.FindIn | src/services/themeService.ts:223-225 | The lookup finds the first preset with the id, or reports that none has it. |
| Theme.PresetOrFirst | src/services/themeService.ts:167 | The preset with the id, or the first preset for an unknown id. |
| Theme.EffectiveColors | src/services/themeService.ts:166-181 | Each colour is the dark override in dark mode. Otherwise it is the custom colour when set, and otherwise the preset's colour. |
| Theme.UnknownPresetFallsBack | src/services/themeService.ts:167 | An unknown preset id resolves exactly like the first preset. |
| Theme.DarkOverrideKeys | src/services/themeService.ts:92-97 | Dark mode overrides exactly the four background and text keys. |
| Theme.DarkModeScope | src/services/themeService.ts:175-178 | Dark mode leaves the brand colours alone and forces the other four, whatever the custom colours say. |
| Theme.CustomOverridesPreset | src/services/themeService.ts:170-173 | In light mode a custom colour wins over the preset. |
| Theme.LoadTheme | src/services/themeService.ts:145-160 | A saved theme is restored. Nothing saved, or unparseable text, gives the default. |
| Theme.UpdateTheme | src/services/themeService.ts:213-217 | An update stores the new theme. |
| Theme.UpdateThenRead | src/services/themeService.ts:145-217 | After an update the service reports the new theme, and so does a service restarted from storage. |
| Theme.NothingSavedIsDefault | src/services/themeService.ts:155-159 | With nothing saved the theme is the first preset, light, with no custom colours. It resolves to that preset's palette. |
| Gradient.Clamp | src/services/themeService.ts:130-131 | The channel is clamped to 0..255 and left alone inside that range. |
| Gradient.Lighten | src/services/themeService.ts:130 | The lighter channel is 20 more, capped at 255. A non-number stays a non-number. |
| Gradient.Darken | src/services/themeService.ts:131 | The darker channel is 20 less, floored at 0. A non-number stays a non-number. |
| Gradient.ParseHexPair | src/services/themeService.ts:126-128 | `parseInt` of two hex digits in base 16 is their byte value. |
| Gradient.HexColorChannels | src/services/themeService.ts:125-128 | A "#rrggbb" colour yields its three byte values. |
| Gradient.Gradient | src/services/themeService.ts:123-136 | A colour without '#' gets the fixed fallback gradient. |
| Gradient.GradientOfHexColor | src/services/themeService.ts:123-134 | For "#rrggbb" the gradient alternates the colour with shades 20 lighter and 20 darker per channel, clamped to 0..255. |
| ColorPicker.Open | src/components/ColorPicker.tsx:106-108 | The picker starts as the theme it is given. |
| ColorPicker.PresetChange | src/components/ColorPicker.tsx:125-134 | Choosing a preset applies it without custom colours. The picker keeps its own custom colours. |
| ColorPicker.CustomColorChange | src/components/ColorPicker.tsx:136-147 | One colour is set and applied. Every other key is untouched. |
| ColorPicker.DarkToggle | src/components/ColorPicker.tsx:149-160 | Dark mode flips and the result is applied. |
| ColorPicker.Reset | src/components/ColorPicker.tsx:162-172 | Reset returns to the first preset, in light mode, with no custom colours. |
| ColorPicker.DarkToggleTwice | src/components/ColorPicker.tsx:149-160 | Toggling twice restores the picker and re-applies its theme. |
| ColorPicker.ResetIsDefault | src/components/ColorPicker.tsx:162-172 | Reset applies exactly the service's default theme. |
| ColorPicker.StaleCustomColorsReturn | src/components/ColorPicker.tsx:125-160 | After a preset change the old custom colours come back with the next dark-mode toggle. |
| ColorPicker.DisplayColor | src/components/ColorPicker.tsx:304 | An input shows its custom colour, or the preset's colour when the custom colour is missing or empty. |
| ColorPicker.DisplayMatchesEffective | src/components/ColorPicker.tsx:304 | In light mode, with no empty custom colour, each input shows the colour that is applied. |
| ColorPicker.EmptyCustomColorDiffers | src/components/ColorPicker.tsx:304 | An empty custom colour shows the preset's colour but applies "". |
| ApiConfig.TrailingDigits | src/config/api.ts:44-46 | The position where the label's trailing run of digits starts. |
| ApiConfig.BackendLabel | src/config/api.ts:40-50 | Without "5173", a trailing number becomes "3001"; with no number at all, "-3001" is appended. |
| ApiConfig.BackendLabelNamesPort | src/config/api.ts:40-50 | Whatever rule applies, the rewritten label names port 3001 and gains no dot. |
| ApiConfig.BackendLabels | src/config/api.ts:36-52 | Only the first label is rewritten. |
| ApiConfig.BackendHostLabels | src/config/api.ts:36-53 | The backend host splits back into the same labels. Only the first label differs, and it names 3001. |
| ApiConfig.RouteOf | src/config/api.ts:9-89 | The branch taken, tried in source order. An explicit URL is chosen if and only if one is set. Each later kind is chosen if and only if its host test holds and no earlier kind applies. The kinds are local host, dev tunnel, ngrok, loca.lt and Cloudflare, and any other host is the unknown kind. |
| ApiConfig.DetectApiUrl | src/config/api.ts:9-89 | An explicit URL wins. Otherwise the result ends in "/api" and is chosen per host kind. |
| ApiConfig.TunnelWithoutFrontendPort | src/config/api.ts:61-83 | Behind ngrok or Cloudflare, a host without 5173 is kept as it is. |
| ApiConfig.Load | src/config/api.ts:92-96 | The configuration and the exported constant both hold the detected URL. The timeout is 10 seconds and there are 3 retries. |
| ApiConfig.UpdateApiUrl | src/config/api.ts:104-107 | The current URL becomes the new one, and the exported constant does not change. |
| ApiConfig.UpdateIgnoredAsWritten | src/services/api.ts:32 | As written, a request after a URL update still goes to the detected URL. |
| ApiConfig.UpdateRedirects | src/config/api.ts:99-107 | Requests built from the current URL follow an update. |

## Left out

- **Rendering.** JSX rendering, CSS variables, the DOM, `console` logging and `alert` are not modelled. Where an alert marks a rejected action, the model returns "nothing happened" instead.
- **`localStorage` and JSON.** A parse error is one of the three stored states. The subject list's own persistence in App.tsx (lines 85-93) is not modelled.
- **The backend.** `ApiService` is not part of this model. Each call is a success flag.
- **`crypto.randomUUID`.** Ids come from a parameter `uuid(i)` for the i-th subject created. Uniqueness is not claimed.
- **Lower-casing.** `toLowerCase` is modelled for ASCII letters only, with no Unicode case mapping.
- **`Weekly.SubjectsForDaySpec`: `localeCompare` is modelled by a collation key, not by the full ICU rules.** The key swaps ':' with '/' and then compares by code point. On times made of digits and ':' this gives `localeCompare`'s order: ':' sorts before every digit, so "1:30" comes before "10:00". Letters, other punctuation and the locale's tailoring are not modelled. An imported morning time such as "9:00" has no leading zero, so it is listed after an afternoon "13:30" (`Weekly.UnpaddedHoursOrder`). This is how the code behaves, and the model keeps it.
- **String order in the form.** The `>=` comparison in the form's validator is modelled as code-point order on Dafny characters. JavaScript compares UTF-16 code units; the two agree on every character below U+10000, which covers the times the form compares.
- **`parseInt`.** Its result is an unbounded integer. Precision loss above 2^53 is not modelled, and it cannot arise for the one- and two-digit hours the program parses.
- **Built-in sort.** The sort is a stable insertion sort. `Array.prototype.sort` is only required to be stable, so the same order follows.
- **Duplicate theme tables.** ColorPicker.tsx has its own copy of the preset table, identical to the one in themeService.ts. It is modelled once.
- **Picker state.** The picker's state does not resync when the theme passed to it changes. Only the initial copy is modelled.
- **UI-only state.** The picker's active tab, `isProcessing`, the modal flags that only hide elements, and the CSV text box are not modelled.
- **Theme types.** src/types.ts does not define the theme types `ThemeColors`, `UserTheme` and `ThemePreset`, nor `startTime`/`endTime` on `Subject`. The model gives them the fields the code uses.
- **`Object.values` order.** The subject form's fallback start time assumes `Object.values(times)` lists Monday to Friday. This is the order the object literals are written in.
- **Other `formatTime` copies.** The `formatTime` in WeeklySchedule.tsx (lines 12-19) uses `toLocaleTimeString` and is not modelled. SubjectCard.tsx is not part of this model.
- **The time regex.** It is modelled as a deterministic scanner for `(\d{1,2}:\d{2})\s*-\s*(\d{1,2}:\d{2})\s*(AM|PM)?` with the `i` flag. For this pattern backtracking never changes the outcome, so a deterministic leftmost scan gives the same match.
- **Code followed over the description.** A morning range such as "8:30 - 8:50 AM" imports as "8:30", not "08:30", because the code does not pad. Quick add has one combined rejection for a missing time, day or subject.
- **`Importer.RepeatedDayIsCountedTwice`: observed behaviour, no corrected definition.** A subject named twice on the same day by two rows keeps both day entries. Its `daysPerWeek` then counts the day twice. The model reproduces this and states it, but does not claim a corrected definition.
- **`Gradient.Gradient`: only two cases are pinned down.** Its contract covers colours without '#' and, through `Gradient.GradientOfHexColor`, well-formed "#rrggbb" colours. Other colours that contain '#' follow the same code path, but their "NaN" channels are only described by `Gradient.GradientOfChannels`.
- **`ApiConfig.DetectApiUrl`: the dev-tunnel branch is taken only for hosts with at least three labels.** This matches the code, which otherwise falls through to the later checks.

## Findings

| source | as written | input that shows it | evidently intended | confidence | as-written member | corrected member |
|---|---|---|---|---|---|---|
| src/services/api.ts:32 | Requests are built from `API_BASE_URL`. That constant is copied from the configuration when the module loads, so `updateApiUrl` (src/config/api.ts:104-107, called from the debugger panel) never changes where requests go. | Load with host "localhost", then update the URL to "https://example.test/api", then fetch "/subjects". The request still goes to "http://localhost:3001/api/subjects". | Requests use the current URL (`getCurrentApiUrl()`), so that a manual update redirects them. | not executed | ApiConfig.UpdateIgnoredAsWritten | ApiConfig.UpdateRedirects |
