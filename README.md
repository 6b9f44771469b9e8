# Attendance app: verified model of its decision rules

This project models the rules of a field-staff attendance system, written in Dafny.

- **The attendance screen** (`ViewAsistencia`). It lets a team register a check-in (INGRESO) or a check-out (SALIDA) against a reference point. It refuses a duplicate mark for the same user and day. It attaches accuracy and distance warnings and an out-of-range flag. It also shows a per-status summary of the month's records with a status filter.
- **The backend attendance controller and service.** These choose the request parameters, answer 400/500, and normalise the status of each listed row.
- **The application shell.** It logs the user out after five minutes of inactivity or after five minutes in the background.
- **The main menu.** It lets the user into the attendance screen only with location services on and permission granted.
- **The API address configuration.**

## How the model is built

- JavaScript values are a datatype `JsVal` (`undefined`, `null`, booleans, decimal numbers, strings, arrays, objects).
  - `a ?? b`, `a || b`, `String(v)`, `.trim()` and `Number(s)` are functions on it.
  - So the difference between nullish and falsy fallbacks is stated exactly.
- Records and database rows are objects of `JsVal`.
- The screen, the shell and the menu are classes whose fields are the component's state and refs.
  - Each handler is a method whose `ensures` ties the new state to a specification function of the old state and the handler's inputs.
  - The properties are lemmas about those functions.
- The pure rules are functions with lemmas: status labels, the coordinate parser, the duplicate scan, the warnings, the summary and filter, the controller decisions, the row normalisation and the URL normalisation.
- What the device, the network, the clock and the time zone provide enters as parameters:
  - the answers of the location provider (each either a value or a thrown error);
  - the responses of the three services;
  - the Lima day key of a value (`dayKey`) and today's key (`today`);
  - the distance in metres between two points (`dist`);
  - the current time (`now`).

Modules: `Options`, `JsText`, `JsValues` (JavaScript value semantics), `EstadoRules`, `ReferenceCoords`, `RegistrationRules`, `ViewAsistenciaScreen` (the attendance screen), `AsistenciaController`, `AsistenciaService` (backend), `AppSession` (`App.js`), `MainMenu`, `Config`.

## Model

| member | source | states |
|---|---|---|
| EstadoRules.FormatEstadoLabel | mobile-app-fresh/src/screens/ViewAsistencia.js:147-152 | a label is never empty and never has surrounding blanks |
| EstadoRules.FormatEstadoLabelCases | mobile-app-fresh/src/screens/ViewAsistencia.js:147-152 | null/undefined or blank text gives "SIN ESTADO"; text trimming to "0" gives "NO LLENADO"; anything else gives its trimmed text |
| EstadoRules.FormatEstadoLabelText | mobile-app-fresh/src/screens/ViewAsistencia.js:148-151 | a string status that is neither blank nor "0" is shown trimmed |
| EstadoRules.FormatEstadoLabelZero | mobile-app-fresh/src/screens/ViewAsistencia.js:148-150 | the number zero, written with any number of decimals, is labelled "NO LLENADO" |
| EstadoRules.FueraRangoIff | mobile-app-fresh/src/screens/ViewAsistencia.js:154-178 | `IsEstadoFueraRango` holds for a record exactly when its first non-nullish check-in status alias or its first non-nullish check-out status alias trims to "9" |
| EstadoRules.FueraRangoNine | mobile-app-fresh/src/screens/ViewAsistencia.js:170-177 | a numeric status 9, whatever its trailing zero decimals, flags the record |
| EstadoRules.FueraRangoEmptyHides | mobile-app-fresh/src/screens/ViewAsistencia.js:155-160 | `??` stops at an empty `EstadoMarcacion`, so a "9" under a later alias is not seen |
| EstadoRules.FueraRangePadded | mobile-app-fresh/src/screens/ViewAsistencia.js:161-177 | a check-out status " 9 " is trimmed and flags the record |
| EstadoRules.ResumenEstado | mobile-app-fresh/src/screens/ViewAsistencia.js:837-841 | the summary key is never empty and never padded; which key is stated by `ResumenEstadoMissing`, `ResumenEstadoBlank`, `ResumenEstadoFallback`, `ResumenEstadoOfText` and `ResumenEstadoOfNumber` |
| EstadoRules.ResumenEstadoOfText | mobile-app-fresh/src/screens/ViewAsistencia.js:837-841 | a non-blank `Estado` keys its record by its trimmed, upper-cased text (so "0" stays "0") |
| EstadoRules.ResumenEstadoMissing | mobile-app-fresh/src/screens/ViewAsistencia.js:837-841 | a record with neither `Estado` nor `estado` (both null or undefined) is counted under SIN ESTADO |
| EstadoRules.ResumenEstadoBlank | mobile-app-fresh/src/screens/ViewAsistencia.js:837-841 | a record whose `Estado` is blank text is counted under SIN ESTADO (the lower-case `estado` is not consulted) |
| EstadoRules.ResumenEstadoFallback | mobile-app-fresh/src/screens/ViewAsistencia.js:838-840 | when `Estado` is null or undefined, the lower-case `estado` is used: blank gives SIN ESTADO, otherwise its trimmed, upper-cased text |
| EstadoRules.ResumenEstadoOfNumber | mobile-app-fresh/src/screens/ViewAsistencia.js:838-840 | a numeric `Estado` n is keyed by its decimal text, e.g. 0 by "0" and -3 by "-3" |
| EstadoRules.Tally | mobile-app-fresh/src/screens/ViewAsistencia.js:846-847 | one tally keeps the existing keys in place and adds a bucket `(key, 1)` only for a key without a count |
| EstadoRules.TallyCount | mobile-app-fresh/src/screens/ViewAsistencia.js:846-847 | one tally adds one to the key's count, leaves every other count and adds one to the total |
| EstadoRules.TallyWellFormed | mobile-app-fresh/src/screens/ViewAsistencia.js:846-847 | tallying keeps keys distinct and counts positive |
| EstadoRules.CountKeysCorrect | mobile-app-fresh/src/screens/ViewAsistencia.js:844-848 | the reduce yields distinct keys with positive counts that sum to the number of keys, each count being the key's number of occurrences |
| EstadoRules.CountByEstadoCorrect | mobile-app-fresh/src/screens/ViewAsistencia.js:842-853 | `CountByEstado`'s buckets have distinct keys and positive counts, sum to the number of records (`total`), and count each status's records |
| EstadoRules.CountInBucket | mobile-app-fresh/src/screens/ViewAsistencia.js:847 | with distinct keys, the count read for a bucket's key is that bucket's count |
| EstadoRules.CountInMissing | mobile-app-fresh/src/screens/ViewAsistencia.js:847 | a key without a bucket reads as count 0 (`acc[k] \|\| 0`) |
| EstadoRules.OccurrencesPositive | mobile-app-fresh/src/screens/ViewAsistencia.js:844-848 | a key occurs a positive number of times exactly when it is in the list |
| EstadoRules.BucketIffPresent | mobile-app-fresh/src/screens/ViewAsistencia.js:842-853 | a status has a bar exactly when some record has that status |
| EstadoRules.BucketHasRecord | mobile-app-fresh/src/screens/ViewAsistencia.js:842-853 | every bar's status is the status of some record |
| EstadoRules.RecordHasBucket | mobile-app-fresh/src/screens/ViewAsistencia.js:842-853 | every record's status has a bar |
| EstadoRules.MaxCount | mobile-app-fresh/src/screens/ViewAsistencia.js:854-859 | the result bounds every count and is 0 or one of the counts |
| EstadoRules.MaxCountZero | mobile-app-fresh/src/screens/ViewAsistencia.js:854-859 | with positive counts the largest count is 0 exactly when there are no bars, and otherwise is attained by a bar |
| EstadoRules.FilterByEstadoMembers | mobile-app-fresh/src/screens/ViewAsistencia.js:864-867 | the filter keeps a record exactly when its summary key is the selected one |
| EstadoRules.FilterByEstadoCount | mobile-app-fresh/src/screens/ViewAsistencia.js:864-867 | the filter keeps as many records as have the status |
| EstadoRules.FilterByEstadoAppend | mobile-app-fresh/src/screens/ViewAsistencia.js:864-867 | filtering distributes over concatenation, so it keeps the records' order |
| EstadoRules.FilteredMatchesBar | mobile-app-fresh/src/screens/ViewAsistencia.js:860-868 | selecting a bar lists as many records as the bar counts |
| EstadoRules.AllEstadosBarShowsEverything | mobile-app-fresh/src/screens/ViewAsistencia.js:860-868 | a status reading "__all__" gets a bar whose key is the "all" selection, which lists every record |
| ReferenceCoords.NormalizeLatLon | mobile-app-fresh/src/screens/ViewAsistencia.js:190-204 | any point returned has latitude in [-90, 90] and longitude in [-180, 180] |
| ReferenceCoords.NormalizeLatLonSpec | mobile-app-fresh/src/screens/ViewAsistencia.js:193-204 | the given order is kept whenever it is valid; the swap is taken only when it is not; there is no point exactly when neither order is valid |
| ReferenceCoords.NormalizeLatLonNaN | mobile-app-fresh/src/screens/ViewAsistencia.js:184-204 | a value that is not a number gives no point |
| ReferenceCoords.NumberCandidates | mobile-app-fresh/src/screens/ViewAsistencia.js:219 | the regex engine tries at most two ends for the first number, each within the text (longest first); `CandidatesAreNumerals` says what they span |
| ReferenceCoords.CandidatesAreNumerals | mobile-app-fresh/src/screens/ViewAsistencia.js:219 | every candidate end of the first number spans a numeral `-?\d+([.,]\d+)?` |
| ReferenceCoords.PairMatchSound | mobile-app-fresh/src/screens/ViewAsistencia.js:219-220 | a pair `PairMatch` accepts is two numerals around one separator (blanks with at most one `,` or `;`) that make up the whole trimmed text |
| ReferenceCoords.PairMatchComplete | mobile-app-fresh/src/screens/ViewAsistencia.js:219-220 | a trimmed text made of a numeral, a separator and a numeral is always accepted as a pair |
| ReferenceCoords.PairMatchExact | mobile-app-fresh/src/screens/ViewAsistencia.js:219-220 | such a text is split at its separator into exactly its two numerals, except when a whole first number, a comma and a second number of the form d1,d2 follow each other; a second number without a comma is split off by backtracking ("12,77" reads as "12" and "77") |
| ReferenceCoords.CommaBacktracks | mobile-app-fresh/src/screens/ViewAsistencia.js:219-220 | a whole number, a comma and a second number without a comma: the greedy decimal comma fails to leave a separator, and the engine falls back to reading the comma as the separator |
| ReferenceCoords.PairMatchGreedyComma | mobile-app-fresh/src/screens/ViewAsistencia.js:219-220 | the exception: a whole number a, a comma and a second number d1,d2 read as (a,d1) and d2 ("1,5,2" reads as "1,5" and "2") |
| ReferenceCoords.PairNumeralParses | mobile-app-fresh/src/screens/ViewAsistencia.js:184-188 | every numeral the pair pattern accepts is a number for `toNumber` (its comma read as a decimal point) |
| ReferenceCoords.TrimmedTextNumber | mobile-app-fresh/src/screens/ViewAsistencia.js:184-188 | `ToNumber` of a text is `Number` of the text with surrounding blanks removed and its first comma replaced by a point |
| ReferenceCoords.NumberTokens | mobile-app-fresh/src/screens/ViewAsistencia.js:226 | every number found in free text is a numeral `-?\d+(\.\d+)?` |
| ReferenceCoords.TokensParse | mobile-app-fresh/src/screens/ViewAsistencia.js:226-228 | every number found in free text is a number for `toNumber` |
| ReferenceCoords.TokensSkip | mobile-app-fresh/src/screens/ViewAsistencia.js:226 | text without digits (and not a minus before a digit) adds no number |
| ReferenceCoords.TokensTake | mobile-app-fresh/src/screens/ViewAsistencia.js:226 | a numeral not followed by a digit (nor, after a whole number, by a point and a digit) is one number, and the scan resumes after it |
| ReferenceCoords.TokensExist | mobile-app-fresh/src/screens/ViewAsistencia.js:226 | the scan finds a number exactly when the text has a digit |
| ReferenceCoords.TokensOfTwoNumbers | mobile-app-fresh/src/screens/ViewAsistencia.js:226 | a text with two numerals separated by non-numeric text yields those two, in order, before anything found later |
| ReferenceCoords.ParseReferenceCoords | mobile-app-fresh/src/screens/ViewAsistencia.js:181-229 | any point parsed has latitude in [-90, 90] and longitude in [-180, 180]; which point is stated by `ObjectPath`, `ParsePairText` and `ParseFreeText` |
| ReferenceCoords.TextCoords | mobile-app-fresh/src/screens/ViewAsistencia.js:218-228 | any point read from text is in range |
| ReferenceCoords.ParseNoPoint | mobile-app-fresh/src/screens/ViewAsistencia.js:182-216 | falsy values other than zero, and blank text, give no point |
| ReferenceCoords.ParseTooFewNumbers | mobile-app-fresh/src/screens/ViewAsistencia.js:215-227 | a text that is not a pair and holds fewer than two numbers gives no point |
| ReferenceCoords.TextPath | mobile-app-fresh/src/screens/ViewAsistencia.js:182-216 | a non-blank string is read by the text path on its trimmed form |
| ReferenceCoords.ObjectPath | mobile-app-fresh/src/screens/ViewAsistencia.js:206-216 | `ObjectCoords`: an object is read from the first present latitude and longitude aliases, and that point wins when it is valid; an object lacking either alias, or whose pair `normalizeLatLon` rejects, is read as text |
| ReferenceCoords.ObjectCoordsOfAliases | mobile-app-fresh/src/screens/ViewAsistencia.js:207-212 | the object's latitude is its first present alias among `Latitud`, `lat`, `latitude`, its longitude the first among `Longitud`, `lon`, `longitude`; with both present the result is `normalizeLatLon` of them, otherwise none |
| ReferenceCoords.ParsePairText | mobile-app-fresh/src/screens/ViewAsistencia.js:215-222 | a text that is exactly a pair gives `normalizeLatLon` of its two numbers whenever that is a point |
| ReferenceCoords.ParsePairInOrder | mobile-app-fresh/src/screens/ViewAsistencia.js:193-222 | a pair whose numbers are a valid latitude and longitude in that order gives exactly that point, unswapped |
| ReferenceCoords.ParseFreeText | mobile-app-fresh/src/screens/ViewAsistencia.js:215-228 | a text that is not a pair gives `normalizeLatLon` of the first two numbers found in it |
| ReferenceCoords.DistanceToRequiredPoint | mobile-app-fresh/src/screens/ViewAsistencia.js:244-254 | there is a distance exactly when both position coordinates are present and the reference point parses, and it is `dist` from the position to that point |
| RegistrationRules.AnyRecordIff | mobile-app-fresh/src/screens/ViewAsistencia.js:492 | `some` holds exactly when some record satisfies the test |
| RegistrationRules.ExistsDuplicateIff | mobile-app-fresh/src/screens/ViewAsistencia.js:490-534 | `ExistsDuplicate` finds a duplicate exactly when some record is from today, has the current non-empty user key and has an assigned time for the mark's type |
| RegistrationRules.TimeAssignedIff | mobile-app-fresh/src/screens/ViewAsistencia.js:494-499 | a record's time counts exactly when its first non-nullish time alias trims to a non-empty text that is not a 1900-01-01 sentinel |
| RegistrationRules.SentinelNeverBlocks | mobile-app-fresh/src/screens/ViewAsistencia.js:451-456 | an empty or sentinel time never blocks a registration |
| RegistrationRules.NoUserNoDuplicate | mobile-app-fresh/src/screens/ViewAsistencia.js:445-448 | without a current user key no duplicate is ever found |
| RegistrationRules.UndatedNeverBlocks | mobile-app-fresh/src/screens/ViewAsistencia.js:457-458 | a record without a date under any alias never blocks |
| RegistrationRules.ExitTimeDoesNotBlockEntry | mobile-app-fresh/src/screens/ViewAsistencia.js:490-501 | a record with only a check-out time does not block a check-in |
| RegistrationRules.DuplicateAnywhere | mobile-app-fresh/src/screens/ViewAsistencia.js:490-534 | any one blocking record, wherever it is in the list, makes the scan find a duplicate |
| RegistrationRules.CuadrillaMissingIff | mobile-app-fresh/src/screens/ViewAsistencia.js:586 | the team id is missing exactly when its trimmed text is empty |
| RegistrationRules.AccuracyLowIff | mobile-app-fresh/src/screens/ViewAsistencia.js:557 | `AccuracyLow`: the accuracy warning is due exactly when an accuracy is reported and exceeds 20 m |
| RegistrationRules.UnparsedReferenceInRange | mobile-app-fresh/src/screens/ViewAsistencia.js:244-247 | a reference point that does not parse gives no distance, so the mark is never out of range |
| RegistrationRules.OutOfRangeIff | mobile-app-fresh/src/screens/ViewAsistencia.js:560-566 | `OutOfRange`: the flag is set exactly when both coordinates and the reference point are known and more than 50 m apart |
| RegistrationRules.WarningMessage | mobile-app-fresh/src/screens/ViewAsistencia.js:556-565 | the warning is empty exactly when neither warning is due; it starts with the accuracy warning exactly when that is due; it ends with the distance warning exactly when out of range |
| RegistrationRules.SuccessMessage | mobile-app-fresh/src/screens/ViewAsistencia.js:605 | the success text keeps the warning in front |
| ViewAsistenciaScreen.ValorFinOfRows | mobile-app-fresh/src/screens/ViewAsistencia.js:296-309 | without top-level values the reference point is the first present `ValorFin` alias of the first row when `data` is a list with a truthy first row, else `null`; never `undefined` |
| ViewAsistenciaScreen.ValorFinPrecedence | mobile-app-fresh/src/screens/ViewAsistencia.js:297-308 | a non-nullish top-level `valorFin` wins, then a non-nullish `valorFinal` |
| ViewAsistenciaScreen.EstadoDiarioFromFirstRow | mobile-app-fresh/src/screens/ViewAsistencia.js:337-344 | `EstadoDiarioOf` of a valid answer is its first row's `IdEstado`, else its `idEstado`, else `null` |
| ViewAsistenciaScreen.EstadoDiarioNoRows | mobile-app-fresh/src/screens/ViewAsistencia.js:337-344 | a valid answer without rows leaves the day's state `null` |
| ViewAsistenciaScreen.EstadoDiarioNullOnFailure | mobile-app-fresh/src/screens/ViewAsistencia.js:314-335 | `EstadoDiarioOf`: a missing user or a failed check leaves the day's list state `null` |
| ViewAsistenciaScreen.ClassifyResponse | mobile-app-fresh/src/screens/ViewAsistencia.js:352-371 | there is no complaint exactly when the answer is error-free and is a list or carries one in `data`; with a complaint no records are shown |
| ViewAsistenciaScreen.ClassifiedRecords | mobile-app-fresh/src/screens/ViewAsistencia.js:352-371 | a missing answer shows nothing with the empty-answer message; an error answer shows nothing with its `message` or the generic failure text; a list shows itself; an object shows its `data` list; anything else shows nothing and is called unexpected |
| ViewAsistenciaScreen.ErrorResponseShowsNothing | mobile-app-fresh/src/screens/ViewAsistencia.js:356-359 | an error answer shows no records even when it carries a list |
| ViewAsistenciaScreen.MessageAfterFetchCases | mobile-app-fresh/src/screens/ViewAsistencia.js:310-371 | `MessageAfterFetch`: the answer's complaint wins; without one a failed constant shows its `message` or the missing-point text; otherwise the message is kept |
| ViewAsistenciaScreen.FetchValorFin | mobile-app-fresh/src/screens/ViewAsistencia.js:294-312 | `ValorFinAfterFetch`: a failed constant keeps the last reference point; a loaded one replaces it, even by `null` |
| ViewAsistenciaScreen.FetchShowsAnswer | mobile-app-fresh/src/screens/ViewAsistencia.js:352-373 | `Fetch` shows exactly the answer's list or its `data` list, nothing for any other answer, ends loading and keeps tab and selection |
| ViewAsistenciaScreen.ToggleTwice | mobile-app-fresh/src/screens/ViewAsistencia.js:1050 | `ToggleSelection`: pressing a bar twice restores an empty selection or that bar, and clears any other selection |
| ViewAsistenciaScreen.ToggleFilters | mobile-app-fresh/src/screens/ViewAsistencia.js:1050 | through `FilteredRecords`, selecting a bar lists exactly that status's records; pressing it again lists nothing |
| ViewAsistenciaScreen.ExecuteRegisterGates | mobile-app-fresh/src/screens/ViewAsistencia.js:576-602 | `Executed`: a mark is sent exactly when the team id is present and, on a phone, both coordinates are numbers; it carries the team id as user and employee and the position's coordinates; each refusal shows its message |
| ViewAsistenciaScreen.ExecutedKeepsView | mobile-app-fresh/src/screens/ViewAsistencia.js:576-611 | `Executed` and `Submitted`: unless the mark is sent and accepted, the tab, selection, records and reference point are unchanged; a rejected mark shows the service's complaint; the loading flag is restored |
| ViewAsistenciaScreen.ExecutedSummary | mobile-app-fresh/src/screens/ViewAsistencia.js:604-608 | an accepted mark switches to the summary of every status, shows the success message and reloads the records |
| ViewAsistenciaScreen.LocatedOnFix | mobile-app-fresh/src/screens/ViewAsistencia.js:537-567 | `Located`: with permission, services and a position, `executeRegister` runs with that position's warnings and out-of-range flag |
| ViewAsistenciaScreen.LocatedRefused | mobile-app-fresh/src/screens/ViewAsistencia.js:537-569 | without permission, services or a position, only the location flag and the location message change and nothing is sent |
| ViewAsistenciaScreen.LocatedKeepsView | mobile-app-fresh/src/screens/ViewAsistencia.js:537-569 | the location part keeps the view under the same conditions as `executeRegister` |
| ViewAsistenciaScreen.LocatedSends | mobile-app-fresh/src/screens/ViewAsistencia.js:537-567 | a mark is sent exactly when permission, services, a position, the team id and (on a phone) the coordinates are all present, with the payload built from that position |
| ViewAsistenciaScreen.LocatedSummary | mobile-app-fresh/src/screens/ViewAsistencia.js:537-567 | the location flag records permission and services; an accepted mark shows the summary with the position's warnings in the success message |
| ViewAsistenciaScreen.PressedDuplicate | mobile-app-fresh/src/screens/ViewAsistencia.js:490-534 | a duplicate press shows the duplicate message, clears both marks and sends nothing |
| ViewAsistenciaScreen.PressedLocates | mobile-app-fresh/src/screens/ViewAsistencia.js:537-573 | any other press past the guard runs the location part with the in-progress mark set, then clears both marks |
| ViewAsistenciaScreen.BusyPressIgnored | mobile-app-fresh/src/screens/ViewAsistencia.js:438 | a press while a registration runs or the screen loads changes nothing and sends nothing |
| ViewAsistenciaScreen.PressClearsMarks | mobile-app-fresh/src/screens/ViewAsistencia.js:570-573 | past the guard both marks are cleared on every exit and the loading flag is as before |
| ViewAsistenciaScreen.PressSendsIff | mobile-app-fresh/src/screens/ViewAsistencia.js:437-602 | `Pressed`: a mark is sent exactly when the press is not ignored, no duplicate exists and every location and team-id gate passes; the payload carries the position and the out-of-range flag |
| ViewAsistenciaScreen.DuplicateStopsPress | mobile-app-fresh/src/screens/ViewAsistencia.js:503-506 | a duplicate stops the press before any location call: location flag, records and tab untouched, duplicate message shown |
| ViewAsistenciaScreen.LocationFailureShown | mobile-app-fresh/src/screens/ViewAsistencia.js:537-569 | the location flag records permission and services; without either or without a position the location message is shown and nothing is sent |
| ViewAsistenciaScreen.SuccessShowsSummary | mobile-app-fresh/src/screens/ViewAsistencia.js:604-608 | an accepted press switches to the summary of every status and reloads, and the success message carries the position's warnings |
| ViewAsistenciaScreen.FailureKeepsView | mobile-app-fresh/src/screens/ViewAsistencia.js:437-611 | a refused or rejected press leaves tab, selection, records and reference point unchanged; a rejected one shows the service's complaint |
| ViewAsistenciaScreen.ViewAsistencia.constructor | mobile-app-fresh/src/screens/ViewAsistencia.js:30-45 | the screen's initial state |
| ViewAsistenciaScreen.ViewAsistencia.FetchData | mobile-app-fresh/src/screens/ViewAsistencia.js:288-373 | the new state is `Fetch` of the old state and the three answers, whose records, message, reference point and day state are stated by the lemmas above |
| ViewAsistenciaScreen.ViewAsistencia.Submit | mobile-app-fresh/src/screens/ViewAsistencia.js:598-611 | the new state is the submission function of the old state and the answer |
| ViewAsistenciaScreen.ViewAsistencia.ExecuteRegister | mobile-app-fresh/src/screens/ViewAsistencia.js:576-612 | the new state and the payload sent are those of the `executeRegister` function |
| ViewAsistenciaScreen.ViewAsistencia.LocateAndRegister | mobile-app-fresh/src/screens/ViewAsistencia.js:537-569 | the new state and the payload sent are those of the location part |
| ViewAsistenciaScreen.ViewAsistencia.HandleRegister | mobile-app-fresh/src/screens/ViewAsistencia.js:437-574 | the new state and the payload sent are those of the `handleRegister` function, whose properties are the lemmas above |
| ViewAsistenciaScreen.ViewAsistencia.RejectDuplicate | mobile-app-fresh/src/screens/ViewAsistencia.js:503-506 | only the message and the two marks change |
| ViewAsistenciaScreen.ViewAsistencia.RegisterMarked | mobile-app-fresh/src/screens/ViewAsistencia.js:439-573 | the location part runs with the in-progress mark set and both marks are cleared afterwards |
| ViewAsistenciaScreen.ViewAsistencia.PressIn | mobile-app-fresh/src/screens/ViewAsistencia.js:970 | only the pressed mark changes |
| ViewAsistenciaScreen.ViewAsistencia.PressOut | mobile-app-fresh/src/screens/ViewAsistencia.js:971 | only the pressed mark is cleared |
| ViewAsistenciaScreen.ViewAsistencia.ToggleBar | mobile-app-fresh/src/screens/ViewAsistencia.js:1050 | only the selection changes, by the toggle rule |
| ViewAsistenciaScreen.ViewAsistencia.SelectAll | mobile-app-fresh/src/screens/ViewAsistencia.js:1032 | only the selection changes, and the filtered list becomes every record |
| ViewAsistenciaScreen.ViewAsistencia.ShowRegistro | mobile-app-fresh/src/screens/ViewAsistencia.js:927 | only the tab changes |
| ViewAsistenciaScreen.ViewAsistencia.ShowResumen | mobile-app-fresh/src/screens/ViewAsistencia.js:934-937 | the summary tab is shown, then the data reloads |
| AsistenciaController.GetAsistencia | backend/src/controllers/asistenciaController.js:3-15 | the service always runs with the chosen employee; its rows are the reply; an exception is a 500 with `Error al obtener asistencia` and the error's message |
| AsistenciaController.ListingBindsGivenEmployee | backend/src/controllers/asistenciaController.js:5-9 | a truthy `codEmp` in the query or body is bound as a non-empty `IdEmpleado` |
| AsistenciaController.EmptyQueryFallsThrough | backend/src/controllers/asistenciaController.js:5-9 | an empty `codEmp` in the query falls through to the body's, which is the employee bound |
| AsistenciaController.RegisteringUser | backend/src/controllers/asistenciaController.js:31-34 | the trimmed `usuarioAct` whenever it is not null/undefined, else the trimmed `codEmp` or `''` |
| AsistenciaController.RegisterAsistencia | backend/src/controllers/asistenciaController.js:17-46 | no user means 400 and no service call; otherwise one call with the resolved user, then success with the result, or a 500 with `Error al registrar asistencia` and the error's message |
| AsistenciaController.ExplicitEmptyUserRefused | backend/src/controllers/asistenciaController.js:31-38 | any explicit blank `usuarioAct` is refused with 400 and no call, even when `codEmp` is given |
| AsistenciaController.OtherBodyFieldsIgnored | backend/src/controllers/asistenciaController.js:19 | body fields other than user, employee, type, latitude and longitude do not change the outcome |
| AsistenciaController.IdEmpleadoNotForwarded | backend/src/controllers/asistenciaController.js:40 | the registration arguments carry no `idEmpleado` |
| AsistenciaController.EmptyEmployeeBound | backend/src/services/asistenciaService.js:22-28 | arguments without `idEmpleado` bind `IdEmpleado` to `''` (`idEmpleado || ''`) |
| AsistenciaController.RegistrationBindsEmptyEmployee | backend/src/controllers/asistenciaController.js:40 | every registration binds `IdEmpleado` to `''` |
| AsistenciaController.SpaceRun | backend/src/controllers/asistenciaController.js:60 | the length of the maximal run of white space at the start |
| AsistenciaController.AnyFromIff | backend/src/controllers/asistenciaController.js:60 | the scan succeeds exactly when some position in range satisfies the test |
| AsistenciaController.MissingProcedureIff | backend/src/controllers/asistenciaController.js:60 | the pattern test succeeds exactly when the phrase occurs somewhere, case-insensitively, with white space before the procedure name |
| AsistenciaController.PrefixMatches | backend/src/controllers/asistenciaController.js:60 | a text starts with its own prefix under the case-insensitive comparison |
| AsistenciaController.ProcedureMessageRecognised | backend/src/controllers/asistenciaController.js:60 | the server's missing-procedure message is recognised |
| AsistenciaController.CargarListadoDiario | backend/src/controllers/asistenciaController.js:48-72 | no user means 400 and no call; otherwise one call with the raw value; a missing-procedure error is an empty success with a warning; any other error is a 500 |
| AsistenciaController.NullBodyUserRefused | backend/src/controllers/asistenciaController.js:50-55 | `usuarioCre: null` in the body is refused even when the query has one (the body wins unless its value is `undefined`) |
| AsistenciaController.NoMessageIsServerError | backend/src/controllers/asistenciaController.js:59-70 | an error without a message is always a 500 |
| AsistenciaController.UndefinedErrorNoProcedure | backend/src/controllers/asistenciaController.js:59-60 | a missing error message never reads as the missing procedure |
| AsistenciaController.EmptyTextNoProcedure | backend/src/controllers/asistenciaController.js:60 | the empty text does not match the pattern |
| AsistenciaController.ValorFinOfRows | backend/src/controllers/asistenciaController.js:77-83 | the first non-nullish `ValorFin` alias of the first row, `null` when there are no rows or none is present |
| AsistenciaController.GetConstanteOficinas | backend/src/controllers/asistenciaController.js:74-89 | success is a 200 with exactly `success: true`, the constant and all rows; an exception is a 500 with `Error al obtener constante de oficinas` and the error's message |
| AsistenciaController.ValorFinNeverUndefined | backend/src/controllers/asistenciaController.js:78-83 | the constant is never `undefined` |
| AsistenciaService.NormalizeRow | backend/src/services/asistenciaService.js:9-19 | the row keeps every field, gains `Estado`, whose value is never nullish, and a row with a present `Estado` is unchanged |
| AsistenciaService.EstadoIsFirstPresentAlias | backend/src/services/asistenciaService.js:11-18 | `Estado` is the first non-nullish status alias, else `''` |
| AsistenciaService.EmptyEstadoWins | backend/src/services/asistenciaService.js:11-12 | an existing empty `Estado` wins over later aliases |
| AsistenciaService.NormalizeRowIdempotent | backend/src/services/asistenciaService.js:9-19 | normalising a normalised row changes nothing |
| AsistenciaService.NormalizeRows | backend/src/services/asistenciaService.js:9 | one normalised row per row, in order |
| AsistenciaService.ListedRows | backend/src/services/asistenciaService.js:8-19 | `[]` without a record set; otherwise one row per row, in order, each the normalised source row |
| AsistenciaService.ListedRowsIdempotent | backend/src/services/asistenciaService.js:8-19 | listing an already listed result gives it back |
| AppSession.LeavingIsNotReturning | mobile-app-fresh/App.js:106-113 | leaving and returning never happen on the same event |
| AppSession.BackgroundStates | mobile-app-fresh/App.js:106 | "inactive" and "background" match the background pattern and "active" does not |
| AppSession.NeverAwayNeverLogsOut | mobile-app-fresh/App.js:113-116 | a return without a recorded start never logs out |
| AppSession.ShortAbsenceKeepsSession | mobile-app-fresh/App.js:113-121 | a return within five minutes keeps the session |
| AppSession.LeaveThenReturn | mobile-app-fresh/App.js:106-121 | leaving records the clock and the following return ends the session exactly when at least five minutes passed; a departure at clock 0 reads as "never" |
| AppSession.AppContent.constructor | mobile-app-fresh/App.js:34-40 | no timer, no background start, fonts not loaded |
| AppSession.AppContent.ClearInactivityTimer | mobile-app-fresh/App.js:42-47 | no timer is left pending and nothing else changes |
| AppSession.AppContent.ClearUserSession | mobile-app-fresh/App.js:49-59 | the user becomes the signed-out user and nothing else changes |
| AppSession.AppContent.HandleAutoLogout | mobile-app-fresh/App.js:61-73 | timer and session always cleared; navigation reset to Login exactly when it is ready and not already on Login |
| AppSession.AppContent.ResetInactivityTimer | mobile-app-fresh/App.js:75-81 | nothing before the fonts load; afterwards exactly one fresh timer is pending and the previous one is cleared |
| AppSession.AppContent.LoadFonts | mobile-app-fresh/App.js:83-101 | fonts become loaded and the first load starts the inactivity timer |
| AppSession.AppContent.UserActivity | mobile-app-fresh/App.js:144-145 | a touch or navigation change restarts the inactivity timer once the fonts are loaded |
| AppSession.AppContent.TimerFires | mobile-app-fresh/App.js:77-79 | a pending timer firing logs out; a cleared one does nothing |
| AppSession.AppContent.OnAppStateChange | mobile-app-fresh/App.js:103-129 | the new state is always recorded; the background start is updated only on leaving; a return logs out exactly when at least five minutes passed, else restarts the timer |
| MainMenu.MainMenuScreen.constructor | mobile-app-fresh/src/screens/MainMenuScreen.js:11 | no check is running |
| MainMenu.MainMenuScreen.HandleAsistenciaPress | mobile-app-fresh/src/screens/MainMenuScreen.js:63-105 | ignored while a check runs; otherwise the flag is cleared on exit; navigates exactly when services are on and the final permission is granted; queries only with services on; requests at most once and only when not granted; each alert is raised exactly in its case |
| MainMenu.OnlyAttendanceEnabled | mobile-app-fresh/src/screens/MainMenuScreen.js:110-124 | of the menu's two options only the attendance one is enabled |
| Config.StripTrailingSlashes | mobile-app-fresh/src/config.js:3 | the result is a prefix of the input, does not end with "/", and only slashes were removed |
| Config.NormalizeBaseUrl | mobile-app-fresh/src/config.js:3 | the result is a prefix of the trimmed input, never ends with "/", and every character dropped is a trailing slash |
| Config.CleanAddressUnchanged | mobile-app-fresh/src/config.js:3 | an unpadded address without a trailing slash is returned unchanged |
| Config.NormalizeNotIdempotent | mobile-app-fresh/src/config.js:3 | "x /" normalises to "x ", which normalises to "x" |
| Config.BaseUrl | mobile-app-fresh/src/config.js:5-14 | the normalised variable when it is non-empty, else the platform default; never empty |
| Config.BlankSelectsDefault | mobile-app-fresh/src/config.js:5-14 | an unset or blank variable selects the platform default |

## Left out

- The haversine distance (`calculateDistanceMeters`) is floating-point trigonometry. It is the parameter `dist`.
- Dates and the Lima time zone (`getLimaDate`, `getLimaDateKey`, the date and time formatters, the clock) are left out. The day key of a value is the parameter `dayKey`, and today's key is the parameter `today`.
- JavaScript numbers are exact decimals, not doubles. Rounding at the range boundaries is not modelled.
- `Number` accepts `[+-]digits[.digits]` and the empty text (0). Hexadecimal, exponent and `Infinity` forms read as NaN.
- The pair pattern is modelled as the regex engine runs it: greedy, backtracking over the candidate ends of the first number (longest first). So a whole first number, a comma and a second number of the form d1,d2 read as (a,d1) and d2 (`ReferenceCoords.PairMatchGreedyComma`), while "12,77" reads as "12" and "77" because the engine gives the fraction back (`ReferenceCoords.CommaBacktracks`). The free-text scan is modelled as the global match, left to right.
- Upper-casing maps the ASCII and Latin-1 lower-case letters to their one-letter upper case ('ÿ' and 'µ' as in JavaScript). 'ß' is left unchanged, although JavaScript gives "SS". Letters outside Latin-1 are left unchanged.
- Null items in record arrays are not modelled. `item.X` on `null` throws in JavaScript; here a property of a non-object is `undefined`.
- Bucket order in the summary is not modelled, because `Object.entries` puts integer-like keys first. No property depends on it.
- The development-only messages (`__DEV__`), `apiDebug`, logging and the `mounted.current` checks are left out.
- Async interleavings are not modelled. Each handler is one sequential run, and timers are numbered ids.
- The HTTP client, the database connection, the routing table and the stored procedures are left out. Their answers are parameters.
- In `registerAsistenciaService`, the value returned (`result.recordset || result`) is taken to be whatever the procedure returned.
- A thrown error is assumed to carry its `message` as a value. The model does not cover errors without a `message`.
- `eliminarAsistenciaPrueba` is outside the modelled core.
- Also outside the modelled core:
  - `handleCompareLocations`, `refreshCurrentCoordinates`, `openCurrentLocationInMap`;
  - the effect that warns about `currentCoords`;
  - paging (`pageSize`) and rendering.
- Alert texts, `Linking` to the settings, and navigation details are left out. The menu returns which alert and whether it navigated; the shell returns whether it reset to Login.
- On a phone, `Number.isFinite(Number(coords.latitude))` is read as "the coordinate is present". A position's coordinates are modelled as finite numbers or absent (`undefined`); a `null` or non-numeric coordinate is not modelled.
- A pair written longitude first whose longitude is a valid latitude (such as "-76.95,-12.07") is kept in the given order, not swapped (`ReferenceCoords.ParsePairInOrder`). The code tries the given order first, so the model does the same.
- Config.NormalizeBaseUrl: idempotence is not claimed, because it does not hold (see `Config.NormalizeNotIdempotent`).
- `backend/src/controllers/asistenciaController.js:1` imports `cargarListadoDiarioService`, `constanteOficinasService` and `eliminarAsistenciaPruebaService`, which `backend/src/services/asistenciaService.js` does not export. Under ES modules the controller would fail to link; the model treats those services as parameters that answer. This is a reading of the text, not executed.
