# Houselandia: a Dafny model of the listing console and the account API

Houselandia is a real-estate listing site: a React front end with an admin
console for the listings, and a small Flask server that keeps user accounts.
This project models the pieces of it that carry logic, and proves what they
promise:

- **The admin console's listing page** (`AdminDashboard.js`). This covers:
  - the search box and category filter over the listings;
  - the local removal of a deleted listing;
  - the listing count;
  - the add / edit / cancel view modes that decide whether the form or the list is on screen.

  The filter is a function, `FilterHouses`, over the listings. The page is a class, `Dashboard`, whose fields are the component's state variables. Each event handler is a method that reassigns those fields. `View` says what the page shows for a given state.
- **The listing form** (`HouseForm.js`). This covers:
  - the blank listing;
  - the field-by-field updates as the admin types, including the nested `agent.*` fields and the comma-separated gallery;
  - the integer conversion made on submit.

  Each update is a function (`ApplyChange`, `SubmissionData`). The class `Form` holds `formData` and replaces it on every change.
- **The deployed API server** (`backend/app.py`). This covers:
  - the `DATABASE_URL` normalisation;
  - the `User` table;
  - the signup route and the login route.

  The table is a sequence of rows. Its invariant says e-mails are unique and ids count up from 1. The routes are functions from the table and the request to the response and the new table. The class `Server` holds the table, and its handlers apply those functions. bcrypt is a pair of uninterpreted functions.
- **The older copy of that server** (`backend/venv/app.py`). It uses a fixed sqlite database and a signup route without the required-field check. It is modelled as a second variant. Lemmas state where the two variants agree, and that they leave different tables behind only for a signup with the empty e-mail.

The JavaScript and Python built-ins the code relies on are written out in
Dafny, ASCII only:

- `toLowerCase`, `trim`, `includes`, `startsWith`, `split` and `join`;
- `parseInt`, `String(v)` and truthiness;
- Python's `str.replace(old, new, 1)`.

Modules follow the program:

| file | module | models |
|---|---|---|
| `wrappers.dfy` | `Wrappers` | `Option`: `null`/`undefined`/`None` |
| `text.dfy` | `Text` | the string built-ins |
| `lists.dfy` | `Lists` | `Array.prototype.filter` |
| `json.dfy` | `Json` | JSON values, `String(v)`, truthiness, `parseInt(v)` |
| `admin_dashboard.dfy` | `AdminDashboard` | `AdminDashboard.js` |
| `house_form.dfy` | `HouseForm` | `HouseForm.js` |
| `accounts.dfy` | `Accounts` | the `User` table and the login rule both servers share |
| `backend.dfy` | `Backend` | `backend/app.py` |
| `legacy_backend.dfy` | `LegacyBackend` | `backend/venv/app.py` |

## Model

| member | source | states |
|---|---|---|
| Text.ToLower | houselandia/src/components/admin/AdminDashboard.js:46-50 | `toLowerCase` keeps the length, turns each upper-case letter into its lower-case letter (code point plus 32), leaves every other character as it is, and leaves no upper-case letter |
| Text.ToLowerIdempotent | houselandia/src/components/admin/AdminDashboard.js:46-50 | lower-casing twice is lower-casing once |
| Text.Trim | houselandia/src/components/admin/AdminDashboard.js:46-50 | `trim` returns a slice of its input with only whitespace in front of it and only whitespace behind it, and with no outer whitespace of its own |
| Text.TrimStartSpec | houselandia/src/components/admin/HouseForm.js:45-47 | `trimStart` drops a whitespace-only prefix and nothing else, and stops at a non-space |
| Text.TrimEndSpec | houselandia/src/components/admin/AdminDashboard.js:46-50 | `trimEnd` drops a whitespace-only suffix and nothing else, and stops at a non-space |
| Text.TrimEmptyIff | houselandia/src/components/admin/AdminDashboard.js:49 | a string trims to "" exactly when it is all whitespace |
| Text.TrimPadded | houselandia/src/components/admin/HouseForm.js:34 | leading whitespace before a trimmed string is exactly what `trim` removes |
| Text.IncludesIff | houselandia/src/components/admin/AdminDashboard.js:53-54 | `includes` holds exactly when some slice of the string equals the query |
| Text.IncludesEmpty | houselandia/src/components/admin/AdminDashboard.js:53-54 | every string includes "" |
| Text.EmptyIncludes | houselandia/src/components/admin/AdminDashboard.js:53-54 | "" includes only "" |
| Text.StartsWith | houselandia/src/components/admin/HouseForm.js:26 | `name.startsWith('agent.')`, and Python's `database_url.startswith("postgres://")` at `backend/app.py:16`: the prefix is the string's first characters; used by `ChangeAgentField`, `RewritesPostgresScheme`, `PostgresqlIsNotPostgres` and `NeverPostgresScheme` |
| Text.Includes | houselandia/src/components/admin/AdminDashboard.js:53-54 | `s.includes(t)`, searched position by position; what it means is stated by `IncludesIff`, `IncludesEmpty` and `EmptyIncludes` |
| Text.Join | houselandia/src/components/admin/HouseForm.js:81 | `parts.join(sep)`; used by `SplitSpec` and the gallery round trip |
| Text.Split | houselandia/src/components/admin/HouseForm.js:34 | `s.split(sep)` for a one-character separator, always at least one piece; what it means is stated by `SplitSpec` |
| Text.SplitSpec | houselandia/src/components/admin/HouseForm.js:34 | `split(',')` gives one piece more than there are commas, no piece holds a comma, and joining the pieces with ',' gives the input back |
| Text.SplitAfterPiece | houselandia/src/components/admin/HouseForm.js:34 | a separator-free piece followed by the separator splits off as the first piece |
| Text.SplitWithoutSeparator | houselandia/src/components/admin/HouseForm.js:27 | a string without the separator splits into itself alone |
| Text.ToDecimal | houselandia/src/components/admin/HouseForm.js:45-47 | `String(n)` of an integer: a minus sign for a negative one, then its decimal digits; specified by `NatToDecimalSpec`, `DigitsValueOfDecimal` and `ParseIntOfDecimal` |
| Text.NatToDecimalSpec | houselandia/src/components/admin/HouseForm.js:45-47 | `String(n)` of a natural number is a non-empty digit string without leading zero |
| Text.LeadingDigitsSpec | houselandia/src/components/admin/HouseForm.js:45-47 | the digits `parseInt` reads are the longest digit prefix |
| Text.DigitsValueOfDecimal | houselandia/src/components/admin/HouseForm.js:45-47 | reading back the digits of `n` gives `n` |
| Text.ParseInt | houselandia/src/components/admin/HouseForm.js:45-47 | `parseInt(s)`: leading whitespace, an optional sign and the longest digit run, or `NaN` without digits; specified by `LeadingDigitsSpec`, `ParseIntOfDecimal`, `NoDigitIsNaN` and `Json.NaNIsNotANumeral` |
| Text.ParseIntOfDecimal | houselandia/src/components/admin/HouseForm.js:45-47 | `parseInt(String(n) + rest) == n` whenever `rest` does not start with a digit |
| Text.NoDigitIsNaN | houselandia/src/components/admin/HouseForm.js:45-47 | `parseInt` gives `NaN` whenever no digit follows the leading whitespace and the optional sign |
| Lists.Filter | houselandia/src/components/admin/AdminDashboard.js:44-63 | `filter` returns an order-preserving subsequence of its input that holds exactly the elements passing the test; how often each occurs is stated by `FilterCounts` |
| Lists.FilterCounts | houselandia/src/components/admin/AdminDashboard.js:44 | every value occurs in the result as often as in the input when it passes the test, and not at all otherwise; with the subsequence clause this fixes the result |
| Lists.FilterKeepsAll | houselandia/src/components/admin/AdminDashboard.js:44 | a filter that rejects nothing returns its input |
| Lists.FilterIdempotent | houselandia/src/components/admin/AdminDashboard.js:44 | filtering twice with the same test is filtering once |
| Lists.FilterCongruent | houselandia/src/components/admin/AdminDashboard.js:44 | tests that agree on every element select the same elements |
| Lists.FilterDropsRejected | houselandia/src/components/admin/AdminDashboard.js:107 | a filter that rejects some element returns a strictly shorter list |
| Json.ToJsString | houselandia/src/components/admin/AdminDashboard.js:46-47 | `String(v)` for each kind of value; what the field text becomes is stated by `TextOr` |
| Json.Truthy | houselandia/src/components/admin/AdminDashboard.js:46-47 | JavaScript truthiness: `undefined`, `null`, `false`, `""`, `0` and `NaN` are falsy; used by `TextOr` and `MissingFieldsMatchOnlyBlankSearch` |
| Json.TextOr | houselandia/src/components/admin/AdminDashboard.js:46-47 | `(v \|\| "").toString()`: a string field reads as itself, a non-zero number as its decimal text, `true` as "true", an object as "[object Object]"; a missing field and `null`, `false`, `0`, `NaN` read as "" |
| Json.ParseIntOf | houselandia/src/components/admin/HouseForm.js:45-47 | `parseInt(v)` is always a number or `NaN` |
| Json.ParseIntOfNumeric | houselandia/src/components/admin/HouseForm.js:45-47 | `parseInt` leaves a number (via its decimal text) and `NaN` unchanged |
| Json.NaNIsNotANumeral | houselandia/src/components/admin/HouseForm.js:45-47 | `parseInt("NaN")` is `NaN` |
| Json.ParseIntOfNumeral | houselandia/src/components/admin/HouseForm.js:45-47 | a typed numeral, perhaps followed by a fraction or a unit, parses to its integer |
| Json.ParseIntOfUndefined | houselandia/src/components/admin/HouseForm.js:45-47 | a missing field parses to `NaN` |
| Json.ParseIntOfBlank | houselandia/src/components/admin/HouseForm.js:45-47 | `parseInt("")`, the value of a blank numeric field, is `NaN` |
| AdminDashboard.Normalize | houselandia/src/components/admin/AdminDashboard.js:46-50 | `toLowerCase().trim()`; stated by `Text.ToLower`, `Text.Trim`, `NormalizeAll` and `FilterIgnoresCase` |
| AdminDashboard.FieldKey | houselandia/src/components/admin/AdminDashboard.js:46-47 | `(house[key] \|\| "").toString().toLowerCase().trim()`: the normalised text of a field; stated by `Json.TextOr`, `Text.ToLower`, `Text.Trim` and `MissingFieldsMatchOnlyBlankSearch` |
| AdminDashboard.Matches | houselandia/src/components/admin/AdminDashboard.js:52-62 | the search matches the location or the type, and the category is "all" or the type; stated through `FilterHouses` and the lemmas after it |
| AdminDashboard.FilterHouses | houselandia/src/components/admin/AdminDashboard.js:44-63 | the shown houses are an order-preserving subsequence of the list in which every matching house occurs as often as in the list and no other house occurs; a house matches iff its normalised location or type includes the normalised query and the category is "all" or equals its normalised type |
| AdminDashboard.ShowsEverythingForBlankSearch | houselandia/src/components/admin/AdminDashboard.js:49-58 | a whitespace-only query with a category that normalises to "all" shows every house |
| AdminDashboard.InitialFiltersShowEverything | houselandia/src/components/admin/AdminDashboard.js:12-13 | the initial search "" with category "All" shows every house |
| AdminDashboard.NormalizeAll | houselandia/src/components/admin/AdminDashboard.js:50 | "All" normalises to "all" |
| AdminDashboard.FilterIgnoresCase | houselandia/src/components/admin/AdminDashboard.js:49-50 | queries and categories equal up to ASCII letter case show the same houses |
| AdminDashboard.MissingFieldsMatchOnlyBlankSearch | houselandia/src/components/admin/AdminDashboard.js:46-54 | a house with missing or falsy location and type matches the search iff the normalised query is "" |
| AdminDashboard.FilterHousesIdempotent | houselandia/src/components/admin/AdminDashboard.js:44-63 | filtering the shown houses again changes nothing |
| AdminDashboard.SameId | houselandia/src/components/admin/AdminDashboard.js:107 | `h.id === id` on ids: equal values, except that `NaN` equals nothing, itself included; `RemoveHouse` keeps exactly the houses whose id is not `SameId` to the deleted `id`, and `RemoveHouseShrinks` and `RemoveAbsentHouse` use it |
| AdminDashboard.RemoveHouse | houselandia/src/components/admin/AdminDashboard.js:107 | after deleting id `k`, the remaining houses are an order-preserving subsequence in which every house whose id is not `k` (by `!==`) occurs as often as before and no house with id `k` occurs |
| AdminDashboard.RemoveHouseShrinks | houselandia/src/components/admin/AdminDashboard.js:107 | deleting an id some house carries shortens the list |
| AdminDashboard.RemoveAbsentHouse | houselandia/src/components/admin/AdminDashboard.js:107 | deleting an id no house carries leaves the list unchanged |
| AdminDashboard.Dashboard.constructor | houselandia/src/components/admin/AdminDashboard.js:6-13 | the page starts with no houses, no form open, loading, search "" and category "All" |
| AdminDashboard.Dashboard.View | houselandia/src/components/admin/AdminDashboard.js:131-236 | the controls show iff no form is open; the count is the number of houses; the spinner shows iff loading; the form shows iff loading is over and a listing is being added or edited; the form submits to update iff a listing is being edited; otherwise the list shows exactly `FilterHouses` of the houses, the query and the category |
| AdminDashboard.Dashboard.FetchFinished | houselandia/src/components/admin/AdminDashboard.js:21-31 | fetched data replaces the list (a failed fetch keeps it), and loading ends |
| AdminDashboard.Dashboard.StartAdding | houselandia/src/components/admin/AdminDashboard.js:133 | "+ Post New Property" opens the form once loading is over |
| AdminDashboard.Dashboard.StartEditing | houselandia/src/components/admin/AdminDashboard.js:226 | "Edit" opens the form on that house, submitting to the update handler |
| AdminDashboard.Dashboard.Cancel | houselandia/src/components/admin/AdminDashboard.js:216 | cancel clears both modes; the controls come back, and once loading is over the list shows `FilterHouses` again |
| AdminDashboard.Dashboard.AddFinished | houselandia/src/components/admin/AdminDashboard.js:74-75 | only an accepted add closes the adding form |
| AdminDashboard.Dashboard.UpdateFinished | houselandia/src/components/admin/AdminDashboard.js:94-95 | only an accepted update closes the editing form |
| AdminDashboard.Dashboard.Delete | houselandia/src/components/admin/AdminDashboard.js:103-112 | a confirmed delete whose request is sent applies `RemoveHouse`; otherwise the list is unchanged |
| AdminDashboard.Dashboard.SetSearchQuery | houselandia/src/components/admin/AdminDashboard.js:187 | typing in the search box sets the query |
| AdminDashboard.Dashboard.SetFilterType | houselandia/src/components/admin/AdminDashboard.js:193 | choosing a category sets the category |
| HouseForm.BlankListing | houselandia/src/components/admin/HouseForm.js:6-20 | the blank listing's fields and values; stated by `NewListingIsBlank` |
| HouseForm.InitialFormData | houselandia/src/components/admin/HouseForm.js:5-21 | `initialData \|\| {...}`: the listing being edited, or `BlankListing`; stated by `NewListingIsBlank` and `Form.constructor` |
| HouseForm.NewListingIsBlank | houselandia/src/components/admin/HouseForm.js:5-21 | without a listing, the form has exactly the nine text fields, all "", an empty gallery, and an agent with empty name and phone and the placeholder picture |
| HouseForm.TrimAll | houselandia/src/components/admin/HouseForm.js:34 | `map(url => url.trim())` keeps the count and trims each entry |
| HouseForm.ParseGallery | houselandia/src/components/admin/HouseForm.js:34 | `value.split(',').map(url => url.trim())`; stated by `ParseGallerySpec`, `GalleryRoundTrip` and `GalleryReparseStable` |
| HouseForm.ParseGallerySpec | houselandia/src/components/admin/HouseForm.js:34 | the parsed gallery has one entry more than the text has commas, and no entry holds a comma or outer whitespace |
| HouseForm.ParsePaddedJoin | houselandia/src/components/admin/HouseForm.js:34 | parsing leading whitespace followed by `gallery.join(', ')` gives back a non-empty gallery of trimmed, comma-free URLs |
| HouseForm.GalleryRoundTrip | houselandia/src/components/admin/HouseForm.js:81 | parsing the shown `gallery.join(', ')` gives back a non-empty gallery of trimmed, comma-free URLs |
| HouseForm.EmptyGalleryComesBackBlank | houselandia/src/components/admin/HouseForm.js:81 | the empty gallery is shown as "" and parses back as `[""]`, not `[]` |
| HouseForm.GalleryReparseStable | houselandia/src/components/admin/HouseForm.js:34 | after one gallery edit, showing and parsing it again changes nothing |
| HouseForm.AgentFields | houselandia/src/components/admin/HouseForm.js:30 | `{...formData.agent}`: the agent's fields, and none for an agent that is not a plain object; `ChangeAgentField` states that every one of them but the changed one is kept |
| HouseForm.AgentFieldName | houselandia/src/components/admin/HouseForm.js:27 | `name.split('.')[1]`, the agent field an input names; `ChangeAgentField` proves it is X for "agent.X" |
| HouseForm.ApplyChange | houselandia/src/components/admin/HouseForm.js:23-38 | the form data after one change event; stated by `ChangeAgentField`, `ChangeGallery` and `ChangeOtherField` |
| HouseForm.ChangeAgentField | houselandia/src/components/admin/HouseForm.js:26-31 | "agent.X" sets the agent's field X; every other agent field and every other top-level field is unchanged |
| HouseForm.ChangeGallery | houselandia/src/components/admin/HouseForm.js:32-34 | "gallery" sets the gallery to the parsed URL list; every other field is unchanged |
| HouseForm.ChangeOtherField | houselandia/src/components/admin/HouseForm.js:35-36 | any other name sets exactly that field to the typed text; every other field is unchanged |
| HouseForm.SubmissionData | houselandia/src/components/admin/HouseForm.js:43-48 | the object handed to `onSubmit`; stated by `SubmissionFields`, `SubmissionIdempotent`, `SubmitsTypedNumber` and `BlankFieldsSubmitNaN` |
| HouseForm.SubmissionFields | houselandia/src/components/admin/HouseForm.js:42-48 | the submitted data has the form's fields plus bedrooms, bathrooms and price; those three hold their `parseInt`, every other field is unchanged |
| HouseForm.SubmissionIdempotent | houselandia/src/components/admin/HouseForm.js:43-48 | converting the submitted data again changes nothing |
| HouseForm.SubmitsTypedNumber | houselandia/src/components/admin/HouseForm.js:45-47 | a numeral typed into a numeric field is submitted as that number |
| HouseForm.BlankFieldsSubmitNaN | houselandia/src/components/admin/HouseForm.js:43-48 | `SubmissionData` of the blank listing holds `NaN` in bedrooms, bathrooms and price |
| HouseForm.Form.constructor | houselandia/src/components/admin/HouseForm.js:5-21 | the form starts from the listing being edited or the blank listing |
| HouseForm.Form.HandleChange | houselandia/src/components/admin/HouseForm.js:23-38 | an input's change event replaces the form data by `ApplyChange` |
| HouseForm.Form.HandleSubmit | houselandia/src/components/admin/HouseForm.js:40-50 | the submit event hands `SubmissionData` of the form data to `onSubmit` |
| Accounts.UniqueEmails | houselandia/backend/app.py:28 | the `unique=True` e-mail column (also `backend/venv/app.py:20`): no two rows share an e-mail; `FindsTheOnlyRow` and `LoginSucceedsIff` rely on it, and `AddUserKeepsValid` and both `SignupKeepsValid` lemmas keep it |
| Accounts.Valid | houselandia/backend/app.py:26-29 | the table's invariant: unique e-mails, and ids 1, 2, 3, … in insertion order; kept by `AddUserKeepsValid`, `Backend.SignupKeepsValid` and `LegacyBackend.SignupKeepsValid`, and by both servers' `HandleSignup` |
| Accounts.FindUser | houselandia/backend/app.py:45 | `filter_by(email=...).first()` finds the first row with that e-mail, and finds nothing iff no row has it or the e-mail is absent |
| Accounts.HasUser | houselandia/backend/app.py:45 | `if User.query.filter_by(email=email).first()`: some row has the e-mail; its meaning comes from `FindUser`'s contract |
| Accounts.FindsTheOnlyRow | houselandia/backend/app.py:28 | with unique e-mails, `first()` finds the one row carrying the address |
| Accounts.AddUser | houselandia/backend/app.py:48-52 | the insert appends one row with the next id, the e-mail and the hash, and keeps every earlier row |
| Accounts.AddUserKeepsValid | houselandia/backend/app.py:28 | inserting an address not in the table keeps e-mails unique and ids sequential |
| Accounts.AddUserIsFound | houselandia/backend/app.py:45-52 | after the insert, the lookup finds the new row |
| Accounts.Login | houselandia/backend/app.py:57-65 | login answers 200, 401 with "Invalid email or password", or 500 when a row has the e-mail but the password is absent (`check_password_hash` raises), and 500 only then |
| Accounts.LoginSucceedsIff | houselandia/backend/app.py:60-63 | with unique e-mails, login answers 200 iff some row has the request's e-mail, a password is given, and the row's hash checks against it; the answer then names that e-mail |
| Accounts.LoginWithoutEmailFails | houselandia/backend/app.py:60-62 | a request without an e-mail gets 401 "Invalid email or password" and never reaches the password check |
| Backend.ReplaceFirst | houselandia/backend/app.py:17 | Python's `replace(old, new, 1)`; used by `DatabaseUri`, whose behaviour `RewritesPostgresScheme` states |
| Backend.DatabaseUri | houselandia/backend/app.py:15-19 | the URI handed to SQLAlchemy; stated by `RewritesPostgresScheme`, `KeepsOtherUrls`, `FallsBackToSqlite`, `NeverPostgresScheme` and `DatabaseUriIdempotent` |
| Backend.RewritesPostgresScheme | houselandia/backend/app.py:16-17 | a `postgres://` URL has that prefix replaced by `postgresql://` and the rest kept |
| Backend.KeepsOtherUrls | houselandia/backend/app.py:16-19 | any non-empty URL not starting with `postgres://` is used as it is |
| Backend.PostgresqlIsNotPostgres | houselandia/backend/app.py:16 | a `postgresql://` URL does not start with `postgres://` |
| Backend.KeepsPostgresqlUrls | houselandia/backend/app.py:16-19 | a URL already using `postgresql://` is used as it is |
| Backend.FallsBackToSqlite | houselandia/backend/app.py:19 | an absent or empty `DATABASE_URL` selects `sqlite:///database.db` |
| Backend.NeverPostgresScheme | houselandia/backend/app.py:15-19 | the URL handed to the driver never starts with `postgres://` |
| Backend.DatabaseUriIdempotent | houselandia/backend/app.py:15-19 | normalising a normalised URL changes nothing |
| Backend.Blank | houselandia/backend/app.py:42 | `not email` / `not password` for a string or absent field: absent or ""; stated by `Signup`'s 201 iff and by `SignupRequiresBothFields` |
| Backend.Signup | houselandia/backend/app.py:36-54 | signup answers 201 iff both fields are present and non-empty and the e-mail is not taken; otherwise 400 with the table unchanged; on 201 the row with the password's hash is appended |
| Backend.SignupRequiresBothFields | houselandia/backend/app.py:42-43 | a missing or empty e-mail or password gets 400 "Email and password are required" and the table is unchanged |
| Backend.SignupRejectsDuplicate | houselandia/backend/app.py:45-46 | a non-empty e-mail already in the table, sent with a non-empty password, gets 400 "User already exists" and the table is unchanged (a blank e-mail or password is refused first, at `app.py:42`; every taken e-mail gets 400 with the table unchanged through `Signup`'s own ensures) |
| Backend.SignupAddsOneRow | houselandia/backend/app.py:48-54 | a successful signup adds exactly one row, at the end, for that e-mail and `Hash(password)`, keeps all other rows, and login's lookup then finds it |
| Backend.SignupKeepsValid | houselandia/backend/app.py:28-54 | signup keeps e-mails unique and ids sequential |
| Backend.Server.constructor | houselandia/backend/app.py:15-33 | the server connects to `DatabaseUri` of the environment and starts from the rows already stored |
| Backend.Server.HandleSignup | houselandia/backend/app.py:36-54 | the signup route answers and updates the table as `Signup` says, keeping the table valid |
| Backend.Server.HandleLogin | houselandia/backend/app.py:57-65 | the login route answers as `Login` says, succeeds iff a row with that e-mail checks against the password, and changes nothing |
| LegacyBackend.SameLocalDatabase | houselandia/backend/venv/app.py:11 | the older copy's fixed URI is the same string the deployed server falls back to |
| LegacyBackend.Signup | houselandia/backend/venv/app.py:28-43 | signup answers 400 iff the e-mail is taken; 500 with the table unchanged for a new address with an empty or absent password (the hash raises) or an absent e-mail (the NOT NULL column refuses it); 201 iff an e-mail is given, the password is non-empty and the e-mail is new, and then the row with the password's hash is appended |
| LegacyBackend.SignupRejectsDuplicate | houselandia/backend/venv/app.py:34-35 | an e-mail already in the table gets 400 "User already exists" and the table is unchanged |
| LegacyBackend.SignupWithoutEmailFails | houselandia/backend/venv/app.py:20 | without an e-mail the insert violates the NOT NULL column: 500, and nothing is stored |
| LegacyBackend.SignupWithoutPasswordFails | houselandia/backend/venv/app.py:37 | for a new address, an empty or absent password makes `generate_password_hash` raise: 500, and nothing is stored |
| LegacyBackend.SignupKeepsValid | houselandia/backend/venv/app.py:20-43 | signup keeps e-mails unique and ids sequential |
| LegacyBackend.AgreesOnCompleteRequests | houselandia/backend/venv/app.py:28-43 | with a non-empty e-mail and password, both versions answer and store alike |
| LegacyBackend.SameTableUnlessEmptyEmail | houselandia/backend/venv/app.py:28-43 | for every request whose e-mail is not "", both versions leave the same table behind |
| LegacyBackend.AcceptsWhatBackendRefuses | houselandia/backend/venv/app.py:28-43 | the empty e-mail with a non-empty password, while no row has the empty address, is stored by the older copy (201, one more row) and refused by the deployed server (400 "Email and password are required", nothing stored) |
| LegacyBackend.Server.constructor | houselandia/backend/venv/app.py:11-25 | the older server starts from the rows already stored |
| LegacyBackend.Server.HandleSignup | houselandia/backend/venv/app.py:28-43 | the signup route answers and updates the table as the older `Signup` says, keeping the table valid |
| LegacyBackend.Server.HandleLogin | houselandia/backend/venv/app.py:46-54 | the login route answers as `Login` says, succeeds iff a row with that e-mail checks against the password, and changes nothing |

## Left out

- Rendering: JSX and styling are left out. `View` names only the parts of the page whose presence the state decides.
- `window.confirm` and `alert` appear only through their outcome: `Delete` takes `confirmed` as a parameter.
- Network: the `fetch` calls are not modelled. Their results are parameters:
  - `FetchFinished` takes the fetched data, or none. The data is assumed to be an array of listing objects: an error body such as `{}` would be stored by `AdminDashboard.js:25` and make `houses.filter` at `AdminDashboard.js:44` throw while rendering, which is not modelled;
  - `AddFinished` and `UpdateFinished` take whether the server accepted;
  - `Delete` takes whether the request could be sent.
- The refetch after an add or update is not modelled separately. It is another `FetchFinished`.
- `averagePrice` (`AdminDashboard.js:35-41`) is left out. It is floating-point arithmetic over `Number()` with regular-expression stripping.
- Overlapping, asynchronous handlers are not modelled. `Delete` filters the list as it is when the request returns, while the source filters the list captured when the card was clicked. Each handler is one atomic step.
- RemoveHouse: ids are compared by value. JavaScript compares object and array ids by reference with `!==`; only strings, numbers, booleans, `null`, `undefined` and `NaN` are compared as in the source.
- The lower-case `onchange` on the agent-image input (`HouseForm.js:89`) means that input never fires `handleChange`. That is event wiring and is outside the model. `ApplyChange` covers every input name the handler can receive.
- AgentFields: spreading an agent that is not a plain object (a string or an array, say) is treated as spreading nothing. JavaScript would spread a string's characters or an array's elements as indexed fields.
- Database URIs are strings only. A relative sqlite path such as `sqlite:///database.db` is resolved by Flask-SQLAlchemy against each app's own directory, so the two copies open different files; that resolution is not modelled.
- The inputs' browser validation is not modelled. This covers `required` on location and price (`HouseForm.js:61-62`) and `type="number"` on price, bedrooms and bathrooms (`HouseForm.js:62`, `72-73`). So `SubmissionData` is stated for every form data, including a blank price the browser would not let through. What reaches the server is `JSON.stringify` of the submitted object (`AdminDashboard.js:71`, `92`), which writes `NaN` as `null`; that serialisation is not modelled.
- Text.ToLower and Text.Trim cover only ASCII letters and ASCII whitespace. Unicode case mapping and Unicode spaces are not modelled.
- Text.ParseInt does not model the `0x` hexadecimal prefix. It also does not model the precision loss of very large numerals as JavaScript doubles: parsed integers are unbounded.
- Json.Value: numbers are integers, not JavaScript doubles. A listing's `bathrooms: 1.5` cannot be held, so `parseInt(1.5) == 1` and `parseInt(5e-7) == 5` are outside the model. Integers of 22 digits or more are written by `String(n)` in exponent form (`String(1e21)` is "1e+21", so `parseInt` of it is 1). `Json.ParseIntOfNumeric` and `HouseForm.SubmissionIdempotent` therefore hold for the integers the model holds, not for such numbers in JavaScript.
- Json.Value: arrays hold strings and objects hold string fields, which is what a listing's gallery and agent hold. Nested values of other shapes are not modelled.
- Search.js, ProtectedRoute.js, Login.js, Signup.js, the header, banner, lightbox and listing grid are not part of this model. What they do is presentation, routing, timers or network calls. `Search.js` in particular only keeps three selections and logs them; it builds no query.
- bcrypt is not modelled beyond its interface: hashing and checking are uninterpreted functions on strings. The two raises the routes can meet are modelled as a 500 answer: hashing an empty or absent password, and checking an absent one. No login-after-signup property is claimed, since it would depend on `check(hash(p), p)`.
- Request bodies are modelled as having a string or absent `email` and `password`. Two things are not modelled:
  - a body that is not JSON;
  - non-string JSON values in those fields.
- Column lengths are not modelled: `String(120)` for e-mails, and `String(255)` or `String(128)` for hashes.
- The database enforces `unique=True` itself. The model relies on the routes' own lookups, which keep the invariant when requests are handled one at a time. Concurrent signups racing past the lookup are not modelled.
- Ids: the primary key is modelled as numbering rows 1, 2, 3, … in insertion order, which is what sqlite assigns when rows are never deleted. A Postgres sequence may skip values.
- Flask routing, CORS, `db.create_all`, the session and commit mechanics, the `/` and `/api/test` status routes and the port handling are framework plumbing and are not modelled.
