# Semera Logya cadaster portal — verified model

This project models the two pieces of the Semera Logya city-cadaster portal
that carry logic of their own. The rest of the portal is translation tables
and markup.

- **The property search of the landing page** (`src/App.tsx`). A property
  record has an id, an address, an owner, an area, a status, a valuation and
  an optional ownership history. The search form filters the fixed fixture of
  three records. A record is kept when its id or its address, lower-cased,
  contains the lower-cased search term. Around the search sits the page state:
  the language (Amharic at start, toggled by the navigation bar), the search
  term, the results list and its "Clear results" button. The AI assistant
  widget also keeps state: a query, a response and a loading flag. Its
  `askAI` handler does nothing for an empty query. Otherwise it raises the
  loading flag, stores the service's answer or a fallback text, and lowers
  the flag again.
- **The registration backend** (`server.ts`). The `registrations` table has
  an AUTOINCREMENT id and NOT NULL `full_name` and `phone_number` columns.
  `status` defaults to "በሂደት ላይ" ("in progress") and `created_at` defaults
  to the insert time. POST `/api/registrations` stores an optional uploaded
  document and then inserts one row. It answers with the new id, or with a
  500 and "Failed to save registration". GET `/api/registrations` lists all
  rows by `created_at`, newest first. Uploaded files are named
  `<Date.now()>-<original name>` under `uploads/`, relative to the working
  directory. At start-up the `uploads` directory next to the server script
  and the table are created, each only when it is missing; the two upload
  directories are one and the same only when the server runs from its own
  directory, and the model keeps them apart.

Modules: `Wrappers` (Option), `PropertySearch` (the pure search),
`PortalState` (the `Portal` and `Assistant` component state as classes),
`UploadNaming` (the file-name rule and its inverse), and `Registrations`
(the table as a value, the insert, the ordering, and the `Server` class that
holds the upload directory and the database).

The NOT NULL constraints (server.ts:35-36) are the only check on a
submission: they reject an absent full name or phone number, and an empty
string is stored like any other. `InsertRow` does the same.

## Model

| member | source | states |
|---|---|---|
| `PropertySearch.MockRecords` | src/App.tsx:179-212 | the fixture holds three property records |
| `PropertySearch.Lower` | src/App.tsx:406-407 | lower-casing keeps the length and maps each character on its own: A–Z move to a–z and every other character stays |
| `PropertySearch.LowerIdempotent` | src/App.tsx:406-407 | lower-casing an already lower-cased string changes nothing |
| `PropertySearch.Includes` | src/App.tsx:406-407 | a term that starts the string is found, and a found term is never longer than the string |
| `PropertySearch.Matches` | src/App.tsx:405-408 | a term whose lower-case form is empty matches every record, and a matching term is no longer than the record's id or its address |
| `PropertySearch.HandleSearch` | src/App.tsx:405 | the search over the fixture returns exactly the fixture records that match |
| `PropertySearch.IncludesIffOccurs` | src/App.tsx:406-407 | `includes` holds exactly when the term occurs at some position of the string (both directions) |
| `PropertySearch.Filter` | src/App.tsx:405-408 | sound: every result matches and comes from the input; complete: every matching input record is in the result; each record appears exactly as often as in the input when it matches, and never otherwise; the result is a subsequence of the input, so order is kept |
| `PropertySearch.SearchNeverLonger` | src/App.tsx:405 | the search never returns more records than the fixture holds |
| `PropertySearch.FilterEmptyTerm` | src/App.tsx:405-408 | an empty term keeps every record, in order |
| `PropertySearch.FilterCaseInsensitive` | src/App.tsx:406-407 | two terms with the same lower-case form select the same records |
| `PropertySearch.IncludedCharsOccur` | src/App.tsx:406-407 | every character of an included term occurs in the string that includes it |
| `PropertySearch.DigitAbsentNoMatch` | src/App.tsx:405-408 | a record whose id and address both lack a digit of the term is not a match |
| `PropertySearch.SearchFindsOneParcel` | src/App.tsx:403-410 | searching the fixture for "sl-105" yields exactly the record SL-105-12-B |
| `PortalState.Toggled` | src/App.tsx:242 | the toggle always changes the language |
| `PortalState.ToggledTwice` | src/App.tsx:257 | toggling twice restores the language |
| `PortalState.Portal.constructor` | src/App.tsx:398-400 | the page starts in Amharic with an empty search term and no results |
| `PortalState.Portal.SetSearchTerm` | src/App.tsx:455 | typing replaces the search term |
| `PortalState.Portal.HandleSearch` | src/App.tsx:403-410 | `results` becomes the filtered fixture: exactly the fixture records that match the term, and never more of them than the fixture holds |
| `PortalState.Portal.ResultsShown` | src/App.tsx:467 | the results section is rendered exactly when the results list is non-empty |
| `PortalState.Portal.ClearResults` | src/App.tsx:472 | "Clear results" empties the list, so the results section is no longer shown (it is shown only for a non-empty list, src/App.tsx:467) |
| `PortalState.Portal.ToggleLanguage` | src/App.tsx:242 | the language becomes the other one |
| `PortalState.ResponseText` | src/App.tsx:309-311 | the stored response is never empty: the service's text when it is non-empty, the apology when the text is missing or empty, the offline notice when the call failed |
| `PortalState.Assistant.constructor` | src/App.tsx:294-296 | the assistant starts with an empty query, no response and not loading |
| `PortalState.Assistant.SetQuery` | src/App.tsx:329 | typing replaces the query |
| `PortalState.Assistant.BeginAsk` | src/App.tsx:300-301 | the request starts exactly when the query is non-empty, and then the loading flag is raised |
| `PortalState.Assistant.FinishAsk` | src/App.tsx:308-314 | after the call settles, on success or failure, the response is set and loading is false |
| `PortalState.Assistant.AskAI` | src/App.tsx:299-315 | an empty query leaves response and loading untouched; otherwise the response is set and loading ends false |
| `UploadNaming.Decimal` | server.ts:23 | the timestamp is written as a non-empty run of decimal digits with no leading zero |
| `UploadNaming.ParseDecimalRoundTrip` | server.ts:23 | reading the written digits back gives the timestamp |
| `UploadNaming.UploadName` | server.ts:23 | the stored name ends with "-" followed by the original name, and everything before that is decimal digits |
| `UploadNaming.StoredPath` | server.ts:20-23 | the path reported for a stored file is `uploads/` followed by the stored name |
| `UploadNaming.SplitUploadNameRoundTrip` | server.ts:23 | the timestamp and the original name can be recovered from a stored name |
| `UploadNaming.UploadNameCollision` | server.ts:23 | two uploads get the same name exactly when their millisecond and their original name both agree |
| `Registrations.InsertRow` | server.ts:32-62 | the insert succeeds exactly when the full name and the phone number are present (empty strings are accepted) and the rowid space is not exhausted; it then appends exactly one row, whose id is the AUTOINCREMENT counter plus one (so above every id ever handed out, and above every id in the table) and becomes the new counter, and whose status is the default and whose creation time is the insert time; the table stays well-formed |
| `Registrations.InsertByTime` | server.ts:72 | inserting a row into a newest-first list adds exactly that row and keeps the list newest first |
| `Registrations.SortNewestFirst` | server.ts:72 | the listing is a permutation of the rows, each at least as new as the next |
| `Registrations.StepwiseIsNewestFirst` | server.ts:72 | newest-first between neighbours implies newest-first between any two rows |
| `Registrations.IncreasingIdsNoDuplicates` | server.ts:34 | with strictly increasing ids, no row occurs twice |
| `Registrations.ListingExactlyOnce` | server.ts:72-73 | the listing has as many rows as the table, holds every row exactly once and holds nothing else |
| `Registrations.InsertKeepsChronological` | server.ts:42 | when the clock has not gone back, rowid order and creation-time order still agree after an insert |
| `Registrations.FirstSubmission` | server.ts:53-63 | a first submission without a document gets id 1, the default status, no document path, and is the whole listing |
| `Registrations.RepeatedSubmission` | server.ts:34 | two identical submissions both succeed and get two increasing ids, adding two rows |
| `Registrations.Server.Start` | server.ts:12-44 | after start-up the script-relative upload directory and the table exist; the storage destination exists if it did before or if it is that same directory; existing files and rows are kept |
| `Registrations.Server.EnsureUploadDir` | server.ts:14-16 | afterwards the script-relative upload directory exists, and the storage destination too when the working directory is the script's; an existing directory leaves everything unchanged |
| `Registrations.Server.CreateTableIfMissing` | server.ts:32-44 | afterwards the table exists; an existing table keeps its rows and counter, so a second call changes nothing |
| `Registrations.Server.PostRegistration` | server.ts:53-68 | an attached file is stored under `uploads/<millis>-<name>` before the insert and stays there when the insert fails; the upload fails exactly when a file is attached and the destination directory is missing, and then nothing changes; otherwise the response is the new id exactly when the insert succeeds, and "Failed to save registration" exactly when it does not; the table changes only on success; the document path is the stored path or absent |
| `Registrations.Server.ListRegistrations` | server.ts:70-77 | the listing is newest first and a permutation of the table's rows; without a table it is "Failed to fetch registrations"; it changes nothing |

## Left out

- React rendering, JSX layout, animations, the map widget, the navigation bar's mobile menu and the contact form are presentation only.
- The contents of `TRANSLATIONS` are static text looked up by language.
- The text-completion service called by `askAI` is outside the repository. Its outcome is the `Reply` parameter: an answer whose text may be missing, or a failure.
- The time while `askAI` awaits the service is not modelled. `BeginAsk` and `FinishAsk` are the halves before and after it, and `AskAI` runs both back to back.
- Express routing, the Vite middleware and static file serving are HTTP plumbing. The responses are datatypes, not JSON.
- multer's multipart parsing is not modelled. Form fields are optional strings; a repeated field, which multer turns into an array, is not modelled.
- The JSON request path is not modelled. `express.json()` (server.ts:50) lets a JSON body reach the POST handler, whose fields may be numbers, booleans, arrays or objects; on the multipart path a bracketed key such as `fullName[]` also yields an array. What the database driver does with such a value is not modelled: an array, for one, is spread into several bind values, so such a body can be stored with its values moved into other columns, or be rejected. `InsertRow` captures only string-or-absent fields; its success condition says nothing about any other kind of value.
- multer's disk writes are modelled as an update of a map from path to content. The path is `uploads/` joined with the name using the POSIX separator.
- A failed file write is modelled only as a missing destination directory (multer does not create a destination given by a function). That failure gives `UploadFailed`, standing for Express's default error response.
- SQLite's REAL affinity for `area_sqm` is not modelled. The column keeps the submitted text as an opaque optional value.
- Storage failures other than a NOT NULL violation, the exhausted rowid space and a missing table (a full disk, a locked database) are not modelled. In the source they too end in the same 500 response.
- `Date.now()` and `CURRENT_TIMESTAMP` are parameters. The millisecond timestamp is a natural number: a clock set before 1970, which makes `Date.now()` negative and puts a "-" sign in the file name, is not modelled. `created_at` is a whole number of seconds; its text form sorts the same way for four-digit years. Nothing forces the clock to move forward, so `InsertKeepsChronological` takes that as a hypothesis.
- Concurrent requests are not modelled; requests run one at a time. Two uploads in the same millisecond with the same original name overwrite each other, and `UploadNameCollision` states exactly when this happens.
- `toLowerCase` is modelled for ASCII letters only. Unicode case mapping is not modelled.
- `Registrations.SortNewestFirst` fixes one order for rows with equal timestamps (rowid order). SQLite promises no order among them, so `ListRegistrations` states only the newest-first order and the permutation.
- Closing the database at shutdown and the `lastInsertRowid` number/BigInt distinction are not modelled.
