# Certificate pipeline model

A Dafny model of the certificate pipeline of a small Next.js site. The
site issues certificates of completion and lets anyone look them up.

- **Importer** (`lib/google-sheets.ts`). It turns the cell grid returned
  by the Google Sheets API into header-keyed row objects, then into
  `Certificate` records. It also looks a certificate up by id and checks
  that the sheet has the required columns.
- **Generator** (`lib/certificates.ts`). It stamps a template onto a list
  of recipients, giving each one a fresh `CERT-…` id, a `VER-…`
  verification code, an issue date and a completion date five days
  earlier.
- **Bulk script** (`scripts/generate-certificates.js`). It runs a fixed
  template over five fixed recipients and renders a CSV of names, ids,
  URLs and codes, plus a listing of three sample URLs.
- **Admin page** (`app/admin/page.tsx`). It edits a template, adds and
  removes skills, parses a free-text recipients list and runs bulk
  generation behind a guard.
- **Home page** (`app/page.tsx`). It validates the sheet, loads the
  certificates and filters them with a case-insensitive search.

## Files

- `wrappers.dfy` holds `Option`, which stands for JavaScript's
  `undefined` and `null`, and `Min`.
- `js_strings.dfy` and `js_arrays.dfy` hold the JavaScript built-ins the
  code relies on: `trim`, `split`, `join`, `toLowerCase`,
  `toUpperCase`, `includes`, `substr`, number-to-text, `filter` and
  `find`. `FindIndex` is the helper that `Find` is defined through.
- `certificate_types.dfy` holds the record types.
- The other files each follow one source file.

The two React pages are classes. Their state hooks are fields, and each
event handler is a method that runs to completion.

Anything the code cannot know in advance is an input to the model:

- The clock and `Math.random` come in through a `Draw` per record. It
  holds the instant, the clock reading embedded in the id, and the two
  random numbers as `toString(36)` text.
- `toLocaleDateString` and `toISOString` come in through
  `DateRendering`.
- The network comes in through a `Response`. It is either the delivered
  grid or `Unreachable`.

Three behaviours of the code are worth stating plainly:

- **Recipient lines.** The code does not validate recipient lines. A line
  with only a name yields a recipient whose email is `undefined`, which the
  model writes as `""`.
- **Feed failures.** The importer does not tell a failed feed from an
  empty sheet: it turns every failure into an empty row list. The model
  gives `Unreachable` exactly the results of an empty grid.
- **Default grade.** The "Pass" default for a missing grade exists only
  in the admin page's parser. `createCertificate` copies the grade
  verbatim.

## Model

| member | source | states |
|---|---|---|
| JsStrings.Trim | app/admin/page.tsx:31 | `trim` never lengthens its input, and the result has no outer whitespace. |
| JsStrings.TrimStartSlice | app/admin/page.tsx:31 | `trimStart` removes a leading run of whitespace and nothing else. |
| JsStrings.TrimEndSlice | app/admin/page.tsx:31 | `trimEnd` removes a trailing run of whitespace and nothing else. |
| JsStrings.TrimEmpty | app/admin/page.tsx:31 | `trim` gives "" exactly when the input is all whitespace. |
| JsStrings.TrimIdempotent | app/admin/page.tsx:31-34 | Trimming an already trimmed value changes nothing. |
| JsStrings.TrimPadded | lib/google-sheets.ts:85 | Whitespace around a text without outer whitespace is exactly what `trim` removes. |
| JsStrings.TrimKeepsAbsent | app/admin/page.tsx:58 | Trimming never introduces a character, so a trimmed comma piece holds no comma. |
| JsStrings.Split | lib/google-sheets.ts:85 | `split` on a one-character separator yields at least one piece. No piece holds the separator. Text without the separator is a single piece. |
| JsStrings.Join | scripts/generate-certificates.js:76 | `join` of a one-element array is that element. |
| JsStrings.JoinSplit | app/admin/page.tsx:55 | Joining the pieces of a split on the same separator gives back the text. |
| JsStrings.SplitJoin | scripts/generate-certificates.js:70-76 | Pieces free of the separator, once joined, split back into the same pieces. |
| JsStrings.JoinPrefixedTail | lib/google-sheets.ts:85 | Joining with ", " is joining with "," after prefixing every piece but the first with a space. |
| JsStrings.JoinAvoids | scripts/generate-certificates.js:76 | A character that is in no piece and not in the separator is not in the join. |
| JsStrings.JoinAllWhitespace | app/admin/page.tsx:48 | A text joined on a whitespace separator is all whitespace exactly when every piece is. |
| JsStrings.Lower | app/page.tsx:63-65 | `toLowerCase` maps each ASCII capital to its lower-case letter and keeps every other character. |
| JsStrings.Upper | lib/certificates.ts:4 | `toUpperCase` maps each ASCII lower-case letter to its capital and keeps every other character. |
| JsStrings.LowerIdempotent | app/page.tsx:63-65 | Lower-casing twice is lower-casing once. |
| JsStrings.Contains | app/page.tsx:63-65 | `includes` holds exactly when the needle occurs at some position of the text. |
| JsStrings.ContainsTrivial | app/page.tsx:63-65 | The empty term occurs in every text, and every text occurs in itself. |
| JsStrings.ContainsTransitive | app/page.tsx:63-65 | An occurrence of an occurrence is an occurrence. |
| JsStrings.LowerKeepsContains | app/page.tsx:63-65 | Lower-casing both sides keeps an occurrence. |
| JsStrings.Substr | lib/certificates.ts:4 | `substr(start, length)` returns at most `length` characters, taken from `start` onward. From a `start` inside the text it returns exactly as many as `length` and the rest of the text allow, and "" when `start` is past the end. |
| JsStrings.Decimal | lib/certificates.ts:4 | `${n}` gives one or more decimal digits, and exactly one digit for `n < 10`. |
| JsStrings.DecimalInjective | lib/certificates.ts:4 | Different clock readings render differently. |
| JsStrings.SeparatedPartsUnique | lib/certificates.ts:4 | Text made of a separator-free part, a separator and a rest determines both parts. |
| JsArrays.Filter | app/page.tsx:61-66 | `filter` keeps exactly the elements that pass, in their original order. `FilterCounts` states how many copies of each are kept. |
| JsArrays.FilterCounts | app/page.tsx:61-66 | `filter` keeps each passing element as many times as it occurs, and no failing one. |
| JsArrays.FilterNoDuplicates | app/admin/page.tsx:43 | Filtering a duplicate-free list keeps it duplicate-free. |
| JsArrays.FilterNonEmpty | app/admin/page.tsx:56 | A filter keeps something exactly when some element passes. |
| JsArrays.FilterConcat | app/admin/page.tsx:43 | Filtering distributes over concatenation. |
| JsArrays.FilterAgrees | app/page.tsx:61-66 | Tests that agree on every element filter alike. |
| JsArrays.FilterMonotone | app/page.tsx:61-66 | A weaker test keeps everything a stronger one keeps, in the same order. |
| JsArrays.FindIndex | lib/google-sheets.ts:68 | The first position whose element passes, or `None` exactly when none passes. |
| JsArrays.Find | lib/google-sheets.ts:68 | `find` returns the first element that passes, or `None` exactly when none passes. |
| JsArrays.FindIndexAgrees | lib/google-sheets.ts:68 | Searches whose tests agree position by position find the same position. |
| GoogleSheets.RowObject | lib/google-sheets.ts:52-56 | The object built for one data row. `RowObjectKeys` and `RowObjectLast` state its keys and values. |
| GoogleSheets.RowObjectKeys | lib/google-sheets.ts:52-56 | A row object's keys are exactly the header names. |
| GoogleSheets.RowObjectLast | lib/google-sheets.ts:52-56 | Each name maps to the cell under its last occurrence in the header, or "" past the end of a short row. |
| GoogleSheets.BuildRowObject | lib/google-sheets.ts:52-56 | The header loop, proved by its invariant to build `RowObject`. |
| GoogleSheets.SheetRows | lib/google-sheets.ts:39-57 | There are no rows for a failed request or an empty grid. Otherwise there is one row object per grid row after the header, in order. |
| GoogleSheets.FetchSheetData | lib/google-sheets.ts:27-62 | The row loop, proved by its invariant to return `SheetRows`. |
| GoogleSheets.RowKeys | lib/google-sheets.ts:53-55 | Every row object has exactly the column names as keys. |
| GoogleSheets.ParseSkills | lib/google-sheets.ts:85 | An empty Skills cell gives no skills. Otherwise the result is every comma piece trimmed, in order, including empty pieces. |
| GoogleSheets.SkillsRoundTrip | lib/google-sheets.ts:85 | Comma-free, trimmed skills written with "," are read back unchanged, the empty list included. Only `[""]` is excluded, because it is written as the empty cell. |
| GoogleSheets.SpacedSkillsRoundTrip | lib/google-sheets.ts:85 | Comma-free, trimmed skills written with ", " are read back unchanged, empty skills and the empty list included. Only `[""]` is excluded, because it is written as the empty cell. |
| GoogleSheets.IsVerifiedCell | lib/google-sheets.ts:88 | The Is Verified cell counts as true exactly for "true" in any mix of cases. |
| GoogleSheets.MapRow | lib/google-sheets.ts:104-120 | The certificate built from one row object. `ColumnToField` states each field under a present column, and `AbsentColumn` each field under a missing one. |
| GoogleSheets.AbsentColumn | lib/google-sheets.ts:104-120 | A column the header lacks gives "" for a text field, no skills, an unverified flag and no instructor. Both stamps are the import time. |
| GoogleSheets.ColumnToField | lib/google-sheets.ts:75-91 | Each certificate field comes from the cell under its column in the same data row. Text fields are verbatim. Skills are split and trimmed. The flag is parsed case-insensitively. |
| GoogleSheets.GetAllCertificates | lib/google-sheets.ts:100-125 | One certificate per data row, in row order. |
| GoogleSheets.GetCertificateById | lib/google-sheets.ts:64-98 | A failed request finds nothing, and a certificate found carries the id asked for. `ByIdMatchesListing` ties the lookup to the listing. |
| GoogleSheets.FindCertificate | lib/google-sheets.ts:64-98 | `None` exactly when no row carries the id. Otherwise the certificate of the first row carrying it. |
| GoogleSheets.ByIdMatchesListing | lib/google-sheets.ts:64-125 | Lookup by id returns the first certificate of the full listing with that id. This holds when the id is not empty, the sheet has no data row, or the sheet has an id column. |
| GoogleSheets.MissingColumns | lib/google-sheets.ts:144-147 | Exactly the required columns absent from the first row, in required order. |
| GoogleSheets.ValidateSheetSetup | lib/google-sheets.ts:128-164 | Without a data row the result is invalid with the "no data" message. A result carries an error exactly when it is invalid, and a sample exactly when it is valid. |
| GoogleSheets.ValidExactlyWithColumns | lib/google-sheets.ts:143-159 | A sheet with data rows is valid exactly when its header has every required column and no column named "hasOwnProperty". |
| GoogleSheets.MissingColumnsReported | lib/google-sheets.ts:143-154 | An invalid sheet with data rows gets the error naming exactly the required columns its header lacks, in required order. |
| GoogleSheets.ShadowedLookupReported | lib/google-sheets.ts:143-164 | With data rows and a "hasOwnProperty" column, the column check throws, and the result is invalid with the thrown message. |
| GoogleSheets.ValidSheetSample | lib/google-sheets.ts:156-159 | A valid sheet has a data row, and its sample is its first three rows, or all of them when there are fewer. |
| Certificates.RandomFragment | lib/certificates.ts:4 | At most `width` upper-case base-36 digits, and exactly `width` when the random text has that many. |
| Certificates.CertificateId | lib/certificates.ts:3-5 | An id starts with "CERT-", has at least seven characters, and holds no comma and no line break. |
| Certificates.IdAfterPrefix | lib/certificates.ts:3-5 | After "CERT-" comes the clock reading in decimal, which holds no "-", then "-" and the random fragment. |
| Certificates.VerificationCode | lib/certificates.ts:7-9 | "VER-" and up to nine upper-case base-36 digits, 4 to 13 characters long, with no comma and no line break. |
| Certificates.CertificateIdInjective | lib/certificates.ts:3-5 | Equal ids mean equal clock readings and equal random fragments. |
| Certificates.CreateCertificate | lib/certificates.ts:11-43 | Recipient and template fields are copied verbatim. The id and code are fresh. The issue date is at `now` and the completion date 432000000 ms earlier. The record is verified, and `createdAt == updatedAt`. |
| Certificates.GenerateFromTemplate | lib/certificates.ts:45-50 | One certificate per recipient, in recipient order, each carrying its recipient's fields and the template's course. |
| Certificates.BatchIdsDistinct | lib/certificates.ts:45-50 | Distinct clock/random pairs give pairwise distinct ids within a batch. |
| GenerateScript.ScriptCertificates | scripts/generate-certificates.js:6-63 | Five certificates in recipient order, for the script's course and instructor, with the fixed names, emails and grades. |
| GenerateScript.CsvHeaderColumns | scripts/generate-certificates.js:71 | The header line splits into the five column names and holds no line break. |
| GenerateScript.CsvLines | scripts/generate-certificates.js:72-75 | One line per certificate, in order. |
| GenerateScript.CsvContent | scripts/generate-certificates.js:70-76 | The CSV starts with the header line, and is only that line for an empty batch. |
| GenerateScript.CsvLine | scripts/generate-certificates.js:74 | One certificate's CSV line. `CsvLineIsJoin` and `CsvLineRoundTrip` state its fields. |
| GenerateScript.CsvLineIsJoin | scripts/generate-certificates.js:74 | A line is the five fields joined by commas, the fourth being the certificate URL. |
| GenerateScript.CsvLineRoundTrip | scripts/generate-certificates.js:74 | A line of comma-free fields splits back into name, email, id, URL and code. |
| GenerateScript.CsvLinesRoundTrip | scripts/generate-certificates.js:70-76 | The CSV of safe certificates splits on line breaks into the header and then the lines. |
| GenerateScript.CsvRoundTrip | scripts/generate-certificates.js:70-76 | A CSV of safe certificates has one more line than there are certificates. The header splits into the column names, and line k+1 into the fields of certificate k. |
| GenerateScript.GeneratedCertificateCsvSafe | scripts/generate-certificates.js:23-60 | A generated certificate is CSV-safe whenever its recipient's name and email are. |
| GenerateScript.ScriptRecipientsClean | scripts/generate-certificates.js:15-21 | No name or email of the five recipients holds a comma or a line break. |
| GenerateScript.ScriptCsvRoundTrip | scripts/generate-certificates.js:63-76 | The script's own CSV has six lines, and line k+1 splits into the fields of certificate k. |
| GenerateScript.SampleUrls | scripts/generate-certificates.js:86-89 | One line per certificate for the first three (or fewer), in order. |
| AdminPage.Items | app/admin/page.tsx:58 | The trimmed comma pieces of a line, at least one. |
| AdminPage.ItemsOfPlainFields | app/admin/page.tsx:58 | Comma-free, trimmed fields joined by commas itemize back to themselves. |
| AdminPage.ParseRecipientLine | app/admin/page.tsx:57-60 | The parsed grade is never empty. |
| AdminPage.ParsedFieldsPlain | app/admin/page.tsx:57-60 | Name, email and grade of a parsed line hold no comma and no outer whitespace. |
| AdminPage.LineOfFields | app/admin/page.tsx:57-60 | Plain fields joined by commas read as the name, email and grade they spell out, with the defaults for missing ones. |
| AdminPage.ThreeItems | app/admin/page.tsx:57-60 | A line of three plain fields reads as the recipient those three name. |
| AdminPage.RecipientOf | app/admin/page.tsx:58-59 | The recipient named by a line's items. Its grade is never empty. |
| AdminPage.ParseRecipients | app/admin/page.tsx:54-60 | One recipient per non-blank line, in order, each parsed from that line. |
| AdminPage.RecipientLineRoundTrip | app/admin/page.tsx:57-60 | "name,email,grade" of plain fields parses to that recipient. |
| AdminPage.PlaceholderLine | app/admin/page.tsx:192 | The first example line of the text area parses to John Smith, john@example.com, 95%. |
| AdminPage.LineFragments | app/admin/page.tsx:58-59 | For every line, name, email and grade are the trimmed first, second and third comma fragments. A missing email is "", and a missing or empty grade is "Pass". |
| AdminPage.PaddedLine | app/admin/page.tsx:58-59 | Whitespace around each field of a line is removed: padded plain fields read as the recipient they name. |
| AdminPage.SpacedLine | app/admin/page.tsx:58-59 | A line written "name, email, grade", with a space after each comma, reads as that recipient. |
| AdminPage.MissingGradeDefaults | app/admin/page.tsx:59 | A line without a grade gets "Pass". |
| AdminPage.ExtraItemsIgnored | app/admin/page.tsx:58 | Items after the third do not change the parsed recipient: the line reads as its first three fields alone. |
| AdminPage.RecipientsPresentIffText | app/admin/page.tsx:48-56 | The text yields a recipient exactly when its trimmed form is not empty, so the guard and the blank-line filter agree. |
| AdminPage.WithField | app/admin/page.tsx:100-140 | Editing one template input replaces that field only. |
| AdminPage.WithoutSkill | app/admin/page.tsx:43 | The removed skill is gone and every other skill stays, in its order and as many times as it occurred. No skill is added, and a duplicate-free list stays duplicate-free. |
| AdminPage.RemoveUndoesAdd | app/admin/page.tsx:30-45 | Removing a skill just added gives back the previous skills. |
| AdminPage.WithoutSkillWellFormed | app/admin/page.tsx:40-45 | Removing a skill keeps the list duplicate-free, with non-empty trimmed skills. |
| AdminPage.AdminPage.constructor | app/admin/page.tsx:15-28 | The initial state is an empty template, empty inputs, no generation running and a count of 0. |
| AdminPage.AdminPage.EditTemplate | app/admin/page.tsx:100-140 | Only the edited template field changes. |
| AdminPage.AdminPage.SetSkillInput | app/admin/page.tsx:150 | Only the skill input changes. |
| AdminPage.AdminPage.SetRecipients | app/admin/page.tsx:191 | Only the recipients text changes. |
| AdminPage.SkillsAfterAdd | app/admin/page.tsx:30-38 | The trimmed input is appended exactly when it is non-blank and not yet listed; otherwise the list is unchanged. A non-blank input is listed afterwards, and a well-formed list stays well formed. |
| AdminPage.AppendSkill | app/admin/page.tsx:31-35 | Appending a non-blank, trimmed, unlisted skill lists it and keeps the list duplicate-free with non-empty trimmed skills. |
| AdminPage.AdminPage.AddSkill | app/admin/page.tsx:30-38 | The skills become `SkillsAfterAdd` of the old skills and input. The input is cleared exactly when a skill was appended. Nothing else changes. |
| AdminPage.AdminPage.RemoveSkill | app/admin/page.tsx:40-45 | The skill leaves the list, the others keep their order, and the list stays well formed. |
| AdminPage.AdminPage.HandleBulkGeneration | app/admin/page.tsx:47-72 | With no course name or a blank text, nothing is generated. Otherwise there is one certificate per parsed recipient, the count recorded is at least 1, and generation has ended afterwards. |
| HomePage.Matches | app/page.tsx:62-65 | The search test on one certificate. `SearchIgnoresCase`, `SearchById`, `EmptySearchShowsAll` and `LongerTermNarrows` state its behaviour. |
| HomePage.SearchFilter | app/page.tsx:61-66 | Exactly the certificates whose lower-cased name, course or id contains the lower-cased term, in loaded order, each as many times as it was loaded. |
| HomePage.EmptySearchShowsAll | app/page.tsx:61-66 | An empty term lists everything. |
| HomePage.SearchIgnoresCase | app/page.tsx:61-66 | The term's case does not matter. |
| HomePage.SearchById | app/page.tsx:65 | Searching for a certificate's id lists it. |
| HomePage.LongerTermNarrows | app/page.tsx:61-66 | A longer term containing a shorter one lists a subsequence of the shorter term's list. |
| HomePage.ValidSheetHasCertificates | app/page.tsx:42-44 | A sheet that validates yields at least one certificate. |
| HomePage.HomePage.constructor | app/page.tsx:25-32 | The page starts loading, with no certificates, no term and no status. |
| HomePage.HomePage.FilteredCertificates | app/page.tsx:61-66 | The listed certificates are those of the state that match the current term, in loaded order and with their multiplicity. |
| HomePage.HomePage.SetSearchTerm | app/page.tsx:167 | Only the term changes. |
| HomePage.HomePage.ShowStatus | app/page.tsx:39-45 | The status is shown. A valid sheet's listing replaces the certificates, and a throw from the listing shows the connection failure and keeps them. |
| HomePage.HomePage.LoadData | app/page.tsx:34-55 | The status comes from validation, or is the connection failure on a throw. Only a valid sheet with a successful listing replaces the certificates. Loading always ends. |
| HomePage.LoadSameSheet | app/page.tsx:34-55 | A load seeing one valid sheet lists every data row of it, at least one. |

## Left out

- The HTTP request, its five-minute cache, the environment variables that
  name the sheet, and the console logging. Every importer operation
  starts from the `Response` the request produced.
- `Unreachable` stands for every failure the importer catches. A rejected
  request, a bad status, a body that is not JSON, and an empty grid all
  give the same empty row list. That is what the code does.
- GoogleSheets.MapRow: an absent column reads as `""` instead of
  `undefined`. `instructorName` is the exception: it is `None` when its
  column is absent.
- AdminPage.ParseRecipientLine: a line without a second item yields the
  email `""`, where the code leaves it `undefined`.
- GoogleSheets.GetAllCertificates: `createdAt` and `updatedAt` take one
  `importedAt` stamp per listing. The code reads the clock twice per row,
  so the two can differ by a millisecond.
- JsStrings.Lower: `toLowerCase` and `toUpperCase` are modelled on ASCII
  letters only. Other scripts' case mappings are not modelled.
- Certificates.CreateCertificate: the date text comes from
  `DateRendering`. The en-US long-date format and the ISO format
  themselves are not modelled.
- GoogleSheets.ValidateSheetSetup: the catch branch is modelled for the
  one throw its body can raise, a header column named `hasOwnProperty`.
  The error text is the `TypeError` message of an unminified build on V8
  or SpiderMonkey. A minified bundle renames `firstRow` and so names
  another variable. Only "not valid" and "an error is present" hold
  for every build.
- The `__proto__` header edge case of plain objects is not modelled. A
  header of that name is an ordinary key here.
- In the bulk script, the JSON file, both `writeFileSync` calls and the
  console messages are not modelled. The text they would receive is
  (`CsvContent`, `SampleUrls`). The script has its own copy of
  `createCertificate`, identical to the library's, and the model uses the
  one `CreateCertificate` for both.
- GenerateScript.CsvRoundTrip: the CSV neither quotes nor escapes, so the
  round trip is stated only for certificates whose name and email hold no
  comma and no line break.
- The rendering of both pages, the disabled state of the generate button,
  the Enter key binding, and `useEffect`'s first call to `loadData` are
  not modelled.
- HomePage.HomePage.LoadData: the window during its two `await`s, in
  which `loading` is true, is not modelled, because the method runs to
  completion. No contract observes the flag before it ends false.
- AdminPage.AdminPage.HandleBulkGeneration: the window during the `await`
  in which `isGenerating` is true is not modelled, because the handler
  runs to completion. Its catch branch is left out, because the generator
  does not throw.
- `app/setup/page.tsx` and `app/certificate/[id]/page.tsx` are not part of
  this model.
