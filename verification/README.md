# Training-centre admin dashboard: a Dafny model of its page logic

The system is a React admin dashboard for a training centre that sells software
courses ("logiciels"). Staff manage students, inscriptions, payments, course
schedules, extra services ("prestations"), expenses and back-office users. The
dashboard and the financial inventory pages aggregate the same tables. Every
page fetches its rows from a hosted Postgres backend and keeps them in component
state. Then it filters, sums, groups, paginates and edits them in memory.

This project models those in-memory computations, page by page:

- Pure derivations are Dafny functions, and lemmas state what they guarantee:
  - the KPI counts and totals;
  - the monthly revenue series and its sort;
  - the per-course counts;
  - the category totals and month buckets of the inventory;
  - the search and status filters;
  - the `Math.ceil` pagination;
  - the badge look-ups;
  - the validation guards and the payloads sent to the backend.
- Handlers that update component state are methods of one class per page.
  - The class fields are the page's `useState` variables.
  - Every handler states its whole new state in terms of the old one and of the
    backend's answer, which is passed in as a parameter.
- JavaScript semantics the pages depend on are written out in modules `Js` and
  `Text`:
  - truthiness and `||` defaults;
  - `${}` rendering of `undefined`/`null`;
  - `Number.prototype.toString` and `parseInt`;
  - ASCII `toLowerCase`, `includes`, `trim` and `split(sep)[0]`;
  - `Array.prototype.slice` index clamping;
  - insertion order of a `Map`.

Shared modules:

| module | what it holds |
|---|---|
| `Wrappers` | `Option` |
| `Dates` | a date column: missing, unparsable (`Invalid Date`) or a year and a month |
| `Js` | the JavaScript value semantics listed above |
| `Text` | the string operations listed above |
| `Seqs` | order-preserving `filter`, subsequences, sums, first-occurrence key order |
| `Tally` | a `Map<K, number>` counter in insertion order |
| `Pagination` | 8 rows per page, `slice` and `Math.ceil` |
| `RecordList` | delete-by-id (`filter(x => x.id !== id)`), replace-by-id (`map`), backend write outcomes and id uniqueness |

## Model

| member | source | states |
|---|---|---|
| `Js.Or` | src/pages/DashboardPage.tsx:87 | a default on a text column yields the text exactly when it is truthy, the fallback otherwise |
| `Js.Digits` | src/pages/PaiementsPage.tsx:78 | the decimal digits of a non-negative number: non-empty, all digits, no leading zero |
| `Js.LeadingDigits` | src/pages/PaiementsPage.tsx:93 | the longest digit prefix `parseInt` reads: a prefix, all digits, stopped by a non-digit |
| `Js.SkipSpaces` | src/pages/PaiementsPage.tsx:93 | the suffix left after `parseInt` skips leading white space; it does not start with white space |
| `Js.ParseInt` | src/pages/PaiementsPage.tsx:93 | `parseInt` gives NaN (None) exactly when no digit follows the spaces and the optional sign |
| `Js.DigitsValueOfDigits` | src/pages/PaiementsPage.tsx:78 | reading back the digits of `n` gives `n` |
| `Js.NumberToString` | src/pages/PaiementsPage.tsx:363 | `toString()` of a number is never empty |
| `Js.ParseIntOfNumberToString` | src/pages/PaiementsPage.tsx:93 | `parseInt(n.toString()) == n` for every integer: the round trip the id selects rely on |
| `Text.ToLower` | src/pages/StudentsPage.tsx:185 | same length, each character mapped by the ASCII lower-case map, no upper-case letter left |
| `Text.ToLowerIdempotent` | src/pages/StudentsPage.tsx:185 | lower-casing twice is lower-casing once |
| `Text.ToLowerConcat` | src/pages/StudentsPage.tsx:185 | lower-casing distributes over concatenation |
| `Text.ContainsIff` | src/pages/PrestationsPage.tsx:160 | `includes` holds exactly when the needle occurs at some position of the haystack |
| `Text.ContainsEmpty` | src/pages/PrestationsPage.tsx:160 | every string includes the empty string |
| `Text.ContainsInfix` | src/pages/StudentsPage.tsx:185 | a joined string includes each of its parts |
| `Text.ContainsLength` | src/pages/PrestationsPage.tsx:160 | a string only includes strings no longer than itself |
| `Text.ContainsTransitive` | src/pages/StudentsPage.tsx:185 | including is transitive |
| `Text.ContainsEitherHalf` | src/pages/StudentsPage.tsx:185 | what one part of a concatenation includes, the whole includes |
| `Text.ToLowerSlice` | src/pages/StudentsPage.tsx:185 | lower-casing commutes with taking a slice |
| `Text.ContainsToLower` | src/pages/PrestationsPage.tsx:160-161 | an occurrence survives lower-casing both sides, so a case-insensitive search finds it |
| `Text.TrimStart` | src/pages/ForgotPasswordPage.tsx:30 | drops exactly the leading white space |
| `Text.TrimEnd` | src/pages/ForgotPasswordPage.tsx:30 | drops exactly the trailing white space |
| `Text.Trim` | src/pages/ForgotPasswordPage.tsx:30 | the result is no longer than the input and neither starts nor ends with white space |
| `Text.TrimDropsOnlySpace` | src/pages/ForgotPasswordPage.tsx:30 | the input is white space, then the trimmed text, then white space: nothing else is removed |
| `Text.TrimIdempotent` | src/pages/ForgotPasswordPage.tsx:30 | trimming twice is trimming once |
| `Text.BeforeFirst` | src/pages/StudentsPage.tsx:173 | `split(sep)[0]` is the prefix before the first separator: a prefix without the separator, followed by it when shorter |
| `Text.BeforeFirstOfJoin` | src/pages/StudentsPage.tsx:173 | on `a + sep + b` with no separator in `a`, it returns `a` |
| `Seqs.Filter` | src/pages/InscriptionsPage.tsx:155-158 | `filter` keeps exactly the elements that pass, never more than the input |
| `Seqs.FilterIsSubsequence` | src/pages/InscriptionsPage.tsx:155-158 | `filter` keeps the survivors in their original order |
| `Seqs.FilterAppend` | src/pages/DashboardPage.tsx:51 | filtering a concatenation filters each part |
| `Seqs.FilterKeepsAll` | src/pages/InscriptionsPage.tsx:156 | a filter every element passes returns the list itself |
| `Seqs.FilterSameTest` | src/pages/PaiementsPage.tsx:161-177 | two filters with pointwise-equal tests give the same list |
| `Seqs.FilterSplit` | src/pages/DashboardPage.tsx:51 | what a filter keeps and what its complement keeps add up to the input length |
| `Seqs.FilterDropsOne` | src/pages/DepensePage.tsx:92 | a filter that drops exactly position `k` is the list without position `k` |
| `Seqs.FilterDropsHead` | src/pages/DepensePage.tsx:92 | a filter that drops only the first element returns the rest |
| `Seqs.SumOfAppend` | src/pages/PrestationsPage.tsx:175 | a `reduce` sum over a concatenation is the sum of the two sums |
| `Seqs.SumOfFilterSplit` | src/pages/PrestationsPage.tsx:175 | the sums over the kept and the dropped elements add up to the whole sum |
| `Seqs.DistinctTail` | src/pages/DashboardPage.tsx:72-73 | the tail of a repeat-free list is repeat-free and lacks the head |
| `Seqs.ExtendDistinct` | src/pages/DashboardPage.tsx:62-70 | the keys of a `Map` filled key by key are never repeated |
| `Seqs.ExtendMembers` | src/pages/DashboardPage.tsx:62-70 | the `Map` keys are exactly the old keys and the inserted ones, and the old keys keep their places |
| `Seqs.ExtendSnoc` | src/pages/DashboardPage.tsx:64-69 | inserting one more key appends it unless it is present |
| `Seqs.ExtendAppend` | src/pages/InventairesPage.tsx:73-75 | filling the keys from two lists in turn is filling them from their concatenation |
| `Tally.KeysIndex` | src/pages/DashboardPage.tsx:72 | the `i`-th key is the key of the `i`-th entry |
| `Tally.GetAbsent` | src/pages/DashboardPage.tsx:68 | reading a key that is not in the map, with 0 as default, gives 0 |
| `Tally.Add` | src/pages/DashboardPage.tsx:68 | adding `d` under key `k`: a present key keeps its place, a new one goes last; only `k` grows, by `d`; the sum grows by `d` |
| `Pagination.TotalPages` | src/pages/PrestationsPage.tsx:165 | `Math.ceil(n / 8)`: the pages cover `n` rows with no empty last page, and there are none for no rows |
| `Pagination.SliceIndex` | src/pages/PrestationsPage.tsx:167 | `slice` clamps an index into `0..n` and keeps one already inside |
| `Pagination.Page` | src/pages/PrestationsPage.tsx:166-167 | a page never holds more than 8 rows |
| `Pagination.PageChange` | src/pages/PrestationsPage.tsx:169-173 | the page moves to the requested one exactly when it lies in `1..totalPages`, and stays put otherwise |
| `Pagination.PageChangeStaysInRange` | src/pages/PrestationsPage.tsx:169-173 | from a page in range, any request leaves the page in range and not empty |
| `Pagination.PageInRange` | src/pages/PrestationsPage.tsx:165-167 | a page in `1..totalPages` is the non-empty block `(page-1)*8 .. min(page*8, n)` |
| `Pagination.PageBeyondEnd` | src/pages/DepensePage.tsx:98-100 | a page past `totalPages` is empty |
| `Pagination.PagesUpToPrefix` | src/pages/DepensePage.tsx:98-100 | the first `k` pages joined are the first `min(8k, n)` rows |
| `Pagination.PagesCoverList` | src/pages/DepensePage.tsx:98-100 | the pages `1..totalPages` joined are the whole list, in order |
| `RecordList.ParseId` | src/pages/PaiementsPage.tsx:125 | `parseInt` of a numeric id is the id; of a string id it is `parseInt` of the string |
| `RecordList.RemoveById` | src/pages/DepensePage.tsx:92 | `filter(x => x.id !== id)` keeps exactly the rows with another id |
| `RecordList.RemoveByIdKeepsOrder` | src/pages/DepensePage.tsx:92 | the remaining rows keep their order |
| `RecordList.RemoveAbsentId` | src/pages/PaiementsPage.tsx:149 | deleting an id that is not listed changes nothing |
| `RecordList.RemoveUniqueId` | src/pages/PaiementsPage.tsx:149 | with unique ids, deleting row `k`'s id removes exactly position `k` |
| `RecordList.WithId` | src/pages/PrestationsPage.tsx:154 | the rows a delete removes: exactly those with the id |
| `RecordList.SumAfterRemove` | src/pages/PrestationsPage.tsx:154 | the sum after a delete plus the sum of the removed rows is the old sum |
| `RecordList.ReplaceById` | src/pages/PaiementsPage.tsx:136-138 | `map(p => p.id === id ? row : p)`: same length, the rows with the id replaced and the others unchanged |
| `RecordList.ReplaceAbsentId` | src/pages/PaiementsPage.tsx:136-138 | replacing an id that is not listed changes nothing |
| `RecordList.ReplaceUniqueId` | src/pages/PaiementsPage.tsx:136-138 | with unique ids, replacing row `k`'s id replaces exactly position `k` |
| `RecordList.AppendKeepsUniqueIds` | src/pages/FormationsPage.tsx:65 | appending a row with a fresh id keeps the ids unique |
| `RecordList.RemoveKeepsUniqueIds` | src/pages/FormationsPage.tsx:100 | a delete keeps the ids unique |
| `RecordList.ReplaceKeepsUniqueIds` | src/pages/FormationsPage.tsx:87-89 | replacing by id with a row that carries that id keeps the ids unique |
| `Inventory.TotalAppend` | src/pages/InventairesPage.tsx:44-46 | a category total is additive over a split of its rows |
| `Inventory.DatedMonths` | src/pages/InventairesPage.tsx:54-71 | a month is bucketed exactly when some row has a valid date in it |
| `Inventory.RowsSnoc` | src/pages/InventairesPage.tsx:55-70 | one more row adds its month and amount to the bucket of its month only, and only when dated |
| `Inventory.UndatedRowOnlyInTotal` | src/pages/InventairesPage.tsx:56-60 | a row without a valid date counts in its category total and in no bucket |
| `Inventory.DatedWithinTotal` | src/pages/InventairesPage.tsx:44-71 | with non-negative amounts the chart never shows more than the category total |
| `Inventory.YearIgnored` | src/pages/InventairesPage.tsx:62 | the bucket key is the month alone: moving a row to another year changes no bucket |
| `Inventory.SameChartFeed` | src/pages/InventairesPage.tsx:55-69 | rows that agree on their months and amounts give the same months, per-month sums and dated total |
| `Inventory.Credit` | src/pages/InventairesPage.tsx:63-69 | creating a month's bucket on first use and adding to one side changes only that month and side, by the amount |
| `Inventory.CreditStep` | src/pages/InventairesPage.tsx:63-69 | a dated row adds its month if new and its amount to that month on the table's side, keeping the pass description true |
| `Inventory.SkipStep` | src/pages/InventairesPage.tsx:56-60 | a row without a usable date leaves the buckets and the pass description unchanged |
| `Inventory.ProcessData` | src/pages/InventairesPage.tsx:54-71 | one pass over a table: the buckets gain the table's months in first-seen order and each month the table's amounts for it, on the table's side |
| `Inventory.FetchInventory` | src/pages/InventairesPage.tsx:44-93 | the three totals, gross = inscriptions + payments, net = gross - expenses; month buckets distinct, in first-seen order, revenue = dated inscriptions + payments of that month, expenses likewise; the composition list |
| `Dashboard.TotalRevenues` | src/pages/DashboardPage.tsx:50 | the revenue KPI adds up the paid amounts; it is never negative when no paid amount is |
| `Dashboard.MonthKey` | src/pages/DashboardPage.tsx:65-67 | a payment gets a month key exactly when it has a first-payment date |
| `Dashboard.PendingPaymentsCount` | src/pages/DashboardPage.tsx:51 | at most the number of payments, and 0 exactly when every payment is settled |
| `Dashboard.PendingCountSnoc` | src/pages/DashboardPage.tsx:51 | the pending count is 0 for no payments and grows by one exactly for each payment that is not settled |
| `Dashboard.PendingAndSettled` | src/pages/DashboardPage.tsx:51 | pending plus settled payments are all payments |
| `Dashboard.ComputeKpis` | src/pages/DashboardPage.tsx:50-59 | each missing count defaults to 0 and a present one is kept; the revenue is the sum of the paid amounts, which is the dated series' total plus the undated payments; the pending count is the number of unsettled payments, 0 exactly when all are settled |
| `Dashboard.PadStart2` | src/pages/DashboardPage.tsx:67 | `padStart(2, '0')`: a string of length 2 or more is unchanged, a shorter one is left-filled with zeros to length 2 |
| `Dashboard.MonthDigits` | src/pages/DashboardPage.tsx:67 | a month number renders as one digit below 10 and two from 10 |
| `Dashboard.MonthKeyInjective` | src/pages/DashboardPage.tsx:66-67 | two valid dates share a `YYYY-MM` key only when they have the same year and month |
| `Dashboard.UnparsableKeyIsApart` | src/pages/DashboardPage.tsx:66-67 | an unparsable date's `NaN-NaN` key never merges with a valid month |
| `Dashboard.RevenueSplit` | src/pages/DashboardPage.tsx:50-70 | the revenue KPI is the sum of the monthly series plus the payments without a first-payment date |
| `Dashboard.PaymentsSnoc` | src/pages/DashboardPage.tsx:64-69 | one more payment adds its key and amount to its month only, and only when dated |
| `Dashboard.FilledDated` | src/pages/DashboardPage.tsx:65-68 | a dated payment adds its paid amount under its key, the key going last when new |
| `Dashboard.FilledUndated` | src/pages/DashboardPage.tsx:65 | a payment without a first-payment date leaves the map unchanged |
| `Dashboard.MonthlyRevenueMap` | src/pages/DashboardPage.tsx:62-71 | the map's keys are the dated payments' keys in first-seen order; each key holds its payments' sum; the values add up to the dated revenue |
| `Dashboard.LessIrreflexive` | src/pages/DashboardPage.tsx:73 | no key sorts before itself |
| `Dashboard.LessTransitive` | src/pages/DashboardPage.tsx:73 | the key order is transitive |
| `Dashboard.LessTotal` | src/pages/DashboardPage.tsx:73 | of two different keys one sorts first |
| `Dashboard.AscendingCons` | src/pages/DashboardPage.tsx:73 | a key below every key of an ascending list can be put in front of it |
| `Dashboard.KeysCons` | src/pages/DashboardPage.tsx:72 | the keys of an entry followed by entries are its key followed by their keys |
| `Dashboard.InsertInFront` | src/pages/DashboardPage.tsx:73 | an entry whose key is below the first key goes in front and the series stays ascending |
| `Dashboard.InsertBehindHead` | src/pages/DashboardPage.tsx:73 | the first entry stays in front of a tail into which a larger key was inserted |
| `Dashboard.InsertByKey` | src/pages/DashboardPage.tsx:73 | inserting an entry with a new key into an ascending series keeps it ascending and adds exactly that entry |
| `Dashboard.SortByKey` | src/pages/DashboardPage.tsx:72-74 | sorting entries with distinct keys gives an ascending permutation with the same values per key |
| `Dashboard.MonthlyRevenues` | src/pages/DashboardPage.tsx:62-75 | the series is ascending by key, has exactly the dated months, and holds each month's revenue; the values add up to the dated revenue |
| `Dashboard.CountedStep` | src/pages/DashboardPage.tsx:86-88 | one more inscription adds one under its course label, the label going last when new |
| `Dashboard.InscriptionsByLogiciel` | src/pages/DashboardPage.tsx:84-92 | one entry per course name (`Inconnu` for none), in first-seen order, holding its number of inscriptions; the counts add up to the number of inscriptions |
| `Dashboard.Recent` | src/pages/DashboardPage.tsx:208 | `slice(0, 5)`: the first min(5, n) rows of the n listed, so the whole list when it is that short |
| `Badges.InscriptionBadge` | src/pages/DashboardPage.tsx:215 | `default` exactly for `termine`, `destructive` exactly for `abandon`, `secondary` for every other status |
| `Badges.StudentBadge` | src/pages/StudentsPage.tsx:30-37 | `default` exactly for `actif`, `destructive` exactly for `inactif`, `secondary` for every other status |
| `Inscriptions.CreatePayload` | src/pages/InscriptionsPage.tsx:89-95 | the status and price are sent as typed; an unselected id is sent as NaN |
| `Inscriptions.SelectedIdsAreSent` | src/pages/InscriptionsPage.tsx:91-92 | ids picked in the selects reach the backend unchanged |
| `Inscriptions.Filtered` | src/pages/InscriptionsPage.tsx:155-158 | everything for `all`, otherwise exactly the rows with that status |
| `Inscriptions.FilteredKeepsOrder` | src/pages/InscriptionsPage.tsx:155-158 | the filter keeps the table order |
| `Inscriptions.InscriptionsPage.constructor` | src/pages/InscriptionsPage.tsx:33-45 | the initial state: no rows, the empty form, no selection, filter `all` |
| `Inscriptions.InscriptionsPage.Shown` | src/pages/InscriptionsPage.tsx:155-158 | the table shows every held row for `all`, otherwise exactly the held rows with the filter's status |
| `Inscriptions.InscriptionsPage.HandleCreate` | src/pages/InscriptionsPage.tsx:86-110 | sends the form's payload; a stored row is appended and the form reset; a failure changes nothing |
| `Inscriptions.SelectionOf` | src/pages/InscriptionsPage.tsx:143-148 | the opened selection keeps the row's id, status and price and holds both joined ids as numbers |
| `Inscriptions.UpdatePayload` | src/pages/InscriptionsPage.tsx:116-121 | the status and price are sent as edited; each id is sent unchanged while a number, and through `parseInt` once re-picked as a string |
| `Inscriptions.UntouchedEditSendsOwnIds` | src/pages/InscriptionsPage.tsx:116-121 | an edit that keeps both selects sends the row's own student and course ids |
| `Inscriptions.RepickedIdsAreSent` | src/pages/InscriptionsPage.tsx:345-369 | ids re-picked in the edit selects, stored as `toString()` strings, reach the backend as the same numbers |
| `Inscriptions.InscriptionsPage.HandleUpdate` | src/pages/InscriptionsPage.tsx:112-133 | nothing sent without a selection; otherwise sends the selection's payload; on failure nothing changes, on success the selected id's rows become the stored row and the selection is cleared |
| `Inscriptions.InscriptionsPage.PickEditEtudiant` | src/pages/InscriptionsPage.tsx:346-347 | the re-picked student is stored as the option's string and nothing else changes |
| `Inscriptions.InscriptionsPage.PickEditLogiciel` | src/pages/InscriptionsPage.tsx:368-369 | the re-picked course is stored as the option's string and nothing else changes |
| `Inscriptions.InscriptionsPage.HandleDelete` | src/pages/InscriptionsPage.tsx:135-142 | a successful delete removes the rows with the id; a failure changes nothing |
| `Inscriptions.InscriptionsPage.OpenEditDialog` | src/pages/InscriptionsPage.tsx:143-151 | selects the row with its joined ids as numbers and changes nothing else |
| `Inscriptions.InscriptionsPage.SetFilter` | src/pages/InscriptionsPage.tsx:155-158 | sets the status filter and changes nothing else |
| `Students.SaveRequestOf` | src/pages/StudentsPage.tsx:86-136 | rejected exactly when a required field is falsy; an update exactly for a truthy id; the row sent, with status defaulting to `actif` |
| `Students.AddFormInsertsActive` | src/pages/StudentsPage.tsx:50-61 | the add form with the four required fields filled inserts an `actif` student |
| `Students.EditDate` | src/pages/StudentsPage.tsx:173 | empty for a falsy date, otherwise the part before the first `T` |
| `Students.EditDateOfTimestamp` | src/pages/StudentsPage.tsx:173 | a `date T time` timestamp is cut back to its date |
| `Students.Filtered` | src/pages/StudentsPage.tsx:184-188 | exactly the students matching both the search and the status filter |
| `Students.FieldInHaystack` | src/pages/StudentsPage.tsx:185 | the joined search text includes each of the six fields |
| `Students.SearchFindsEachField` | src/pages/StudentsPage.tsx:185 | a term found in any one field, in any letter case, matches the student |
| `Students.EmptySearchShowsAll` | src/pages/StudentsPage.tsx:184-188 | an empty search with filter `all` shows every student, in order |
| `Students.MissingFieldMatchesUndefined` | src/pages/StudentsPage.tsx:185 | a student without a phone number matches the search `undefined` |
| `Students.StudentsPage.constructor` | src/pages/StudentsPage.tsx:40-63 | the initial state: no students, empty search, filter `all`, the empty form |
| `Students.StudentsPage.Shown` | src/pages/StudentsPage.tsx:184-188 | the shown students are those matching the page's search and status filter |
| `Students.StudentsPage.OpenAddDialog` | src/pages/StudentsPage.tsx:165-168 | the form becomes the empty student; nothing else changes |
| `Students.StudentsPage.OpenEditDialog` | src/pages/StudentsPage.tsx:170-177 | the form becomes the student with its birth date cut to the date part |
| `Students.StudentsPage.OpenDetailDialog` | src/pages/StudentsPage.tsx:179-182 | the form becomes the student as listed |
| `Students.StudentsPage.HandleSave` | src/pages/StudentsPage.tsx:86-136 | the request for the current form, rejected exactly when a required field is missing |
| `Prestations.EditDraft` | src/pages/PrestationsPage.tsx:88-95 | the edit form carries the service's fields, and today's date when it has none |
| `Prestations.SubmitRequestOf` | src/pages/PrestationsPage.tsx:97-145 | rejected exactly for a missing name or client or a negative price; an update exactly when editing; the row sent |
| `Prestations.AddDraftNeedsNames` | src/pages/PrestationsPage.tsx:74-101 | the fresh add form is rejected, and inserted once the two names are typed |
| `Prestations.Filtered` | src/pages/PrestationsPage.tsx:159-162 | exactly the services whose name or client includes the term, ignoring case |
| `Prestations.EmptySearchKeepsAll` | src/pages/PrestationsPage.tsx:159-162 | an empty search keeps every service |
| `Prestations.FilteredKeepsOrder` | src/pages/PrestationsPage.tsx:159-162 | the search keeps the list order |
| `Prestations.ClientNameIsSearchable` | src/pages/PrestationsPage.tsx:161 | part of a client name, in any letter case, finds the service |
| `Prestations.LineTotal` | src/pages/PrestationsPage.tsx:175 | a service without a quantity adds nothing to the revenue |
| `Prestations.RevenueAfterDelete` | src/pages/PrestationsPage.tsx:154-175 | a delete lowers the revenue total by exactly the lines it removes |
| `Prestations.RevenueNonNegative` | src/pages/PrestationsPage.tsx:175 | with non-negative prices and quantities the revenue total is not negative |
| `Prestations.PrestationsPage.constructor` | src/pages/PrestationsPage.tsx:35-51 | the initial state: no services, empty search, add mode on today's date, page 1 |
| `Prestations.PrestationsPage.Paginated` | src/pages/PrestationsPage.tsx:165-167 | the shown page holds at most 8 filtered services |
| `Prestations.PrestationsPage.HandlePageChange` | src/pages/PrestationsPage.tsx:169-173 | moves to the page exactly when it lies in `1..totalPages` of the filtered list |
| `Prestations.PrestationsPage.HandleDelete` | src/pages/PrestationsPage.tsx:147-157 | a confirmed, successful delete removes the rows with the id; otherwise nothing changes |
| `Prestations.PrestationsPage.HandleOpenAdd` | src/pages/PrestationsPage.tsx:74-86 | add mode with the fresh form on today's date |
| `Prestations.PrestationsPage.HandleOpenEdit` | src/pages/PrestationsPage.tsx:88-95 | edit mode with the service's form |
| `Prestations.PrestationsPage.HandleSubmit` | src/pages/PrestationsPage.tsx:97-145 | the request for the current form and mode, rejected exactly when the guard fails |
| `Prestations.PrestationsPage.SetSearchTerm` | src/pages/PrestationsPage.tsx:159-162 | sets the search and changes nothing else |
| `Depenses.TotalAfterCreate` | src/pages/DepensePage.tsx:80-108 | prepending a stored expense raises the total by its amount |
| `Depenses.TotalAfterDelete` | src/pages/DepensePage.tsx:92-108 | a delete lowers the total by exactly the amounts it removes |
| `Depenses.TotalNonNegative` | src/pages/DepensePage.tsx:108 | with non-negative amounts the total is not negative |
| `Depenses.DepensePage.constructor` | src/pages/DepensePage.tsx:34-44 | the initial state: no expenses, the empty form, page 1 |
| `Depenses.DepensePage.Paginated` | src/pages/DepensePage.tsx:98-100 | the shown page holds at most 8 expenses |
| `Depenses.DepensePage.HandleCreate` | src/pages/DepensePage.tsx:66-84 | sends the form exactly when it has a name and a positive amount; a stored row is prepended and the form reset; otherwise nothing changes |
| `Depenses.DepensePage.HandleDelete` | src/pages/DepensePage.tsx:86-95 | a confirmed, successful delete removes the rows with the id; otherwise nothing changes |
| `Depenses.DepensePage.HandlePageChange` | src/pages/DepensePage.tsx:102-106 | moves to the page exactly when it lies in `1..totalPages` |
| `Depenses.DepensePage.EditForm` | src/pages/DepensePage.tsx:35-39 | sets the form and changes nothing else |
| `Depenses.DeleteCanEmptyTheLastPage` | src/pages/DepensePage.tsx:92-106 | deleting the 9th of 9 expenses while on page 2 leaves page 2 empty, since the current page is not clamped |
| `Paiements.CreatePayload` | src/pages/PaiementsPage.tsx:91-98 | the amounts and the settled flag are sent as typed; the id is `parseInt` of the select, NaN (none) for an empty select |
| `Paiements.UpdatePayload` | src/pages/PaiementsPage.tsx:124-129 | the amounts and the settled flag are sent as edited; a numeric inscription id is sent unchanged, a re-picked string through `parseInt` |
| `Paiements.RepickedInscriptionIsSent` | src/pages/PaiementsPage.tsx:363-366 | an inscription re-picked in the edit select, stored as its `toString()` string, reaches the backend as the same number |
| `Paiements.ResetForm` | src/pages/PaiementsPage.tsx:106-111 | a reset form has zero amounts, is not settled, and has an empty id exactly when no inscription is loaded |
| `Paiements.ResetFormSendsFirstInscription` | src/pages/PaiementsPage.tsx:106-111 | a reset form sends the first inscription's id, is refused as it is, and is accepted exactly once a positive total is typed |
| `Paiements.EditKeepsInscription` | src/pages/PaiementsPage.tsx:153-158 | editing a payment without touching the select sends its own inscription id back |
| `Paiements.Filtered` | src/pages/PaiementsPage.tsx:161-177 | exactly the payments passing the settled filter and the student or course search, never more than the input |
| `Paiements.NoFilterShowsAll` | src/pages/PaiementsPage.tsx:161-177 | filter `all` with an empty search shows every payment |
| `Paiements.StatusFiltersPartition` | src/pages/PaiementsPage.tsx:163-167 | for a fixed search, the `true` and `false` filters split what `all` shows |
| `Paiements.OtherFilterIsFalse` | src/pages/PaiementsPage.tsx:163-167 | any filter value other than `all` and `true` behaves as `false` |
| `Paiements.StudentNameIsSearchable` | src/pages/PaiementsPage.tsx:173-176 | part of the student's surname, in any letter case, finds the payment |
| `Paiements.PaiementsPage.constructor` | src/pages/PaiementsPage.tsx:34-46 | the initial state: no rows, the empty form, no selection, filter `all`, empty search |
| `Paiements.PaiementsPage.Shown` | src/pages/PaiementsPage.tsx:161-177 | the shown payments are those passing the page's filter and search |
| `Paiements.PaiementsPage.AfterFetchInscriptions` | src/pages/PaiementsPage.tsx:68-81 | a loaded list is kept and, when the form has no inscription, the first id becomes the default; a failed fetch changes nothing |
| `Paiements.PaiementsPage.HandleCreate` | src/pages/PaiementsPage.tsx:83-113 | sends the payload exactly when the guard passes; a stored row is appended and the form reset to the first inscription |
| `Paiements.PaiementsPage.HandleUpdate` | src/pages/PaiementsPage.tsx:115-142 | sends the payload exactly for a valid selection; a stored row replaces the selected id's rows and clears the selection |
| `Paiements.PaiementsPage.HandleDelete` | src/pages/PaiementsPage.tsx:144-151 | a successful delete removes the rows with the id; a failure changes nothing |
| `Paiements.PaiementsPage.OpenEditDialog` | src/pages/PaiementsPage.tsx:153-159 | selects the payment with its joined inscription id |
| `Paiements.PaiementsPage.PickEditInscription` | src/pages/PaiementsPage.tsx:364-366 | the re-picked inscription is stored as the option's string and nothing else changes |
| `Schedule.JoursSemaine` | src/pages/SchedulePage.tsx:47-55 | seven distinct days, from `lundi` to `dimanche` |
| `Schedule.ResetForm` | src/pages/SchedulePage.tsx:120-127 | a reset form is on `lundi` with empty times, and its course is the first loaded one, or empty when none is loaded |
| `Schedule.CreatePayload` | src/pages/SchedulePage.tsx:103-112 | the day and times are sent as typed; the course id is `parseInt` of the select, NaN when it is empty |
| `Schedule.SelectedCourseIsSent` | src/pages/SchedulePage.tsx:105 | a course picked in the create select, stored as its `toString()` string, reaches the backend as the same number |
| `Schedule.UpdatePayload` | src/pages/SchedulePage.tsx:143-150 | the day and times are sent as edited; a numeric course id is sent unchanged, a re-picked string through `parseInt` |
| `Schedule.RepickedCourseIsSent` | src/pages/SchedulePage.tsx:338-341 | a course re-picked in the edit select, stored as its `toString()` string, reaches the backend as the same number |
| `Schedule.ResetFormNeedsTimes` | src/pages/SchedulePage.tsx:95-99 | a reset form is refused, and accepted exactly once both times are typed |
| `Schedule.SchedulePage.constructor` | src/pages/SchedulePage.tsx:32-45 | the initial state, with unique ids |
| `Schedule.SchedulePage.AfterFetchLogiciels` | src/pages/SchedulePage.tsx:78-89 | a loaded list is kept and, when the form has no course, the first id becomes the default; a failed fetch changes nothing |
| `Schedule.SchedulePage.HandleCreate` | src/pages/SchedulePage.tsx:93-129 | sends the payload exactly when the guard passes; a stored row is appended and the form reset; a fresh id keeps the ids unique |
| `Schedule.SchedulePage.HandleUpdate` | src/pages/SchedulePage.tsx:131-163 | sends the payload exactly for a valid selection; a stored row replaces the selected id's rows and clears the selection; the ids stay unique |
| `Schedule.SchedulePage.HandleDelete` | src/pages/SchedulePage.tsx:165-172 | a successful delete removes the rows with the id; ids stay unique |
| `Schedule.SchedulePage.OpenEditDialog` | src/pages/SchedulePage.tsx:174-181 | selects the slot with its joined course id |
| `Schedule.SchedulePage.PickEditLogiciel` | src/pages/SchedulePage.tsx:339-341 | the re-picked course is stored as the option's string and nothing else changes |
| `Formations.DureeOptions` | src/pages/FormationsPage.tsx:109-117 | seven distinct durations, the last being the form's default `indefini` |
| `Formations.FormationsPage.constructor` | src/pages/FormationsPage.tsx:32-40 | the initial state, with unique ids |
| `Formations.FormationsPage.HandleCreate` | src/pages/FormationsPage.tsx:57-75 | sends the form; a stored row is appended and the form reset; a fresh id keeps the ids unique |
| `Formations.FormationsPage.HandleUpdate` | src/pages/FormationsPage.tsx:77-93 | sends the selection; a stored row replaces the selected id's rows and clears the selection; ids stay unique |
| `Formations.FormationsPage.HandleDelete` | src/pages/FormationsPage.tsx:95-102 | a successful delete removes the rows with the id; ids stay unique |
| `Formations.FormationsPage.OpenEditDialog` | src/pages/FormationsPage.tsx:104-107 | selects the course as listed |
| `Users.RoleBadge` | src/pages/UsersPage.tsx:26-32 | the admin and junior-admin classes for those roles, the empty string exactly for every other role |
| `Users.FindIndex` | src/pages/UsersPage.tsx:101 | `findIndex`: none exactly when no user has the id, otherwise the first position that has it |
| `Users.FindUser` | src/pages/UsersPage.tsx:101 | `find`: none exactly when no user has the id, otherwise the first listed user with it |
| `Users.PlanSave` | src/pages/UsersPage.tsx:73-158 | missing fields, short password, update (with an auth e-mail update exactly when the stored e-mail changed) or create, decided as the handler's branches do |
| `Users.EditForm` | src/pages/UsersPage.tsx:197-203 | the edit form carries the user's fields with the password cleared |
| `Users.UneditedSaveKeepsAuthEmail` | src/pages/UsersPage.tsx:101-102 | saving an edit form untouched updates the row and leaves the auth e-mail alone |
| `Users.AddFormNeedsPassword` | src/pages/UsersPage.tsx:117-120 | the add form with names and e-mail but no password is refused for its password |
| `Users.DeleteOutcomeOf` | src/pages/UsersPage.tsx:160-190 | nothing unless confirmed; deleted exactly when the row delete succeeds; a warning exactly for an auth error other than `User not found` |
| `Users.AuthErrorDoesNotBlockDelete` | src/pages/UsersPage.tsx:168-180 | an auth error never prevents the row delete, and `User not found` raises no warning |
| `Users.UsersPage.constructor` | src/pages/UsersPage.tsx:35-49 | the initial state: no users, the empty form |
| `Users.UsersPage.OpenAddDialog` | src/pages/UsersPage.tsx:192-195 | the form becomes the empty user |
| `Users.UsersPage.OpenEditDialog` | src/pages/UsersPage.tsx:197-203 | the form becomes the user with the password cleared |
| `Users.UsersPage.HandleSave` | src/pages/UsersPage.tsx:73-158 | the plan for the current form; a create always carries a password of at least 6 characters |
| `ForgotPassword.Matching` | src/pages/ForgotPasswordPage.tsx:27-31 | the stored addresses equal to the queried one |
| `ForgotPassword.AfterCheckEmail` | src/pages/ForgotPasswordPage.tsx:21-61 | the reset step exactly when the query succeeds with exactly one stored match of the trimmed address; the e-mail step otherwise |
| `ForgotPassword.LookupIgnoresSurroundingSpaces` | src/pages/ForgotPasswordPage.tsx:30 | spaces around the typed address do not change the outcome |
| `ForgotPassword.MatchingHasOne` | src/pages/ForgotPasswordPage.tsx:27-31 | an address stored at exactly one position has exactly one match |
| `ForgotPassword.NoneMatching` | src/pages/ForgotPasswordPage.tsx:43-46 | an address stored nowhere has no match |
| `ForgotPassword.StoredOnceIsFound` | src/pages/ForgotPasswordPage.tsx:21-61 | an address stored once, typed with any surrounding spaces, moves to the reset step |
| `ForgotPassword.CheckPasswords` | src/pages/ForgotPasswordPage.tsx:66-74 | mismatch exactly for different entries, too short exactly for equal entries under 6 characters, accepted otherwise |
| `ForgotPassword.AfterReset` | src/pages/ForgotPasswordPage.tsx:63-106 | success exactly for an accepted password whose update succeeds or fails for want of a session; the reset step otherwise |
| `ForgotPassword.SuccessNeedsValidPassword` | src/pages/ForgotPasswordPage.tsx:66-74 | reaching success implies two equal entries of at least 6 characters |
| `ForgotPassword.NotLoggedInCountsAsSuccess` | src/pages/ForgotPasswordPage.tsx:88-93 | a `not logged in` error still ends in success |
| `ForgotPassword.StepsOnlyMoveForward` | src/pages/ForgotPasswordPage.tsx:15-106 | each handler moves the step forward by at most one, never back |
| `ForgotPassword.ForgotPasswordPage.constructor` | src/pages/ForgotPasswordPage.tsx:15-18 | the initial state: the e-mail step with empty fields |
| `ForgotPassword.ForgotPasswordPage.HandleCheckEmail` | src/pages/ForgotPasswordPage.tsx:21-61 | queries the trimmed address and sets the step the lookup decides; the fields are unchanged |
| `ForgotPassword.ForgotPasswordPage.HandleResetPassword` | src/pages/ForgotPasswordPage.tsx:63-106 | calls the backend exactly for an accepted password and sets the step the outcome decides |
| `ForgotPassword.ForgotPasswordPage.SetFields` | src/pages/ForgotPasswordPage.tsx:16-18 | sets the three inputs and keeps the step |

## Left out

- Backend I/O: every query and write, with their ordering, retries and refetches, is outside the model.
  - A handler takes the backend's answer as a parameter instead: `Written(row)` or `WriteFailed`, a `deleted` flag, or a fetched list.
  - Pages that refetch after a write (students, services, users) have no local list change to model. For them the model stops at the request they send.
  - A write that succeeds but returns no row (`data` null or empty) is not modelled.
- Students, users: the delete handlers only refetch. Their effect on the list is that of the backend; for users the outcome is in `Users.DeleteOutcomeOf`.
- Users.UsersPage.HandleSave: returns the plan of calls (which branch, which rows and e-mails) and not the outcome of the two-call sequences. An auth account created before a failing row insert is left out.
- Toasts, `console` output, dialogs' open/closed flags, loading flags, routing and the rendering of tables and charts are left out.
- Locale formatting is left out: `toLocaleString`/`toLocaleDateString`, and the inventory month's short name. The inventory bucket key is the month number, which names the same buckets.
- `Date` parsing is abstracted as missing, unparsable or a year and month. The time zone that `getMonth` uses is left out.
- The dashboard sort is by code-unit order. `localeCompare` collation is not modelled; for `YYYY-MM` keys of four-digit years the two agree.
- Amounts are unbounded integers: floating-point amounts, `parseFloat` of the inputs and rounding are left out.
- `Number.prototype.toString` is modelled for integers. Its exponent form for very large numbers is left out.
- `parseInt` reads decimal digits after white space and an optional sign. Its hexadecimal `0x` prefix is left out.
- `toLowerCase` is modelled on ASCII letters. Unicode case mapping is left out, and so are string lengths in UTF-16 code units.
- Prestations.Filtered: a service whose `nom_prestation` or `nom_client` is null makes the page's search throw. The model gives every service both names as text, so that exception is not modelled.
- Paiements.PassesSearch: a payment whose inscription has no course makes the page's search throw. The model gives every payment a course name, so that exception is not modelled.
- Badges.StudentBadge, Users.RoleBadge: status or role values that are names of JavaScript object-prototype members are left out.
- Paiements.PaiementsPage.AfterFetchInscriptions, Schedule.SchedulePage.AfterFetchLogiciels: the default-id rule reads the form from the closure of the first render. The model reads the current form, which is the same at mount.
- Edit dialogs: only the id selects are modelled as state changes (`PickEditInscription`, `PickEditLogiciel`, `PickEditEtudiant`). The other inputs of the edit dialogs (amounts, status, day, times, price) are not; `UpdatePayload` sends whatever the selection holds.
- Dashboard.Payment: `montant_paye` is a number here. The dashboard adds it without `|| 0`, so a null paid amount would add 0 and a missing one would turn the totals into NaN; neither is modelled.
- The joined ids that the edit dialogs read (`inscriptions.id`, `logiciels.id`) are taken to be the row's own foreign keys.
- The authentication hook, the app shell, the layout components, the settings page, the backend client set-up, the utility helpers and the mock data are not part of this model.
