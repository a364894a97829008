# Expense tracker core, modelled in Dafny

This project models the rules of an expense-tracker web front end. The rules are written in Dafny and proved there. The tracker keeps a list of records. Each record has:

- an id;
- a category (`text`);
- an amount;
- a type: expense or income;
- an optional user-chosen date (`customDate`);
- a creation timestamp (`createdAt`).

The pages that the model covers are these:

- **Add page** (`add_page.dfy`).
  - A manual form builds one record from a category, an amount, a type and an optional date. A chosen date that does not parse aborts the submission.
  - A CSV upload drops the header row and maps each data row `[date, category, amount, …]` to an expense record, keeping the row order.
  - A submit loop then creates the previewed records one by one.
  - The page's state slots are the fields of the class `AddForm`. The server's record list is the class `ExpenseStore`.
- **Update modal** (`update_modal.dfy`).
  - The edit fields start from the record. A missing amount reads 0.
  - An update is refused when the category is empty or the amount is undefined. Otherwise only category, amount and type are replaced.
- **Home page** (`home.dfy`).
  - Income and expense totals, where a missing amount counts 0. The balance is their difference.
  - The date-range filter, with a null start meaning "everything" and inclusive bounds otherwise.
  - The newest-first ordering of a copy of the list.
- **Transaction card** (`expense_item.dfy`). It shows the effective date, the category and a sign prefix.
- **Pie chart** (`pie_chart.dfy`).
  - A per-category fold over expense records. The accumulator is a JavaScript object, modelled as its keys in insertion order plus a map. The fold is given both as a function and as the loop that updates the accumulator in place.
  - The label, data and colour arrays.
  - The tooltip percentage and the empty state.
- **Date filter** (`date_filter.dfy`).
  - Each range token (`all`, `week`, `month`, `6months`, `year`) resolves to a start bound and an end bound of "now".
  - The `Date` object is mutated by its setters exactly as the component does it. `calendar.dfy` gives the ECMAScript time-value arithmetic those setters follow: `MakeDay`, `YearFromTime`, `MonthFromTime`, `DateFromTime` and `WeekDay`. Under it, a date past the end of a month rolls into the next month and a month below 0 borrows a year.

`records.dfy` holds the shared record types and `Option`/`Result`.

Amounts are `Option<real>`. `None` stands for a missing amount or `NaN`: both are falsy, so `amount || 0` reads either as 0, while adding either to a number gives `NaN`.

Dates are JavaScript time values: whole milliseconds since 1970-01-01, with local time taken to equal UTC. Parsing a date string, `toISOString` and `parseFloat` belong to the JavaScript runtime. They are fields of a `Runtime` value passed in as a parameter. The clock reading ("now") is also a parameter.

Some behaviours of the code that the model keeps:

- `6months` and `year` roll an overflowing date into the next month. They do not clamp it to the month's last day (for example, 31 August minus six months is 3 March in a common year).
- The CSV upload has no per-row rejection list:
  - a data row whose date is invalid makes `toISOString` throw, and the whole upload is dropped;
  - a non-numeric amount is kept as `NaN`;
  - a missing category cell is kept as `undefined`;
  - blank rows are not skipped.
- Neither the form nor the upload checks that a category belongs to the list or that an amount is non-negative.
- The tooltip percentage has no guard against a total of 0.
- When a start bound is given, the filter also tests the end bound.

## Model

| member | source | states |
|---|---|---|
| Records.EffectiveDateText | frontend/src/pages/Home.tsx:51 | the effective date is the custom date when it is present and non-empty, otherwise the creation timestamp |
| AddPage.SubmitDisabled | frontend/src/pages/Add.tsx:198 | the submit button is enabled only with a non-empty category and an amount that is a non-zero number; an empty category or an undefined, `NaN` or 0 amount disables it |
| AddPage.BuildDraft | frontend/src/pages/Add.tsx:40-56 | the submission fails with "Invalid date" exactly when a non-empty chosen date does not parse; on success the record carries exactly the entered category, amount and type, with customDate "" when no date is chosen and the parsed date's ISO form otherwise |
| AddPage.EnabledSubmitCreates | frontend/src/pages/Add.tsx:43-56 | an enabled submit whose date is absent or parses always yields a record with a non-empty category and a non-zero amount |
| AddPage.RowToDraft | frontend/src/pages/Add.tsx:70-75 | a data row maps to an expense with category column 1, amount parseFloat of column 2 and customDate the ISO form of column 0; there is no record exactly when column 0 is not a valid date |
| AddPage.MapRows | frontend/src/pages/Add.tsx:70-75 | mapping the rows keeps their number and order (row i becomes record i); the mapping fails exactly when some row's date is invalid |
| AddPage.CsvToDrafts | frontend/src/pages/Add.tsx:70 | exactly the header row is dropped: the output has max(0, rows − 1) records and data row i + 1 becomes record i; the upload fails exactly when some data row's date is invalid |
| AddPage.CsvRecordsAreExpenses | frontend/src/pages/Add.tsx:73 | every record produced by the upload has type expense |
| AddPage.ExpenseStore.CreateExpense | frontend/src/pages/Add.tsx:56 | creating a record appends it to the stored records |
| AddPage.AddForm.constructor | frontend/src/pages/Add.tsx:11-17 | the form starts with an empty category, an undefined amount, type expense, no date, no CSV data and no preview |
| AddPage.AddForm.OnSubmit | frontend/src/pages/Add.tsx:40-62 | an invalid date creates nothing and leaves the form as it was; otherwise exactly the built record is created and category, amount and date are reset to "", 0 and none; the type and the CSV state are untouched |
| AddPage.AddForm.HandleCsvUpload | frontend/src/pages/Add.tsx:64-81 | with a file whose rows all map, the preview holds exactly the mapped records and is shown; no file, or a row that throws, leaves the CSV state unchanged; the form fields are untouched |
| AddPage.AddForm.HandleCsvSubmit | frontend/src/pages/Add.tsx:83-93 | the previewed records are created in list order, nothing else is created, and the reported count is the list's length |
| UpdateExpenseModal.CategoriesMatchAddPage | frontend/src/components/UpdateExpenseModal.tsx:29-39 | the modal offers the same nine distinct categories as the Add page, in the same order |
| UpdateExpenseModal.InitialFields | frontend/src/components/UpdateExpenseModal.tsx:24-26 | the edit fields start as the record's category, type and amount, with a missing or `NaN` amount reading 0 |
| UpdateExpenseModal.HandleUpdate | frontend/src/components/UpdateExpenseModal.tsx:41-48 | the update is refused with "Please fill in all fields" exactly when the category is empty or the amount is undefined (0 is accepted); otherwise the result has the new category, amount and type and the record's own id, customDate and createdAt |
| UpdateExpenseModal.ModalRefusesOnlyEmptyCategory | frontend/src/components/UpdateExpenseModal.tsx:25-82 | the modal's own amount is always a number (it starts as the record's amount or 0, and a cleared input gives `Number("")`, which is 0), so an update from the modal's state is refused exactly when the category is empty |
| UpdateExpenseModal.UnchangedUpdateKeepsRecord | frontend/src/components/UpdateExpenseModal.tsx:24-48 | pressing Update without editing stores the record unchanged when it has a category and an amount, and is refused when its category is empty |
| Home.OfKind | frontend/src/pages/Home.tsx:57-58 | the filter by type keeps exactly the records of that type and never lengthens the list |
| Home.TotalIncome | frontend/src/pages/Home.tsx:57-59 | the income total is non-negative when no amount is negative, and 0 when there is no income record |
| Home.TotalExpenses | frontend/src/pages/Home.tsx:62-64 | the expense total is non-negative when no amount is negative, and 0 when there is no expense record |
| Home.OfKindCounts | frontend/src/pages/Home.tsx:57-58 | the filter by type keeps each record of that type exactly as many times as it occurs, and no record of the other type |
| Home.OfKindSum | frontend/src/pages/Home.tsx:57-64 | `SumAmounts` (the `reduce` in which a missing amount counts 0) over the records of one type is non-negative when no amount is negative, and 0 when no record has that type |
| Home.TotalsCoverAll | frontend/src/pages/Home.tsx:57-64 | income total plus expense total is `SumAmounts` of the whole list, the sum of all amounts with a missing amount counting 0 |
| Home.ActualBalance | frontend/src/pages/Home.tsx:67 | with no negative amount, the balance is non-negative when every record is income and non-positive when every record is an expense |
| Home.BalanceOfAppend | frontend/src/pages/Home.tsx:57-67 | the balance of two lists joined is the sum of their balances |
| Home.BalanceIsSignedSum | frontend/src/pages/Home.tsx:67 | the balance is the sum of each record's amount, negated for an expense; the empty list's balance is 0 |
| Home.KeepInRange | frontend/src/pages/Home.tsx:75-78 | the bounded filter never lengthens the list |
| Home.FilterWithoutStartKeepsAll | frontend/src/pages/Home.tsx:69-72 | with no start bound the filter returns the collection unchanged |
| Home.FilterKeepsExactlyInRange | frontend/src/pages/Home.tsx:69-81 | `FilterByDate` with a start bound keeps each record that passes `InRange` (its effective date parses and lies between start and end, both inclusive) exactly as many times as it occurs, and drops every other record |
| Home.FilterIsSubsequence | frontend/src/pages/Home.tsx:69-80 | with or without a start bound, `FilterByDate`'s list is the original with records removed and the rest in their original order |
| Home.FilterIdempotent | frontend/src/pages/Home.tsx:69-80 | filtering twice with the same bounds gives the same list as filtering once |
| Home.Insert | frontend/src/pages/Home.tsx:50-54 | inserting a record gives the old records plus that one (as a multiset) |
| Home.InsertKeepsOrder | frontend/src/pages/Home.tsx:50-54 | inserting into a newest-first list keeps it newest-first |
| Home.SortNewestFirst | frontend/src/pages/Home.tsx:50-54 | the sorted copy is a permutation of the list and is non-increasing by effective date |
| Home.SortKeepsBalance | frontend/src/pages/Home.tsx:50-67 | sorting the copy does not change the balance computed from it |
| ExpenseItem.DisplayDateText | frontend/src/components/ExpenseItem.tsx:29-31 | the card shows the same effective date the Home page filters and sorts on |
| ExpenseItem.SignPrefix | frontend/src/components/ExpenseItem.tsx:59 | the prefix is "-" exactly for an expense and "+" exactly for an income |
| ExpenseItem.CardAgreesWithBalance | frontend/src/components/ExpenseItem.tsx:29-60 | the card's title is the category unchanged, its amount is passed on unchanged, and its sign is the sign the record contributes to the Home balance |
| ExpensePieChart.PutKeepsValid | frontend/src/components/ExpensePieChart.tsx:34 | storing under a key keeps the object's keys distinct and equal to its entries |
| ExpensePieChart.CategoryTotalsValid | frontend/src/components/ExpensePieChart.tsx:32-37 | the keys of `CategoryTotals`, the reduce's result, are distinct and name exactly its entries |
| ExpensePieChart.ComputeCategoryTotals | frontend/src/components/ExpensePieChart.tsx:32-37 | the in-place loop over the records ends with exactly the fold's keys and entries |
| ExpensePieChart.KeysAreExpenseCategories | frontend/src/components/ExpensePieChart.tsx:32-37 | a category is a key exactly when some expense record has it (no zero-filling) |
| ExpensePieChart.IncomeLeavesTotalsUnchanged | frontend/src/components/ExpensePieChart.tsx:33 | folding only the expense records gives the same totals, so income records contribute nothing |
| ExpensePieChart.StepLookup | frontend/src/components/ExpensePieChart.tsx:33-35 | `Step`, one step of the reduce, adds the expense's amount to its own category's entry (a missing or `NaN` entry reading 0) and leaves every other entry as it was |
| ExpensePieChart.CategoryTotalIsSum | frontend/src/components/ExpensePieChart.tsx:32-37 | when every expense amount is a number, each category's entry is the sum of the amounts of the expense records with that category |
| ExpensePieChart.ValuesOfIndex | frontend/src/components/ExpensePieChart.tsx:43 | the values array has one entry per key, entry i being the value under key i |
| ExpensePieChart.SumValuesNaN | frontend/src/components/ExpensePieChart.tsx:71 | `SumValues`, the tooltip's total, is `NaN` exactly when some entry is `NaN` |
| ExpensePieChart.StepAddsToSum | frontend/src/components/ExpensePieChart.tsx:34 | adding an expense with a numeric amount adds that amount to the sum of the entries |
| ExpensePieChart.NaNEntryRestarts | frontend/src/components/ExpensePieChart.tsx:34 | the fold reads a `NaN` entry as 0, so the next numeric amount of that category replaces it |
| ExpensePieChart.NaNIsForgotten | frontend/src/components/ExpensePieChart.tsx:32-37 | for amounts 3, `NaN` and 5 in one category, the category's entry and the tooltip's total are 5 while the Home page's expense total is 8 |
| ExpensePieChart.NaNFold | frontend/src/components/ExpensePieChart.tsx:32-37 | the fold over those three records has one key, holding 5 |
| ExpensePieChart.TotalsAddUpToExpenses | frontend/src/components/ExpensePieChart.tsx:32-37 | when every expense amount is a number, the category totals add up to the Home page's expense total |
| ExpensePieChart.ColorOf | frontend/src/components/ExpensePieChart.tsx:45 | a category of the Add page's list gets its colour from the table, and any other category gets #999999 |
| ExpensePieChart.ColorsCoverCategories | frontend/src/components/ExpensePieChart.tsx:19-29 | the colour table has exactly the Add page's categories |
| ExpensePieChart.Chart | frontend/src/components/ExpensePieChart.tsx:39-51 | labels, data, fill and border colours have equal length and are index-aligned; the labels are distinct and are exactly the expense categories present; slice i holds its category's total, its mapped colour or #999999, and a #FFFFFF border |
| ExpensePieChart.Percentage | frontend/src/components/ExpensePieChart.tsx:68-72 | a slice's percentage times the total is 100 times its value (a missing value reading 0); it is a finite number exactly when the total is a non-zero number |
| ExpensePieChart.PercentSumScales | frontend/src/components/ExpensePieChart.tsx:71-72 | the slices' percentages add up to the sum of the values over the total, times 100 |
| ExpensePieChart.PercentagesAddUpTo100 | frontend/src/components/ExpensePieChart.tsx:68-72 | with numeric amounts and a non-zero expense total, the tooltip's total is the Home expense total and the percentages add up to 100 |
| ExpensePieChart.ShowsEmptyState | frontend/src/components/ExpensePieChart.tsx:81 | the empty state is shown exactly when no record is an expense |
| Calendar.WeekDay | frontend/src/components/DateFilter.tsx:19 | `getDay` lies in 0..6 |
| Calendar.MakeDayFieldsRoundTrip | frontend/src/components/DateFilter.tsx:25 | building a day from a valid year, month and date and reading them back gives the same year, month and date |
| Calendar.CalendarFieldsRoundTrip | frontend/src/components/DateFilter.tsx:25 | rebuilding a day from its own year, month and date gives the same day |
| Calendar.MakeDayPreviousYear | frontend/src/components/DateFilter.tsx:35 | the same month and date one year earlier is 365 or 366 days back |
| Calendar.JsDate.FromTime | frontend/src/components/DateFilter.tsx:18 | a copied `Date` holds the same instant |
| Calendar.JsDate.FromFields | frontend/src/components/DateFilter.tsx:25 | `new Date(y, m, d)` is midnight of that calendar day |
| Calendar.JsDate.SetDate | frontend/src/components/DateFilter.tsx:19 | `setDate` keeps year, month and time of day and moves to the given date, which may roll over |
| Calendar.JsDate.SetHours | frontend/src/components/DateFilter.tsx:20 | `setHours` keeps the day and replaces the time of day |
| Calendar.JsDate.SetMonth | frontend/src/components/DateFilter.tsx:30 | `setMonth` keeps year, date and time of day; a month outside 0..11 carries into the year |
| Calendar.JsDate.SetFullYear | frontend/src/components/DateFilter.tsx:35 | `setFullYear` keeps month, date and time of day |
| DateFilter.MondayOf | frontend/src/components/DateFilter.tsx:19 | the Monday the `week` case moves to is a Monday, 0 to 6 days before today, and exactly 6 days before when today is Sunday |
| DateFilter.WeekStart | frontend/src/components/DateFilter.tsx:16-21 | the week start is a Monday at 00:00, 0 to 6 days before today, exactly 6 days before when today is Sunday, and not after now |
| DateFilter.SundayWeekStartsSixDaysBack | frontend/src/components/DateFilter.tsx:19 | on a Sunday the week starts on the Monday six days earlier |
| DateFilter.WeekStartBySetters | frontend/src/components/DateFilter.tsx:18-20 | moving now's date back to the Monday and then to midnight lands exactly on the week start |
| DateFilter.MonthStart | frontend/src/components/DateFilter.tsx:23-26 | the month start is day 1 of now's year and month at 00:00, not after now |
| DateFilter.SixMonthsBackEarlier | frontend/src/components/DateFilter.tsx:27-31 | `SixMonthsBack(now)`, the instant six months back, keeps the time of day and lies strictly before now |
| DateFilter.SixMonthsBackFields | frontend/src/components/DateFilter.tsx:27-31 | `SixMonthsBack(now)` has month index now's month − 6 (borrowing a year when negative) and now's date; when that month is too short, the date rolls into the following month of the same year |
| DateFilter.YearBackFields | frontend/src/components/DateFilter.tsx:32-36 | `YearBack(now)`, the instant one year back, keeps the time of day, lies 365 or 366 days before now, and has the same month and date in the previous year whenever that date exists |
| DateFilter.ResolveStart | frontend/src/components/DateFilter.tsx:15-39 | the four known tokens give a start bound no later than now; `all` and every unknown token give none |
| DateFilter.MondayOfWeek | frontend/src/components/DateFilter.tsx:18-21 | the `week` case's setter sequence yields a fresh `Date` at the week start |
| DateFilter.FirstOfMonth | frontend/src/components/DateFilter.tsx:25 | the `month` case yields a fresh `Date` at the month start |
| DateFilter.SixMonthsAgo | frontend/src/components/DateFilter.tsx:29-30 | the `6months` case's copy and `setMonth` yield a fresh `Date` six months back |
| DateFilter.OneYearAgo | frontend/src/components/DateFilter.tsx:34-35 | the `year` case's copy and `setFullYear` yield a fresh `Date` one year back |
| DateFilter.DateFilterState.constructor | frontend/src/components/DateFilter.tsx:8 | the active filter starts as `all` |
| DateFilter.DateFilterState.HandleFilterChange | frontend/src/components/DateFilter.tsx:10-42 | the clicked token becomes the active filter, the end bound is the clock reading, and the start bound is the token's resolved start |

## Left out

- Time zones: local time is taken to equal UTC, so "local midnight" is UTC midnight.
- `TimeClip`: the ±8.64e15 ms range limit of time values is not modelled.
- Floating point: amounts are exact reals, so sums do not depend on their order. Rounding, `toFixed(1)`, `formatCurrency` and `toLocaleDateString` are not modelled.
- `new Date(string)` parsing, `toISOString`, `parseFloat` and Papa's CSV parsing belong to the runtime and its libraries. They are parameters of the model (the `Runtime` value and the parsed row list), not definitions.
- JavaScript objects list integer-like keys (such as "2024") before the other keys, and a `__proto__` key behaves specially. The pie-chart accumulator keeps plain insertion order.
- ExpensePieChart.StepLookup: the accumulator `{}` inherits from `Object.prototype`. For a category named after an inherited member ("constructor", "toString", "valueOf", "hasOwnProperty" and the like), `acc[k] || 0` reads the inherited function, and the sum becomes a string such as `"function Object() { [native code] }5"`. The model reads such a key as absent, that is as 0. `Step`, `CategoryTotals` and the lemmas built on them inherit this difference: CategoryTotalIsSum, StepAddsToSum, TotalsAddUpToExpenses, PercentagesAddUpTo100 and Chart's data clause. Categories are free text from a CSV cell, so nothing excludes such names.
- ExpensePieChart.ColorOf: `categoryColors` is an ordinary object as well. For a category named after an inherited `Object.prototype` member, `categoryColors[category] || '#999999'` yields the inherited function, while the model gives #999999. Chart's colour clause inherits this difference.
- Redux dispatch, the server round trip and its failures, toasts, navigation, the sample-CSV download, the `showManualForm` toggle, modal open/close and JSX rendering are not modelled.
- The store that `createExpense` writes to is a plain list of created records.
- `handleCsvSubmit`'s `await` sequencing and its catch branch: the loop is sequential and never fails.
- The weekly bar chart is not part of this model.
- Negative amounts are not validated anywhere in the code, so nothing is stated about them.
- An end bound of `null` never reaches the filter, because the date filter always passes "now". The model's end bound is therefore a time value.
- The Home page computes `sortedExpenses` but renders the filtered list in its own order. The sort is modelled as computed.
- Home.SortNewestFirst: records whose date does not parse are placed after all others. JavaScript's comparator returns `NaN` for such records, which leaves their position to the engine. The contract does not state that records with equal dates keep their relative order, which JavaScript's stable sort guarantees.
- UpdateExpenseModal.InitialFields: the model assumes that a stored record always has a string category and a type. The modal's `expense.text || ''` and `expense.type || "expense"` defaults therefore have no case to act on and are not modelled. The assumption does not hold everywhere: a CSV row with no category cell gives a draft with no category (`Draft.text` is `None`), and the submit loop still passes it to `createExpense`. For such a record, the modal's empty-category default and the pie chart's "undefined" key (which `acc[expense.text]` creates) are not modelled.
- UpdateExpenseModal.HandleUpdate: its `None` amount stands only for `undefined`, not for `NaN` as elsewhere in the model. The modal's own amount is never `undefined`: it starts as `expense.amount || 0`, and a cleared input stores `Number("")`, which is 0. So the refusal on an undefined amount cannot be reached from the modal's own state (`ModalRefusesOnlyEmptyCategory`).
- ExpensePieChart.TotalsAddUpToExpenses: this holds only when every expense amount is a number. A missing or `NaN` amount makes its category's entry `NaN` only until the next numeric amount of that category, which `acc[k] || 0` adds to 0. So the chart's total can be `NaN` (`SumValuesNaN`), or a number that differs from the Home page's total (`NaNIsForgotten`: 5 against 8).
- ExpensePieChart.CategoryTotalIsSum: this holds only when every expense amount is a number. Otherwise a category's entry holds only the sum of the amounts after its last missing or `NaN` amount, or is `NaN` when that amount is its last (`NaNEntryRestarts`).
- Calendar.JsDate.FromFields: `new Date(y, m, d)` maps a year from 0 to 99 to 1900 + year. The model takes the year as given, so for a "now" in the years 0 to 99 the `month` start is not what the component computes.
- ExpensePieChart.PercentagesAddUpTo100: this needs numeric amounts and a non-zero total. With a zero total the source divides by zero, and `Percentage` returns `None` for that case.
- ExpensePieChart.Percentage: the percentage is exact. The one-decimal rounding of `toFixed(1)` is left out.
