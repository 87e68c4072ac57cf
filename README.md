# Pharmacy store model

A Dafny model of a small pharmacy management system, covering two parts.

The **store layer** is an SQLite database of three tables:
- `medicines`, with name, category, buy and sell price, stock and expiry date;
- `customers`, with name, contact and address;
- `sales`, with customer, medicine, quantity, total, time stamp and optional prescription path.

Its operations add, update and delete medicines and customers, and record a sale. A sale checks stock, decrements it and appends the sale row. Its queries are the joined sales list, the total revenue, the total profit, the count of medicines expiring within a week, and the date-range report.

The **request handlers** of the web front end cover:
- the checks the medicine and customer forms run before they write;
- the shopping cart of the sale page (add an entry, show the total, submit every entry as one sale each);
- the dashboard's prescription count;
- the low-stock alert;
- the report page's start/end check.

Modules:

- `Wrappers`: `Option`.
- `Text`: SQLite's TEXT order (`LexLe`, byte-wise lexicographic, with a proper prefix first) and its order laws. Also Python's `str.strip`/`str.isdigit` as the forms use them.
- `Table`: a table as a sequence of rows in key order. It has AUTOINCREMENT keys (`WellKeyed`: strictly increasing, positive, at most the last key issued), and lookup, update and delete by key.
- `Database`:
  - `Db` is the whole store as a value, with one function per state change.
  - `Store` is a class that holds the same state in fields. Its methods change it in place, each proved to do what its `Db` function says.
  - The queries are functions of the tables they read. The lemmas relate the operations to the revenue, the profit and the reports.
- `App`:
  - the form checks and their handlers over a `Store`;
  - the `Cart` class (entries added, total, submission loop);
  - the dashboard, alert and report functions.

## Model

| member | source | states |
|---|---|---|
| Table.Find | database.py:156-157 | the row found carries the key and is in the table; nothing is found exactly when no row has the key |
| Table.FindUnique | database.py:10-11 | under AUTOINCREMENT keys the row found under a row's key is that row |
| Table.Update | database.py:222-225 | `UPDATE ... WHERE id = ?` over the table: as many rows after as before (row by row in `Table.UpdateRows`) |
| Table.UpdateRows | database.py:222-225 | an UPDATE ... WHERE id = ? rewrites the data of the rows with that key and leaves every other row as it was |
| Table.FindAfterUpdate | database.py:222-225 | after an update the key finds its old row with the new data, and every other key finds what it found before |
| Table.UpdateAbsent | database.py:222-225 | updating a key no row carries changes nothing |
| Table.UpdateKeepsKeys | database.py:219-227 | an update keeps the keys well formed |
| Table.Delete | database.py:206 | a DELETE ... WHERE id = ? keeps exactly the rows with another key |
| Table.FindAfterDelete | database.py:206 | after a delete the key finds nothing and every other key finds what it found before |
| Table.DeleteAbsent | database.py:206 | deleting a key no row carries changes nothing |
| Table.DeleteKeepsKeys | database.py:203-208 | a delete keeps the keys well formed |
| Text.LexLe | database.py:196 | SQLite's BINARY TEXT order `a <= b`: byte-wise lexicographic, a proper prefix first (its laws are `Text.LexLeReflexive`, `Text.LexLeAntisymmetric`, `Text.LexLeTransitive`) |
| Text.InClosedRange | database.py:121 | `lo <= x AND x <= hi` as TEXT, which is also `x BETWEEN lo AND hi` (database.py:196) |
| Text.IsBlank | app3.py:231 | `not s.strip()`: every character is Python whitespace, or there is none |
| Text.IsDigits | app3.py:298 | `s.isdigit()`: at least one character and every one a digit |
| Text.EmptyRange | database.py:196 | a BETWEEN whose low bound sorts above its high bound admits nothing |
| Database.MessagesDistinct | database.py:159-181 | the three messages of `record_sale` tell its three outcomes apart |
| Database.Db.AddMedicine | database.py:129-137 | one row appended under a key above every key issued before (including keys of deleted rows still named by sales); nothing else changes; keys stay well formed |
| Database.Db.AddCustomer | database.py:140-148 | one row appended under a fresh key above every key issued before; nothing else changes |
| Database.Db.UpdateMedicine | database.py:219-227 | the row under the key gets every non-key column of the form, no other row or table changes, a missing key changes nothing |
| Database.Db.UpdateCustomer | database.py:230-239 | the same for a customer row |
| Database.Db.DeleteMedicine | database.py:203-208 | exactly the row under the key goes, sales are untouched (no cascade), a missing key changes nothing |
| Database.Db.DeleteCustomer | database.py:211-216 | the same for a customer row |
| Database.Db.RecordSale | database.py:151-181 | "Medicine not found." exactly when no row has the key, "Not enough stock available." exactly when stock < quantity, and in both cases the store is unchanged; keys stay well formed |
| Database.SaleKeepsKeys | database.py:172-177 | writing the new stock and appending the sale keeps every key well formed and every sale naming an issued medicine key |
| Database.RecordedSale | database.py:163-181 | a recorded sale had stock >= quantity and leaves it >= 0. Only that medicine's stock falls, by the quantity. Exactly one sale is appended under the next key, with total = sell price x quantity, the given stamp and prescription. Customers are untouched |
| Database.JoinLine | database.py:78-86 | a sale yields a line exactly when its customer and its medicine both exist, carrying the sale's own date, quantity, total and prescription and the names of that customer and medicine |
| Database.JoinSales | database.py:77-87 | the joined lines of the admitted sales in sale order: never more lines than sales, and one per sale when every sale joins and is admitted |
| Database.FetchSales | database.py:74-90 | `fetch_sales`: never more lines than sales, one per sale when every sale's customer and medicine exist |
| Database.GenerateReport | database.py:184-200 | `generate_report` as written: never more lines than sales, one per sale when every sale joins and start <= stamp <= end as TEXT |
| Database.GenerateDayReport | database.py:184-200 | the corrected report: never more lines than sales, one per sale when every sale joins and its day lies from start to end |
| Database.JoinSalesConcat | database.py:77-87 | the join of two runs of sales is the join of the first followed by that of the second, so each sale contributes its own line in sale order, however many sales yield equal lines |
| Database.JoinSingle | database.py:77-87 | one sale gives its joined line when its customer and medicine exist and the filter admits its stamp, and nothing otherwise |
| Database.JoinSalesMembers | database.py:77-87 | a line is in the filtered join exactly when some admitted sale whose keys both resolve yields it |
| Database.FetchSalesMembers | database.py:74-90 | `fetch_sales` lists a sale exactly when its customer and medicine both still exist |
| Database.ReportMembers | database.py:184-200 | `generate_report` keeps a joined sale exactly when start <= stamp <= end as TEXT |
| Database.ReportWithinFetch | database.py:184-196 | every report line is a `fetch_sales` line |
| Database.EmptyRangeReport | database.py:196 | a start sorting after the end gives an empty report, not an error |
| Database.TimeAfterDay | database.py:173 | a stamp with a time after its day sorts above the day alone |
| Database.EndDayDropped | database.py:196 | as written, a sale stamped with a time on day D is missing from the report for D..D, while the day report keeps it |
| Database.EndDayExample | database.py:184-200 | the concrete input: one sale at '2024-05-10 09:30:00', report for '2024-05-10'..'2024-05-10' is empty |
| Database.DayReportExtendsReport | database.py:196 | for full stamps and date bounds, the day report keeps every line the as-written report keeps |
| Database.DayReportMembers | database.py:196 | the corrected report keeps a joined sale exactly when its day lies from start to end |
| Database.TotalSales | database.py:93-99 | `SUM(total)` over all sales with no join, 0 for none: never negative when no total is, 0 when every total is |
| Database.TotalSalesAppend | database.py:93-99 | appending a sale adds its total to `calculate_total_sales` |
| Database.Margin | database.py:106-108 | sell price - buy price of the medicine under the key now, 0 once it is gone (the inner join drops its sales) |
| Database.QuantitySold | database.py:106-108 | the units sold of one medicine over all sales |
| Database.QuantitySoldBounds | database.py:106-108 | units sold are not negative when no quantity is, and 0 for a medicine never sold |
| Database.TotalProfit | database.py:102-112 | `calculate_total_profit`: quantity x current margin summed over the sales, 0 for none |
| Database.ProfitOfMissingMedicines | database.py:106-108 | sales whose medicine is gone earn nothing: the inner join drops them |
| Database.TotalProfitAppend | database.py:102-112 | appending a sale adds quantity x its medicine's current margin to `calculate_total_profit` |
| Database.ProfitShift | database.py:105-109 | profit uses current prices: changing one medicine's margin moves the profit by its units ever sold times the change |
| Database.SameMarginsSameProfit | database.py:106-108 | the profit reads nothing of a medicine but its margin |
| Database.RevenueAfterSale | database.py:168-177 | a recorded sale adds sell price x quantity to the revenue, a refused one adds nothing |
| Database.ProfitAfterSale | database.py:168-177 | a recorded sale adds quantity x margin to the profit (the stock change alters no margin), a refused one adds nothing |
| Database.UpdatedMargins | database.py:222-225 | an edit sets its own medicine's margin to sell - buy of the form and keeps every other margin |
| Database.RepricedProfit | database.py:102-112 | repricing a medicine moves the profit by its units sold times the change in margin |
| Database.ProfitAfterPriceEdit | database.py:219-227 | `update_medicine` rewrites the profit of every past sale of that medicine by the margin change |
| Database.ProfitDropped | database.py:106-108 | a medicine whose margin falls to 0 takes the profit of all its sales with it |
| Database.ProfitAfterDelete | database.py:203-208 | deleting a medicine drops the profit of all its past sales (the inner join loses them) but keeps them in the revenue |
| Database.ExpiringThisWeek | database.py:115-126 | the count is at most the number of medicines, 0 exactly when none expires in today..weekEnd, all exactly when every one does |
| Database.ExpiringConcat | database.py:120-124 | `COUNT(*)` over two runs of rows is the sum of their counts |
| Database.ExpiringSingle | database.py:120-124 | one medicine counts exactly when today <= expiry_date <= weekEnd as TEXT; with `ExpiringConcat` this fixes the count of every table |
| Database.WorkedExample | database.py:151-181 | stock 10 at 3.00/5.00: selling 4 leaves 6, a sale of 20.00, profit 8.00; selling 20 more is refused with nothing changed |
| Database.Store.constructor | database.py:10-39 | fresh tables are empty and well keyed |
| Database.Store.FetchMedicines | database.py:56-62 | every medicine row, in strictly increasing key order |
| Database.Store.FetchCustomers | database.py:65-71 | every customer row, in strictly increasing key order |
| Database.Store.AddMedicine | database.py:129-137 | the fields become `Db.AddMedicine` of the old state |
| Database.Store.AddCustomer | database.py:140-148 | the fields become `Db.AddCustomer` of the old state |
| Database.Store.UpdateMedicine | database.py:219-227 | the fields become `Db.UpdateMedicine` of the old state |
| Database.Store.UpdateCustomer | database.py:230-239 | the fields become `Db.UpdateCustomer` of the old state |
| Database.Store.DeleteMedicine | database.py:203-208 | the fields become `Db.DeleteMedicine` of the old state |
| Database.Store.DeleteCustomer | database.py:211-216 | the fields become `Db.DeleteCustomer` of the old state |
| Database.Store.RecordSale | database.py:151-181 | the outcome and the new fields are `Db.RecordSale` of the old state |
| App.IdByName | app3.py:246 | the name map has no entry exactly when no row carries the name; an id it gives finds a row (the same dictionary over customers is app3.py:307) |
| App.IdIsLast | app3.py:246 | the dictionary comprehension keeps the id of the last row carrying the name |
| App.CheckMedicineForm | app3.py:231-240 | the add form passes exactly when name and category are not blank, both prices > 0 and stock >= 0 |
| App.MedicineChecksInOrder | app3.py:256-265 | the chain reports the first failing check in its order, and passes exactly when no check fails |
| App.MedicineMessagesDistinct | app3.py:231-265 | the add form's five messages name five different checks, and so do the update form's |
| App.SubmitNewMedicine | app3.py:230-243 | a passing form adds the medicine, a failing one changes nothing and names its check |
| App.SubmitMedicineUpdate | app3.py:244-272 | a passing form rewrites the medicine picked by name, a failing one changes nothing |
| App.ContactAccepted | app3.py:298 | the contact test as written: not blank, all digits, at least ten characters |
| App.ContactRule | app3.py:298 | the contact test passes exactly when the contact is ten or more digits (the blank test adds nothing) |
| App.CheckCustomerForm | app3.py:296-301 | the customer form passes exactly when name and address are not blank and the contact is ten or more digits |
| App.CustomerChecksInOrder | app3.py:314-319 | the chain reports the first failing check in its order, and passes exactly when no check fails |
| App.CustomerMessagesDistinct | app3.py:296-319 | the add form's three messages name three different checks, and so do the update form's |
| App.SubmitNewCustomer | app3.py:295-304 | a passing form adds the customer, a failing one changes nothing |
| App.SubmitCustomerUpdate | app3.py:305-322 | a passing form rewrites the customer picked by name, a failing one changes nothing |
| App.CartTotal | app3.py:384 | `sum(q * p for _, _, q, p in cart)`: never negative when no quantity or price is |
| App.CartTotalConcat | app3.py:384 | the cart total is the sum of the entries' subtotals in any split |
| App.RecordAll | app3.py:398-400 | submitting a cart yields one outcome per entry and keeps the store's keys well formed |
| App.RecordAllStep | app3.py:398-400 | one entry more appends the outcome of its sale on the store the earlier entries left |
| App.RecordAllNext | app3.py:398-400 | the same step, for outcomes and stores already computed |
| App.Recorded | app3.py:398-400 | the number of recorded sales is at most the entries, and all of them exactly when every outcome is a success |
| App.SaleAppendsOne | database.py:174-177 | one call appends one sale when it records and none otherwise; earlier sales stay |
| App.SubmittedSalesCount | app3.py:398-400 | a submission appends exactly one sale row per entry that went through and keeps the earlier rows |
| App.SaleKeepsPrices | database.py:172 | a sale changes no medicine's existence or sell price |
| App.SubmitKeepsPrices | app3.py:398-400 | a submission changes no medicine's existence or sell price |
| App.SubmitKeepsPrice | app3.py:398-400 | one medicine's sell price, as a submission leaves it: unchanged |
| App.EntryRevenue | app3.py:373 | an entry whose price is still current adds its subtotal to the revenue when it goes through |
| App.SubmittedRevenue | app3.py:384-400 | when every entry goes through and no price changed since it was added, the revenue grows by exactly the total the cart showed |
| App.OverfilledCart | app3.py:368-374 | two entries of one medicine that each fit the stock but not together both enter the cart, and the second sale is refused |
| App.RecordEntry | app3.py:398-400 | one pass of the loop extends the outcomes and the store exactly as `RecordAll` does |
| App.RecordEntries | app3.py:398-400 | the loop's outcomes and resulting store are `RecordAll` of the starting store |
| App.Cart.constructor | app3.py:354-355 | a new cart is empty |
| App.Cart.Add | app3.py:368-374 | an entry is added exactly when the quantity fits the snapshot's stock, with the last same-named medicine's id and current sell price; otherwise the cart is unchanged |
| App.Cart.Total | app3.py:384 | the loop returns the cart total |
| App.Cart.Submit | app3.py:391-402 | the outcomes and new store are `RecordAll` over the cart, and the cart is empty afterwards |
| App.HasPrescription | app3.py:195 | Python truth of the prescription column: not NULL and not the empty path |
| App.PrescriptionsUploaded | app3.py:195 | the count is at most the lines, 0 exactly when no line has a non-empty prescription, all exactly when every line has one |
| App.PrescriptionsConcat | app3.py:195 | the count over two runs of lines is the sum of their counts |
| App.PrescriptionsAfterSale | app3.py:195 | over `fetch_sales()`, one more sale raises the count by one exactly when its customer and medicine exist and its prescription is truthy |
| App.PrescriptionsSingle | app3.py:195 | one line counts exactly when its prescription is truthy; with `PrescriptionsConcat` this fixes the count of every listing |
| App.LowStock | app3.py:573-577 | a medicine is on the alert exactly when its stock is at most 10, inclusive |
| App.LowStockConcat | app3.py:577 | the alert over two runs of rows is the alert of the first followed by that of the second |
| App.LowStockSingle | app3.py:577 | one medicine appears once exactly when its stock is at most 10; with `App.LowStockConcat` this fixes the list, order and multiplicity included |
| App.SaleRaisesAlert | app3.py:577 | a sale that leaves a medicine at 10 or below puts its new row on the alert |
| App.RequestReport | app3.py:413-417 | start after end is refused before any query; otherwise the page lists exactly the rows of `generate_report` as written: a joined sale exactly when start <= stamp <= end as TEXT, so timed sales on the end day are missing |
| App.RequestDayReport | app3.py:413-417 | the corrected page: the same refusal, then exactly the rows of the corrected report: a joined sale exactly when its day lies from start to end |
| App.DayPageExtendsPage | app3.py:413-417 | for full stamps and 'YYYY-MM-DD' bounds the corrected page shows every line the page as written shows |

## Left out

- SQLite connections, commits and the schema's ALTER TABLE migration are not modelled; each operation is one atomic change of the tables.
- Concurrency between sessions is not modelled; each operation runs alone.
- Prices and totals are whole minor currency units (the schema keeps REAL); floating-point rounding of `price * quantity` and of the sums is not modelled.
- The clock (`datetime.now()`) is a parameter: the sale stamp of `record_sale` and, in `medicines_expiring_this_week`, today and today + 7 days as 'YYYY-MM-DD' text (calendar arithmetic is not modelled).
- The pandas DataFrame wrapping of `generate_report` and the HTML/CSV rendering of the pages are left out; the report is the list of its rows.
- The Streamlit page layout, widgets, login, the prescription upload (file write and path join) and `update_prescription_paths` are left out; the prescription path is a parameter.
- The analytics page, the expiry alert on the alerts page (`pd.to_datetime`) and the medicine recommender are left out: they are outside the store's behaviour.
- The delete handlers of the manage pages are only the store's delete operations picked by name; they add no check of their own.
- App.ContactRule: `str.isdigit` is modelled as the ASCII digits '0'-'9'; Python also accepts other Unicode digits.
- Text.IsDigits: accepts only the ASCII digits '0'-'9'; Python's `str.isdigit` also accepts other Unicode digits (Arabic-Indic, superscripts and the like), which the model treats as non-digits.
- App.ContactAccepted: built on `Text.IsDigits`, so a contact of ten non-ASCII Unicode digits such as "١٢٣٤٥٦٧٨٩٠", which app3.py:298 accepts, is rejected here.
- App.CheckCustomerForm: inherits the ASCII-only digit test, so it answers `InvalidContact` for a contact of ten non-ASCII Unicode digits that the page accepts.
- App.IdByName: the selection requires the chosen name to exist, so the KeyError an empty table raises on the update pages is not modelled (the sale page refuses empty tables at app3.py:340-341).
- App.SubmitMedicineUpdate: requires the selected name to exist; the crash on an empty table is not modelled.
- App.SubmitCustomerUpdate: requires the selected name to exist; the crash on an empty table is not modelled.
- App.Cart.Add: requires the selected name to exist and quantity >= 1, as the widgets guarantee.
- App.RequestReport: the date pickers' `sd > ed` is compared as 'YYYY-MM-DD' text, which agrees with the date comparison for four-digit years.
- Database.Store.FetchMedicines: returns the rows in key order; SQLite's unordered `SELECT` returns them so in practice, but SQL does not promise an order without ORDER BY.
- Database.Store.FetchCustomers: returns the rows in key order, under the same assumption.
- Database.FetchSales: lists the joined lines in sale (rowid) order; SQLite's join without ORDER BY returns them so in practice, but SQL does not promise an order.
- Database.GenerateReport: lists its rows in sale (rowid) order under the same assumption; so does `Database.GenerateDayReport`.
- Dates are TEXT throughout; no calendar validity is checked, as in the store.

## Findings

| source | as written | input that shows it | evidently intended | confidence | as-written member | corrected member |
|---|---|---|---|---|---|---|
| database.py:196 | `s.date BETWEEN start AND end` compares 'YYYY-MM-DD HH:MM:SS' stamps with 'YYYY-MM-DD' bounds as TEXT, so every sale made on the end day sorts above the end bound and is dropped | one sale stamped '2024-05-10 09:30:00', report for start = end = '2024-05-10': empty | the report lists the sales made on any day from start to end, the end day included | not executed | Database.EndDayDropped | Database.DayReportMembers |

The report page as written (`App.RequestReport`) shows the as-written report; `App.RequestDayReport` is the page with the corrected report, and `App.DayPageExtendsPage` shows it loses no line the page as written shows.
