# Inventory, sales and expenses tracker: the sale rule and the dashboard figures

This project models the logic at the centre of a small single-owner business tracker
written as one React component file (`src/App.jsx`). The tracker keeps a product
catalogue, records sales against stock and tracks expenses, all in a hosted document
store. The model covers three pieces of it:

* **Recording a sale** (`SalesManager.handleSubmit`). A request names a product and a
  number of units. Three checks run in order and the first that fails decides the
  error: a product must be selected, it must exist in the product snapshot, and its
  stock must cover the request. On success a sale is built from the product's name and
  prices at that moment. Two writes follow: the sale is appended, then the product's
  stock is set to its old value less the units sold. This is the class
  `SaleRecording.Ledger`, whose fields are the product snapshot and the sales
  collection. Its method `RecordSale` changes both in place and is specified against
  the pure functions `Validate`, `NewSale` and `SellFrom`. The method
  `SaleRecording.WheyScenario` states three example requests against a ledger and
  proves their outcomes: one successful sale, one refused for lack of stock, and one
  refused because the stock is negative.
* **The dashboard figures** (`Dashboard`): total revenue, gross profit and expenses as
  sums, net profit as their difference, and the low-stock list. The low-stock list
  holds the products with at most five units, sorted by quantity with a stable sort.
* **The list orderings**: sales and expenses newest first by the seconds of their
  timestamps, and the sale form's product picker, which offers only products with
  stock.

Modules: `Wrappers` (Option, Result), `Records` (Product, Sale, Expense, Timestamp),
`Decimal` (how a whole number is rendered inside a message, and its inverse),
`Sequences` (the `reduce`/`filter`/`sort` laws the rest relies on), `SaleRecording`,
`Dashboard` and `Orderings`.

How the model represents the source:

* Money is integer cents, so every sum and difference is exact. Quantities are
  integers.
* The session check (`!db || !userId`) is the boolean `sessionReady`. The source folds
  it into the first check, so it also yields "Selecione um produto.".
* The store's outcome for the two writes comes in as `saleWritten` and `stockWritten`.
  If the first write fails, nothing changes. If the first succeeds and the second
  fails, the sale stays recorded, the stock is unchanged, and the generic error is
  returned. This is what the source's `try`/`catch` around two separate `await`s does.
  `HalfWrittenSaleCountsUnitsTwice` shows the consequence: stock plus units sold no
  longer adds up. The source does not make the two writes atomic, and the model
  follows it.
* `products.find` is `FindById`, which returns the first match. The ledger invariant
  asks for distinct ids, as store document ids are. It does not ask for non-negative
  stock. The product form's stock field has no lower bound, so a negative quantity
  can reach the snapshot, and the sale rule then refuses every request for it with
  a message naming that negative count.
* `Array.prototype.sort` with a numeric comparator is `Sequences.SortBy`, a stable
  insertion sort by an integer key. `StableSortIsSortBy` proves that every stable sort
  returns the same list, so the choice of algorithm does not matter. Newest first
  sorts by the key `-seconds`.
* The source's comparator for sales and expenses reads `date.seconds` and would throw
  on a record that has no timestamp yet. It does not sort such a record last. The
  model gives every record a timestamp.

## Model

| member | source | states |
|---|---|---|
| SaleRecording.Ledger.RecordSale | src/App.jsx:281-334 | The checks run in order, and a failing check changes neither the products nor the sales. On success the sale built from the product is appended and that product's stock drops by exactly the units sold, with no other product changed. A failed sale write changes nothing. A failed stock write after a successful sale write keeps the sale and leaves the stock. Product ids stay distinct. A snapshot whose stock was non-negative stays non-negative. |
| SaleRecording.Ledger.constructor | src/App.jsx:249-253 | A ledger starts from any product snapshot with distinct ids, plus a sales list. Negative stock is allowed, because the product form accepts it. |
| SaleRecording.Validate | src/App.jsx:284-300 | Each outcome holds exactly when its condition holds. "No product selected" iff the session is not ready or the id is empty. "Not found" iff that check passed and no product has the id. "Insufficient stock" iff the found product has fewer units than requested, and the error carries that product's quantity. Success iff the stock covers the request, with the position of the first product with the id. Never a store error. |
| SaleRecording.FindById | src/App.jsx:289 | Returns the first position whose product has the requested id. Returns none exactly when no product has it. |
| SaleRecording.NewSale | src/App.jsx:302-316 | Product id, name, sale price and cost price are copied from the product. Quantity and date come from the request. Revenue is price times units, cost is cost price times units, and profit is their difference, which equals margin times units. |
| SaleRecording.SellFrom | src/App.jsx:324-327 | The sold product's quantity becomes its old quantity less the units sold. Every other product and the length are unchanged. |
| SaleRecording.SellFromKeepsSnapshotValid | src/App.jsx:297-327 | Selling no more than the stock leaves the sold product at 0 or more and keeps the ids distinct. A snapshot with no negative stock keeps none. |
| SaleRecording.ErrorMessage | src/App.jsx:285-332 | The form shows one text per error. Only the insufficient-stock message carries a number: reading it back between the fixed prefix and suffix gives exactly the available quantity, negative values included. The other messages carry none. |
| SaleRecording.StockMessageReadsBack | src/App.jsx:298 | The count written into the insufficient-stock text reads back as exactly that count. |
| SaleRecording.ErrorMessageIsInjective | src/App.jsx:285-332 | Different errors are shown as different messages. |
| SaleRecording.RecordedSaleConservesUnits | src/App.jsx:321-327 | After both writes of a sale, stock plus units sold is unchanged for every product id. |
| SaleRecording.HalfWrittenSaleCountsUnitsTwice | src/App.jsx:318-333 | When the sale write succeeds and the stock write does not, stock plus units sold for the product grows by the units sold. |
| Decimal.ParseIntOfIntToDecimal | src/App.jsx:298 | The decimal rendering of any integer reads back as that integer. |
| Dashboard.ComputeStats | src/App.jsx:72-78 | Net profit is gross profit minus expenses. Revenue and profit are 0 for no sales, expenses are 0 for no expenses, and all four figures are 0 for empty snapshots. |
| Dashboard.StatsOfOne | src/App.jsx:73-77 | For one sale and one expense, revenue is the sale's revenue, gross profit its profit, expenses the expense's amount, and net profit their difference. |
| Dashboard.StatsAfterOneMore | src/App.jsx:73-77 | One more sale adds its revenue and profit to the totals. One more expense adds its amount to expenses and subtracts it from net profit. With the empty case, this makes each figure the sum of its field. |
| Dashboard.StatsAddUp | src/App.jsx:73-77 | Each figure for two snapshots joined together is the sum of the figures for each. |
| Dashboard.StatsIgnoreOrder | src/App.jsx:73-75 | The figures are the same for any reordering of the sales and of the expenses. |
| Dashboard.StatsAfterRecordedSale | src/App.jsx:73-77 | Appending a recorded sale raises revenue by price times units and raises gross and net profit by margin times units. Expenses stay as they were. |
| Dashboard.NetProfitScenario | src/App.jsx:76 | A profit of 45.00 against an expense of 10.00 nets 35.00. |
| Dashboard.LowStockProducts | src/App.jsx:81 | The list holds exactly the products with quantity at most 5, in non-decreasing order of quantity. |
| Dashboard.LowStockProductsSpec | src/App.jsx:80-82 | The list holds exactly the products with quantity at most 5, as a permutation of the filtered snapshot, sorted non-decreasing by quantity. For each quantity it holds the snapshot's products with that quantity in snapshot order when the quantity is at most 5, and none otherwise. |
| Dashboard.LowStockProductsIsTheStableSort | src/App.jsx:81 | Any stable sort of the filtered products by quantity gives the same list. |
| Sequences.SumBy | src/App.jsx:73-75 | A one-element sum is that element's value. A sum of non-negative terms is non-negative. |
| Sequences.Filter | src/App.jsx:81 | Every element of the result passes the test, and the result is no longer than the input. |
| Sequences.SortBy | src/App.jsx:81 | The output has the input's length and holds only input elements. |
| Sequences.FilterCounts | src/App.jsx:81 | The result is a sub-multiset of the input. Each passing element occurs as often as in the input and nothing else occurs. |
| Sequences.FilterAppend | src/App.jsx:375 | Filtering two lists joined together gives the two filtered lists joined together, so the original order is kept. |
| Sequences.SumByPermutation | src/App.jsx:73-75 | A sum over a list is the same for any permutation of it. |
| Sequences.SortByPermutes | src/App.jsx:81 | The sort returns a permutation of its input. |
| Sequences.SortByIsStableSort | src/App.jsx:81 | The sort output is non-decreasing by key. For every key, the elements with that key keep their input order. |
| Sequences.StableSortIsSortBy | src/App.jsx:260 | Any list that is sorted and stable with respect to the input is exactly the model's sort. |
| Orderings.SalesNewestFirst | src/App.jsx:260 | The sales list is a permutation of the snapshot, non-increasing by timestamp seconds. |
| Orderings.ExpensesNewestFirst | src/App.jsx:400 | The expenses list is a permutation of the snapshot, non-increasing by timestamp seconds. |
| Orderings.SalesNewestFirstSpec | src/App.jsx:260 | The sales list is a permutation of the snapshot, non-increasing by timestamp seconds. Sales stamped in the same second keep their snapshot order. |
| Orderings.ExpensesNewestFirstSpec | src/App.jsx:400 | The expenses list is a permutation of the snapshot, non-increasing by timestamp seconds. Same-second expenses keep their snapshot order. |
| Orderings.SaleRankPicksSecond | src/App.jsx:260 | The comparator's key ties exactly the sales stamped in the same second, so "stable under the key" means "same-second sales keep their order". |
| Orderings.ExpenseRankPicksSecond | src/App.jsx:400 | The comparator's key ties exactly the expenses stamped in the same second. |
| Orderings.SalePickerOptions | src/App.jsx:375 | Every offered product has stock above 0. The options are a sub-multiset of the snapshot. |
| Orderings.SalePickerOptionsSpec | src/App.jsx:375 | The picker offers exactly the products with quantity above 0, each as often as in the snapshot, in snapshot order. A snapshot whose products all have stock is offered unchanged. |
| Orderings.PickerOptionsCanBeSold | src/App.jsx:375-377 | Every offered product passes the checks for a one-unit sale. |

## Left out

- Store setup, sign-in and live subscriptions (src/App.jsx:130-138, 255-263, 395-403, 512-577). These are asynchronous calls into a hosted service. Each snapshot is an input list instead, and the writes' outcomes are inputs to `RecordSale`.
- Timing between the two writes of a sale. The model treats each outcome of the pair as one state change. Other clients' writes arriving between the two `await`s are not modelled.
- The underlying cause of a failed write, which the source only logs to the console. The model returns one generic persistence error, shown as "Ocorreu um erro. Tente novamente.".
- The form's `error` state and modal handling (`setError`, `handleCloseModal`). The result of `RecordSale` is the error, and `ErrorMessage` gives the text shown.
- Product and expense create, edit and delete handlers (src/App.jsx:157-194, 417-445). They are single store writes with no logic of their own.
- Floating-point money, `parseFloat`/`parseInt` on form text, `toFixed(2)` and date rendering. Money is integer cents, and the requested quantity arrives already parsed.
- SaleRecording.Ledger.RecordSale: requires at least one unit. The source itself does not check this. Only the form field's `min="1"` enforces it.
- Records without a timestamp. The source's comparator would throw on such a record, and the model gives every record one.
- Sale and expense document ids. The store assigns them and the core never reads them.
- All rendering, icons, `Modal`, `StatCard`, navigation, and src/main.jsx. These are presentation and bootstrap code.
