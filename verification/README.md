# Inventory, cash reconciliation and point of sale — a Dafny model

This project models the business core of a multi-project Laravel backend in Dafny. It covers two applications.

The inventory application ("Inventario"):
- the append-only movement ledger and the stock table it maintains (`createMovement`);
- the weighted-average cost;
- the per-day transaction numbers;
- the product and location catalogs, with their uniqueness rules and the delete guards over stock;
- the daily cash reconciliation ("cuadre"): its derived columns, the opening balance carried from the latest closed day, the count of bills and coins, and the open → closed state machine.

The point of sale ("Matamares") and the API administration:
- recording a sale with its lines and stock decrements;
- the yearly invoice numbers;
- the day's statistics and the three reports;
- account and role administration, with the guards that keep an administrator in place, protect system roles and stop a user from deleting or deactivating themself.

Each controller action is a pure function from the tables it reads to `Result<new tables>`. Every error is one of these HTTP answers:

| error | status | where it comes from |
|---|---|---|
| `ValidationFailed` | 422 | the request validator |
| `NotFound` | 404 | route-model binding, `findOrFail` |
| `BadRequest` | 400 | |
| `Refused` | 422 | an explicit refusal |
| `Unauthenticated` | 401 | |
| `ServerError` | 500 | an exception caught by the action, or an uncaught database error |

Tables are sequences in id order, or maps keyed by id. Ids, the clock, the current user and password hashing are parameters.

Modules, one per file:
- `Wrappers`: `Option`, `Result` and the error codes.
- `Digits`: decimal text and `str_pad`.
- `Aggregate`: `sum`, `groupBy`, `sortByDesc` and `take`, as the collections use them.
- `Inventory`: the inventory entities.
- `Ledger`: `createMovement`, both as evidently intended and as the tables are declared (see Findings).
- `Catalog`: the Location and Product controllers.
- `Cuadres`: the cuadre model and its controller.
- `Invoice`: invoice numbers.
- `Sales`: the SaleController.
- `Reports`: the ReportController.
- `UserAdmin`: the API UserController.
- `RoleAdmin`: the API RoleController.
- `Staff`: the point-of-sale UserController.

## Model

| member | source | states |
|---|---|---|
| Inventory.SeededTypesTable | database/seeders/TransactionTypesSeeder.php:13-101 | every seeded transaction type is plain inbound or outbound, and exactly PURCHASE, SALE, PRODUCTION and CONSUMPTION affect the average cost |
| Inventory.FindRow | database/inventario/migrations/2024_01_01_000008_create_inventory_stock_table.php:31 | finds the row of a (product, location) pair, the last one when there are several, and reports absence exactly when no row has the pair |
| Inventory.FindRowAt | database/inventario/migrations/2024_01_01_000008_create_inventory_stock_table.php:31 | a matching row with no later match is the row found |
| Inventory.Upsert | app/Projects/Inventario/Controllers/InventoryController.php:187-195 | firstOrCreate-then-save either overwrites the pair's row or appends one; every row of another pair is unchanged, and any row not of the pair was already there |
| Inventory.UpsertFinds | app/Projects/Inventario/Controllers/InventoryController.php:187-195 | after the upsert, the pair's row is found and holds the written row |
| Inventory.UpsertKeepsOneRowPerPair | database/inventario/migrations/2024_01_01_000008_create_inventory_stock_table.php:31 | the upsert keeps the unique (product, location) key |
| Ledger.StoredQuantity | app/Projects/Inventario/Controllers/InventoryController.php:198-203 | the stored quantity is the request or its negation. It is positive iff the request is positive and the category is not OUT or ADJUSTMENT; it is negative iff the request is negative or is a positive outbound request |
| Ledger.WeightedAverageConservesValue | app/Projects/Inventario/Controllers/InventoryController.php:237-248 | the new average times the new quantity equals the old stock value plus the incoming value |
| Ledger.WeightedAverageFromEmpty | app/Projects/Inventario/Controllers/InventoryController.php:240-246 | from an empty position, the new average is the incoming unit cost |
| Ledger.WeightedAverageBetween | app/Projects/Inventario/Controllers/InventoryController.php:237-248 | with a non-negative prior quantity, the new average lies between the old average and the incoming cost |
| Ledger.TransactionNumberInjective | app/Projects/Inventario/Controllers/InventoryController.php:213-217 | two TXN numbers with same-length day stamps are equal only when day and sequence both are |
| Ledger.WellNumberedUnique | database/inventario/migrations/2024_01_01_000010_create_inventory_movements_table.php:51 | numbering each movement by the organization's count for its day makes transaction numbers unique per organization |
| Ledger.CreateMovement | app/Projects/Inventario/Controllers/InventoryController.php:159-266 | the action with its two inserts working, as evidently intended (see Findings). Validation failure iff the request is invalid; 400 iff a valid request on owned rows would leave a negative balance; 500 iff a valid request names a product or location of another organization or a stock row held by another, or would succeed but leaves out reference_type, reference_id or notes, which the controller reads unguarded; success in every remaining case. On success: the signed quantity; balance before and after; the TXN number from the day's count; the reference and notes as sent; the movement appended; catalogs unchanged |
| Ledger.CreateMovementAsWritten | app/Projects/Inventario/Controllers/InventoryController.php:187-264 | the action as the tables are declared: it never succeeds. 422 iff the request is invalid; 400 iff the pair already has an owned row and the balance would go negative; 500 in every other case, because inserting a new stock row writes the missing created_at and inserting the movement writes the missing updated_at |
| Ledger.AsWrittenRefusesEveryMovement | app/Projects/Inventario/Controllers/InventoryController.php:187-264 | every movement the corrected action records, and every valid request on a pair without a stock row, is a 500 as written; where the as-written action answers 400 the corrected one does too |
| Ledger.AsWrittenRefusesFirstReceipt | app/Projects/Inventario/Controllers/InventoryController.php:187-264 | a concrete receipt of one unit, first on a new pair and then onto the row it created: the corrected action records both, and as written both are answered 500 |
| Ledger.CreateMovementStock | app/Projects/Inventario/Controllers/InventoryController.php:187-253 | for the corrected action: the pair's row (all-zero when new) holds the balance after and keeps its reservation. Its average cost is the weighted average only for cost-affecting inbound moves. Every other row is unchanged |
| Ledger.StockStep | app/Projects/Inventario/Controllers/InventoryController.php:205-253 | appending a movement and upserting its row at the balance after keeps: one row per pair, no negative row, and every row equal to the net of its movements |
| Ledger.NumberStep | app/Projects/Inventario/Controllers/InventoryController.php:213-217 | appending a movement numbered from the day's count keeps the ledger well numbered |
| Ledger.CreateMovementPreservesValid | app/Projects/Inventario/Controllers/InventoryController.php:159-266 | the corrected createMovement keeps every ledger invariant: one row per pair, no negative quantity, each row the net of its movements, numbers from the day's count |
| Ledger.ValidNumbersUnique | database/inventario/migrations/2024_01_01_000010_create_inventory_movements_table.php:51 | a valid ledger never breaks the (organization, transaction number) unique key |
| Ledger.InsufficientStockRejected | app/Projects/Inventario/Controllers/InventoryController.php:187-210 | an owned outbound request larger than the balance is answered 400 by the corrected action. As written it is 400 when the pair has a row, and 500 when it has none, because the first row's insert fails before the balance check |
| Catalog.KeepRows | database/inventario/migrations/2024_01_01_000008_create_inventory_stock_table.php:28-29 | the cascade keeps exactly the rows that pass the filter, never more copies than the table holds, and all of them when every row passes |
| Catalog.KeepRowsAppend | database/inventario/migrations/2024_01_01_000008_create_inventory_stock_table.php:28-29 | filtering a concatenation concatenates the filtered parts, so kept rows stay in table order |
| Catalog.KeepRowsOneRowPerPair | database/inventario/migrations/2024_01_01_000008_create_inventory_stock_table.php:28-31 | the cascade keeps the stock table's unique key |
| Catalog.KeepRowsNonEmpty | app/Projects/Inventario/Controllers/LocationController.php:145-148 | the filtered rows are non-empty iff some row passes |
| Catalog.LocationStore | app/Projects/Inventario/Controllers/LocationController.php:82-105 | 422 iff the request breaks a rule (name, type in the six kinds, code of at most 50 characters unique in the organization); 500 iff a valid request sends settings as null, which the NOT NULL json column refuses, or reuses a key; success otherwise. On success exactly the new location is added: name, type, code and address as sent, active and settings `{}` unless sent, and nothing else in the state changes |
| Catalog.LocationUpdate | app/Projects/Inventario/Controllers/LocationController.php:110-133 | 404 iff the location is not the organization's; 422 iff the input is invalid; 500 iff a valid input sends settings as null; success otherwise. On success the location becomes the input applied to it (each of name, code, address, type, active and settings changes only when supplied), the organization is kept, and the other locations, products, stock, ledger and movement types are unchanged |
| Catalog.LocationApplyIdempotent | app/Projects/Inventario/Controllers/LocationController.php:110-133 | an update that supplies no field changes nothing, and the same update sent twice gives what it gives once |
| Catalog.LocationStoreKeepsUniqueCodes | app/Projects/Inventario/Controllers/LocationController.php:86-98 | creation keeps location codes unique per organization |
| Catalog.LocationUpdateKeepsUniqueCodes | app/Projects/Inventario/Controllers/LocationController.php:114-130 | the update keeps location codes unique, ignoring the location's own code |
| Catalog.LocationDestroy | app/Projects/Inventario/Controllers/LocationController.php:138-153 | 404 iff not owned; 400 iff some row of the location holds stock; 500 iff no row holds stock but some movement names the location, which its foreign key refuses; success otherwise. On success the location is gone, its stock rows are dropped by the cascade and every other row is kept in order, and products, ledger and types are unchanged |
| Catalog.ProductDestroy | app/Projects/Inventario/Controllers/ProductController.php:175-190 | 404 iff not owned; 400 iff some row of the product holds stock; 500 iff no row holds stock but some movement names the product; success otherwise. On success the product is gone, its stock rows are dropped and every other row is kept in order, and locations, ledger and types are unchanged |
| Catalog.DropRowsKeepsValid | database/inventario/migrations/2024_01_01_000010_create_inventory_movements_table.php:46-47 | dropping rows the ledger never names keeps every ledger invariant |
| Catalog.ProductDestroyKeepsValid | app/Projects/Inventario/Controllers/ProductController.php:175-190 | deleting a product keeps the ledger invariants |
| Catalog.LocationDestroyKeepsValid | app/Projects/Inventario/Controllers/LocationController.php:138-153 | deleting a location keeps the ledger invariants |
| Catalog.LocationStatsOf | app/Projects/Inventario/Controllers/LocationController.php:52-77 | 404 iff not owned; 500 iff a stocked row of the location names a product the catalog lacks; success otherwise, with at most as many low-stock products as stocked products |
| Catalog.DestroyRefusedIffStocked | app/Projects/Inventario/Controllers/LocationController.php:56-74 | a location is refused deletion iff its statistics count a stocked product |
| Catalog.EmptyLocationStats | app/Projects/Inventario/Controllers/LocationController.php:56-74 | a location holding nothing has all-zero statistics |
| Catalog.ProductStore | app/Projects/Inventario/Controllers/ProductController.php:80-123 | 422 iff invalid: SKU, name, unit type and unit name required; SKU unique per organization; category and supplier existing when given; unit precision 0..4; prices, stocks and reorder amounts at least 0; currency of 3 letters; shelf life at least 1 day. 500 iff a valid request sends attributes as null (NOT NULL json column) or reuses a key. On success exactly the new product is added: the supplied fields over the table defaults (precision 2, prices 0, USD, minimum 0, active, attributes `{}`), the current user as creator, and nothing else changes |
| Catalog.ProductUpdate | app/Projects/Inventario/Controllers/ProductController.php:128-170 | 404 iff not owned; 422 iff a supplied field breaks its rule (the same rules as creation, SKU unique ignoring the product itself); 500 iff a valid input sends attributes as null; success otherwise. On success the product becomes the input applied to it, keeps its organization, and other products, stock, locations and ledger are unchanged |
| Catalog.EmptyInputChangesNothing | app/Projects/Inventario/Controllers/ProductController.php:128-170 | an update with no fields leaves the product as it was |
| Catalog.ApplyKeepsOmitted | app/Projects/Inventario/Controllers/ProductController.php:132-166 | each of the twenty-four fillable fields takes the supplied value when present and keeps its value when omitted; the organization and the creator never change |
| Catalog.ApplyTwice | app/Projects/Inventario/Controllers/ProductController.php:132-166 | sending the same update twice gives the same product as sending it once |
| Catalog.ProductStoreKeepsUniqueSkus | database/inventario/migrations/2024_01_01_000007_create_products_table.php:61 | creation keeps SKUs unique per organization |
| Catalog.ProductUpdateKeepsUniqueSkus | app/Projects/Inventario/Controllers/ProductController.php:132-166 | updates keep SKUs unique per organization |
| Catalog.LowStock | app/Projects/Inventario/Controllers/ProductController.php:195-208 | lists exactly the active products of the organization that have some stock row at or under their minimum |
| Catalog.LowStockListsLowRows | app/Projects/Inventario/Controllers/ProductController.php:199-205 | a product with a row at or under its minimum is listed iff it is an active product of the organization |
| Catalog.NeverStockedNotLow | app/Projects/Inventario/Controllers/ProductController.php:199-205 | a product with no stock row is never listed, whatever its minimum |
| Catalog.Search | app/Projects/Inventario/Controllers/ProductController.php:41-48 | lists exactly the organization's products whose name, SKU or barcode contains the term ignoring case |
| Catalog.SearchIgnoresTermCase | app/Projects/Inventario/Controllers/ProductController.php:41-48 | ILIKE ignores the case of the term |
| Catalog.EmptyTermMatchesAll | app/Projects/Inventario/Controllers/ProductController.php:41-48 | the empty term matches every product of the organization |
| Catalog.NameFound | app/Projects/Inventario/Controllers/ProductController.php:41-48 | a product whose name equals the term up to case is found |
| Catalog.SubstringFound | app/Projects/Inventario/Controllers/ProductController.php:41-48 | a term written inside a product's name, SKU or barcode finds that product |
| Catalog.Transfer | app/Projects/Inventario/Controllers/LocationController.php:187-215 | 422 iff invalid (distinct existing locations, an existing product, quantity at least 0.01, notes of at most 500 characters); 404 iff either location is foreign; success otherwise, with a pending receipt naming both ends and no state change |
| Catalog.TransferIgnoresProductOwner | app/Projects/Inventario/Controllers/LocationController.php:191-204 | a product of another organization passes as long as both locations are ours |
| Catalog.TransferReversible | app/Projects/Inventario/Controllers/LocationController.php:187-215 | a transfer and its reverse are accepted or refused together, and the reverse receipt swaps the two location names |
| Cuadres.Reconciliation | database/inventario/migrations/2024_01_01_000015_create_cuadres_table.php:25-27 | the computed balance is the opening balance plus income minus expenses. The difference is null iff nothing was counted, and otherwise the count minus the computed balance |
| Cuadres.NewCuadreDefaults | database/inventario/migrations/2024_01_01_000015_create_cuadres_table.php:18-29 | a row with the table defaults balances to zero, has no difference and is open |
| Cuadres.WithFlag | app/Projects/Inventario/Models/Cuadre.php:106-117 | the abiertos and cerrados scopes keep exactly the rows with the flag |
| Cuadres.ScopesPartition | app/Projects/Inventario/Models/Cuadre.php:106-117 | the open and closed scopes partition the table as multisets |
| Cuadres.ByFecha | app/Projects/Inventario/Models/Cuadre.php:98-101 | the byFecha scope keeps exactly the rows of that day |
| Cuadres.ByFechaOnePerOrg | database/inventario/migrations/2024_01_01_000015_create_cuadres_table.php:40 | under the unique key, an organization has at most one row per day |
| Cuadres.LatestClosed | app/Projects/Inventario/Controllers/CuadreController.php:23-26 | picks a closed row of the organization no earlier than any other, or reports that there is none |
| Cuadres.SaldoAnteriorIsLatest | app/Projects/Inventario/Controllers/CuadreController.php:18-38 | the opening balance is the counted cash (or, when nothing was counted, the computed balance) of the latest closed day, and 0 when there is none |
| Cuadres.SaldoAnteriorIgnores | app/Projects/Inventario/Controllers/CuadreController.php:23-33 | open rows and rows of other organizations never move the opening balance |
| Cuadres.CountedCentsIsValue | app/Projects/Inventario/Controllers/CuadreController.php:168-181 | the controller's thirteen-term sum is face value times count over every denomination |
| Cuadres.OneMorePiece | app/Projects/Inventario/Controllers/CuadreController.php:168-181 | counting one more piece adds exactly its face value |
| Cuadres.CountExample | app/Projects/Inventario/Controllers/CuadreController.php:168-181 | a count of one 100 bill, one 50 bill, two quarters and nothing else is 150.50 |
| Cuadres.Store | app/Projects/Inventario/Controllers/CuadreController.php:123-217 | 401 iff no user; 422 iff invalid; every other failure is a 500, and a 500 happens exactly for an incomplete count, an absent observaciones field, or a duplicate day or id. On success it appends a closed row stamped with the user, no income or expenses, the client's opening balance, the counted cash and the client's observaciones |
| Cuadres.StoreIgnoresClientTotal | app/Projects/Inventario/Controllers/CuadreController.php:168-200 | the client's own total of the count does not affect the result |
| Cuadres.StoreKeepsKeys | database/inventario/migrations/2024_01_01_000015_create_cuadres_table.php:40 | store keeps the table's keys |
| Cuadres.StoreCarriesForward | app/Projects/Inventario/Controllers/CuadreController.php:18-38 | a day stored after all others becomes the next opening balance: the counted cash carries forward |
| Cuadres.EstadisticasDia | app/Projects/Inventario/Controllers/CuadreController.php:43-80 | a day without a row has all-zero statistics |
| Cuadres.EstadisticasMatchRecord | app/Projects/Inventario/Controllers/CuadreController.php:59-75 | the day's figures equal the record's accessors, and the difference is how far the day moved the balance |
| Cuadres.ValidarFecha | app/Projects/Inventario/Controllers/CuadreController.php:222-255 | 400 iff the date is missing. Valid iff no row of the organization has that day, and then no existing row is returned |
| Cuadres.ValidarFechaPredictsStore | app/Projects/Inventario/Controllers/CuadreController.php:222-255 | a date the check calls valid can be stored, and a taken one makes the store fail |
| Cuadres.Update | app/Projects/Inventario/Controllers/CuadreController.php:286-320 | 404 iff not found; 400 iff the record is closed, before validation; 422 iff an open record gets an invalid patch. The stored record is the patch applied to the old one, apart from the stamps. Other rows, the day and the creator are kept; closing stamps the closing user and time |
| Cuadres.PatchFields | app/Projects/Inventario/Controllers/CuadreController.php:297-318 | each of the ten updatable fields takes the supplied value and keeps its old value when omitted; keys, creator and stamps are untouched |
| Cuadres.UpdateOpenSucceeds | app/Projects/Inventario/Controllers/CuadreController.php:290-320 | a valid patch to an open record of the organization always succeeds, and an empty patch leaves the table unchanged |
| Cuadres.Destroy | app/Projects/Inventario/Controllers/CuadreController.php:325-339 | 404 iff not found; 400 iff closed; otherwise exactly that row is removed |
| Cuadres.ClosedIsTerminal | app/Projects/Inventario/Controllers/CuadreController.php:293-295 | a closed record refuses every update and deletion |
| Cuadres.StoredIsTerminal | app/Projects/Inventario/Controllers/CuadreController.php:184-200 | a record that store created can never be updated or deleted |
| Cuadres.ClosingIsTerminal | app/Projects/Inventario/Controllers/CuadreController.php:311-316 | once an update closes a record, later updates and deletions are refused |
| Cuadres.UpdateKeepsKeys | database/inventario/migrations/2024_01_01_000015_create_cuadres_table.php:40 | update keeps the table's keys |
| Cuadres.DestroyKeepsKeys | database/inventario/migrations/2024_01_01_000015_create_cuadres_table.php:40 | destroy keeps the table's keys |
| Digits.ZeroPaddedRoundTrip | app/Models/Sale.php:93 | a zero-padded number reads back as that number |
| Digits.ZeroPaddedInjective | app/Models/Sale.php:93 | distinct numbers never share a padded text |
| Invoice.InvoiceNumberWidth | app/Models/Sale.php:93 | padding never truncates: at least three digits, and at least four from 1000 on |
| Invoice.InvoiceNumberInjective | app/Models/Sale.php:93 | the sequence number is determined by the invoice number |
| Invoice.NextAsWrittenWraps | app/Models/Sale.php:91 | the as-written successor of sequence n is n mod 1000 + 1 |
| Invoice.AsWrittenRepeatsFirstNumber | app/Models/Sale.php:84-94 | after a multiple of 1000 invoices in a year, the as-written rule hands out the year's first number again |
| Invoice.NextAfter | app/Models/Sale.php:84-94 | the corrected successor of sequence n is n + 1, for every n |
| Invoice.NextKeepsConsecutive | app/Models/Sale.php:84-94 | the corrected rule continues the year's numbering 1, 2, 3, … without a gap |
| Invoice.NextIsSuccessor | app/Models/Sale.php:84-94 | after a gap-free run of m numbers the corrected rule hands out number m + 1 |
| Invoice.ConsecutiveDistinct | app/Models/Sale.php:84-94 | numbers handed out by the corrected rule are pairwise distinct |
| Invoice.NextIsFresh | app/Models/Sale.php:84-94 | the corrected next number is never already issued |
| Invoice.RulesAgreeBelowWrap | app/Models/Sale.php:91 | both rules agree while the year has fewer than 1000 invoices |
| Sales.Lines | app/Projects/Matamares/Controllers/SaleController.php:124-131 | one line per requested item, in order, with total price = quantity × unit price |
| Sales.Decrement | app/Projects/Matamares/Controllers/SaleController.php:133-135 | each product becomes itself with its stock lowered by the sum of its lines' quantities, all its other fields kept; no product is added or lost |
| Sales.Store | app/Projects/Matamares/Controllers/SaleController.php:92-167 | 422 iff invalid. Otherwise exactly one sale and its lines are appended: the next id, the next invoice number of the year, the client's totals, tax and discount defaulting to 0, status completada |
| Sales.StoreStock | app/Projects/Matamares/Controllers/SaleController.php:133-135 | each product's stock drops by exactly what the request carries for it |
| Sales.StockCanGoNegative | app/Projects/Matamares/Controllers/SaleController.php:94-135 | stock is not checked: selling two of a product with one on hand succeeds and leaves -1 |
| Sales.StorePreservesValid | app/Projects/Matamares/Controllers/SaleController.php:111-131 | store keeps ids in order, every line belonging to a sale, and every year's invoices numbered 1, 2, 3, … |
| Sales.InvoiceNumbersUnique | app/Models/Sale.php:84-94 | in a valid shop a year's invoice numbers are distinct, and the next one is fresh |
| Sales.SalesOn | app/Projects/Matamares/Controllers/SaleController.php:221-225 | keeps exactly the sales of the day |
| Sales.LinesOf | app/Projects/Matamares/Controllers/SaleController.php:232-245 | keeps exactly the lines of the sale |
| Sales.Tally | app/Projects/Matamares/Controllers/SaleController.php:232-245 | each product once, in first-appearance order, with the sum of its quantities |
| Sales.TopProducts | app/Projects/Matamares/Controllers/SaleController.php:232-250 | five distinct products of the lines, or all of them when fewer were sold, best sellers first, each with its name and summed quantity. No product left out sold more than one listed |
| Sales.TodayStats | app/Projects/Matamares/Controllers/SaleController.php:219-260 | 500 iff a line's product is gone. Otherwise the count and revenue of the day's sales, the average ticket (0 without sales), and the best sellers |
| Aggregate.SelectMembers | app/Projects/Matamares/Controllers/ReportController.php:87-98 | grouping by a key keeps exactly the members of that key |
| Aggregate.GroupBySum | app/Projects/Matamares/Controllers/ReportController.php:38-58 | the per-group sums of groupBy add up to the total: nothing is lost or counted twice |
| Aggregate.InsertDesc | app/Projects/Matamares/Controllers/SaleController.php:246-249 | inserting into a descending sequence keeps it descending and adds exactly the element |
| Aggregate.SortDesc | app/Projects/Matamares/Controllers/SaleController.php:246-249 | sortByDesc returns a descending permutation of its input |
| Aggregate.Take | app/Projects/Matamares/Controllers/ReportController.php:104-107 | take(n) is the prefix of length min(n, size) |
| Aggregate.TakeSortedDominates | app/Projects/Matamares/Controllers/ReportController.php:104-107 | an element that did not make the cut has a key no larger than any taken one |
| Reports.InPeriod | app/Projects/Matamares/Controllers/ReportController.php:29 | keeps exactly the sales between the two days, both included, in id order |
| Reports.InWindow | app/Projects/Matamares/Controllers/ReportController.php:100-102 | filters by the period only when both dates are given |
| Reports.Periods | app/Projects/Matamares/Controllers/ReportController.php:38-58 | one row per group, with its label, number of sales and revenue |
| Reports.SalesReport | app/Projects/Matamares/Controllers/ReportController.php:17-74 | 422 iff the dates or granularity are invalid. Otherwise count, revenue and average of the period, with distinct period labels covering every sale and no label without a sale; each row's count and revenue are those of exactly the period's sales with its label |
| Reports.PeriodLabels | app/Projects/Matamares/Controllers/ReportController.php:38-58 | grouped rows carry distinct labels, and every sale's label appears |
| Reports.PeriodRowContents | app/Projects/Matamares/Controllers/ReportController.php:51-57 | each grouped row counts, and sums the revenue of, exactly the sales that carry its label |
| Reports.PeriodRowsOccupied | app/Projects/Matamares/Controllers/ReportController.php:51-57 | every grouped row comes from at least one sale of the period, so no row has a zero count |
| Reports.PeriodsAddUp | app/Projects/Matamares/Controllers/ReportController.php:29-58 | the period rows add up to the summary's count and revenue |
| Reports.Joined | app/Projects/Matamares/Controllers/ReportController.php:87-98 | keeps exactly the lines whose product exists and whose sale is in the window |
| Reports.ProductsReport | app/Projects/Matamares/Controllers/ReportController.php:79-127 | 422 iff the dates or the limit (1..100) are invalid. Otherwise min(limit, products) rows, best sellers first, none twice, each with its aggregate; no omitted product sold more than a listed one |
| Reports.ProductRowCounts | app/Projects/Matamares/Controllers/ReportController.php:87-98 | a product that occurs in the lines appears in at least one sale |
| Reports.SellersReport | app/Projects/Matamares/Controllers/ReportController.php:132-171 | 422 iff the dates are invalid. Otherwise one row per seller, a permutation of the per-seller rows, sorted by revenue descending |
| Reports.SellerRowFacts | app/Projects/Matamares/Controllers/ReportController.php:147-160 | a seller's row is built from exactly that seller's sales, counts them and sums their totals; without sales the average ticket is 0 |
| Reports.EverySellerListed | app/Projects/Matamares/Controllers/ReportController.php:134-160 | every seller gets a row, including sellers without sales |
| UserAdmin.FindRole | app/Http/Controllers/Api/UserController.php:131-141 | finds the first role with the name, or reports that none has it |
| UserAdmin.AssignRole | app/Http/Controllers/Api/UserController.php:129-148 | 404 for an unknown user; 422 for a missing or unknown role; 400 iff the user already holds it; success iff a known user lacks a known role. On success only that user changes: exactly the named role's id is added to its grants, recorded as granted by the actor, and every other grant is kept as it was |
| UserAdmin.AssignTwiceRefused | app/Http/Controllers/Api/UserController.php:136-141 | granting the same role again is refused |
| UserAdmin.WithoutRole | app/Http/Controllers/Api/UserController.php:153-185 | removes exactly the grants of roles with that name |
| UserAdmin.RemoveRole | app/Http/Controllers/Api/UserController.php:153-185 | 404, 422 as for assignRole. 400 iff the user lacks the role, or it is admin and at most one administrator exists; success iff a known user holds a known role that is not the last admin grant. On success only that user changes: it keeps every grant except those of roles with that name, and no longer holds the role |
| UserAdmin.WithoutOtherRoleKeepsAdmin | app/Http/Controllers/Api/UserController.php:155-178 | revoking a non-admin role never touches the admin role |
| UserAdmin.RemoveRoleKeepsAnAdmin | app/Http/Controllers/Api/UserController.php:155-178 | removeRole never removes the last administrator |
| UserAdmin.RemoveAdminAdmins | app/Http/Controllers/Api/UserController.php:155-178 | revoking admin removes exactly that account from the administrators, and only when there are at least two |
| UserAdmin.RemoveOtherAdmins | app/Http/Controllers/Api/UserController.php:155-178 | revoking any other role leaves the administrators as they were |
| UserAdmin.Destroy | app/Http/Controllers/Api/UserController.php:110-124 | 404 for an unknown user; 400 iff deleting oneself; success iff the account exists and is not the caller, and then exactly that account is removed |
| UserAdmin.DestroyByAdminKeepsAnAdmin | app/Http/Controllers/Api/UserController.php:110-124 | when the caller is an administrator, an administrator remains |
| UserAdmin.DestroyCanRemoveLastAdmin | app/Http/Controllers/Api/UserController.php:113-119 | destroy does not count administrators: a non-admin caller can delete the only one |
| UserAdmin.RoleIds | app/Http/Controllers/Api/UserController.php:52-56 | the ids of the named roles, in the order of the names |
| UserAdmin.Store | app/Http/Controllers/Api/UserController.php:35-64 | 422 iff invalid (email unique, password at least 8, every role known). Otherwise it adds exactly the account with the hashed password, holding every listed role |
| UserAdmin.StoreGrantsOnlyListed | app/Http/Controllers/Api/UserController.php:35-64 | a created account holds no role beyond those listed |
| UserAdmin.Update | app/Http/Controllers/Api/UserController.php:78-105 | 404, or 422 iff invalid. Otherwise only the supplied fields change; the password is rehashed only when given, and the roles are kept |
| UserAdmin.EmptyPatchChangesNothing | app/Http/Controllers/Api/UserController.php:80-96 | an empty update changes nothing |
| UserAdmin.StoreKeepsUniqueEmails | app/Http/Controllers/Api/UserController.php:37-43 | creation keeps emails unique |
| UserAdmin.UpdateKeepsUniqueEmails | app/Http/Controllers/Api/UserController.php:80-85 | updates keep emails unique |
| RoleAdmin.Catalogue | app/Http/Controllers/Api/RoleController.php:14-38 | the index always lists the three fixed roles administrador, gerente and cajero |
| RoleAdmin.CatalogueIds | app/Http/Controllers/Api/RoleController.php:17-33 | the catalogue ids are distinct, and none is a protected system role |
| RoleAdmin.FindRoleId | app/Http/Controllers/Api/RoleController.php:96-117 | finds the role with the id, or reports that none has it |
| RoleAdmin.WithoutId | app/Http/Controllers/Api/RoleController.php:112 | deletion keeps exactly the roles with another id, and removes at least one when the id exists |
| RoleAdmin.Destroy | app/Http/Controllers/Api/RoleController.php:96-117 | 404 for an unknown id; 400 iff the role is admin or user, or someone holds it; success iff an existing role is neither a system role nor held, and then exactly that role goes and accounts are untouched |
| RoleAdmin.SystemRolesSurvive | app/Http/Controllers/Api/RoleController.php:99-104 | the admin and user roles survive every deletion |
| RoleAdmin.DestroyKeepsGrantsResolving | app/Http/Controllers/Api/RoleController.php:106-110 | since held roles are never deleted, every grant keeps pointing at an existing role |
| RoleAdmin.Store | app/Http/Controllers/Api/RoleController.php:43-62 | 422 iff invalid (name filled and unique, display name filled). Otherwise exactly one active role is appended |
| RoleAdmin.StoreKeepsKeys | app/Http/Controllers/Api/RoleController.php:45-56 | role names stay unique, ids too when the new id is unused, and the new role is findable and active |
| RoleAdmin.Patched | app/Http/Controllers/Api/RoleController.php:78-85 | the role id never changes, and a patch that supplies no field leaves the role as it was |
| RoleAdmin.PatchedTwice | app/Http/Controllers/Api/RoleController.php:78-85 | patching twice equals patching once with the later values filled in by the earlier ones; repeating a patch changes nothing |
| RoleAdmin.Update | app/Http/Controllers/Api/RoleController.php:76-91 | 404 for an unknown id; for a known id every error is a 422, raised iff the patch is invalid; success iff the id is known and the patch valid, and then only that role is patched |
| RoleAdmin.UpdateKeepsKeys | app/Http/Controllers/Api/RoleController.php:78-85 | updates keep role ids and names unique and leave every other role as it was |
| Staff.DisplayRole | app/Projects/Matamares/Controllers/UserController.php:55 | the role shown is the name of the first held role that exists, skipping ids with no role; sin_rol when no held id resolves |
| Staff.DisplaySingleRole | app/Projects/Matamares/Controllers/UserController.php:105 | an account holding one role shows that role's name |
| Staff.Store | app/Projects/Matamares/Controllers/UserController.php:75-111 | 422 iff invalid (email unique, a non-blank password of at least 6, an existing role). Otherwise it adds exactly the active account holding that one role |
| Staff.StoreActiveWithRole | app/Projects/Matamares/Controllers/UserController.php:84-105 | a created account is active, shows the requested role, and emails stay unique |
| Staff.Update | app/Projects/Matamares/Controllers/UserController.php:136-182 | 404, or 422 iff invalid. Otherwise only the supplied fields change; the password only when filled, that is, not blank once trimmed; a given role replaces every held role |
| Staff.UpdateReplacesRoles | app/Projects/Matamares/Controllers/UserController.php:161-166 | after sending a role, the account holds exactly that role and shows it |
| Staff.BlankPasswordKept | app/Projects/Matamares/Controllers/UserController.php:148-158 | a missing, empty or whitespace-only password passes validation and never changes the stored one |
| Staff.Destroy | app/Projects/Matamares/Controllers/UserController.php:187-201 | 404; refused iff deleting oneself; success iff the account exists and is not the caller, and then the account is only deactivated |
| Staff.DestroyOnlyDeactivates | app/Projects/Matamares/Controllers/UserController.php:187-201 | deletion never removes an account and never touches the caller, and deleting twice is the same as once |
| Staff.ToggleStatus | app/Projects/Matamares/Controllers/UserController.php:206-229 | 404; refused iff the caller would deactivate themself; success in every other case for an existing account, and then only the active flag flips |
| Staff.ToggleTwiceRestores | app/Projects/Matamares/Controllers/UserController.php:206-229 | toggling another account twice restores the directory |
| Staff.SelfToggleOnlyActivates | app/Projects/Matamares/Controllers/UserController.php:209-215 | callers can re-activate themselves but never end up inactive through their own toggle |

## Left out

- Input/output, the HTTP layer and JSON shapes are not modelled.
- The clock, UUID and auto-increment keys, the signed-in user and the organization header become parameters.
- Password hashing (`Hash::make`) is a function parameter.
- Authentication middleware is left out. That covers the `role:admin` group of routes/api.php:49, the routes of app/Projects/Matamares/routes.php:71-72 and the organization membership check; actions are modelled as if the caller passed them.
- Read-only listings and lookups are left out: `index`, `show`, `historial`, `porFecha`, the inventory dashboard, stock, movements, transaction types and reports endpoints, and the location stock listing. They transform rows without business rules beyond what is modelled.
- Concurrency and transactions are left out. Each action is atomic here, as the database transaction makes it; two concurrent movements drawing the same day's count are not modelled.
- Request strings are taken as the framework's default middleware delivers them: trimmed, with an empty string turned into null. Validation of a whitespace-only string that reaches a rule untrimmed is modelled only for the staff password, whose `filled()` test trims on its own.
- A null sent for a field whose rule is not `nullable` (for example `is_active`, `type` or `unit_precision`) fails its type rule with a 422 in the source. The request records cannot express that null, so that 422 is not modelled.
- The `uuid` format rule on `category_id`, `supplier_id` and `reference_id` is not modelled: keys are abstract values, and a malformed one is simply a key that names no row.
- Location `settings` and product `attributes` are modelled as maps from strings to strings. Any array passes the `array` rule, and what it holds is not modelled.
- Email format validation is left out: an email is any filled string of at most 255 characters.
- Date parsing is left out: dates are already parsed, ordered day numbers, and the 400 of an unparsable date in estadisticasDia is not modelled.
- Floating point is left out. Inventory and sales amounts are exact reals; cuadre amounts are exact ten-thousandths, the scale of decimal(15,4). `round(…, 2)` of the statistics is not modelled.
- The SQL `ILIKE` wildcards `%` and `_` inside a search term are treated as ordinary characters. Case folding covers ASCII letters only.
- Reports.InPeriod: the source compares `created_at` timestamps with the bounds as given, here and in the product and seller reports. A date-only end bound is midnight at the start of that day, so the source leaves out the end day's sales made after 00:00:00. The model works on whole days and includes the whole end day; it does not model times of day.
- The order of rows the database leaves open (ties in `ORDER BY`, the order of a role relation) is fixed to one admissible order.
- App\Models\User and the point-of-sale User model are not part of this model. Accounts are the records described in each module.
- The ledger's foreign-key refusal on deleting a product or location still named by a movement is modelled as a 500. Which database error it raises is not modelled.
- Sales.Store: numbers the invoice with the corrected rule (see Findings), not the rule as written.
- Sales.Store: the point-of-sale controller calls `generateInvoiceNumber()` on App\Projects\Matamares\Models\Sale, which is not part of this model. The model takes that method to be the rule of app/Models/Sale.php:84-94; both the invoice numbering and the Findings row rest on that assumption.
- Sales.Store: does not check that the client's subtotal and total match the lines, because the controller stores them as given.
- Reports.SalesReport: the period label is a formatting parameter applied to the sale's day. The date formats the controller uses (`Y-m-d`, `Y-W` and `Y-m`) are not modelled, so the model does not promise which days share a week or month label.
- Reports.ProductsReport: fixes ties in quantity to first-appearance order. The database may list equal rows in any order.
- Reports.OptionalDatesValid: `after_or_equal` with an end date but no start date is taken as invalid.
- Cuadres.Store: the count of each denomination must be present. A missing denomination raises an error inside the action, which the action answers with a 500.
- Cuadres.Store: denomination counts are whole numbers. The validator's `numeric|min:0` also accepts fractional counts such as 2.5, and the decimal column's rounding of their products is not modelled.
- Cuadres.Update: amounts are whole ten-thousandths, so input with more decimal places, and the column's rounding of it, is not modelled.
- Cuadres.EstadisticasDia: its contract only fixes the empty day; the values for an existing row are stated by Cuadres.EstadisticasMatchRecord.
- Catalog.LocationStatsOf: its contract states when each answer is given and the bound low ≤ total, not the three counts. That destroy's guard matches the statistics is stated by Catalog.DestroyRefusedIffStocked, and the all-zero statistics of an empty location by Catalog.EmptyLocationStats.
- Ledger.CreateMovement: models the action with both inserts working, as evidently intended, and not as written (see Findings). As written, no movement is ever recorded; Ledger.CreateMovementAsWritten states what the action answers instead.
- Ledger.CreateMovementStock: states the stock row that the corrected action writes. As written, the transaction rolls back, so no stock row changes.
- Ledger.CreateMovementPreservesValid: is proved about the corrected action. As written, the state never changes, so the invariants hold trivially.
- RoleAdmin.SystemRolesSurvive: assumes unique role ids, as the roles table's primary key guarantees.

## Findings

| source | as written | input that shows it | evidently intended | confidence | as-written member | corrected member |
|---|---|---|---|---|---|---|
| app/Models/Sale.php:91 | the next invoice number is the integer value of the last three characters of the latest invoice, plus one | taking this to be the rule the point-of-sale controller calls (see "## Left out"): a year whose 1000th sale holds INV-yyyy-1000: its last three characters are "000", so the next sale gets INV-yyyy-001, which the year's first sale already holds | continue with INV-yyyy-1001, the whole sequence number plus one | not executed | Invoice.AsWrittenRepeatsFirstNumber | Invoice.NextIsFresh |
| app/Projects/Inventario/Controllers/InventoryController.php:187-220 | InventoryMovement and InventoryStock keep Eloquent's timestamps, but inventory_movements has only `created_at` (migration 000010, line 42) and inventory_stock only `updated_at` (migration 000008, line 25); so the movement insert writes the missing `updated_at`, and firstOrCreate writes the missing `created_at` when the pair has no row | an inbound movement of 1 unit for an owned product and location without a stock row: the first row's insert fails and the catch at l.262-264 answers 500; with a stock row, the balance check passes and the movement insert fails with a 500 | the movement and the stock row are recorded, as if each model declared only the timestamp column its table has | high; not executed | Ledger.CreateMovementAsWritten, Ledger.AsWrittenRefusesFirstReceipt | Ledger.CreateMovement, Ledger.CreateMovementPreservesValid |
