/** The point-of-sale reports: sales per period, best-selling products and
    revenue per seller. Dates are opaque ordered days; the text a period is
    labelled with comes from a formatting function given as a parameter. */
module Reports {
  import opened Wrappers
  import opened Aggregate
  import opened Sales

  const Granularities: set<string> := {"day", "week", "month"}

  /** revenue / count, or 0 when nothing was sold. */
  function Average(count: nat, revenue: real): real {
    if count > 0 then revenue / count as real else 0.0
  }

  /** The sales created between start and end, both days included, in id
      order. */
  function InPeriod(sales: seq<Sale>, start: Date, end: Date): (r: seq<Sale>)
    ensures forall s :: s in r <==> s in sales && start <= s.day <= end
  {
    if sales == [] then []
    else
      var rest := InPeriod(sales[..|sales| - 1], start, end);
      assert sales == sales[..|sales| - 1] + [sales[|sales| - 1]];
      if start <= sales[|sales| - 1].day <= end then rest + [sales[|sales| - 1]] else rest
  }

  /** The period filter of the product and seller reports: applied only when
      both dates are given. */
  function InWindow(sales: seq<Sale>, start: Option<Date>, end: Option<Date>): (r: seq<Sale>)
    ensures forall s :: s in r <==> s in sales && (start.Some? && end.Some? ==> start.value <= s.day <= end.value)
  {
    if start.Some? && end.Some? then InPeriod(sales, start.value, end.value) else sales
  }

  /** The optional date pair of the product and seller reports: an end date
      needs a start date at or before it. */
  predicate OptionalDatesValid(start: Option<Date>, end: Option<Date>) {
    end.Some? ==> start.Some? && start.value <= end.value
  }

  // ---- sales per period ----

  datatype PeriodRow = PeriodRow(date: string, sales: nat, revenue: real)

  datatype SalesSummary = SalesSummary(totalSales: nat, totalRevenue: real, averageTicket: real, data: seq<PeriodRow>)

  /** The label of a sale's period under the chosen granularity. */
  function PeriodKey(format: (string, Date) -> string, groupBy: string): Sale -> string {
    (s: Sale) => format(groupBy, s.day)
  }

  function RowSales(p: PeriodRow): real {
    p.sales as real
  }

  function RowRevenue(p: PeriodRow): real {
    p.revenue
  }

  function One(s: Sale): real {
    1.0
  }

  /** One row per group: its label, how many sales and their revenue. */
  function Periods(gs: seq<Group<string, Sale>>): (r: seq<PeriodRow>)
    ensures |r| == |gs|
    ensures forall i :: 0 <= i < |gs| ==>
      r[i] == PeriodRow(gs[i].key, |gs[i].members|, Sum(gs[i].members, SaleTotal))
  {
    if gs == [] then []
    else
      var g := gs[|gs| - 1];
      Periods(gs[..|gs| - 1]) + [PeriodRow(g.key, |g.members|, Sum(g.members, SaleTotal))]
  }

  predicate SalesReportValid(start: Option<Date>, end: Option<Date>, groupBy: Option<string>) {
    && start.Some?
    && end.Some?
    && start.value <= end.value
    && (groupBy.None? || groupBy.value in Granularities)
  }

  /** ReportController::sales. */
  function SalesReport(sales: seq<Sale>, start: Option<Date>, end: Option<Date>, groupBy: Option<string>,
                       format: (string, Date) -> string): (r: Result<SalesSummary>)
    ensures r.Err? <==> !SalesReportValid(start, end, groupBy)
    ensures r.Err? ==> r.error == ValidationFailed
    ensures r.Ok? ==>
      var period := InPeriod(sales, start.value, end.value);
      && r.value.totalSales == |period|
      && r.value.totalRevenue == Sum(period, SaleTotal)
      && r.value.averageTicket == Average(r.value.totalSales, r.value.totalRevenue)
    ensures r.Ok? ==>
      var period := InPeriod(sales, start.value, end.value);
      var key := PeriodKey(format, groupBy.GetOr("day"));
      && (forall i, j :: 0 <= i < j < |r.value.data| ==> r.value.data[i].date != r.value.data[j].date)
      && (forall s :: s in period ==> exists i :: 0 <= i < |r.value.data| && r.value.data[i].date == key(s))
      && (forall i :: 0 <= i < |r.value.data| ==>
            var members := Select(period, key, r.value.data[i].date);
            r.value.data[i].sales == |members| && r.value.data[i].revenue == Sum(members, SaleTotal))
      && (forall i :: 0 <= i < |r.value.data| ==>
            r.value.data[i].sales >= 1 && exists k :: 0 <= k < |period| && key(period[k]) == r.value.data[i].date)
  {
    if !SalesReportValid(start, end, groupBy) then Err(ValidationFailed)
    else
      var period := InPeriod(sales, start.value, end.value);
      var key := PeriodKey(format, groupBy.GetOr("day"));
      var data := Periods(GroupBy(period, key));
      PeriodLabels(period, key);
      PeriodRowContents(period, key);
      PeriodRowsOccupied(period, key);
      var total := Sum(period, SaleTotal);
      Ok(SalesSummary(|period|, total, Average(|period|, total), data))
  }

  /** The rows of a grouping carry distinct labels, and every sale's label
      is among them. */
  lemma {:induction false} PeriodLabels(period: seq<Sale>, key: Sale -> string)
    ensures var data := Periods(GroupBy(period, key));
      && (forall i, j :: 0 <= i < j < |data| ==> data[i].date != data[j].date)
      && (forall s :: s in period ==> exists i :: 0 <= i < |data| && data[i].date == key(s))
  {
    PeriodLabelsDistinct(period, key);
    PeriodLabelsCover(period, key);
  }

  /** No two rows share a label. */
  lemma {:induction false} PeriodLabelsDistinct(period: seq<Sale>, key: Sale -> string)
    ensures var data := Periods(GroupBy(period, key));
      forall i, j :: 0 <= i < j < |data| ==> data[i].date != data[j].date
  {
    PeriodDates(Keys(period, key), period, key);
  }

  /** Every sale of the period has its label among the rows. */
  lemma {:induction false} PeriodLabelsCover(period: seq<Sale>, key: Sale -> string)
    ensures var data := Periods(GroupBy(period, key));
      forall s :: s in period ==> exists i :: 0 <= i < |data| && data[i].date == key(s)
  {
    var ks := Keys(period, key);
    var data := Periods(GroupsFor(ks, period, key));
    PeriodDates(ks, period, key);
    forall s | s in period ensures exists i :: 0 <= i < |data| && data[i].date == key(s) {
      var k :| 0 <= k < |period| && period[k] == s;
      assert key(period[k]) in ks;
      var i :| 0 <= i < |ks| && ks[i] == key(s);
      assert data[i].date == key(s);
    }
  }

  /** Each row counts, and sums the revenue of, exactly the sales of the
      period that carry its label. */
  lemma {:induction false} PeriodRowContents(period: seq<Sale>, key: Sale -> string)
    ensures var data := Periods(GroupBy(period, key));
      forall i :: 0 <= i < |data| ==>
        var members := Select(period, key, data[i].date);
        data[i].sales == |members| && data[i].revenue == Sum(members, SaleTotal)
  {
    var ks := Keys(period, key);
    var data := Periods(GroupsFor(ks, period, key));
    PeriodDates(ks, period, key);
    forall i | 0 <= i < |data|
      ensures data[i].sales == |Select(period, key, data[i].date)|
      ensures data[i].revenue == Sum(Select(period, key, data[i].date), SaleTotal)
    {
      GroupsForAt(ks, period, key, i);
    }
  }

  /** No row is empty: every label comes from a sale of the period, so each
      row counts at least one sale. */
  lemma {:induction false} PeriodRowsOccupied(period: seq<Sale>, key: Sale -> string)
    ensures var data := Periods(GroupBy(period, key));
      forall i :: 0 <= i < |data| ==>
        data[i].sales >= 1 && exists k :: 0 <= k < |period| && key(period[k]) == data[i].date
  {
    var ks := Keys(period, key);
    var data := Periods(GroupsFor(ks, period, key));
    PeriodDates(ks, period, key);
    PeriodRowContents(period, key);
    forall i | 0 <= i < |data|
      ensures data[i].sales >= 1 && exists k :: 0 <= k < |period| && key(period[k]) == data[i].date
    {
      var k :| 0 <= k < |period| && key(period[k]) == ks[i];
      SelectMembers(period, key, ks[i]);
      assert period[k] in Select(period, key, ks[i]);
    }
  }

  /** Row i of the grouping by ks is labelled ks[i]. */
  lemma {:induction false} PeriodDates(ks: seq<string>, period: seq<Sale>, key: Sale -> string)
    ensures var data := Periods(GroupsFor(ks, period, key));
      |data| == |ks| && forall i :: 0 <= i < |ks| ==> data[i].date == ks[i]
  {
    var data := Periods(GroupsFor(ks, period, key));
    forall i | 0 <= i < |ks| ensures data[i].date == ks[i] {
      GroupsForAt(ks, period, key, i);
    }
  }

  lemma {:induction false} PeriodsRevenue(gs: seq<Group<string, Sale>>)
    ensures Sum(Periods(gs), RowRevenue) == GroupsSum(gs, SaleTotal)
  {
    if gs != [] {
      PeriodsRevenue(gs[..|gs| - 1]);
    }
  }

  lemma {:induction false} PeriodsCount(gs: seq<Group<string, Sale>>)
    ensures Sum(Periods(gs), RowSales) == GroupsSum(gs, One)
  {
    if gs != [] {
      var g := gs[|gs| - 1];
      PeriodsCount(gs[..|gs| - 1]);
      SumOfOnes(g.members, One);
    }
  }

  /** The period rows add up to the summary: their sale counts to the number
      of sales and their revenues to the total revenue. */
  lemma {:induction false} PeriodsAddUp(sales: seq<Sale>, start: Option<Date>, end: Option<Date>, groupBy: Option<string>,
                     format: (string, Date) -> string)
    requires SalesReport(sales, start, end, groupBy, format).Ok?
    ensures var report := SalesReport(sales, start, end, groupBy, format).value;
      && Sum(report.data, RowSales) == report.totalSales as real
      && Sum(report.data, RowRevenue) == report.totalRevenue
  {
    var period := InPeriod(sales, start.value, end.value);
    var key := PeriodKey(format, groupBy.GetOr("day"));
    PeriodsRevenue(GroupBy(period, key));
    PeriodsCount(GroupBy(period, key));
    GroupBySum(period, key, SaleTotal);
    GroupBySum(period, key, One);
    SumOfOnes(period, One);
  }

  // ---- best-selling products ----

  datatype ProductRow = ProductRow(
    productId: int,
    productName: string,
    productCode: string,
    totalQuantity: int,
    totalRevenue: real,
    salesCount: nat)

  function SaleOf(line: SaleItem): nat {
    line.saleId
  }

  function LineTotal(line: SaleItem): real {
    line.totalPrice
  }

  function RowProduct(row: ProductRow): int {
    row.productId
  }

  function QuantityKey(row: ProductRow): real {
    row.totalQuantity as real
  }

  /** Whether some sale of the list has this id. */
  predicate HasSale(sales: seq<Sale>, id: nat) {
    exists k :: 0 <= k < |sales| && sales[k].id == id
  }

  /** The inner join of lines with their product and their (windowed) sale. */
  function Joined(lines: seq<SaleItem>, products: map<int, Product>, sales: seq<Sale>): (r: seq<SaleItem>)
    ensures forall l :: l in r <==> l in lines && l.productId in products && HasSale(sales, l.saleId)
  {
    if lines == [] then []
    else
      var l := lines[|lines| - 1];
      var rest := Joined(lines[..|lines| - 1], products, sales);
      assert lines == lines[..|lines| - 1] + [l];
      if l.productId in products && HasSale(sales, l.saleId) then rest + [l] else rest
  }

  /** The aggregate row of product p: its summed quantity and revenue and the
      number of distinct sales it appears in. */
  function ProductRowOf(lines: seq<SaleItem>, products: map<int, Product>, p: int): ProductRow
    requires p in products
  {
    var mine := Select(lines, ProductOf, p);
    ProductRow(p, products[p].name, products[p].code, QuantityOf(lines, p), Sum(mine, LineTotal), |Keys(mine, SaleOf)|)
  }

  function ProductRows(ps: seq<int>, lines: seq<SaleItem>, products: map<int, Product>): (r: seq<ProductRow>)
    requires forall i :: 0 <= i < |ps| ==> ps[i] in products
    ensures |r| == |ps|
    ensures forall i :: 0 <= i < |ps| ==> r[i] == ProductRowOf(lines, products, ps[i])
  {
    seq(|ps|, i requires 0 <= i < |ps| => ProductRowOf(lines, products, ps[i]))
  }

  predicate ProductsReportValid(start: Option<Date>, end: Option<Date>, limit: Option<int>) {
    OptionalDatesValid(start, end) && (limit.None? || 1 <= limit.value <= 100)
  }

  /** The joined lines the product report aggregates. */
  function ReportLines(shop: Shop, start: Option<Date>, end: Option<Date>): seq<SaleItem> {
    Joined(shop.items, shop.products, InWindow(shop.sales, start, end))
  }

  /** No row is for product p. */
  predicate Unlisted(rows: seq<ProductRow>, p: int) {
    forall i :: 0 <= i < |rows| ==> rows[i].productId != p
  }

  /** rows holds at most n products, best sellers first, none twice, each
      with its aggregate, and every product left out sold no more than any
      product listed. */
  predicate TopRows(lines: seq<SaleItem>, products: map<int, Product>, n: nat, rows: seq<ProductRow>) {
    && |rows| == (if |Keys(lines, ProductOf)| < n then |Keys(lines, ProductOf)| else n)
    && SortedDesc(rows, QuantityKey)
    && (forall i :: 0 <= i < |rows| ==> rows[i].productId in products && rows[i] == ProductRowOf(lines, products, rows[i].productId))
    && (forall i :: 0 <= i < |rows| ==> exists j :: 0 <= j < |lines| && lines[j].productId == rows[i].productId)
    && (forall i, j :: 0 <= i < j < |rows| ==> rows[i].productId != rows[j].productId)
    && (forall j :: 0 <= j < |lines| && lines[j].productId in products && Unlisted(rows, lines[j].productId) ==>
          forall i :: 0 <= i < |rows| ==> rows[i].totalQuantity >= QuantityOf(lines, lines[j].productId))
  }

  /** ReportController::products. Rows of equal quantity come out in the
      order their products first appear; the database leaves that order
      open, so this is one of the orders it may produce. */
  function ProductsReport(shop: Shop, start: Option<Date>, end: Option<Date>, limit: Option<int>): (r: Result<seq<ProductRow>>)
    ensures r.Err? <==> !ProductsReportValid(start, end, limit)
    ensures r.Err? ==> r.error == ValidationFailed
    ensures r.Ok? ==> TopRows(ReportLines(shop, start, end), shop.products, limit.GetOr(20) as nat, r.value)
  {
    if !ProductsReportValid(start, end, limit) then Err(ValidationFailed)
    else
      var lines := ReportLines(shop, start, end);
      var ps := Keys(lines, ProductOf);
      JoinedProductsKnown(lines, shop.products, ps);
      var rows := ProductRows(ps, lines, shop.products);
      var n: nat := limit.GetOr(20);
      var sorted := SortDesc(rows, QuantityKey);
      var top := Take(sorted, n);
      TopRowsHold(lines, shop.products, ps, rows, sorted, n);
      Ok(top)
  }

  /** Every product of the joined lines is a known product. */
  lemma {:induction false} JoinedProductsKnown(lines: seq<SaleItem>, products: map<int, Product>, ps: seq<int>)
    requires forall l :: l in lines ==> l.productId in products
    requires ps == Keys(lines, ProductOf)
    ensures forall i :: 0 <= i < |ps| ==> ps[i] in products
  {
    forall i | 0 <= i < |ps| ensures ps[i] in products {
      var k :| 0 <= k < |lines| && lines[k].productId == ps[i];
      assert lines[k] in lines;
    }
  }

  lemma {:induction false} TopRowsHold(lines: seq<SaleItem>, products: map<int, Product>, ps: seq<int>, rows: seq<ProductRow>, sorted: seq<ProductRow>, n: nat)
    requires ps == Keys(lines, ProductOf)
    requires forall i :: 0 <= i < |ps| ==> ps[i] in products
    requires rows == ProductRows(ps, lines, products)
    requires |sorted| == |rows| && multiset(sorted) == multiset(rows) && SortedDesc(sorted, QuantityKey)
    ensures TopRows(lines, products, n, Take(sorted, n))
  {
    TopRowsMembers(lines, products, ps, rows, sorted, n);
    TopRowsDistinct(ps, rows, sorted, n);
    TopRowsDominate(lines, products, ps, rows, sorted, n);
  }

  /** Every row taken is the aggregate row of a product of the lines. */
  lemma {:induction false} TopRowsMembers(lines: seq<SaleItem>, products: map<int, Product>, ps: seq<int>, rows: seq<ProductRow>, sorted: seq<ProductRow>, n: nat)
    requires ps == Keys(lines, ProductOf)
    requires forall i :: 0 <= i < |ps| ==> ps[i] in products
    requires rows == ProductRows(ps, lines, products)
    requires multiset(sorted) == multiset(rows)
    ensures forall i :: 0 <= i < |Take(sorted, n)| ==>
      && Take(sorted, n)[i].productId in products
      && Take(sorted, n)[i] == ProductRowOf(lines, products, Take(sorted, n)[i].productId)
      && exists j :: 0 <= j < |lines| && lines[j].productId == Take(sorted, n)[i].productId
  {
    var top := Take(sorted, n);
    PrefixOfPermutation(top, sorted, rows);
    forall i | 0 <= i < |top|
      ensures top[i].productId in products && top[i] == ProductRowOf(lines, products, top[i].productId)
      ensures exists j :: 0 <= j < |lines| && lines[j].productId == top[i].productId
    {
      assert top[i] in top;
    }
  }

  /** The rows taken are for distinct products. */
  lemma {:induction false} TopRowsDistinct(ps: seq<int>, rows: seq<ProductRow>, sorted: seq<ProductRow>, n: nat)
    requires Distinct(ps)
    requires |rows| == |ps| && forall i :: 0 <= i < |ps| ==> rows[i].productId == ps[i]
    requires multiset(sorted) == multiset(rows)
    ensures forall i, j :: 0 <= i < j < |Take(sorted, n)| ==> Take(sorted, n)[i].productId != Take(sorted, n)[j].productId
  {
    var top := Take(sorted, n);
    PermutationKeepsDistinct(rows, sorted, RowProduct);
    forall i, j | 0 <= i < j < |top| ensures top[i].productId != top[j].productId {
      assert top[i] == sorted[i] && top[j] == sorted[j];
      assert RowProduct(sorted[i]) != RowProduct(sorted[j]);
    }
  }

  /** A product of the lines left out of the rows sold no more than any
      product listed. */
  lemma {:induction false} TopRowsDominate(lines: seq<SaleItem>, products: map<int, Product>, ps: seq<int>, rows: seq<ProductRow>, sorted: seq<ProductRow>, n: nat)
    requires ps == Keys(lines, ProductOf)
    requires forall i :: 0 <= i < |ps| ==> ps[i] in products
    requires rows == ProductRows(ps, lines, products)
    requires multiset(sorted) == multiset(rows) && SortedDesc(sorted, QuantityKey)
    ensures var top := Take(sorted, n);
      forall j :: 0 <= j < |lines| && lines[j].productId in products && Unlisted(top, lines[j].productId) ==>
        forall i :: 0 <= i < |top| ==> top[i].totalQuantity >= QuantityOf(lines, lines[j].productId)
  {
    var top := Take(sorted, n);
    forall j | 0 <= j < |lines| && lines[j].productId in products && Unlisted(top, lines[j].productId)
      ensures forall i :: 0 <= i < |top| ==> top[i].totalQuantity >= QuantityOf(lines, lines[j].productId)
    {
      var p := lines[j].productId;
      assert ProductOf(lines[j]) in ps;
      var k :| 0 <= k < |ps| && ps[k] == p;
      RowOfProduct(lines, products, p);
      OmittedRowBelow(sorted, n, rows[k]);
    }
  }

  /** The row of product p is for p and carries its summed quantity. */
  lemma {:induction false} RowOfProduct(lines: seq<SaleItem>, products: map<int, Product>, p: int)
    requires p in products
    ensures ProductRowOf(lines, products, p).productId == p
    ensures ProductRowOf(lines, products, p).totalQuantity == QuantityOf(lines, p)
  {
  }

  /** A row of the sorted rows that was not taken sold no more than any row
      taken. */
  lemma {:induction false} OmittedRowBelow(sorted: seq<ProductRow>, n: nat, row: ProductRow)
    requires row in multiset(sorted) && SortedDesc(sorted, QuantityKey)
    requires Unlisted(Take(sorted, n), row.productId)
    ensures forall i :: 0 <= i < |Take(sorted, n)| ==> Take(sorted, n)[i].totalQuantity >= row.totalQuantity
  {
    assert row !in Take(sorted, n);
    TakeSortedDominates(sorted, n, QuantityKey, row);
  }

  /** A product's row counts what its lines carry: the quantity is
      the sum over its lines, and it appears in at least one sale. */
  lemma {:induction false} ProductRowCounts(lines: seq<SaleItem>, products: map<int, Product>, p: int)
    requires p in products
    requires exists j :: 0 <= j < |lines| && lines[j].productId == p
    ensures ProductRowOf(lines, products, p).salesCount >= 1
    ensures |Select(lines, ProductOf, p)| >= 1
  {
    var j :| 0 <= j < |lines| && lines[j].productId == p;
    SelectMembers(lines, ProductOf, p);
    var mine := Select(lines, ProductOf, p);
    assert lines[j] in mine;
    assert SaleOf(mine[0]) in Keys(mine, SaleOf);
  }

  // ---- revenue per seller ----

  datatype Seller = Seller(id: nat, name: string)

  datatype SellerRow = SellerRow(userId: nat, userName: string, totalSales: nat, totalRevenue: real, averageTicket: real)

  function RevenueKey(row: SellerRow): real {
    row.totalRevenue
  }

  /** The seller who made a sale. */
  function SellerOf(s: Sale): nat {
    s.userId
  }

  function SellerRowOf(sales: seq<Sale>, u: Seller): SellerRow {
    var mine := Select(sales, SellerOf, u.id);
    var revenue := Sum(mine, SaleTotal);
    SellerRow(u.id, u.name, |mine|, revenue, Average(|mine|, revenue))
  }

  /** ReportController::users: one row per seller, highest revenue first;
      equal revenues keep the sellers' order. */
  function SellersReport(sellers: seq<Seller>, sales: seq<Sale>, start: Option<Date>, end: Option<Date>): (r: Result<seq<SellerRow>>)
    ensures r.Err? <==> !OptionalDatesValid(start, end)
    ensures r.Err? ==> r.error == ValidationFailed
    ensures r.Ok? ==>
      var window := InWindow(sales, start, end);
      && |r.value| == |sellers|
      && SortedDesc(r.value, RevenueKey)
      && multiset(r.value) == multiset(seq(|sellers|, i requires 0 <= i < |sellers| => SellerRowOf(window, sellers[i])))
  {
    if !OptionalDatesValid(start, end) then Err(ValidationFailed)
    else
      var window := InWindow(sales, start, end);
      Ok(SortDesc(seq(|sellers|, i requires 0 <= i < |sellers| => SellerRowOf(window, sellers[i])), RevenueKey))
  }

  /** Each seller's row counts the seller's sales in the window and their
      revenue; a seller without sales has an average ticket of 0. */
  lemma {:induction false} SellerRowFacts(sales: seq<Sale>, u: Seller)
    ensures var row := SellerRowOf(sales, u);
      && row.userId == u.id
      && (forall s :: s in Select(sales, SellerOf, u.id) <==> s in sales && s.userId == u.id)
      && row.totalSales == |Select(sales, SellerOf, u.id)|
      && row.totalRevenue == Sum(Select(sales, SellerOf, u.id), SaleTotal)
      && (row.totalSales == 0 ==> row.averageTicket == 0.0 && row.totalRevenue == 0.0)
      && (row.totalSales > 0 ==> row.averageTicket == row.totalRevenue / row.totalSales as real)
  {
    SelectMembers(sales, SellerOf, u.id);
  }

  /** Every seller gets a row in the report. */
  lemma {:induction false} EverySellerListed(sellers: seq<Seller>, sales: seq<Sale>, start: Option<Date>, end: Option<Date>, k: nat)
    requires OptionalDatesValid(start, end)
    requires k < |sellers|
    ensures SellerRowOf(InWindow(sales, start, end), sellers[k]) in SellersReport(sellers, sales, start, end).value
  {
    var window := InWindow(sales, start, end);
    var rows := seq(|sellers|, i requires 0 <= i < |sellers| => SellerRowOf(window, sellers[i]));
    assert rows[k] in multiset(rows);
  }
}
