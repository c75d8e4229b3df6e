/** The point of sale: recording a sale with its line items, taking the sold
    quantities off the product stock, numbering the invoice, and the day's
    statistics. Money values are exact reals; rows are identified by
    auto-increment integers. */
module Sales {
  import opened Wrappers
  import opened Aggregate
  import Invoice

  /** A calendar day; only its identity matters here. */
  type Date = int

  datatype Product = Product(name: string, code: string, stock: int)

  /** One line of a sale request. */
  datatype ItemInput = ItemInput(productId: int, quantity: int, unitPrice: real)

  datatype SaleRequest = SaleRequest(
    customerId: Option<int>,
    items: seq<ItemInput>,
    subtotal: real,
    tax: Option<real>,
    discount: Option<real>,
    total: real,
    paymentMethod: string)

  /** A recorded sale; `year` and `day` are the year and day of its creation. */
  datatype Sale = Sale(
    id: nat,
    invoiceNumber: string,
    year: string,
    day: Date,
    customerId: Option<int>,
    userId: nat,
    subtotal: real,
    tax: real,
    discount: real,
    total: real,
    paymentMethod: string,
    status: string)

  datatype SaleItem = SaleItem(saleId: nat, productId: int, quantity: int, unitPrice: real, totalPrice: real)

  /** The tables the sales controller touches. Sales and items are kept in id
      order. */
  datatype Shop = Shop(
    products: map<int, Product>,
    customers: set<int>,
    sales: seq<Sale>,
    items: seq<SaleItem>)

  const PaymentMethods: set<string> := {"efectivo", "tarjeta", "transferencia", "mixto"}

  const Completed: string := "completada"

  predicate ItemValid(products: map<int, Product>, item: ItemInput) {
    item.productId in products && item.quantity >= 1 && item.unitPrice >= 0.0
  }

  predicate NonNegativeIfGiven(x: Option<real>) {
    x.None? || x.value >= 0.0
  }

  /** The request validator of the store endpoint. */
  predicate StoreValid(shop: Shop, req: SaleRequest) {
    && (req.customerId.None? || req.customerId.value in shop.customers)
    && |req.items| >= 1
    && (forall i :: 0 <= i < |req.items| ==> ItemValid(shop.products, req.items[i]))
    && req.subtotal >= 0.0
    && NonNegativeIfGiven(req.tax)
    && NonNegativeIfGiven(req.discount)
    && req.total >= 0.0
    && req.paymentMethod in PaymentMethods
  }

  /** The rows saved for the request's items, in request order. */
  function Lines(saleId: nat, items: seq<ItemInput>): (r: seq<SaleItem>)
    ensures |r| == |items|
    ensures forall i :: 0 <= i < |items| ==>
      r[i] == SaleItem(saleId, items[i].productId, items[i].quantity, items[i].unitPrice,
        items[i].quantity as real * items[i].unitPrice)
  {
    if items == [] then []
    else
      var it := items[|items| - 1];
      Lines(saleId, items[..|items| - 1]) + [SaleItem(saleId, it.productId, it.quantity, it.unitPrice, it.quantity as real * it.unitPrice)]
  }

  function ProductOf(line: SaleItem): int {
    line.productId
  }

  /** The total quantity the lines carry for product p. */
  function QuantityOf(lines: seq<SaleItem>, p: int): int {
    if lines == [] then 0
    else QuantityOf(lines[..|lines| - 1], p) + (if lines[|lines| - 1].productId == p then lines[|lines| - 1].quantity else 0)
  }

  lemma {:induction false} QuantityOfAppend(lines: seq<SaleItem>, line: SaleItem, p: int)
    ensures QuantityOf(lines + [line], p) == QuantityOf(lines, p) + (if line.productId == p then line.quantity else 0)
  {
    assert (lines + [line])[..|lines|] == lines;
  }

  /** A product no line mentions has quantity 0. */
  lemma {:induction false} QuantityOfAbsent(lines: seq<SaleItem>, p: int)
    requires forall i :: 0 <= i < |lines| ==> lines[i].productId != p
    ensures QuantityOf(lines, p) == 0
  {
    if lines != [] {
      QuantityOfAbsent(lines[..|lines| - 1], p);
    }
  }

  /** Each line takes its quantity off its product, one decrement per line,
      with no lower bound. */
  function Decrement(products: map<int, Product>, lines: seq<SaleItem>): (r: map<int, Product>)
    requires forall i :: 0 <= i < |lines| ==> lines[i].productId in products
    ensures r.Keys == products.Keys
    ensures forall p :: p in products ==>
      r[p].name == products[p].name && r[p].stock == products[p].stock - QuantityOf(lines, p)
    ensures forall p :: p in products ==> r[p] == products[p].(stock := products[p].stock - QuantityOf(lines, p))
  {
    if lines == [] then products
    else
      var line := lines[|lines| - 1];
      var before := Decrement(products, lines[..|lines| - 1]);
      before[line.productId := before[line.productId].(stock := before[line.productId].stock - line.quantity)]
  }

  /** The invoice numbers of the sales of one year, in id order. */
  function YearInvoices(sales: seq<Sale>, year: string): seq<string> {
    if sales == [] then []
    else
      var s := sales[|sales| - 1];
      YearInvoices(sales[..|sales| - 1], year) + (if s.year == year then [s.invoiceNumber] else [])
  }

  lemma {:induction false} YearInvoicesAppend(sales: seq<Sale>, s: Sale, year: string)
    ensures YearInvoices(sales + [s], year) == YearInvoices(sales, year) + (if s.year == year then [s.invoiceNumber] else [])
  {
    assert (sales + [s])[..|sales|] == sales;
  }

  /** SaleController::store. The sale, its lines and the stock decrements are
      applied together or not at all; the invoice number follows the corrected
      numbering rule. The client's subtotal and total are stored as given. */
  function Store(shop: Shop, actor: nat, year: string, today: Date, req: SaleRequest): (r: Result<Shop>)
    ensures r.Err? <==> !StoreValid(shop, req)
    ensures r.Err? ==> r.error == ValidationFailed
    ensures r.Ok? ==>
      && |r.value.sales| == |shop.sales| + 1
      && r.value.sales[..|shop.sales|] == shop.sales
      && |r.value.items| == |shop.items| + |req.items|
      && r.value.items[..|shop.items|] == shop.items
      && r.value.customers == shop.customers
    ensures r.Ok? ==>
      var sale := r.value.sales[|shop.sales|];
      && sale.id == |shop.sales| + 1
      && sale.invoiceNumber == Invoice.NextInvoice(year, YearInvoices(shop.sales, year))
      && sale.year == year && sale.day == today
      && sale.customerId == req.customerId && sale.userId == actor
      && sale.subtotal == req.subtotal && sale.total == req.total
      && sale.tax == req.tax.GetOr(0.0) && sale.discount == req.discount.GetOr(0.0)
      && sale.paymentMethod == req.paymentMethod
      && sale.status == Completed
    ensures r.Ok? ==> r.value.items[|shop.items|..] == Lines(|shop.sales| + 1, req.items)
  {
    if !StoreValid(shop, req) then Err(ValidationFailed)
    else
      var id := |shop.sales| + 1;
      var sale := Sale(id, Invoice.NextInvoice(year, YearInvoices(shop.sales, year)), year, today,
        req.customerId, actor, req.subtotal, req.tax.GetOr(0.0), req.discount.GetOr(0.0), req.total,
        req.paymentMethod, Completed);
      var lines := Lines(id, req.items);
      Ok(Shop(Decrement(shop.products, lines), shop.customers, shop.sales + [sale], shop.items + lines))
  }

  /** The stock of every product drops by exactly the quantity the request
      carries for it, summed over repeated lines; other products keep theirs. */
  lemma {:induction false} StoreStock(shop: Shop, actor: nat, year: string, today: Date, req: SaleRequest)
    requires Store(shop, actor, year, today, req).Ok?
    ensures var after := Store(shop, actor, year, today, req).value;
      && after.products.Keys == shop.products.Keys
      && forall p :: p in shop.products ==>
        after.products[p].stock == shop.products[p].stock - QuantityOf(Lines(|shop.sales| + 1, req.items), p)
  {
  }

  /** Stock is not checked: selling two of a product that has one on hand
      succeeds and leaves -1. */
  lemma {:induction false} StockCanGoNegative()
    ensures var shop := Shop(map[1 := Product("pan", "P1", 1)], {}, [], []);
      var req := SaleRequest(None, [ItemInput(1, 2, 1.0)], 2.0, None, None, 2.0, "efectivo");
      var r := Store(shop, 7, "2025", 0, req);
      r.Ok? && r.value.products[1].stock == -1
  {
    var shop := Shop(map[1 := Product("pan", "P1", 1)], {}, [], []);
    var req := SaleRequest(None, [ItemInput(1, 2, 1.0)], 2.0, None, None, 2.0, "efectivo");
    assert ItemValid(shop.products, req.items[0]);
    var lines := Lines(1, req.items);
    assert lines == [] + [lines[0]];
    assert QuantityOf(lines, 1) == 2;
  }

  /** Sale i has id i + 1. */
  predicate IdsInOrder(sales: seq<Sale>) {
    forall i :: 0 <= i < |sales| ==> sales[i].id == i + 1
  }

  /** Every line belongs to a recorded sale. */
  predicate LinesBelong(shop: Shop) {
    forall i :: 0 <= i < |shop.items| ==> 1 <= shop.items[i].saleId <= |shop.sales|
  }

  /** Every year's invoices are numbered 1, 2, 3, ... */
  ghost predicate NumberedByYear(sales: seq<Sale>) {
    forall y :: Invoice.Consecutive(y, YearInvoices(sales, y))
  }

  ghost predicate Valid(shop: Shop) {
    IdsInOrder(shop.sales) && LinesBelong(shop) && NumberedByYear(shop.sales)
  }

  /** Store keeps the ids, the line ownership and the yearly numbering. */
  lemma {:induction false} StorePreservesValid(shop: Shop, actor: nat, year: string, today: Date, req: SaleRequest)
    requires Valid(shop)
    requires Store(shop, actor, year, today, req).Ok?
    ensures Valid(Store(shop, actor, year, today, req).value)
  {
    var after := Store(shop, actor, year, today, req).value;
    var sale := after.sales[|shop.sales|];
    assert after.sales == shop.sales + [sale];
    forall y ensures Invoice.Consecutive(y, YearInvoices(after.sales, y)) {
      YearInvoicesAppend(shop.sales, sale, y);
      if y == year {
        Invoice.NextKeepsConsecutive(y, YearInvoices(shop.sales, y));
      }
    }
    forall i | 0 <= i < |after.items| ensures 1 <= after.items[i].saleId <= |after.sales| {
      if i < |shop.items| {
        assert after.items[i] == shop.items[i];
      } else {
        assert after.items[i] == after.items[|shop.items| + (i - |shop.items|)];
      }
    }
  }

  /** In a valid shop no two sales of the same year share an invoice number,
      and the number a new sale receives is not yet taken in its year. */
  lemma {:induction false} InvoiceNumbersUnique(shop: Shop, year: string)
    requires Valid(shop)
    ensures Distinct(YearInvoices(shop.sales, year))
    ensures Invoice.NextInvoice(year, YearInvoices(shop.sales, year)) !in YearInvoices(shop.sales, year)
  {
    Invoice.ConsecutiveDistinct(year, YearInvoices(shop.sales, year));
    Invoice.NextIsFresh(year, YearInvoices(shop.sales, year));
  }

  // ---- the day's statistics ----

  datatype ProductSales = ProductSales(productId: int, productName: string, quantitySold: int)

  datatype DayStats = DayStats(totalSales: nat, totalRevenue: real, averageTicket: real, topProducts: seq<ProductSales>)

  function SaleTotal(s: Sale): real {
    s.total
  }

  function ProductOfTally(t: ProductSales): int {
    t.productId
  }

  function SoldKey(t: ProductSales): real {
    t.quantitySold as real
  }

  /** The sales created on `day`, in id order. */
  function SalesOn(sales: seq<Sale>, day: Date): (r: seq<Sale>)
    ensures forall s :: s in r <==> s in sales && s.day == day
  {
    if sales == [] then []
    else
      var rest := SalesOn(sales[..|sales| - 1], day);
      assert sales == sales[..|sales| - 1] + [sales[|sales| - 1]];
      if sales[|sales| - 1].day == day then rest + [sales[|sales| - 1]] else rest
  }

  /** The lines of one sale, in id order. */
  function LinesOf(items: seq<SaleItem>, saleId: nat): (r: seq<SaleItem>)
    ensures forall l :: l in r <==> l in items && l.saleId == saleId
  {
    if items == [] then []
    else
      var rest := LinesOf(items[..|items| - 1], saleId);
      assert items == items[..|items| - 1] + [items[|items| - 1]];
      if items[|items| - 1].saleId == saleId then rest + [items[|items| - 1]] else rest
  }

  /** The lines of the given sales, sale by sale. */
  function LinesOfSales(sales: seq<Sale>, items: seq<SaleItem>): seq<SaleItem> {
    if sales == [] then []
    else LinesOfSales(sales[..|sales| - 1], items) + LinesOf(items, sales[|sales| - 1].id)
  }

  /** The lines of the sales created on `day`. */
  function LinesOn(shop: Shop, day: Date): seq<SaleItem> {
    LinesOfSales(SalesOn(shop.sales, day), shop.items)
  }

  /** The per-product tally of todayStats: each product once, in order of
      first appearance, with the sum of its quantities. */
  method Tally(lines: seq<SaleItem>) returns (order: seq<int>, sold: map<int, int>)
    ensures order == Keys(lines, ProductOf)
    ensures forall p :: p in sold <==> p in order
    ensures forall p :: p in sold ==> sold[p] == QuantityOf(lines, p)
  {
    order, sold := [], map[];
    var k := 0;
    while k < |lines|
      invariant 0 <= k <= |lines|
      invariant Tallied(lines[..k], order, sold)
    {
      var p := lines[k].productId;
      var order' := if p in sold then order else order + [p];
      var sold' := sold[p := (if p in sold then sold[p] else 0) + lines[k].quantity];
      TallyAdvance(lines, k, order, sold, order', sold');
      order, sold := order', sold';
      k := k + 1;
    }
    assert lines[..k] == lines;
  }

  /** order lists the products of the lines once each, in order of first
      appearance, and sold maps each of them to its summed quantity. */
  ghost predicate Tallied(lines: seq<SaleItem>, order: seq<int>, sold: map<int, int>) {
    && order == Keys(lines, ProductOf)
    && (forall p :: p in sold <==> p in order)
    && (forall p :: p in sold ==> sold[p] == QuantityOf(lines, p))
  }

  /** The tally of the first k lines, advanced by line k, is the tally of the
      first k + 1 lines. */
  lemma {:induction false} TallyAdvance(lines: seq<SaleItem>, k: nat, order: seq<int>, sold: map<int, int>, order': seq<int>, sold': map<int, int>)
    requires k < |lines|
    requires Tallied(lines[..k], order, sold)
    requires order' == if lines[k].productId in sold then order else order + [lines[k].productId]
    requires sold' == sold[lines[k].productId := (if lines[k].productId in sold then sold[lines[k].productId] else 0) + lines[k].quantity]
    ensures Tallied(lines[..k + 1], order', sold')
  {
    PrefixSnoc(lines, k);
    TallyStep(lines[..k], lines[k], lines[..k + 1], order, sold, order', sold');
  }

  /** One step of the tally: the next line either adds its quantity to its
      product's entry or opens a new entry at the end of the order. */
  lemma {:induction false} TallyStep(pre: seq<SaleItem>, line: SaleItem, next: seq<SaleItem>,
                                     order: seq<int>, sold: map<int, int>, order': seq<int>, sold': map<int, int>)
    requires next == pre + [line]
    requires Tallied(pre, order, sold)
    requires order' == if line.productId in sold then order else order + [line.productId]
    requires sold' == sold[line.productId := (if line.productId in sold then sold[line.productId] else 0) + line.quantity]
    ensures Tallied(next, order', sold')
  {
    if line.productId !in sold {
      forall i | 0 <= i < |pre| ensures pre[i].productId != line.productId {
        assert ProductOf(pre[i]) in order;
      }
    }
    TallyOrderStep(pre, line, order, sold, order');
    TallySoldStep(pre, line, sold, sold');
  }

  /** The order grows by the line's product exactly when it is new. */
  lemma {:induction false} TallyOrderStep(pre: seq<SaleItem>, line: SaleItem, order: seq<int>, sold: map<int, int>, order': seq<int>)
    requires order == Keys(pre, ProductOf)
    requires forall p :: p in sold <==> p in order
    requires order' == if line.productId in sold then order else order + [line.productId]
    ensures order' == Keys(pre + [line], ProductOf)
    ensures forall p :: p in order' <==> p in sold || p == line.productId
  {
    KeysSnoc(pre, line, ProductOf);
  }

  /** The line's quantity lands on its product's entry, which starts from 0
      when the product is new. */
  lemma {:induction false} TallySoldStep(pre: seq<SaleItem>, line: SaleItem, sold: map<int, int>, sold': map<int, int>)
    requires forall p :: p in sold ==> sold[p] == QuantityOf(pre, p)
    requires line.productId !in sold ==> forall i :: 0 <= i < |pre| ==> pre[i].productId != line.productId
    requires sold' == sold[line.productId := (if line.productId in sold then sold[line.productId] else 0) + line.quantity]
    ensures forall p :: p in sold' ==> sold'[p] == QuantityOf(pre + [line], p)
  {
    if line.productId !in sold {
      QuantityOfAbsent(pre, line.productId);
    }
    forall q | q in sold' ensures sold'[q] == QuantityOf(pre + [line], q) {
      QuantityOfAppend(pre, line, q);
    }
  }

  /** t is the tally of a product that occurs in the lines: its name and the
      sum of its quantities. */
  predicate TallyOf(lines: seq<SaleItem>, products: map<int, Product>, t: ProductSales) {
    && (exists j :: 0 <= j < |lines| && lines[j].productId == t.productId)
    && t.productId in products
    && t.productName == products[t.productId].name
    && t.quantitySold == QuantityOf(lines, t.productId)
  }

  /** No entry of top is for product p. */
  predicate Omitted(top: seq<ProductSales>, p: int) {
    forall i :: 0 <= i < |top| ==> top[i].productId != p
  }

  /** top lists five products of the lines, or all of them when fewer were
      sold, best sellers first, none twice, and every product left out sold no
      more than any product listed. */
  predicate BestSellers(lines: seq<SaleItem>, products: map<int, Product>, top: seq<ProductSales>) {
    && |top| == (if |Keys(lines, ProductOf)| < 5 then |Keys(lines, ProductOf)| else 5)
    && SortedDesc(top, SoldKey)
    && (forall i :: 0 <= i < |top| ==> TallyOf(lines, products, top[i]))
    && (forall i, j :: 0 <= i < j < |top| ==> top[i].productId != top[j].productId)
    && (forall j :: 0 <= j < |lines| && Omitted(top, lines[j].productId) ==>
          forall i :: 0 <= i < |top| ==> top[i].quantitySold >= QuantityOf(lines, lines[j].productId))
  }

  /** One entry per product of `order`, with its name and count. */
  function Tallies(order: seq<int>, products: map<int, Product>, sold: map<int, int>): (r: seq<ProductSales>)
    requires forall i :: 0 <= i < |order| ==> order[i] in products && order[i] in sold
    ensures |r| == |order|
    ensures forall i :: 0 <= i < |order| ==>
      r[i] == ProductSales(order[i], products[order[i]].name, sold[order[i]])
  {
    seq(|order|, i requires 0 <= i < |order| => ProductSales(order[i], products[order[i]].name, sold[order[i]]))
  }

  /** The top-products part of todayStats: tally, sort by quantity sold
      descending, keep five. */
  method TopProducts(lines: seq<SaleItem>, products: map<int, Product>) returns (top: seq<ProductSales>)
    requires forall i :: 0 <= i < |lines| ==> lines[i].productId in products
    ensures BestSellers(lines, products, top)
  {
    var order, sold := Tally(lines);
    var tallies := Tallies(order, products, sold);
    var sorted := SortDesc(tallies, SoldKey);
    top := Take(sorted, 5);
    TopIsBestSellers(lines, products, order, sold, tallies, sorted, top);
  }

  /** Five entries taken from the sorted tallies are the best sellers. */
  lemma {:induction false} TopIsBestSellers(lines: seq<SaleItem>, products: map<int, Product>, order: seq<int>, sold: map<int, int>,
                         tallies: seq<ProductSales>, sorted: seq<ProductSales>, top: seq<ProductSales>)
    requires order == Keys(lines, ProductOf)
    requires forall p :: p in sold ==> sold[p] == QuantityOf(lines, p)
    requires forall i :: 0 <= i < |order| ==> order[i] in products && order[i] in sold
    requires tallies == Tallies(order, products, sold)
    requires multiset(sorted) == multiset(tallies) && SortedDesc(sorted, SoldKey)
    requires top == Take(sorted, 5)
    ensures BestSellers(lines, products, top)
  {
    assert |sorted| == |multiset(sorted)| == |multiset(tallies)| == |tallies|;
    TopProductsFacts(lines, order, tallies, sorted, top);
    TopDominates(lines, order, tallies, sorted, top);
    forall i | 0 <= i < |top| ensures TallyOf(lines, products, top[i]) {
      assert top[i] in tallies;
    }
  }

  /** A product of the lines that did not make the list sold no more than
      any listed product. */
  lemma {:induction false} TopDominates(lines: seq<SaleItem>, order: seq<int>, tallies: seq<ProductSales>, sorted: seq<ProductSales>, top: seq<ProductSales>)
    requires order == Keys(lines, ProductOf)
    requires |tallies| == |order|
    requires forall i :: 0 <= i < |order| ==> tallies[i].productId == order[i] && tallies[i].quantitySold == QuantityOf(lines, order[i])
    requires multiset(sorted) == multiset(tallies)
    requires SortedDesc(sorted, SoldKey)
    requires top == Take(sorted, 5)
    ensures forall j :: 0 <= j < |lines| && Omitted(top, lines[j].productId) ==>
      forall i :: 0 <= i < |top| ==> top[i].quantitySold >= QuantityOf(lines, lines[j].productId)
  {
    forall j | 0 <= j < |lines| && Omitted(top, lines[j].productId)
      ensures forall i :: 0 <= i < |top| ==> top[i].quantitySold >= QuantityOf(lines, lines[j].productId)
    {
      var p := lines[j].productId;
      var k :| 0 <= k < |order| && order[k] == p;
      var t := tallies[k];
      assert t in multiset(sorted);
      assert t !in top;
      TakeSortedDominates(sorted, 5, SoldKey, t);
      forall i | 0 <= i < |top| ensures top[i].quantitySold >= QuantityOf(lines, p) {
        assert top[i] in top;
      }
    }
  }

  /** SaleController::todayStats for `day`. A line whose product no longer
      exists makes the name lookup fail. */
  method TodayStats(shop: Shop, day: Date) returns (r: Result<DayStats>)
    ensures r.Err? <==> exists i :: 0 <= i < |LinesOn(shop, day)| && LinesOn(shop, day)[i].productId !in shop.products
    ensures r.Err? ==> r.error == ServerError
    ensures r.Ok? ==>
      && r.value.totalSales == |SalesOn(shop.sales, day)|
      && r.value.totalRevenue == Sum(SalesOn(shop.sales, day), SaleTotal)
      && r.value.averageTicket == (if r.value.totalSales > 0 then r.value.totalRevenue / r.value.totalSales as real else 0.0)
      && BestSellers(LinesOn(shop, day), shop.products, r.value.topProducts)
  {
    var todays := SalesOn(shop.sales, day);
    var lines := LinesOn(shop, day);
    if exists i :: 0 <= i < |lines| && lines[i].productId !in shop.products {
      return Err(ServerError);
    }
    var count := |todays|;
    var revenue := Sum(todays, SaleTotal);
    var average := if count > 0 then revenue / count as real else 0.0;
    var top := TopProducts(lines, shop.products);
    r := Ok(DayStats(count, revenue, average, top));
  }

  /** The entries of the sorted tally are tallies of distinct products that
      occur in the lines, each with its summed quantity. */
  lemma {:induction false} TopProductsFacts(lines: seq<SaleItem>, order: seq<int>, tallies: seq<ProductSales>, sorted: seq<ProductSales>, top: seq<ProductSales>)
    requires order == Keys(lines, ProductOf)
    requires |tallies| == |order|
    requires forall i :: 0 <= i < |order| ==> tallies[i].productId == order[i] && tallies[i].quantitySold == QuantityOf(lines, order[i])
    requires multiset(sorted) == multiset(tallies)
    requires top <= sorted
    ensures forall i :: 0 <= i < |top| ==>
      && (exists j :: 0 <= j < |lines| && lines[j].productId == top[i].productId)
      && top[i].quantitySold == QuantityOf(lines, top[i].productId)
      && top[i] in tallies
    ensures forall i, j :: 0 <= i < j < |top| ==> top[i].productId != top[j].productId
  {
    PrefixOfPermutation(top, sorted, tallies);
    forall i | 0 <= i < |top|
      ensures && (exists j :: 0 <= j < |lines| && lines[j].productId == top[i].productId)
              && top[i].quantitySold == QuantityOf(lines, top[i].productId)
              && top[i] in tallies
    {
      assert top[i] in top;
      var k :| 0 <= k < |tallies| && tallies[k] == top[i];
      var j :| 0 <= j < |lines| && ProductOf(lines[j]) == order[k];
    }
    PermutationKeepsDistinct(tallies, sorted, ProductOfTally);
    forall i, j | 0 <= i < j < |top|
      ensures top[i].productId != top[j].productId
    {
      assert top[i] == sorted[i] && top[j] == sorted[j];
    }
  }
}
