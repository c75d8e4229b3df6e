/** The entities of the inventory system: transaction types, products,
    locations, one stock row per (product, location), and the append-only
    movement ledger. Quantities and costs are decimals in the source; here they
    are exact reals. */
module Inventory {
  import opened Wrappers

  /** The direction class of a transaction type. */
  datatype Category = In | Out | Adjustment | Transfer {

    /** Categories whose positive quantities are stored negated. */
    predicate IsOutbound() {
      this == Out || this == Adjustment
    }
  }

  datatype TransactionType = TransactionType(code: string, category: Category, affectsCost: bool)

  /** The system transaction types installed by the seeder, in seeding order. */
  const SeededTypes: seq<TransactionType> := [
    TransactionType("PURCHASE", In, true),
    TransactionType("SALE", Out, true),
    TransactionType("ADJUSTMENT_IN", In, false),
    TransactionType("ADJUSTMENT_OUT", Out, false),
    TransactionType("TRANSFER_IN", In, false),
    TransactionType("TRANSFER_OUT", Out, false),
    TransactionType("PRODUCTION", In, true),
    TransactionType("CONSUMPTION", Out, true)
  ]

  /** Every seeded type is plain inbound or outbound, and exactly PURCHASE,
      SALE, PRODUCTION and CONSUMPTION affect the average cost. */
  lemma {:induction false} SeededTypesTable()
    ensures forall i :: 0 <= i < |SeededTypes| ==> SeededTypes[i].category == In || SeededTypes[i].category == Out
    ensures forall i :: 0 <= i < |SeededTypes| ==>
      (SeededTypes[i].affectsCost <==> SeededTypes[i].code in CostCodes)
  {
    forall i | 0 <= i < |SeededTypes| ensures SeededTypes[i].affectsCost <==> SeededTypes[i].code in CostCodes {
      SeededCostCode(i);
    }
  }

  /** The codes of the seeded types that move the average cost. */
  const CostCodes: seq<string> := ["PURCHASE", "SALE", "PRODUCTION", "CONSUMPTION"]

  /** The seeded type at i affects the cost exactly when its code is listed. */
  lemma {:induction false} SeededCostCode(i: nat)
    requires i < |SeededTypes|
    ensures SeededTypes[i].affectsCost <==> SeededTypes[i].code in CostCodes
  {
    var code := SeededTypes[i].code;
    if !SeededTypes[i].affectsCost {
      assert code[0] == 'A' || code[0] == 'T';
      assert forall k :: 0 <= k < |CostCodes| ==> CostCodes[k][0] != 'A' && CostCodes[k][0] != 'T';
    }
  }

  /** A JSON object column (a location's `settings`, a product's
      `attributes`), as the map from its keys to their values' text. */
  type Json = map<string, string>

  /** The default of both JSON columns, `'{}'`. */
  const EmptyJson: Json := map[]

  /** A row of the products table; `category` and `supplier` name rows of
      the categories and suppliers tables. */
  datatype Product = Product(
    org: Uuid,
    category: Option<Uuid>,
    supplier: Option<Uuid>,
    sku: string,
    barcode: Option<string>,
    name: string,
    description: Option<string>,
    unitType: string,
    unitName: string,
    unitPrecision: int,
    costPrice: real,
    sellingPrice: real,
    currency: string,
    trackInventory: bool,
    minStock: real,
    maxStock: Option<real>,
    reorderPoint: Option<real>,
    reorderQuantity: Option<real>,
    trackExpiry: bool,
    trackBatches: bool,
    shelfLifeDays: Option<int>,
    isActive: bool,
    isSellable: bool,
    isPurchasable: bool,
    attributes: Json,
    createdBy: Option<Uuid>)

  datatype Location = Location(
    org: Uuid,
    name: string,
    code: Option<string>,
    address: Option<string>,
    kind: string,
    isActive: bool,
    settings: Json)

  /** The current position of one product at one location. */
  datatype StockRow = StockRow(
    org: Uuid,
    product: Uuid,
    location: Uuid,
    quantity: real,
    reserved: real,
    averageCost: real)

  /** The position a (product, location) pair starts from on first use. */
  function FreshRow(org: Uuid, product: Uuid, location: Uuid): StockRow {
    StockRow(org, product, location, 0.0, 0.0, 0.0)
  }

  /** A ledger entry. `quantity` is already signed; `day` is the yyyymmdd
      stamp of the day it was recorded. */
  datatype Movement = Movement(
    org: Uuid,
    number: string,
    day: string,
    transactionType: Uuid,
    product: Uuid,
    location: Uuid,
    quantity: real,
    unitCost: real,
    balanceBefore: real,
    balanceAfter: real,
    referenceType: Option<string>,
    referenceId: Option<Uuid>,
    notes: Option<string>,
    createdBy: Option<Uuid>)

  /** The tables the inventory actions touch; `categories` and `suppliers`
      hold the keys of those tables, which the `exists` rules look up. */
  datatype State = State(
    categories: set<Uuid>,
    suppliers: set<Uuid>,
    products: map<Uuid, Product>,
    locations: map<Uuid, Location>,
    types: map<Uuid, TransactionType>,
    stock: seq<StockRow>,
    movements: seq<Movement>)

  /** The unique key of the stock table: one row per (product, location). */
  predicate OneRowPerPair(stock: seq<StockRow>) {
    forall i, j :: 0 <= i < j < |stock| ==>
      stock[i].product != stock[j].product || stock[i].location != stock[j].location
  }

  /** The index of the stock row of (product, location), if there is one. */
  function FindRow(stock: seq<StockRow>, product: Uuid, location: Uuid): (r: Option<nat>)
    ensures r.Some? ==>
      r.value < |stock| && stock[r.value].product == product && stock[r.value].location == location
    ensures r.Some? ==> forall i :: r.value < i < |stock| ==>
      stock[i].product != product || stock[i].location != location
    ensures r.None? ==> forall i :: 0 <= i < |stock| ==>
      stock[i].product != product || stock[i].location != location
  {
    if stock == [] then None
    else if stock[|stock| - 1].product == product && stock[|stock| - 1].location == location
    then Some(|stock| - 1)
    else FindRow(stock[..|stock| - 1], product, location)
  }

  /** FindRow finds the last row of the pair: a matching row with no match
      after it is the one found. */
  lemma {:induction false} FindRowAt(stock: seq<StockRow>, product: Uuid, location: Uuid, k: nat)
    requires k < |stock| && stock[k].product == product && stock[k].location == location
    requires forall i :: k < i < |stock| ==> stock[i].product != product || stock[i].location != location
    ensures FindRow(stock, product, location) == Some(k)
  {
    if k < |stock| - 1 {
      var prefix := stock[..|stock| - 1];
      assert forall i :: k < i < |prefix| ==> prefix[i] == stock[i];
      FindRowAt(prefix, product, location, k);
    }
  }

  /** Writes `row` over the stock row of its pair, or appends it when the
      pair has no row yet: firstOrCreate followed by save. */
  function Upsert(stock: seq<StockRow>, row: StockRow): (r: seq<StockRow>)
    ensures |r| == |stock| || |r| == |stock| + 1
    ensures forall i :: 0 <= i < |stock| && (stock[i].product != row.product || stock[i].location != row.location) ==>
      r[i] == stock[i]
    ensures forall i :: 0 <= i < |r| && (r[i].product != row.product || r[i].location != row.location) ==>
      i < |stock| && r[i] == stock[i]
  {
    match FindRow(stock, row.product, row.location)
    case Some(k) => stock[k := row]
    case None => stock + [row]
  }

  /** After an upsert the pair's row is found and holds the written row. */
  lemma {:induction false} UpsertFinds(stock: seq<StockRow>, row: StockRow)
    ensures var k := FindRow(Upsert(stock, row), row.product, row.location);
      k.Some? && Upsert(stock, row)[k.value] == row
  {
    var r := Upsert(stock, row);
    match FindRow(stock, row.product, row.location)
    case Some(k) =>
      FindRowAt(r, row.product, row.location, k);
    case None =>
      FindRowAt(r, row.product, row.location, |stock|);
  }

  /** An upsert keeps the unique key of the stock table. */
  lemma {:induction false} UpsertKeepsOneRowPerPair(stock: seq<StockRow>, row: StockRow)
    requires OneRowPerPair(stock)
    ensures OneRowPerPair(Upsert(stock, row))
  {
    var r := Upsert(stock, row);
    forall i, j | 0 <= i < j < |r|
      ensures r[i].product != r[j].product || r[i].location != r[j].location
    {
      if FindRow(stock, row.product, row.location).None? && j == |stock| {
        assert r[i] == stock[i];
      }
    }
  }
}
