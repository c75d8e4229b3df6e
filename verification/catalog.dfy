/** The product and location catalog of an organization: creation and update
    with per-organization unique SKUs and location codes, deletion guarded by
    positive stock, location statistics, the low-stock list, product search,
    and the transfer placeholder. */
module Catalog {
  import opened Wrappers
  import opened Inventory
  import Ledger
  import Aggregate

  // ---------------------------------------------------------------------
  // Stock rows

  /** The rows of `stock` that satisfy `keep`, in order. */
  function KeepRows(stock: seq<StockRow>, keep: StockRow -> bool): (r: seq<StockRow>)
    ensures |r| <= |stock|
    ensures forall i :: 0 <= i < |stock| && keep(stock[i]) ==> stock[i] in r
    ensures forall i :: 0 <= i < |r| ==> r[i] in stock && keep(r[i])
    ensures multiset(r) <= multiset(stock)
    ensures (forall i :: 0 <= i < |stock| ==> keep(stock[i])) ==> r == stock
  {
    if stock == [] then []
    else
      var rest := KeepRows(stock[..|stock| - 1], keep);
      var last := stock[|stock| - 1];
      assert forall i :: 0 <= i < |stock| - 1 ==> stock[..|stock| - 1][i] == stock[i];
      assert stock == stock[..|stock| - 1] + [last];
      if keep(last) then rest + [last] else rest
  }

  /** Filtering a concatenation filters each part and keeps them in order, so
      the kept rows appear in the order of the table. */
  lemma {:induction false} KeepRowsAppend(a: seq<StockRow>, b: seq<StockRow>, keep: StockRow -> bool)
    ensures KeepRows(a + b, keep) == KeepRows(a, keep) + KeepRows(b, keep)
  {
    if b != [] {
      var b' := b[..|b| - 1];
      KeepRowsAppend(a, b', keep);
      assert (a + b)[..|a + b| - 1] == a + b';
      assert (a + b)[|a + b| - 1] == b[|b| - 1];
    } else {
      assert a + b == a;
    }
  }

  /** Keeping rows keeps the stock table's unique key. */
  lemma {:induction false} KeepRowsOneRowPerPair(stock: seq<StockRow>, keep: StockRow -> bool)
    requires OneRowPerPair(stock)
    ensures OneRowPerPair(KeepRows(stock, keep))
  {
    if stock != [] {
      var prefix := stock[..|stock| - 1];
      var last := stock[|stock| - 1];
      assert OneRowPerPair(prefix);
      KeepRowsOneRowPerPair(prefix, keep);
      var rest := KeepRows(prefix, keep);
      if keep(last) {
        var r := rest + [last];
        forall i, j | 0 <= i < j < |r|
          ensures r[i].product != r[j].product || r[i].location != r[j].location
        {
          if j == |rest| {
            assert r[i] == rest[i] && rest[i] in prefix;
            var k :| 0 <= k < |prefix| && prefix[k] == rest[i];
            assert stock[k] == rest[i];
          } else {
            assert r[i] == rest[i] && r[j] == rest[j];
          }
        }
      }
    }
  }

  /** Whether any row of `stock` satisfies `p`. */
  predicate AnyRow(stock: seq<StockRow>, p: StockRow -> bool) {
    exists i :: 0 <= i < |stock| && p(stock[i])
  }

  /** A non-empty filter means some row passes it, and conversely. */
  lemma {:induction false} KeepRowsNonEmpty(stock: seq<StockRow>, keep: StockRow -> bool)
    ensures |KeepRows(stock, keep)| > 0 <==> AnyRow(stock, keep)
  {
    var r := KeepRows(stock, keep);
    if |r| > 0 {
      assert r[0] in stock;
    }
    if AnyRow(stock, keep) {
      var i :| 0 <= i < |stock| && keep(stock[i]);
      assert stock[i] in r;
    }
  }

  // ---------------------------------------------------------------------
  // Locations

  /** The location types the validator accepts. */
  const LocationKinds: set<string> := {"warehouse", "store", "kitchen", "office", "production", "other"}

  /** Fields of a location request. `None` is an absent field; a nullable
      field given as null is `Some(None)`. */
  datatype LocationInput = LocationInput(
    name: Option<string>,
    code: Option<Option<string>>,
    address: Option<Option<string>>,
    kind: Option<string>,
    isActive: Option<bool>,
    settings: Option<Option<Json>>)

  /** settings sent as null: `nullable|array` lets it through, and the NOT
      NULL json column then refuses the write with a database error. */
  predicate NullSettings(input: LocationInput) {
    input.settings == Some(None)
  }

  /** A location as the table's defaults leave it: type warehouse, active,
      no code or address, settings `{}`. */
  function NewLocation(org: Uuid): Location {
    Location(org, "", None, None, "warehouse", true, EmptyJson)
  }

  /** The location with the supplied fields written over it. */
  function ApplyLocationInput(l: Location, input: LocationInput): Location {
    l.(
      name := input.name.GetOr(l.name),
      code := input.code.GetOr(l.code),
      address := input.address.GetOr(l.address),
      kind := input.kind.GetOr(l.kind),
      isActive := input.isActive.GetOr(l.isActive),
      settings := if input.settings.Some? && input.settings.value.Some? then input.settings.value.value else l.settings)
  }

  /** No location of `org` other than `ignore` already holds `code`. */
  predicate CodeFree(locations: map<Uuid, Location>, org: Uuid, code: string, ignore: Option<Uuid>) {
    forall id :: id in locations && Some(id) != ignore && locations[id].org == org ==> locations[id].code != Some(code)
  }

  /** The unique (organization, code) rule the validator enforces. */
  predicate UniqueCodes(locations: map<Uuid, Location>) {
    forall a, b :: a in locations && b in locations && a != b && locations[a].org == locations[b].org && locations[a].code.Some? ==>
      locations[a].code != locations[b].code
  }

  /** The given code, when there is one, fits the column and is free. */
  predicate CodeAcceptable(locations: map<Uuid, Location>, org: Uuid, code: Option<Option<string>>, ignore: Option<Uuid>) {
    code.Some? && code.value.Some? ==> |code.value.value| <= 50 && CodeFree(locations, org, code.value.value, ignore)
  }

  predicate LocationStoreValid(s: State, org: Uuid, input: LocationInput) {
    && input.name.Some? && 0 < |input.name.value| <= 255
    && input.kind.Some? && input.kind.value in LocationKinds
    && CodeAcceptable(s.locations, org, input.code, None)
  }

  /** LocationController::store; `id` is the key the new row receives. A
      taken key or a null settings fails at the insert. */
  function LocationStore(s: State, org: Uuid, id: Uuid, input: LocationInput): (r: Result<State>)
    ensures r.Err? ==> r.error in {ValidationFailed, ServerError}
    ensures r.Err? && r.error == ValidationFailed <==> !LocationStoreValid(s, org, input)
    ensures r.Err? && r.error == ServerError <==>
      LocationStoreValid(s, org, input) && (id in s.locations || NullSettings(input))
    ensures r.Ok? ==>
      && r.value.locations.Keys == s.locations.Keys + {id}
      && r.value.locations[id] == ApplyLocationInput(NewLocation(org), input)
      && (forall k :: k in s.locations ==> r.value.locations[k] == s.locations[k])
      && r.value == s.(locations := r.value.locations)
    ensures r.Ok? ==>
      var l := r.value.locations[id];
      && l.org == org && l.name == input.name.value && l.kind == input.kind.value
      && l.code == input.code.GetOr(None) && l.address == input.address.GetOr(None)
      && (input.isActive.None? ==> l.isActive)
      && (input.settings.None? ==> l.settings == EmptyJson)
  {
    if !LocationStoreValid(s, org, input) then Err(ValidationFailed)
    else if id in s.locations || NullSettings(input) then Err(ServerError)
    else
      var settings := match input.settings case Some(Some(j)) => j case _ => EmptyJson;
      var loc := Location(org, input.name.value, input.code.GetOr(None), input.address.GetOr(None),
        input.kind.value, input.isActive.GetOr(true), settings);
      Ok(s.(locations := s.locations[id := loc]))
  }

  predicate LocationUpdateValid(s: State, org: Uuid, id: Uuid, input: LocationInput) {
    && (input.name.Some? ==> 0 < |input.name.value| <= 255)
    && (input.kind.Some? ==> input.kind.value in LocationKinds)
    && CodeAcceptable(s.locations, org, input.code, Some(id))
  }

  /** The location of `org` keyed `id`, as the organization-scoped
      findOrFail sees it. */
  predicate OwnsLocation(s: State, org: Uuid, id: Uuid) {
    id in s.locations && s.locations[id].org == org
  }

  predicate OwnsProduct(s: State, org: Uuid, id: Uuid) {
    id in s.products && s.products[id].org == org
  }

  /** LocationController::update: only the supplied fields change; a null
      settings fails at the write. */
  function LocationUpdate(s: State, org: Uuid, id: Uuid, input: LocationInput): (r: Result<State>)
    ensures r.Err? && r.error == NotFound <==> !OwnsLocation(s, org, id)
    ensures r.Err? && r.error == ValidationFailed <==> OwnsLocation(s, org, id) && !LocationUpdateValid(s, org, id, input)
    ensures r.Err? && r.error == ServerError <==>
      OwnsLocation(s, org, id) && LocationUpdateValid(s, org, id, input) && NullSettings(input)
    ensures r.Ok? <==> OwnsLocation(s, org, id) && LocationUpdateValid(s, org, id, input) && !NullSettings(input)
    ensures r.Ok? ==>
      && r.value.locations.Keys == s.locations.Keys
      && (forall k :: k in s.locations && k != id ==> r.value.locations[k] == s.locations[k])
      && r.value.locations[id] == ApplyLocationInput(s.locations[id], input)
      && r.value == s.(locations := r.value.locations)
    ensures r.Ok? && id in s.locations && id in r.value.locations ==>
      var old_ := s.locations[id];
      var new_ := r.value.locations[id];
      && new_.org == old_.org
      && new_.name == input.name.GetOr(old_.name)
      && new_.code == input.code.GetOr(old_.code)
      && new_.address == input.address.GetOr(old_.address)
      && new_.kind == input.kind.GetOr(old_.kind)
      && new_.isActive == input.isActive.GetOr(old_.isActive)
      && new_.settings == (if input.settings.Some? then input.settings.value.GetOr(old_.settings) else old_.settings)
  {
    if !OwnsLocation(s, org, id) then Err(NotFound)
    else if !LocationUpdateValid(s, org, id, input) then Err(ValidationFailed)
    else if NullSettings(input) then Err(ServerError)
    else
      var l := s.locations[id];
      var l' := l.(
        name := input.name.GetOr(l.name),
        code := input.code.GetOr(l.code),
        address := input.address.GetOr(l.address),
        kind := input.kind.GetOr(l.kind),
        isActive := input.isActive.GetOr(l.isActive),
        settings := match input.settings case Some(Some(j)) => j case _ => l.settings);
      Ok(s.(locations := s.locations[id := l']))
  }

  /** An update that supplies nothing leaves the location as it was, and
      sending the same update twice is the same as sending it once. */
  lemma {:induction false} LocationApplyIdempotent(l: Location, input: LocationInput)
    ensures ApplyLocationInput(l, LocationInput(None, None, None, None, None, None)) == l
    ensures ApplyLocationInput(ApplyLocationInput(l, input), input) == ApplyLocationInput(l, input)
  {
  }

  /** Creating a location keeps codes unique within each organization. */
  lemma {:induction false} LocationStoreKeepsUniqueCodes(s: State, org: Uuid, id: Uuid, input: LocationInput)
    requires UniqueCodes(s.locations)
    requires LocationStore(s, org, id, input).Ok?
    ensures UniqueCodes(LocationStore(s, org, id, input).value.locations)
  {
  }

  /** Updating a location keeps codes unique, its own code included. */
  lemma {:induction false} LocationUpdateKeepsUniqueCodes(s: State, org: Uuid, id: Uuid, input: LocationInput)
    requires UniqueCodes(s.locations)
    requires LocationUpdate(s, org, id, input).Ok?
    ensures UniqueCodes(LocationUpdate(s, org, id, input).value.locations)
  {
    var ls := LocationUpdate(s, org, id, input).value.locations;
    forall a, b | a in ls && b in ls && a != b && ls[a].org == ls[b].org && ls[a].code.Some?
      ensures ls[a].code != ls[b].code
    {
      if (a == id || b == id) && input.code.Some? && input.code.value.Some? {
        assert CodeFree(s.locations, org, input.code.value.value, Some(id));
      }
    }
  }

  /** A row that holds stock. */
  predicate Positive(row: StockRow) {
    row.quantity > 0.0
  }

  /** Some row of the location holds stock. */
  predicate LocationHasStock(stock: seq<StockRow>, id: Uuid) {
    exists i :: 0 <= i < |stock| && stock[i].location == id && Positive(stock[i])
  }

  /** Some movement of the ledger names the location. */
  predicate LocationMoved(movements: seq<Movement>, id: Uuid) {
    exists j :: 0 <= j < |movements| && movements[j].location == id
  }

  /** Some movement of the ledger names the product. */
  predicate ProductMoved(movements: seq<Movement>, id: Uuid) {
    exists j :: 0 <= j < |movements| && movements[j].product == id
  }

  /** Some row of the product holds stock. */
  predicate ProductHasStock(stock: seq<StockRow>, id: Uuid) {
    exists i :: 0 <= i < |stock| && stock[i].product == id && Positive(stock[i])
  }

  /** The stock rows left once `id`'s rows are dropped (the foreign key's
      cascade) for products and locations respectively. */
  function DropProductRows(stock: seq<StockRow>, id: Uuid): seq<StockRow> {
    KeepRows(stock, (row: StockRow) => row.product != id)
  }

  function DropLocationRows(stock: seq<StockRow>, id: Uuid): seq<StockRow> {
    KeepRows(stock, (row: StockRow) => row.location != id)
  }

  /** LocationController::destroy: refused while any of the location's rows
      holds stock; the ledger's foreign key refuses it (an uncaught database
      error) while any movement names it; otherwise the location and its rows
      go. */
  function LocationDestroy(s: State, org: Uuid, id: Uuid): (r: Result<State>)
    ensures r.Err? && r.error == NotFound <==> !OwnsLocation(s, org, id)
    ensures r.Err? && r.error == BadRequest <==>
      OwnsLocation(s, org, id) && LocationHasStock(s.stock, id)
    ensures r.Err? && r.error == ServerError <==>
      OwnsLocation(s, org, id) && !LocationHasStock(s.stock, id) && LocationMoved(s.movements, id)
    ensures r.Ok? <==> OwnsLocation(s, org, id) && !LocationHasStock(s.stock, id) && !LocationMoved(s.movements, id)
    ensures r.Ok? ==>
      && r.value.locations == s.locations - {id}
      && r.value.stock == DropLocationRows(s.stock, id)
      && r.value == s.(locations := r.value.locations, stock := r.value.stock)
      && (forall i :: 0 <= i < |r.value.stock| ==> r.value.stock[i].location != id)
      && (forall i :: 0 <= i < |s.stock| && s.stock[i].location != id ==> s.stock[i] in r.value.stock)
      && multiset(r.value.stock) <= multiset(s.stock)
  {
    if !OwnsLocation(s, org, id) then Err(NotFound)
    else if LocationHasStock(s.stock, id) then Err(BadRequest)
    else if LocationMoved(s.movements, id) then Err(ServerError)
    else Ok(s.(locations := s.locations - {id}, stock := DropLocationRows(s.stock, id)))
  }

  /** ProductController::destroy, the same guard for products. */
  function ProductDestroy(s: State, org: Uuid, id: Uuid): (r: Result<State>)
    ensures r.Err? && r.error == NotFound <==> !OwnsProduct(s, org, id)
    ensures r.Err? && r.error == BadRequest <==>
      OwnsProduct(s, org, id) && ProductHasStock(s.stock, id)
    ensures r.Err? && r.error == ServerError <==>
      OwnsProduct(s, org, id) && !ProductHasStock(s.stock, id) && ProductMoved(s.movements, id)
    ensures r.Ok? <==> OwnsProduct(s, org, id) && !ProductHasStock(s.stock, id) && !ProductMoved(s.movements, id)
    ensures r.Ok? ==>
      && r.value.products == s.products - {id}
      && r.value.stock == DropProductRows(s.stock, id)
      && r.value == s.(products := r.value.products, stock := r.value.stock)
      && (forall i :: 0 <= i < |r.value.stock| ==> r.value.stock[i].product != id)
      && (forall i :: 0 <= i < |s.stock| && s.stock[i].product != id ==> s.stock[i] in r.value.stock)
      && multiset(r.value.stock) <= multiset(s.stock)
  {
    if !OwnsProduct(s, org, id) then Err(NotFound)
    else if ProductHasStock(s.stock, id) then Err(BadRequest)
    else if ProductMoved(s.movements, id) then Err(ServerError)
    else Ok(s.(products := s.products - {id}, stock := DropProductRows(s.stock, id)))
  }

  /** Dropping the rows of a product or location the ledger never names keeps
      the ledger invariants. */
  lemma {:induction false} DropRowsKeepsValid(s: State, keep: StockRow -> bool)
    requires Ledger.Valid(s)
    requires forall j :: 0 <= j < |s.movements| ==> keep(s.stock[FindRow(s.stock, s.movements[j].product, s.movements[j].location).value])
    ensures Ledger.Valid(s.(stock := KeepRows(s.stock, keep)))
  {
    var r := KeepRows(s.stock, keep);
    KeepRowsOneRowPerPair(s.stock, keep);
    forall i | 0 <= i < |r|
      ensures r[i].quantity >= 0.0 && r[i].quantity == Ledger.Net(s.movements, r[i].product, r[i].location)
    {
      assert r[i] in s.stock;
    }
    forall j | 0 <= j < |s.movements|
      ensures FindRow(r, s.movements[j].product, s.movements[j].location).Some?
    {
      var f := FindRow(s.stock, s.movements[j].product, s.movements[j].location).value;
      assert s.stock[f] in r;
    }
  }

  /** Deleting a product keeps the ledger invariants. */
  lemma {:induction false} ProductDestroyKeepsValid(s: State, org: Uuid, id: Uuid)
    requires Ledger.Valid(s)
    requires ProductDestroy(s, org, id).Ok?
    ensures Ledger.Valid(ProductDestroy(s, org, id).value)
  {
    DropRowsKeepsValid(s, (row: StockRow) => row.product != id);
  }

  /** Deleting a location keeps the ledger invariants. */
  lemma {:induction false} LocationDestroyKeepsValid(s: State, org: Uuid, id: Uuid)
    requires Ledger.Valid(s)
    requires LocationDestroy(s, org, id).Ok?
    ensures Ledger.Valid(LocationDestroy(s, org, id).value)
  {
    DropRowsKeepsValid(s, (row: StockRow) => row.location != id);
  }

  /** The statistics LocationController::show attaches to a location. */
  datatype LocationStats = LocationStats(totalProducts: nat, totalValue: real, lowStockProducts: nat)

  /** Some row of the location holds stock of a product the catalog does not
      have: the statistics then read a property of a missing product. */
  predicate OrphanStock(s: State, id: Uuid) {
    exists i :: 0 <= i < |s.stock| && s.stock[i].location == id && Positive(s.stock[i]) && s.stock[i].product !in s.products
  }

  /** The stock value of one row. */
  function RowValue(row: StockRow): real {
    row.quantity * row.averageCost
  }

  /** LocationController::show's statistics over the location's rows with
      stock. A row whose product is gone fails when its minimum is read. */
  function LocationStatsOf(s: State, org: Uuid, id: Uuid): (r: Result<LocationStats>)
    ensures r.Err? ==> r.error == NotFound || r.error == ServerError
    ensures r.Err? && r.error == NotFound <==> !OwnsLocation(s, org, id)
    ensures r.Err? && r.error == ServerError <==>
      OwnsLocation(s, org, id) && OrphanStock(s, id)
    ensures r.Ok? <==> OwnsLocation(s, org, id) && !OrphanStock(s, id)
    ensures r.Ok? ==> r.value.lowStockProducts <= r.value.totalProducts
  {
    if !OwnsLocation(s, org, id) then Err(NotFound)
    else
      var held := KeepRows(s.stock, (row: StockRow) => row.location == id && Positive(row));
      if exists i :: 0 <= i < |held| && held[i].product !in s.products then Err(ServerError)
      else
        var low := KeepRows(held, (row: StockRow) => row.product in s.products && row.quantity <= s.products[row.product].minStock);
        Ok(LocationStats(|held|, Aggregate.Sum(held, RowValue), |low|))
  }

  /** A location is refused deletion exactly when its statistics count a
      product with stock. */
  lemma {:induction false} DestroyRefusedIffStocked(s: State, org: Uuid, id: Uuid)
    requires LocationStatsOf(s, org, id).Ok?
    ensures LocationDestroy(s, org, id) == Err(BadRequest) <==> LocationStatsOf(s, org, id).value.totalProducts > 0
  {
    KeepRowsNonEmpty(s.stock, (row: StockRow) => row.location == id && Positive(row));
  }

  /** The statistics of a location that holds nothing are all zero. */
  lemma {:induction false} EmptyLocationStats(s: State, org: Uuid, id: Uuid)
    requires OwnsLocation(s, org, id)
    requires forall i :: 0 <= i < |s.stock| ==> s.stock[i].location != id || s.stock[i].quantity <= 0.0
    ensures LocationStatsOf(s, org, id) == Ok(LocationStats(0, 0.0, 0))
  {
    var keep := (row: StockRow) => row.location == id && Positive(row);
    KeepRowsNonEmpty(s.stock, keep);
  }

  // ---------------------------------------------------------------------
  // Products

  const UnitTypes: set<string> := {"piece", "weight", "volume", "length", "area"}

  /** Fields of a product request; `None` is an absent field and a nullable
      field given as null is `Some(None)`. */
  datatype ProductInput = ProductInput(
    categoryId: Option<Option<Uuid>>,
    supplierId: Option<Option<Uuid>>,
    sku: Option<string>,
    barcode: Option<Option<string>>,
    name: Option<string>,
    description: Option<Option<string>>,
    unitType: Option<string>,
    unitName: Option<string>,
    unitPrecision: Option<int>,
    costPrice: Option<real>,
    sellingPrice: Option<real>,
    currency: Option<string>,
    trackInventory: Option<bool>,
    minStock: Option<real>,
    maxStock: Option<Option<real>>,
    reorderPoint: Option<Option<real>>,
    reorderQuantity: Option<Option<real>>,
    trackExpiry: Option<bool>,
    trackBatches: Option<bool>,
    shelfLifeDays: Option<Option<int>>,
    isActive: Option<bool>,
    isSellable: Option<bool>,
    isPurchasable: Option<bool>,
    attributes: Option<Option<Json>>)

  /** A request that supplies no field. */
  const NoProductInput: ProductInput := ProductInput(
    None, None, None, None, None, None, None, None, None, None, None, None,
    None, None, None, None, None, None, None, None, None, None, None, None)

  /** No product of `org` other than `ignore` already holds `sku`. */
  predicate SkuFree(products: map<Uuid, Product>, org: Uuid, sku: string, ignore: Option<Uuid>) {
    forall id :: id in products && Some(id) != ignore && products[id].org == org ==> products[id].sku != sku
  }

  /** The unique (organization, SKU) rule the validator enforces. */
  predicate UniqueSkus(products: map<Uuid, Product>) {
    forall a, b :: a in products && b in products && a != b && products[a].org == products[b].org ==>
      products[a].sku != products[b].sku
  }

  /** A nullable reference that is given must name an existing row. */
  predicate RefExists(ref: Option<Option<Uuid>>, table: set<Uuid>) {
    ref.Some? && ref.value.Some? ==> ref.value.value in table
  }

  /** A nullable amount that is given must not be negative. */
  predicate NonNegativeOrNull(x: Option<Option<real>>) {
    x.Some? && x.value.Some? ==> x.value.value >= 0.0
  }

  /** The rules every supplied field obeys, on create and on update. The
      category and supplier `exists` rules look at the whole table, not only
      the organization's rows. */
  predicate ProductFieldsValid(s: State, input: ProductInput) {
    && RefExists(input.categoryId, s.categories)
    && RefExists(input.supplierId, s.suppliers)
    && (input.sku.Some? ==> 0 < |input.sku.value| <= 100)
    && (input.barcode.Some? && input.barcode.value.Some? ==> |input.barcode.value.value| <= 100)
    && (input.name.Some? ==> 0 < |input.name.value| <= 255)
    && (input.unitType.Some? ==> input.unitType.value in UnitTypes)
    && (input.unitName.Some? ==> 0 < |input.unitName.value| <= 50)
    && (input.unitPrecision.Some? ==> 0 <= input.unitPrecision.value <= 4)
    && (input.costPrice.Some? ==> input.costPrice.value >= 0.0)
    && (input.sellingPrice.Some? ==> input.sellingPrice.value >= 0.0)
    && (input.currency.Some? ==> |input.currency.value| == 3)
    && (input.minStock.Some? ==> input.minStock.value >= 0.0)
    && NonNegativeOrNull(input.maxStock)
    && NonNegativeOrNull(input.reorderPoint)
    && NonNegativeOrNull(input.reorderQuantity)
    && (input.shelfLifeDays.Some? && input.shelfLifeDays.value.Some? ==> input.shelfLifeDays.value.value >= 1)
  }

  /** attributes sent as null: `nullable|array` lets it through, and the NOT
      NULL json column then refuses the write with a database error. */
  predicate NullAttributes(input: ProductInput) {
    input.attributes == Some(None)
  }

  predicate ProductStoreValid(s: State, org: Uuid, input: ProductInput) {
    && ProductFieldsValid(s, input)
    && input.sku.Some? && input.name.Some? && input.unitType.Some? && input.unitName.Some?
    && SkuFree(s.products, org, input.sku.value, None)
  }

  /** A product as the table's defaults leave it, created by `actor`. The
      required text columns have no default and are left empty. */
  function NewProduct(org: Uuid, actor: Option<Uuid>): Product {
    Product(
      org, None, None, "", None, "", None, "", "", 2, 0.0, 0.0, "USD",
      true, 0.0, None, None, None, false, false, None, true, true, true, EmptyJson, actor)
  }

  /** The product with the supplied fields written over it. */
  function ApplyProductInput(p: Product, input: ProductInput): Product {
    p.(
      category := input.categoryId.GetOr(p.category),
      supplier := input.supplierId.GetOr(p.supplier),
      sku := input.sku.GetOr(p.sku),
      barcode := input.barcode.GetOr(p.barcode),
      name := input.name.GetOr(p.name),
      description := input.description.GetOr(p.description),
      unitType := input.unitType.GetOr(p.unitType),
      unitName := input.unitName.GetOr(p.unitName),
      unitPrecision := input.unitPrecision.GetOr(p.unitPrecision),
      costPrice := input.costPrice.GetOr(p.costPrice),
      sellingPrice := input.sellingPrice.GetOr(p.sellingPrice),
      currency := input.currency.GetOr(p.currency),
      trackInventory := input.trackInventory.GetOr(p.trackInventory),
      minStock := input.minStock.GetOr(p.minStock),
      maxStock := input.maxStock.GetOr(p.maxStock),
      reorderPoint := input.reorderPoint.GetOr(p.reorderPoint),
      reorderQuantity := input.reorderQuantity.GetOr(p.reorderQuantity),
      trackExpiry := input.trackExpiry.GetOr(p.trackExpiry),
      trackBatches := input.trackBatches.GetOr(p.trackBatches),
      shelfLifeDays := input.shelfLifeDays.GetOr(p.shelfLifeDays),
      isActive := input.isActive.GetOr(p.isActive),
      isSellable := input.isSellable.GetOr(p.isSellable),
      isPurchasable := input.isPurchasable.GetOr(p.isPurchasable),
      attributes := if input.attributes.Some? && input.attributes.value.Some? then input.attributes.value.value else p.attributes)
  }

  /** ProductController::store; omitted fields take the table's defaults and
      `actor` is recorded as the creator. A taken key or a null attributes
      fails at the insert. */
  function ProductStore(s: State, org: Uuid, actor: Option<Uuid>, id: Uuid, input: ProductInput): (r: Result<State>)
    ensures r.Err? ==> r.error in {ValidationFailed, ServerError}
    ensures r.Err? && r.error == ValidationFailed <==> !ProductStoreValid(s, org, input)
    ensures r.Err? && r.error == ServerError <==>
      ProductStoreValid(s, org, input) && (id in s.products || NullAttributes(input))
    ensures r.Ok? ==>
      && r.value.products.Keys == s.products.Keys + {id}
      && (forall k :: k in s.products ==> r.value.products[k] == s.products[k])
      && r.value.products[id] == ApplyProductInput(NewProduct(org, actor), input)
      && r.value == s.(products := r.value.products)
    ensures r.Ok? && id in r.value.products ==>
      var p := r.value.products[id];
      && p.org == org && p.createdBy == actor
      && p.sku == input.sku.value && p.name == input.name.value
      && p.unitType == input.unitType.value && p.unitName == input.unitName.value
      && p.barcode == input.barcode.GetOr(None)
      && p.unitPrecision == input.unitPrecision.GetOr(2)
      && p.costPrice == input.costPrice.GetOr(0.0) && p.sellingPrice == input.sellingPrice.GetOr(0.0)
      && p.currency == input.currency.GetOr("USD")
      && p.minStock == input.minStock.GetOr(0.0) && p.maxStock == input.maxStock.GetOr(None)
      && p.isActive == input.isActive.GetOr(true)
      && (input.attributes.None? ==> p.attributes == EmptyJson)
      && 0 <= p.unitPrecision <= 4 && p.costPrice >= 0.0 && p.sellingPrice >= 0.0 && p.minStock >= 0.0
      && (p.category.Some? ==> p.category.value in s.categories)
      && (p.supplier.Some? ==> p.supplier.value in s.suppliers)
  {
    if !ProductStoreValid(s, org, input) then Err(ValidationFailed)
    else if id in s.products || NullAttributes(input) then Err(ServerError)
    else
      var attributes := match input.attributes case Some(Some(j)) => j case _ => EmptyJson;
      var p := Product(
        org, input.categoryId.GetOr(None), input.supplierId.GetOr(None),
        input.sku.value, input.barcode.GetOr(None), input.name.value, input.description.GetOr(None),
        input.unitType.value, input.unitName.value, input.unitPrecision.GetOr(2),
        input.costPrice.GetOr(0.0), input.sellingPrice.GetOr(0.0), input.currency.GetOr("USD"),
        input.trackInventory.GetOr(true), input.minStock.GetOr(0.0), input.maxStock.GetOr(None),
        input.reorderPoint.GetOr(None), input.reorderQuantity.GetOr(None),
        input.trackExpiry.GetOr(false), input.trackBatches.GetOr(false), input.shelfLifeDays.GetOr(None),
        input.isActive.GetOr(true), input.isSellable.GetOr(true), input.isPurchasable.GetOr(true),
        attributes, actor);
      Ok(s.(products := s.products[id := p]))
  }

  predicate ProductUpdateValid(s: State, org: Uuid, id: Uuid, input: ProductInput) {
    ProductFieldsValid(s, input) && (input.sku.Some? ==> SkuFree(s.products, org, input.sku.value, Some(id)))
  }

  /** ProductController::update; a null attributes fails at the write. */
  function ProductUpdate(s: State, org: Uuid, id: Uuid, input: ProductInput): (r: Result<State>)
    ensures r.Err? && r.error == NotFound <==> !OwnsProduct(s, org, id)
    ensures r.Err? && r.error == ValidationFailed <==> OwnsProduct(s, org, id) && !ProductUpdateValid(s, org, id, input)
    ensures r.Err? && r.error == ServerError <==>
      OwnsProduct(s, org, id) && ProductUpdateValid(s, org, id, input) && NullAttributes(input)
    ensures r.Ok? <==> OwnsProduct(s, org, id) && ProductUpdateValid(s, org, id, input) && !NullAttributes(input)
    ensures r.Ok? ==>
      && r.value.products.Keys == s.products.Keys
      && (forall k :: k in s.products && k != id ==> r.value.products[k] == s.products[k])
      && r.value.products[id] == ApplyProductInput(s.products[id], input)
      && r.value.products[id].org == org
      && r.value == s.(products := r.value.products)
  {
    if !OwnsProduct(s, org, id) then Err(NotFound)
    else if !ProductUpdateValid(s, org, id, input) then Err(ValidationFailed)
    else if NullAttributes(input) then Err(ServerError)
    else Ok(s.(products := s.products[id := ApplyProductInput(s.products[id], input)]))
  }

  /** An update with no fields leaves the product as it was. */
  lemma {:induction false} EmptyInputChangesNothing(p: Product)
    ensures ApplyProductInput(p, NoProductInput) == p
  {
  }

  /** Only supplied fields change: each of the twenty-four fillable fields
      takes the supplied value when present and keeps its value when omitted
      (a null attributes never reaches the table), and the organization and
      creator never change. */
  lemma {:induction false} ApplyKeepsOmitted(p: Product, input: ProductInput)
    ensures var q := ApplyProductInput(p, input);
      && (input.categoryId.None? ==> q.category == p.category) && (input.categoryId.Some? ==> q.category == input.categoryId.value)
      && (input.supplierId.None? ==> q.supplier == p.supplier) && (input.supplierId.Some? ==> q.supplier == input.supplierId.value)
      && (input.sku.None? ==> q.sku == p.sku) && (input.sku.Some? ==> q.sku == input.sku.value)
      && (input.barcode.None? ==> q.barcode == p.barcode) && (input.barcode.Some? ==> q.barcode == input.barcode.value)
      && (input.name.None? ==> q.name == p.name) && (input.name.Some? ==> q.name == input.name.value)
      && (input.description.None? ==> q.description == p.description)
      && (input.description.Some? ==> q.description == input.description.value)
      && (input.unitType.None? ==> q.unitType == p.unitType) && (input.unitType.Some? ==> q.unitType == input.unitType.value)
      && (input.unitName.None? ==> q.unitName == p.unitName) && (input.unitName.Some? ==> q.unitName == input.unitName.value)
    ensures var q := ApplyProductInput(p, input);
      && (input.unitPrecision.None? ==> q.unitPrecision == p.unitPrecision)
      && (input.unitPrecision.Some? ==> q.unitPrecision == input.unitPrecision.value)
      && (input.costPrice.None? ==> q.costPrice == p.costPrice) && (input.costPrice.Some? ==> q.costPrice == input.costPrice.value)
      && (input.sellingPrice.None? ==> q.sellingPrice == p.sellingPrice)
      && (input.sellingPrice.Some? ==> q.sellingPrice == input.sellingPrice.value)
      && (input.currency.None? ==> q.currency == p.currency) && (input.currency.Some? ==> q.currency == input.currency.value)
      && (input.trackInventory.None? ==> q.trackInventory == p.trackInventory)
      && (input.trackInventory.Some? ==> q.trackInventory == input.trackInventory.value)
    ensures var q := ApplyProductInput(p, input);
      && (input.minStock.None? ==> q.minStock == p.minStock) && (input.minStock.Some? ==> q.minStock == input.minStock.value)
      && (input.maxStock.None? ==> q.maxStock == p.maxStock) && (input.maxStock.Some? ==> q.maxStock == input.maxStock.value)
      && (input.reorderPoint.None? ==> q.reorderPoint == p.reorderPoint)
      && (input.reorderPoint.Some? ==> q.reorderPoint == input.reorderPoint.value)
      && (input.reorderQuantity.None? ==> q.reorderQuantity == p.reorderQuantity)
      && (input.reorderQuantity.Some? ==> q.reorderQuantity == input.reorderQuantity.value)
    ensures var q := ApplyProductInput(p, input);
      && (input.trackExpiry.None? ==> q.trackExpiry == p.trackExpiry)
      && (input.trackExpiry.Some? ==> q.trackExpiry == input.trackExpiry.value)
      && (input.trackBatches.None? ==> q.trackBatches == p.trackBatches)
      && (input.trackBatches.Some? ==> q.trackBatches == input.trackBatches.value)
      && (input.shelfLifeDays.None? ==> q.shelfLifeDays == p.shelfLifeDays)
      && (input.shelfLifeDays.Some? ==> q.shelfLifeDays == input.shelfLifeDays.value)
    ensures var q := ApplyProductInput(p, input);
      && (input.isActive.None? ==> q.isActive == p.isActive) && (input.isActive.Some? ==> q.isActive == input.isActive.value)
      && (input.isSellable.None? ==> q.isSellable == p.isSellable)
      && (input.isSellable.Some? ==> q.isSellable == input.isSellable.value)
      && (input.isPurchasable.None? ==> q.isPurchasable == p.isPurchasable)
      && (input.isPurchasable.Some? ==> q.isPurchasable == input.isPurchasable.value)
      && (input.attributes.None? ==> q.attributes == p.attributes)
      && (input.attributes.Some? && input.attributes.value.Some? ==> q.attributes == input.attributes.value.value)
      && q.org == p.org && q.createdBy == p.createdBy
  {
  }

  /** Sending the same update twice is the same as sending it once. */
  lemma {:induction false} ApplyTwice(p: Product, input: ProductInput)
    ensures ApplyProductInput(ApplyProductInput(p, input), input) == ApplyProductInput(p, input)
  {
  }

  lemma {:induction false} ProductStoreKeepsUniqueSkus(s: State, org: Uuid, actor: Option<Uuid>, id: Uuid, input: ProductInput)
    requires UniqueSkus(s.products)
    requires ProductStore(s, org, actor, id, input).Ok?
    ensures UniqueSkus(ProductStore(s, org, actor, id, input).value.products)
  {
  }

  lemma {:induction false} ProductUpdateKeepsUniqueSkus(s: State, org: Uuid, id: Uuid, input: ProductInput)
    requires UniqueSkus(s.products)
    requires ProductUpdate(s, org, id, input).Ok?
    ensures UniqueSkus(ProductUpdate(s, org, id, input).value.products)
  {
    var ps := ProductUpdate(s, org, id, input).value.products;
    forall a, b | a in ps && b in ps && a != b && ps[a].org == ps[b].org
      ensures ps[a].sku != ps[b].sku
    {
      if a == id {
        UpdatedSkuFree(s, org, id, input, b);
      } else if b == id {
        UpdatedSkuFree(s, org, id, input, a);
      }
    }
  }

  /** The updated product's SKU differs from that of any other product of
      its organization. */
  lemma {:induction false} UpdatedSkuFree(s: State, org: Uuid, id: Uuid, input: ProductInput, other: Uuid)
    requires UniqueSkus(s.products)
    requires ProductUpdate(s, org, id, input).Ok?
    requires other in s.products && other != id && s.products[other].org == org
    ensures ProductUpdate(s, org, id, input).value.products[id].sku != s.products[other].sku
  {
    var p := ProductUpdate(s, org, id, input).value.products[id];
    assert p == ApplyProductInput(s.products[id], input);
    if input.sku.Some? {
      assert SkuFree(s.products, org, input.sku.value, Some(id));
    } else {
      assert p.sku == s.products[id].sku;
    }
  }

  /** A product is low on stock at a row when the row's quantity is at most
      the product's minimum. */
  predicate LowAt(s: State, id: Uuid, row: StockRow)
    requires id in s.products
  {
    row.product == id && row.quantity <= s.products[id].minStock
  }

  /** ProductController::lowStock: the organization's active products with at
      least one low row. */
  function LowStock(s: State, org: Uuid): (r: set<Uuid>)
    ensures forall id :: id in r ==> OwnsProduct(s, org, id) && s.products[id].isActive
    ensures forall id :: id in r <==>
      OwnsProduct(s, org, id) && s.products[id].isActive && exists i :: 0 <= i < |s.stock| && LowAt(s, id, s.stock[i])
  {
    set id | id in s.products && s.products[id].org == org && s.products[id].isActive
      && exists i :: 0 <= i < |s.stock| && LowAt(s, id, s.stock[i])
  }

  /** A product with a row at or under its minimum is listed iff it is an
      active product of the organization. */
  lemma {:induction false} LowStockListsLowRows(s: State, org: Uuid, id: Uuid, i: nat)
    requires id in s.products && i < |s.stock| && LowAt(s, id, s.stock[i])
    ensures id in LowStock(s, org) <==> s.products[id].org == org && s.products[id].isActive
  {
  }

  /** A product without any stock row is never listed, whatever its minimum:
      the list is over rows, not over products. */
  lemma {:induction false} NeverStockedNotLow(s: State, org: Uuid, id: Uuid)
    requires forall i :: 0 <= i < |s.stock| ==> s.stock[i].product != id
    ensures id !in LowStock(s, org)
  {
  }

  // ---------------------------------------------------------------------
  // Search

  /** ASCII lower case, the folding ILIKE applies to the letters used here. */
  function Lower(c: char): char {
    if 'A' <= c <= 'Z' then (c as int - 'A' as int + 'a' as int) as char else c
  }

  function LowerString(s: string): (r: string)
    ensures |r| == |s|
    ensures forall i :: 0 <= i < |s| ==> r[i] == Lower(s[i])
  {
    seq(|s|, i requires 0 <= i < |s| => Lower(s[i]))
  }

  /** `needle` occurs in `hay` at position k, ignoring case. */
  predicate OccursAt(hay: string, needle: string, k: int) {
    0 <= k <= |hay| - |needle| && LowerString(hay[k..k + |needle|]) == LowerString(needle)
  }

  /** `needle` occurs in `hay` at some position, ignoring case. */
  predicate ContainsFolded(hay: string, needle: string) {
    exists k :: 0 <= k <= |hay| && OccursAt(hay, needle, k)
  }

  /** The product search of the index listing: a case-insensitive substring
      of name, SKU or barcode. */
  predicate Matches(p: Product, term: string) {
    || ContainsFolded(p.name, term)
    || ContainsFolded(p.sku, term)
    || (p.barcode.Some? && ContainsFolded(p.barcode.value, term))
  }

  /** ProductController::index filtered by `search`. */
  function Search(s: State, org: Uuid, term: string): (r: set<Uuid>)
    ensures forall id :: id in r ==> OwnsProduct(s, org, id)
    ensures forall id :: id in r <==> OwnsProduct(s, org, id) && Matches(s.products[id], term)
  {
    set id | id in s.products && s.products[id].org == org && Matches(s.products[id], term)
  }

  /** A term written out inside a field, in the same case, is an occurrence. */
  lemma {:induction false} SliceOccurs(hay: string, term: string, k: nat)
    requires k + |term| <= |hay| && hay[k..k + |term|] == term
    ensures ContainsFolded(hay, term)
  {
    assert OccursAt(hay, term, k);
  }

  /** A term that appears inside the name, the SKU or the barcode of a
      product of the organization finds it. */
  lemma {:induction false} SubstringFound(s: State, org: Uuid, id: Uuid, term: string, k: nat)
    requires OwnsProduct(s, org, id)
    requires var p := s.products[id];
      || (k + |term| <= |p.name| && p.name[k..k + |term|] == term)
      || (k + |term| <= |p.sku| && p.sku[k..k + |term|] == term)
      || (p.barcode.Some? && k + |term| <= |p.barcode.value| && p.barcode.value[k..k + |term|] == term)
    ensures id in Search(s, org, term)
  {
    var p := s.products[id];
    if k + |term| <= |p.name| && p.name[k..k + |term|] == term {
      SliceOccurs(p.name, term, k);
    } else if k + |term| <= |p.sku| && p.sku[k..k + |term|] == term {
      SliceOccurs(p.sku, term, k);
    } else {
      SliceOccurs(p.barcode.value, term, k);
    }
  }

  lemma {:induction false} LowerIdempotent(s: string)
    ensures LowerString(LowerString(s)) == LowerString(s)
  {
  }

  /** Folding the term first finds the same occurrences. */
  lemma {:induction false} ContainsFoldedTerm(hay: string, term: string)
    ensures ContainsFolded(hay, LowerString(term)) == ContainsFolded(hay, term)
  {
    LowerIdempotent(term);
    forall k ensures OccursAt(hay, LowerString(term), k) == OccursAt(hay, term, k) {
    }
  }

  /** The case of the search term does not matter. */
  lemma {:induction false} SearchIgnoresTermCase(s: State, org: Uuid, term: string)
    ensures Search(s, org, LowerString(term)) == Search(s, org, term)
  {
    forall id | id in s.products
      ensures Matches(s.products[id], LowerString(term)) == Matches(s.products[id], term)
    {
      var p := s.products[id];
      ContainsFoldedTerm(p.name, term);
      ContainsFoldedTerm(p.sku, term);
      if p.barcode.Some? {
        ContainsFoldedTerm(p.barcode.value, term);
      }
    }
  }

  /** The empty term lists every product of the organization. */
  lemma {:induction false} EmptyTermMatchesAll(s: State, org: Uuid, id: Uuid)
    requires OwnsProduct(s, org, id)
    ensures id in Search(s, org, "")
  {
    assert OccursAt(s.products[id].name, "", 0);
  }

  /** A product whose name is the term in any case is found. */
  lemma {:induction false} NameFound(s: State, org: Uuid, id: Uuid, term: string)
    requires OwnsProduct(s, org, id)
    requires LowerString(s.products[id].name) == LowerString(term)
    ensures id in Search(s, org, term)
  {
    var name := s.products[id].name;
    assert |name| == |LowerString(term)| == |term|;
    assert name[0..|term|] == name;
    assert OccursAt(name, term, 0);
  }

  // ---------------------------------------------------------------------
  // Transfer

  datatype TransferRequest = TransferRequest(from: Uuid, to: Uuid, product: Uuid, quantity: real, notes: Option<string>)

  datatype TransferReceipt = TransferReceipt(fromName: string, toName: string, quantity: real, status: string)

  predicate TransferValid(s: State, req: TransferRequest) {
    && req.from in s.locations
    && req.to in s.locations && req.to != req.from
    && req.product in s.products
    && req.quantity >= 0.01
    && (req.notes.Some? ==> |req.notes.value| <= 500)
  }

  /** LocationController::transfer: validation and the organization check of
      both ends, then a pending acknowledgement. The state is an input only:
      no stock moves and no movement is recorded. */
  function Transfer(s: State, org: Uuid, req: TransferRequest): (r: Result<TransferReceipt>)
    ensures r.Err? && r.error == ValidationFailed <==> !TransferValid(s, req)
    ensures r.Err? && r.error == NotFound <==>
      TransferValid(s, req) && (!OwnsLocation(s, org, req.from) || !OwnsLocation(s, org, req.to))
    ensures r.Ok? <==> TransferValid(s, req) && OwnsLocation(s, org, req.from) && OwnsLocation(s, org, req.to)
    ensures r.Ok? ==>
      && req.from != req.to && req.quantity >= 0.01
      && r.value.status == "pending" && r.value.quantity == req.quantity
      && r.value.fromName == s.locations[req.from].name && r.value.toName == s.locations[req.to].name
  {
    if !TransferValid(s, req) then Err(ValidationFailed)
    else if !OwnsLocation(s, org, req.from) || !OwnsLocation(s, org, req.to) then Err(NotFound)
    else Ok(TransferReceipt(s.locations[req.from].name, s.locations[req.to].name, req.quantity, "pending"))
  }

  /** The product of a transfer need only exist, not belong to the
      organization: a foreign product passes when both locations are ours. */
  lemma {:induction false} TransferIgnoresProductOwner(s: State, org: Uuid, req: TransferRequest)
    requires TransferValid(s, req) && OwnsLocation(s, org, req.from) && OwnsLocation(s, org, req.to)
    requires s.products[req.product].org != org
    ensures Transfer(s, org, req).Ok?
  {
  }

  /** A transfer and its reverse, from `to` back to `from`, are accepted or
      refused together, and the reverse's receipt swaps the two names. */
  lemma {:induction false} TransferReversible(s: State, org: Uuid, req: TransferRequest)
    ensures var back := Transfer(s, org, req.(from := req.to, to := req.from));
      var there := Transfer(s, org, req);
      && (back.Ok? <==> there.Ok?)
      && (there.Ok? ==> back.value == there.value.(fromName := there.value.toName, toName := there.value.fromName))
  {
  }
}
