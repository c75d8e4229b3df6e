/** The inventory ledger step (InventoryController::createMovement): a
    request is validated, signed by its transaction category, checked against
    the current balance, numbered, appended to the ledger, and the stock row of
    its (product, location) is moved to the new balance with a weighted-average
    cost update for cost-affecting inbound moves. */
module Ledger {
  import opened Wrappers
  import opened Inventory
  import Digits

  /** The quantity stored on the movement: outbound and adjustment categories
      negate a positive request; everything else, non-positive requests
      included, is stored as requested. */
  function StoredQuantity(category: Category, requested: real): (q: real)
    ensures q == requested || q == -requested
    ensures q > 0.0 <==> requested > 0.0 && !category.IsOutbound()
    ensures q < 0.0 <==> requested < 0.0 || (requested > 0.0 && category.IsOutbound())
  {
    if category.IsOutbound() && requested > 0.0 then -requested else requested
  }

  /** The weighted-average unit cost after `incoming` units at `unitCost` join
      `quantity` units at `average`; the incoming cost when the total is not
      positive. */
  function WeightedAverage(quantity: real, average: real, incoming: real, unitCost: real): real {
    var total := quantity + incoming;
    if total > 0.0 then (quantity * average + incoming * unitCost) / total else unitCost
  }

  /** Inventory value is conserved: the new average times the new quantity is
      the old value plus the incoming value. */
  lemma {:induction false} WeightedAverageConservesValue(quantity: real, average: real, incoming: real, unitCost: real)
    requires quantity + incoming > 0.0
    ensures (quantity + incoming) * WeightedAverage(quantity, average, incoming, unitCost)
         == quantity * average + incoming * unitCost
  {
  }

  /** From an empty position the new average is the incoming unit cost. */
  lemma {:induction false} WeightedAverageFromEmpty(average: real, incoming: real, unitCost: real)
    requires incoming > 0.0
    ensures WeightedAverage(0.0, average, incoming, unitCost) == unitCost
  {
  }

  /** With a non-negative prior quantity and a positive inflow, the new
      average lies between the old average and the incoming unit cost. */
  lemma {:induction false} WeightedAverageBetween(quantity: real, average: real, incoming: real, unitCost: real)
    requires quantity >= 0.0 && incoming > 0.0
    ensures var a := WeightedAverage(quantity, average, incoming, unitCost);
      (average <= unitCost ==> average <= a <= unitCost) && (unitCost <= average ==> unitCost <= a <= average)
  {
    var total := quantity + incoming;
    var a := WeightedAverage(quantity, average, incoming, unitCost);
    WeightedAverageConservesValue(quantity, average, incoming, unitCost);
    assert total * (a - average) == incoming * (unitCost - average);
    assert total * (unitCost - a) == quantity * (unitCost - average);
    SameSign(total, a - average, incoming, unitCost - average);
    SameSign(total, unitCost - a, quantity, unitCost - average);
  }

  /** From t * x == w * d with t > 0 and w >= 0, x has the sign of d. */
  lemma {:induction false} SameSign(t: real, x: real, w: real, d: real)
    requires t > 0.0 && w >= 0.0 && t * x == w * d
    ensures d >= 0.0 ==> x >= 0.0
    ensures d <= 0.0 ==> x <= 0.0
  {
    if d >= 0.0 {
      assert w * d >= 0.0;
    }
    if d <= 0.0 {
      assert w * (-d) >= 0.0;
      assert t * (-x) >= 0.0;
    }
  }

  /** A yyyymmdd day stamp, as date('Ymd') prints it. */
  predicate IsDayStamp(day: string) {
    |day| == 8 && Digits.AllDigits(day)
  }

  /** "TXN-" + day + "-" + the sequence number padded with '0' to four digits. */
  function TransactionNumber(day: string, sequence: nat): string {
    "TXN-" + day + "-" + Digits.ZeroPadded(sequence, 4)
  }

  /** Two transaction numbers of same-length day stamps are equal only when
      day and sequence number both are. */
  lemma {:induction false} TransactionNumberInjective(d1: string, n1: nat, d2: string, n2: nat)
    requires |d1| == |d2|
    requires TransactionNumber(d1, n1) == TransactionNumber(d2, n2)
    ensures d1 == d2 && n1 == n2
  {
    TransactionNumberParts(d1, n1);
    TransactionNumberParts(d2, n2);
    Digits.ZeroPaddedInjective(n1, n2, 4);
  }

  /** The day stamp and the padded sequence number sit at fixed offsets. */
  lemma {:induction false} TransactionNumberParts(day: string, sequence: nat)
    ensures TransactionNumber(day, sequence)[4..4 + |day|] == day
    ensures TransactionNumber(day, sequence)[5 + |day|..] == Digits.ZeroPadded(sequence, 4)
  {
    var t := TransactionNumber(day, sequence);
    assert t == ("TXN-" + day) + ("-" + Digits.ZeroPadded(sequence, 4));
  }

  /** How many movements of `org` were recorded on `day`. */
  function CountOn(ms: seq<Movement>, org: Uuid, day: string): nat {
    if ms == [] then 0
    else CountOn(ms[..|ms| - 1], org, day) + (if ms[|ms| - 1].org == org && ms[|ms| - 1].day == day then 1 else 0)
  }

  lemma {:induction false} CountOnPrefixMonotone(ms: seq<Movement>, org: Uuid, day: string, a: nat, b: nat)
    requires a <= b <= |ms|
    ensures CountOn(ms[..a], org, day) <= CountOn(ms[..b], org, day)
    decreases b - a
  {
    if a < b {
      CountOnPrefixMonotone(ms, org, day, a, b - 1);
      assert ms[..b][..b - 1] == ms[..b - 1];
    }
  }

  /** Every movement carries the number its organization's count of the day
      gave it when it was recorded. */
  predicate WellNumbered(ms: seq<Movement>) {
    forall i :: 0 <= i < |ms| ==> NumberedAt(ms, i)
  }

  /** Movement i is stamped with a day and numbered by the count of its
      organization's earlier movements that day. */
  predicate NumberedAt(ms: seq<Movement>, i: nat)
    requires i < |ms|
  {
    IsDayStamp(ms[i].day) && ms[i].number == TransactionNumber(ms[i].day, CountOn(ms[..i], ms[i].org, ms[i].day) + 1)
  }

  /** Numbering by the count of the day keeps transaction numbers unique
      within an organization, as the table's unique key demands. */
  lemma {:induction false} WellNumberedUnique(ms: seq<Movement>)
    requires WellNumbered(ms)
    ensures forall i, j :: 0 <= i < j < |ms| && ms[i].org == ms[j].org ==> ms[i].number != ms[j].number
  {
    forall i, j | 0 <= i < j < |ms| && ms[i].org == ms[j].org
      ensures ms[i].number != ms[j].number
    {
      assert NumberedAt(ms, i) && NumberedAt(ms, j);
      NumbersDiffer(ms, i, j);
    }
  }

  lemma {:induction false} NumbersDiffer(ms: seq<Movement>, i: nat, j: nat)
    requires i < j < |ms| && ms[i].org == ms[j].org
    requires IsDayStamp(ms[i].day) && IsDayStamp(ms[j].day)
    requires ms[i].number == TransactionNumber(ms[i].day, CountOn(ms[..i], ms[i].org, ms[i].day) + 1)
    requires ms[j].number == TransactionNumber(ms[j].day, CountOn(ms[..j], ms[j].org, ms[j].day) + 1)
    ensures ms[i].number != ms[j].number
  {
    var o, d := ms[i].org, ms[i].day;
    var ni, nj := CountOn(ms[..i], o, d) + 1, CountOn(ms[..j], o, ms[j].day) + 1;
    CountGrowsPast(ms, i, j);
    assert d == ms[j].day ==> ni < nj;
    TransactionNumbersDistinct(d, ni, ms[j].day, nj);
  }

  /** Different day stamps of one length, or different sequence numbers,
      give different transaction numbers. */
  lemma {:induction false} TransactionNumbersDistinct(d1: string, n1: nat, d2: string, n2: nat)
    requires |d1| == |d2| && (d1 != d2 || n1 != n2)
    ensures TransactionNumber(d1, n1) != TransactionNumber(d2, n2)
  {
    if TransactionNumber(d1, n1) == TransactionNumber(d2, n2) {
      TransactionNumberInjective(d1, n1, d2, n2);
    }
  }

  /** A later prefix has counted movement i as well. */
  lemma {:induction false} CountGrowsPast(ms: seq<Movement>, i: nat, j: nat)
    requires i < j <= |ms|
    ensures CountOn(ms[..j], ms[i].org, ms[i].day) >= CountOn(ms[..i], ms[i].org, ms[i].day) + 1
  {
    var o, d := ms[i].org, ms[i].day;
    assert ms[..i + 1][..i] == ms[..i];
    assert CountOn(ms[..i + 1], o, d) == CountOn(ms[..i], o, d) + 1;
    CountOnPrefixMonotone(ms, o, d, i + 1, j);
  }

  /** The net signed quantity the ledger records for (product, location). */
  function Net(ms: seq<Movement>, product: Uuid, location: Uuid): real {
    if ms == [] then 0.0
    else
      var m := ms[|ms| - 1];
      Net(ms[..|ms| - 1], product, location) + (if m.product == product && m.location == location then m.quantity else 0.0)
  }

  lemma {:induction false} NetOfUntouched(ms: seq<Movement>, product: Uuid, location: Uuid)
    requires forall i :: 0 <= i < |ms| ==> ms[i].product != product || ms[i].location != location
    ensures Net(ms, product, location) == 0.0
  {
    if ms != [] {
      NetOfUntouched(ms[..|ms| - 1], product, location);
    }
  }

  /** The stock table is the projection of the ledger: each row holds the
      net of its movements, and each movement has its row. */
  predicate Consistent(stock: seq<StockRow>, ms: seq<Movement>) {
    && (forall i :: 0 <= i < |stock| ==> stock[i].quantity == Net(ms, stock[i].product, stock[i].location))
    && (forall j :: 0 <= j < |ms| ==> FindRow(stock, ms[j].product, ms[j].location).Some?)
  }

  predicate NonNegative(stock: seq<StockRow>) {
    forall i :: 0 <= i < |stock| ==> stock[i].quantity >= 0.0
  }

  /** The state invariants the ledger keeps. */
  predicate Valid(s: State) {
    && OneRowPerPair(s.stock)
    && NonNegative(s.stock)
    && Consistent(s.stock, s.movements)
    && WellNumbered(s.movements)
  }

  /** A movement request. The three nullable fields are `None` when absent
      and `Some(None)` when sent as null. */
  datatype MovementRequest = MovementRequest(
    product: Uuid,
    location: Uuid,
    transactionType: Uuid,
    quantity: real,
    unitCost: real,
    referenceType: Option<Option<string>>,
    referenceId: Option<Option<Uuid>>,
    notes: Option<Option<string>>)

  /** The action reads reference_type, reference_id and notes from the
      validated data, which holds only the keys the client sent; reading an
      absent one raises an error that the action answers with a 500. */
  predicate OptionalFieldsSent(req: MovementRequest) {
    req.referenceType.Some? && req.referenceId.Some? && req.notes.Some?
  }

  /** The request validator: referenced rows exist (in any organization), the
      unit cost is non-negative, and the texts fit their columns. */
  predicate ValidRequest(s: State, req: MovementRequest) {
    && req.product in s.products
    && req.location in s.locations
    && req.transactionType in s.types
    && req.unitCost >= 0.0
    && (req.referenceType.Some? && req.referenceType.value.Some? ==> |req.referenceType.value.value| <= 50)
    && (req.notes.Some? && req.notes.value.Some? ==> |req.notes.value.value| <= 1000)
  }

  /** Product and location both belong to the requesting organization. */
  predicate OwnedBy(s: State, org: Uuid, req: MovementRequest)
    requires ValidRequest(s, req)
  {
    s.products[req.product].org == org && s.locations[req.location].org == org
  }

  /** The stock row the movement starts from: the existing one, or a fresh one. */
  function PriorRow(s: State, org: Uuid, req: MovementRequest): StockRow {
    var idx := FindRow(s.stock, req.product, req.location);
    if idx.Some? then s.stock[idx.value] else FreshRow(org, req.product, req.location)
  }

  datatype Receipt = Receipt(state: State, movement: Movement)

  /** The stock row after a movement of signed quantity `q`: the new balance
      and, for cost-affecting inbound moves, the weighted-average cost. */
  function MovedRow(row: StockRow, t: TransactionType, q: real, unitCost: real): StockRow {
    var average := if t.affectsCost && q > 0.0
      then WeightedAverage(row.quantity, row.averageCost, q, unitCost)
      else row.averageCost;
    row.(quantity := row.quantity + q, averageCost := average)
  }

  /** InventoryController::createMovement. `today` is the day stamp of the
      request and `actor` the authenticated user, if any. */
  function CreateMovement(s: State, org: Uuid, actor: Option<Uuid>, today: string, req: MovementRequest): (r: Result<Receipt>)
    requires IsDayStamp(today)
    ensures r.Err? && r.error == ValidationFailed <==> !ValidRequest(s, req)
    ensures r.Err? && r.error == ServerError <==>
      ValidRequest(s, req)
      && (|| !OwnedBy(s, org, req)
          || PriorRow(s, org, req).org != org
          || (PriorRow(s, org, req).quantity + StoredQuantity(s.types[req.transactionType].category, req.quantity) >= 0.0
              && !OptionalFieldsSent(req)))
    ensures r.Ok? <==>
      ValidRequest(s, req) && OwnedBy(s, org, req) && PriorRow(s, org, req).org == org
      && PriorRow(s, org, req).quantity + StoredQuantity(s.types[req.transactionType].category, req.quantity) >= 0.0
      && OptionalFieldsSent(req)
    ensures r.Err? && r.error == BadRequest <==>
      ValidRequest(s, req) && OwnedBy(s, org, req) && PriorRow(s, org, req).org == org
      && PriorRow(s, org, req).quantity + StoredQuantity(s.types[req.transactionType].category, req.quantity) < 0.0
    ensures r.Ok? ==>
      var m := r.value.movement;
      var s' := r.value.state;
      && m.quantity == StoredQuantity(s.types[req.transactionType].category, req.quantity)
      && m.balanceBefore == PriorRow(s, org, req).quantity
      && m.balanceAfter == m.balanceBefore + m.quantity
      && m.balanceAfter >= 0.0
      && m.org == org && m.day == today && m.product == req.product && m.location == req.location
      && m.transactionType == req.transactionType && m.unitCost == req.unitCost && m.createdBy == actor
      && OptionalFieldsSent(req)
      && m.referenceType == req.referenceType.value && m.referenceId == req.referenceId.value && m.notes == req.notes.value
      && m.number == TransactionNumber(today, CountOn(s.movements, org, today) + 1)
      && s'.movements == s.movements + [m]
      && s'.products == s.products && s'.locations == s.locations && s'.types == s.types
  {
    if !ValidRequest(s, req) then Err(ValidationFailed)
    else if !OwnedBy(s, org, req) then Err(ServerError)
    else
      var row := PriorRow(s, org, req);
      if row.org != org then Err(ServerError)
      else
        var t := s.types[req.transactionType];
        var q := StoredQuantity(t.category, req.quantity);
        var before := row.quantity;
        var after := before + q;
        if after < 0.0 then Err(BadRequest)
        else if !OptionalFieldsSent(req) then Err(ServerError)
        else
          var m := Movement(
            org, TransactionNumber(today, CountOn(s.movements, org, today) + 1), today,
            req.transactionType, req.product, req.location, q, req.unitCost, before, after,
            req.referenceType.value, req.referenceId.value, req.notes.value, actor);
          var stock' := Upsert(s.stock, MovedRow(row, t, q, req.unitCost));
          Ok(Receipt(s.(stock := stock', movements := s.movements + [m]), m))
  }

  /** createMovement as the tables are declared. Both models keep Eloquent's
      timestamps, but the stock table has no `created_at` column and the
      movements table no `updated_at`. So `firstOrCreate` fails when it has
      to insert the pair's first row, and the movement insert always fails.
      Each failure is an exception that the action rolls back and answers
      with a 500. Only the 422 and the 400 of an existing row survive. */
  function CreateMovementAsWritten(s: State, org: Uuid, req: MovementRequest): (r: Result<Receipt>)
    ensures r.Err?
    ensures r.Err? && r.error == ValidationFailed <==> !ValidRequest(s, req)
    ensures r.Err? && r.error == BadRequest <==>
      ValidRequest(s, req) && OwnedBy(s, org, req)
      && FindRow(s.stock, req.product, req.location).Some? && PriorRow(s, org, req).org == org
      && PriorRow(s, org, req).quantity + StoredQuantity(s.types[req.transactionType].category, req.quantity) < 0.0
    ensures r.Err? && r.error == ServerError <==>
      ValidRequest(s, req)
      && (|| !OwnedBy(s, org, req)
          || FindRow(s.stock, req.product, req.location).None?
          || PriorRow(s, org, req).org != org
          || PriorRow(s, org, req).quantity + StoredQuantity(s.types[req.transactionType].category, req.quantity) >= 0.0)
  {
    if !ValidRequest(s, req) then Err(ValidationFailed)
    else if !OwnedBy(s, org, req) then Err(ServerError)
    else if FindRow(s.stock, req.product, req.location).None? then Err(ServerError)
    else
      var row := PriorRow(s, org, req);
      if row.org != org then Err(ServerError)
      else if row.quantity + StoredQuantity(s.types[req.transactionType].category, req.quantity) < 0.0 then Err(BadRequest)
      else Err(ServerError)
  }

  /** Every movement the corrected action records is a 500 as written, and
      so is every valid request on a pair without a stock row. The 400 for
      lack of stock is the one answer on which the two agree. */
  lemma {:induction false} AsWrittenRefusesEveryMovement(s: State, org: Uuid, actor: Option<Uuid>, today: string, req: MovementRequest)
    requires IsDayStamp(today)
    ensures CreateMovement(s, org, actor, today, req).Ok? ==> CreateMovementAsWritten(s, org, req) == Err(ServerError)
    ensures ValidRequest(s, req) && FindRow(s.stock, req.product, req.location).None? ==>
      CreateMovementAsWritten(s, org, req) == Err(ServerError)
    ensures CreateMovementAsWritten(s, org, req) == Err(BadRequest) ==> CreateMovement(s, org, actor, today, req) == Err(BadRequest)
  {
  }

  /** The first receipt of a product at a location, and a second receipt
      onto the row it left: the corrected action records both, and as
      written both are answered with a 500. */
  lemma {:induction false} AsWrittenRefusesFirstReceipt()
    ensures var product := Product(
        "org", None, None, "SKU-1", None, "Flour", None, "weight", "kg", 2, 0.0, 0.0, "USD",
        true, 0.0, None, None, None, false, false, None, true, true, true, EmptyJson, None);
      var location := Location("org", "Main", None, None, "warehouse", true, EmptyJson);
      var receive := TransactionType("PURCHASE", In, true);
      var s := State({}, {}, map["p" := product], map["l" := location], map["t" := receive], [], []);
      var req := MovementRequest("p", "l", "t", 1.0, 2.0, Some(None), Some(None), Some(None));
      var first := CreateMovement(s, "org", None, "20240101", req);
      && first.Ok?
      && CreateMovementAsWritten(s, "org", req) == Err(ServerError)
      && CreateMovement(first.value.state, "org", None, "20240101", req).Ok?
      && CreateMovementAsWritten(first.value.state, "org", req) == Err(ServerError)
  {
    var product := Product(
      "org", None, None, "SKU-1", None, "Flour", None, "weight", "kg", 2, 0.0, 0.0, "USD",
      true, 0.0, None, None, None, false, false, None, true, true, true, EmptyJson, None);
    var location := Location("org", "Main", None, None, "warehouse", true, EmptyJson);
    var receive := TransactionType("PURCHASE", In, true);
    var s := State({}, {}, map["p" := product], map["l" := location], map["t" := receive], [], []);
    var req := MovementRequest("p", "l", "t", 1.0, 2.0, Some(None), Some(None), Some(None));
    assert Digits.AllDigits("20240101");
    var first := CreateMovement(s, "org", None, "20240101", req);
    assert FindRow(s.stock, "p", "l").None?;
    assert first.Ok?;
    var s' := first.value.state;
    UpsertFinds(s.stock, MovedRow(FreshRow("org", "p", "l"), receive, 1.0, 2.0));
    assert FindRow(s'.stock, "p", "l").Some?;
  }

  /** The stock table after a successful movement: the moved pair's row holds
      the balance after, keeps its reservation, and takes the weighted-average
      cost only for cost-affecting inbound moves; a pair without a row starts
      from an all-zero one; every other row is unchanged. */
  lemma {:induction false} CreateMovementStock(s: State, org: Uuid, actor: Option<Uuid>, today: string, req: MovementRequest)
    requires IsDayStamp(today)
    requires CreateMovement(s, org, actor, today, req).Ok?
    ensures var rc := CreateMovement(s, org, actor, today, req).value;
      var prior := PriorRow(s, org, req);
      var t := s.types[req.transactionType];
      var k := FindRow(rc.state.stock, req.product, req.location);
      && k.Some?
      && rc.state.stock[k.value].quantity == rc.movement.balanceAfter
      && rc.state.stock[k.value].reserved == prior.reserved
      && rc.state.stock[k.value].averageCost ==
           (if t.affectsCost && rc.movement.quantity > 0.0
            then WeightedAverage(prior.quantity, prior.averageCost, rc.movement.quantity, req.unitCost)
            else prior.averageCost)
      && (FindRow(s.stock, req.product, req.location).None? ==> prior == FreshRow(org, req.product, req.location))
      && (forall i :: 0 <= i < |s.stock| && (s.stock[i].product != req.product || s.stock[i].location != req.location) ==>
            rc.state.stock[i] == s.stock[i])
  {
    var rc := CreateMovement(s, org, actor, today, req).value;
    var prior := PriorRow(s, org, req);
    var row' := MovedRow(prior, s.types[req.transactionType], rc.movement.quantity, req.unitCost);
    assert rc.state.stock == Upsert(s.stock, row');
    UpsertFinds(s.stock, row');
  }

  lemma {:induction false} NetSnoc(ms: seq<Movement>, m: Movement, product: Uuid, location: Uuid)
    ensures Net(ms + [m], product, location)
         == Net(ms, product, location) + (if m.product == product && m.location == location then m.quantity else 0.0)
  {
    assert (ms + [m])[..|ms|] == ms;
  }

  lemma {:induction false} CountOnSnoc(ms: seq<Movement>, m: Movement, org: Uuid, day: string)
    ensures CountOn(ms + [m], org, day) == CountOn(ms, org, day) + (if m.org == org && m.day == day then 1 else 0)
  {
    assert (ms + [m])[..|ms|] == ms;
  }

  /** Appending a movement and upserting its pair's row at the balance after
      keeps the stock table the projection of the ledger. */
  lemma {:induction false} StockStep(stock: seq<StockRow>, ms: seq<Movement>, m: Movement, row: StockRow)
    requires OneRowPerPair(stock) && NonNegative(stock) && Consistent(stock, ms)
    requires row.product == m.product && row.location == m.location
    requires var k := FindRow(stock, m.product, m.location);
      row.quantity == (if k.Some? then stock[k.value].quantity else 0.0) + m.quantity
    requires row.quantity >= 0.0
    ensures OneRowPerPair(Upsert(stock, row))
    ensures NonNegative(Upsert(stock, row))
    ensures Consistent(Upsert(stock, row), ms + [m])
  {
    var r := Upsert(stock, row);
    UpsertKeepsOneRowPerPair(stock, row);
    if FindRow(stock, m.product, m.location).None? {
      UntouchedPair(stock, ms, m.product, m.location);
    }
    forall i | 0 <= i < |r|
      ensures r[i].quantity >= 0.0
      ensures r[i].quantity == Net(ms + [m], r[i].product, r[i].location)
    {
      RowStep(stock, ms, m, row, i);
    }
    forall j | 0 <= j < |ms + [m]|
      ensures FindRow(r, (ms + [m])[j].product, (ms + [m])[j].location).Some?
    {
      if j < |ms| {
        FoundStaysFound(stock, row, ms[j].product, ms[j].location);
      } else {
        UpsertFinds(stock, row);
      }
    }
  }

  /** A pair without a stock row has no movement in a consistent ledger. */
  lemma {:induction false} UntouchedPair(stock: seq<StockRow>, ms: seq<Movement>, p: Uuid, l: Uuid)
    requires Consistent(stock, ms)
    requires FindRow(stock, p, l).None?
    ensures Net(ms, p, l) == 0.0
  {
    forall j | 0 <= j < |ms| ensures ms[j].product != p || ms[j].location != l {
      assert FindRow(stock, ms[j].product, ms[j].location).Some?;
    }
    NetOfUntouched(ms, p, l);
  }

  /** Row i of the upserted table holds its pair's net after the movement. */
  lemma {:induction false} RowStep(stock: seq<StockRow>, ms: seq<Movement>, m: Movement, row: StockRow, i: nat)
    requires OneRowPerPair(stock) && NonNegative(stock) && Consistent(stock, ms)
    requires row.product == m.product && row.location == m.location
    requires var k := FindRow(stock, m.product, m.location);
      row.quantity == (if k.Some? then stock[k.value].quantity else 0.0) + m.quantity
    requires row.quantity >= 0.0
    requires FindRow(stock, m.product, m.location).None? ==> Net(ms, m.product, m.location) == 0.0
    requires i < |Upsert(stock, row)|
    ensures Upsert(stock, row)[i].quantity >= 0.0
    ensures Upsert(stock, row)[i].quantity == Net(ms + [m], Upsert(stock, row)[i].product, Upsert(stock, row)[i].location)
  {
    var r := Upsert(stock, row);
    NetSnoc(ms, m, r[i].product, r[i].location);
    if r[i].product == m.product && r[i].location == m.location {
      UpsertKeepsOneRowPerPair(stock, row);
      UpsertFinds(stock, row);
      var f := FindRow(r, m.product, m.location).value;
      assert forall a :: 0 <= a < |r| && r[a].product == m.product && r[a].location == m.location ==> a == f;
    }
  }

  /** A pair with a row keeps one after an upsert. */
  lemma {:induction false} FoundStaysFound(stock: seq<StockRow>, row: StockRow, p: Uuid, l: Uuid)
    requires FindRow(stock, p, l).Some?
    ensures FindRow(Upsert(stock, row), p, l).Some?
  {
    if p == row.product && l == row.location {
      UpsertFinds(stock, row);
    } else {
      var f := FindRow(stock, p, l).value;
      assert Upsert(stock, row)[f] == stock[f];
    }
  }

  /** Appending a movement numbered from the day's count keeps the ledger
      well numbered. */
  lemma {:induction false} NumberStep(ms: seq<Movement>, m: Movement)
    requires WellNumbered(ms)
    requires IsDayStamp(m.day) && m.number == TransactionNumber(m.day, CountOn(ms, m.org, m.day) + 1)
    ensures WellNumbered(ms + [m])
  {
    var ms' := ms + [m];
    forall i | 0 <= i < |ms'|
      ensures NumberedAt(ms', i)
    {
      if i < |ms| {
        assert NumberedAt(ms, i);
        assert ms'[i] == ms[i];
        assert ms'[..i] == ms[..i];
      } else {
        assert ms'[..i] == ms;
      }
    }
  }

  /** createMovement keeps every ledger invariant: one row per pair, no
      negative quantity, rows equal to the net of their movements, and
      transaction numbers drawn from the day's count. */
  lemma {:induction false} CreateMovementPreservesValid(s: State, org: Uuid, actor: Option<Uuid>, today: string, req: MovementRequest)
    requires IsDayStamp(today)
    requires Valid(s)
    requires CreateMovement(s, org, actor, today, req).Ok?
    ensures Valid(CreateMovement(s, org, actor, today, req).value.state)
  {
    var rc := CreateMovement(s, org, actor, today, req).value;
    var m := rc.movement;
    var prior := PriorRow(s, org, req);
    var row' := MovedRow(prior, s.types[req.transactionType], m.quantity, req.unitCost);
    assert rc.state.stock == Upsert(s.stock, row');
    StockStep(s.stock, s.movements, m, row');
    NumberStep(s.movements, m);
  }

  /** Transaction numbers of a valid ledger are unique per organization. */
  lemma {:induction false} ValidNumbersUnique(s: State)
    requires Valid(s)
    ensures forall i, j :: 0 <= i < j < |s.movements| && s.movements[i].org == s.movements[j].org ==>
      s.movements[i].number != s.movements[j].number
  {
    WellNumberedUnique(s.movements);
  }

  /** A rejected movement for lack of stock changes nothing: an outbound
      request larger than the balance is answered 400. As written, that holds
      for a pair that already has a stock row; for a pair without one, the
      insert of its first row fails first and the answer is a 500. */
  lemma {:induction false} InsufficientStockRejected(s: State, org: Uuid, actor: Option<Uuid>, today: string, req: MovementRequest)
    requires IsDayStamp(today)
    requires ValidRequest(s, req) && OwnedBy(s, org, req) && PriorRow(s, org, req).org == org
    requires req.quantity > PriorRow(s, org, req).quantity
    requires s.types[req.transactionType].category.IsOutbound()
    ensures CreateMovement(s, org, actor, today, req) == Err(BadRequest)
    ensures FindRow(s.stock, req.product, req.location).Some? ==> CreateMovementAsWritten(s, org, req) == Err(BadRequest)
    ensures FindRow(s.stock, req.product, req.location).None? ==> CreateMovementAsWritten(s, org, req) == Err(ServerError)
  {
  }
}
