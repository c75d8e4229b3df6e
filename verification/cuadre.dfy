/** The daily cash reconciliation ("cuadre"): a record per organization and
    day with three income and three expense channels, an opening balance, a
    physical count and the stored derived columns; the open -> closed state
    machine of the controller; the opening balance carried from the latest
    closed day; and the physical count from bills and coins.

    Money is held exactly as a whole number of ten-thousandths, the scale
    of the decimal(15,4) columns. Dates are opaque, ordered day numbers. */
module Cuadres {
  import opened Wrappers

  /** An amount in ten-thousandths of the currency unit. */
  type Money = int

  /** A calendar day; only equality and order are used. */
  type Date = int

  /** A point in time, for the closing stamp. */
  type Time = int

  /** Ten-thousandths per cent. */
  const PerCent: int := 100

  datatype Cuadre = Cuadre(
    id: Uuid,
    org: Uuid,
    fecha: Date,
    saldoAnterior: Money,
    ingresosEfectivo: Money,
    ingresosTransferencia: Money,
    ingresosTarjeta: Money,
    egresosEfectivo: Money,
    egresosTransferencia: Money,
    egresosTarjeta: Money,
    saldoFisico: Option<Money>,
    observaciones: Option<string>,
    cerrado: bool,
    creadoPor: Option<Uuid>,
    cerradoPor: Option<Uuid>,
    fechaCierre: Option<Time>)
  {
    /** The total_ingresos accessor of the model. */
    function TotalIngresos(): Money {
      ingresosEfectivo + ingresosTransferencia + ingresosTarjeta
    }

    /** The total_egresos accessor of the model. */
    function TotalEgresos(): Money {
      egresosEfectivo + egresosTransferencia + egresosTarjeta
    }

    /** The stored saldo_calculado column, as the table defines it. */
    function SaldoCalculado(): Money {
      saldoAnterior + ingresosEfectivo + ingresosTransferencia + ingresosTarjeta
        - egresosEfectivo - egresosTransferencia - egresosTarjeta
    }

    /** The stored diferencia column: null when nothing was counted. */
    function Diferencia(): Option<Money> {
      match saldoFisico
      case None => None
      case Some(f) =>
        Some(f - (saldoAnterior + ingresosEfectivo + ingresosTransferencia + ingresosTarjeta
          - egresosEfectivo - egresosTransferencia - egresosTarjeta))
    }

    /** The balance the next day opens with: the counted cash, or the
        computed balance when nothing was counted. */
    function Carry(): Money {
      saldoFisico.GetOr(SaldoCalculado())
    }
  }

  /** The computed balance is the opening balance plus income minus expenses,
      and the difference is the count minus the computed balance. */
  lemma {:induction false} Reconciliation(c: Cuadre)
    ensures c.SaldoCalculado() == c.saldoAnterior + c.TotalIngresos() - c.TotalEgresos()
    ensures c.Diferencia().None? <==> c.saldoFisico.None?
    ensures c.saldoFisico.Some? ==> c.Diferencia().value == c.saldoFisico.value - c.SaldoCalculado()
    ensures c.saldoFisico.Some? ==> c.Diferencia().value + c.SaldoCalculado() == c.Carry()
  {
  }

  /** A row as the table's defaults create it: every amount zero, nothing
      counted, open. */
  function NewCuadre(id: Uuid, org: Uuid, fecha: Date): Cuadre {
    Cuadre(id, org, fecha, 0, 0, 0, 0, 0, 0, 0, None, None, false, None, None, None)
  }

  /** A fresh row balances to zero, has no difference and is open. */
  lemma {:induction false} NewCuadreDefaults(id: Uuid, org: Uuid, fecha: Date)
    ensures NewCuadre(id, org, fecha).SaldoCalculado() == 0
    ensures NewCuadre(id, org, fecha).Diferencia() == None
    ensures !NewCuadre(id, org, fecha).cerrado
  {
  }

  /** With every channel at zero the computed balance is the opening one. */
  lemma {:induction false} QuietDay(c: Cuadre)
    requires c.TotalIngresos() == 0 && c.TotalEgresos() == 0
    ensures c.SaldoCalculado() == c.saldoAnterior
  {
  }

  // ---------------------------------------------------------------------
  // The table

  /** The table's keys: ids are unique, and so is (organization, fecha). */
  predicate WellKeyed(cs: seq<Cuadre>) {
    forall i, j :: 0 <= i < j < |cs| ==> cs[i].id != cs[j].id && (cs[i].org != cs[j].org || cs[i].fecha != cs[j].fecha)
  }

  /** The index of the row `id` of `org`, as the organization-scoped
      findOrFail sees it. */
  function FindCuadre(cs: seq<Cuadre>, org: Uuid, id: Uuid): (r: Option<nat>)
    ensures r.Some? ==> r.value < |cs| && cs[r.value].id == id && cs[r.value].org == org
    ensures r.None? ==> forall i :: 0 <= i < |cs| ==> cs[i].id != id || cs[i].org != org
  {
    if cs == [] then None
    else if cs[|cs| - 1].id == id && cs[|cs| - 1].org == org then Some(|cs| - 1)
    else FindCuadre(cs[..|cs| - 1], org, id)
  }

  /** The index of `org`'s row for `fecha`, if any. */
  function FindByFecha(cs: seq<Cuadre>, org: Uuid, fecha: Date): (r: Option<nat>)
    ensures r.Some? ==> r.value < |cs| && cs[r.value].org == org && cs[r.value].fecha == fecha
    ensures r.None? ==> forall i :: 0 <= i < |cs| ==> cs[i].org != org || cs[i].fecha != fecha
  {
    if cs == [] then None
    else if cs[|cs| - 1].org == org && cs[|cs| - 1].fecha == fecha then Some(|cs| - 1)
    else FindByFecha(cs[..|cs| - 1], org, fecha)
  }

  /** The rows of `cs` whose closed flag is `closed`, in order. */
  function WithFlag(cs: seq<Cuadre>, closed: bool): (r: seq<Cuadre>)
    ensures forall c :: c in r <==> c in cs && c.cerrado == closed
  {
    if cs == [] then []
    else
      var rest := WithFlag(cs[..|cs| - 1], closed);
      assert cs == cs[..|cs| - 1] + [cs[|cs| - 1]];
      if cs[|cs| - 1].cerrado == closed then rest + [cs[|cs| - 1]] else rest
  }

  /** The abiertos scope. */
  function Abiertos(cs: seq<Cuadre>): seq<Cuadre> {
    WithFlag(cs, false)
  }

  /** The cerrados scope. */
  function Cerrados(cs: seq<Cuadre>): seq<Cuadre> {
    WithFlag(cs, true)
  }

  /** The open and closed scopes partition the table. */
  lemma {:induction false} ScopesPartition(cs: seq<Cuadre>)
    ensures multiset(Abiertos(cs)) + multiset(Cerrados(cs)) == multiset(cs)
    ensures |Abiertos(cs)| + |Cerrados(cs)| == |cs|
  {
    ScopesMultiset(cs);
    assert |multiset(Abiertos(cs)) + multiset(Cerrados(cs))| == |multiset(Abiertos(cs))| + |multiset(Cerrados(cs))|;
  }

  lemma {:induction false} ScopesMultiset(cs: seq<Cuadre>)
    ensures multiset(Abiertos(cs)) + multiset(Cerrados(cs)) == multiset(cs)
  {
    if cs != [] {
      var prefix, last := cs[..|cs| - 1], cs[|cs| - 1];
      ScopesMultiset(prefix);
      WithFlagSnoc(cs, false);
      WithFlagSnoc(cs, true);
      assert multiset(cs) == multiset(prefix) + multiset{last} by {
        assert cs == prefix + [last];
      }
      SplitStep(multiset(Abiertos(prefix)), multiset(Cerrados(prefix)), multiset(prefix),
        multiset(Abiertos(cs)), multiset(Cerrados(cs)), multiset(cs), last, last.cerrado);
    }
  }

  /** Adding x to the whole and to exactly one side keeps a split. */
  lemma {:induction false} SplitStep<T>(a: multiset<T>, c: multiset<T>, m: multiset<T>, a': multiset<T>, c': multiset<T>, m': multiset<T>, x: T, toC: bool)
    requires a + c == m && m' == m + multiset{x}
    requires toC ==> a' == a && c' == c + multiset{x}
    requires !toC ==> a' == a + multiset{x} && c' == c
    ensures a' + c' == m'
  {
  }

  lemma {:induction false} WithFlagSnoc(cs: seq<Cuadre>, closed: bool)
    requires cs != []
    ensures cs[|cs| - 1].cerrado == closed ==> multiset(WithFlag(cs, closed)) == multiset(WithFlag(cs[..|cs| - 1], closed)) + multiset{cs[|cs| - 1]}
    ensures cs[|cs| - 1].cerrado != closed ==> WithFlag(cs, closed) == WithFlag(cs[..|cs| - 1], closed)
  {
  }

  /** The byFecha scope. */
  function ByFecha(cs: seq<Cuadre>, fecha: Date): (r: seq<Cuadre>)
    ensures |r| <= |cs|
    ensures forall c :: c in r <==> c in cs && c.fecha == fecha
  {
    if cs == [] then []
    else
      var rest := ByFecha(cs[..|cs| - 1], fecha);
      assert cs == cs[..|cs| - 1] + [cs[|cs| - 1]];
      if cs[|cs| - 1].fecha == fecha then rest + [cs[|cs| - 1]] else rest
  }

  /** Under the table's keys an organization has at most one row per day. */
  lemma {:induction false} ByFechaOnePerOrg(cs: seq<Cuadre>, fecha: Date, i: nat, j: nat)
    requires WellKeyed(cs)
    requires i < |cs| && j < |cs| && cs[i].fecha == fecha && cs[j].fecha == fecha && cs[i].org == cs[j].org
    ensures i == j
  {
  }

  // ---------------------------------------------------------------------
  // Opening balance

  /** The index of the latest closed row of `org` by fecha. */
  function LatestClosed(cs: seq<Cuadre>, org: Uuid): (r: Option<nat>)
    ensures r.Some? ==> r.value < |cs| && cs[r.value].org == org && cs[r.value].cerrado
    ensures r.Some? ==> forall j :: 0 <= j < |cs| && cs[j].org == org && cs[j].cerrado ==> cs[j].fecha <= cs[r.value].fecha
    ensures r.None? ==> forall j :: 0 <= j < |cs| ==> cs[j].org != org || !cs[j].cerrado
  {
    if cs == [] then None
    else
      var prefix := cs[..|cs| - 1];
      var c := cs[|cs| - 1];
      var best := LatestClosed(prefix, org);
      assert forall j :: 0 <= j < |prefix| ==> prefix[j] == cs[j];
      if c.org == org && c.cerrado && (best.None? || cs[best.value].fecha < c.fecha) then Some(|cs| - 1)
      else best
  }

  /** CuadreController::saldoAnterior: the carry of the latest closed day, 0
      when the organization has none. */
  function SaldoAnterior(cs: seq<Cuadre>, org: Uuid): Money {
    match LatestClosed(cs, org)
    case None => 0
    case Some(i) => cs[i].Carry()
  }

  /** Row i is a closed day of `org` no earlier than any other. */
  predicate IsLatestClosed(cs: seq<Cuadre>, org: Uuid, i: nat) {
    && i < |cs| && cs[i].org == org && cs[i].cerrado
    && forall j :: 0 <= j < |cs| && cs[j].org == org && cs[j].cerrado ==> cs[j].fecha <= cs[i].fecha
  }

  /** The opening balance is the carry of the latest closed day, and 0 when
      the organization has closed none. */
  lemma {:induction false} SaldoAnteriorIsLatest(cs: seq<Cuadre>, org: Uuid)
    requires WellKeyed(cs)
    ensures forall i :: 0 <= i < |cs| && IsLatestClosed(cs, org, i) ==> SaldoAnterior(cs, org) == cs[i].Carry()
    ensures (forall j :: 0 <= j < |cs| ==> cs[j].org != org || !cs[j].cerrado) ==> SaldoAnterior(cs, org) == 0
  {
    var r := LatestClosed(cs, org);
    if r.Some? {
      forall i | 0 <= i < |cs| && IsLatestClosed(cs, org, i)
        ensures SaldoAnterior(cs, org) == cs[i].Carry()
      {
        assert cs[i].fecha == cs[r.value].fecha;
        ByFechaOnePerOrg(cs, cs[i].fecha, i, r.value);
      }
    }
  }

  /** An open row, or a row of another organization, never moves the
      opening balance. */
  lemma {:induction false} SaldoAnteriorIgnores(cs: seq<Cuadre>, org: Uuid, c: Cuadre)
    requires !c.cerrado || c.org != org
    ensures SaldoAnterior(cs + [c], org) == SaldoAnterior(cs, org)
  {
    assert (cs + [c])[..|cs|] == cs;
  }

  // ---------------------------------------------------------------------
  // Counting cash

  /** The bills and coins of the count, in the order the controller adds
      them up. */
  datatype Denomination =
    | Cien | Cincuenta | Veinte | Diez | Cinco | Dos | Uno
    | Dollar | CincuentaCentavos | Veinticinco | DiezCentavos | CincoCentavos | UnCentavo
  {
    /** The face value in cents. */
    function FaceCents(): nat {
      match this
      case Cien => 10000
      case Cincuenta => 5000
      case Veinte => 2000
      case Diez => 1000
      case Cinco => 500
      case Dos => 200
      case Uno => 100
      case Dollar => 100
      case CincuentaCentavos => 50
      case Veinticinco => 25
      case DiezCentavos => 10
      case CincoCentavos => 5
      case UnCentavo => 1
    }
  }

  const Denominations: seq<Denomination> := [
    Cien, Cincuenta, Veinte, Diez, Cinco, Dos, Uno,
    Dollar, CincuentaCentavos, Veinticinco, DiezCentavos, CincoCentavos, UnCentavo
  ]

  /** How many of each bill and coin were counted. */
  type Count = map<Denomination, nat>

  predicate Complete(count: Count) {
    forall d: Denomination :: d in count
  }

  /** The counted cash in cents, term by term as the controller writes it. */
  function CountedCents(count: Count): nat
    requires Complete(count)
  {
    count[Cien] * 10000 + count[Cincuenta] * 5000 + count[Veinte] * 2000 + count[Diez] * 1000
      + count[Cinco] * 500 + count[Dos] * 200 + count[Uno] * 100
      + count[Dollar] * 100 + count[CincuentaCentavos] * 50 + count[Veinticinco] * 25
      + count[DiezCentavos] * 10 + count[CincoCentavos] * 5 + count[UnCentavo] * 1
  }

  /** The value of the pieces of `ds` in `count`, in cents: the reference
      definition, face value times count summed over a list of
      denominations. */
  function ValueOf(count: Count, ds: seq<Denomination>): nat
    requires Complete(count)
  {
    if ds == [] then 0 else ValueOf(count, ds[..|ds| - 1]) + count[ds[|ds| - 1]] * ds[|ds| - 1].FaceCents()
  }

  lemma {:induction false} ValueOfStep(count: Count, ds: seq<Denomination>, k: nat)
    requires Complete(count) && k < |ds|
    ensures ValueOf(count, ds[..k + 1]) == ValueOf(count, ds[..k]) + count[ds[k]] * ds[k].FaceCents()
  {
    assert ds[..k + 1][..k] == ds[..k];
  }

  /** The first seven pieces are the bills. */
  lemma {:induction false} BillsValue(count: Count)
    requires Complete(count)
    ensures ValueOf(count, Denominations[..7]) == count[Cien] * 10000 + count[Cincuenta] * 5000 + count[Veinte] * 2000
      + count[Diez] * 1000 + count[Cinco] * 500 + count[Dos] * 200 + count[Uno] * 100
  {
    var ds := Denominations;
    assert ds[..0] == [];
    ValueOfStep(count, ds, 0);
    ValueOfStep(count, ds, 1);
    ValueOfStep(count, ds, 2);
    ValueOfStep(count, ds, 3);
    ValueOfStep(count, ds, 4);
    ValueOfStep(count, ds, 5);
    ValueOfStep(count, ds, 6);
  }

  /** The next three pieces are the dollar coin, the 50 and the 25 cents. */
  lemma {:induction false} LargeCoinsValue(count: Count)
    requires Complete(count)
    ensures ValueOf(count, Denominations[..10]) == ValueOf(count, Denominations[..7]) + count[Dollar] * 100
      + count[CincuentaCentavos] * 50 + count[Veinticinco] * 25
  {
    var ds := Denominations;
    ValueOfStep(count, ds, 7);
    ValueOfStep(count, ds, 8);
    ValueOfStep(count, ds, 9);
  }

  /** The last three pieces are the 10, 5 and 1 cent coins. */
  lemma {:induction false} SmallCoinsValue(count: Count)
    requires Complete(count)
    ensures ValueOf(count, Denominations[..13]) == ValueOf(count, Denominations[..10]) + count[DiezCentavos] * 10
      + count[CincoCentavos] * 5 + count[UnCentavo] * 1
  {
    var ds := Denominations;
    ValueOfStep(count, ds, 10);
    ValueOfStep(count, ds, 11);
    ValueOfStep(count, ds, 12);
  }

  /** The controller's sum is face value times count over all thirteen
      denominations. */
  lemma {:induction false} CountedCentsIsValue(count: Count)
    requires Complete(count)
    ensures CountedCents(count) == ValueOf(count, Denominations)
  {
    BillsValue(count);
    LargeCoinsValue(count);
    SmallCoinsValue(count);
    assert Denominations[..13] == Denominations;
  }

  /** Counting one more piece adds exactly its face value. */
  lemma {:induction false} OneMorePiece(count: Count, d: Denomination)
    requires Complete(count)
    ensures Complete(count[d := count[d] + 1])
    ensures CountedCents(count[d := count[d] + 1]) == CountedCents(count) + d.FaceCents()
  {
  }

  /** One 100 bill, one 50 bill and two quarters make 150.50. */
  lemma {:induction false} CountExample(count: Count)
    requires Complete(count)
    requires count[Cien] == 1 && count[Cincuenta] == 1 && count[Veinticinco] == 2
    requires forall d: Denomination :: d != Cien && d != Cincuenta && d != Veinticinco ==> count[d] == 0
    ensures CountedCents(count) == 15050
  {
    assert count[Veinte] == 0 && count[Diez] == 0 && count[Cinco] == 0 && count[Dos] == 0 && count[Uno] == 0;
    assert count[Dollar] == 0 && count[CincuentaCentavos] == 0;
    assert count[DiezCentavos] == 0 && count[CincoCentavos] == 0 && count[UnCentavo] == 0;
  }

  /** The counted cash as a stored amount. */
  function CountedMoney(count: Count): Money
    requires Complete(count)
  {
    CountedCents(count) * PerCent
  }

  // ---------------------------------------------------------------------
  // The controller

  /** The fields of a store request; `observaciones` is `None` when the key
      is absent and `Some(None)` when it is sent as null. */
  datatype StoreRequest = StoreRequest(
    fecha: Option<Date>,
    saldoInicial: Option<Money>,
    observaciones: Option<Option<string>>,
    conteo: Count,
    totalEfectivoContado: Option<Money>)

  predicate StoreValid(req: StoreRequest) {
    && req.fecha.Some?
    && req.saldoInicial.Some? && req.saldoInicial.value >= 0
    && (req.observaciones.Some? && req.observaciones.value.Some? ==> |req.observaciones.value.value| <= 1000)
    && req.totalEfectivoContado.Some? && req.totalEfectivoContado.value >= 0
  }

  /** The row store writes: closed by its creator, every channel zero, the
      client's opening balance, and the counted cash. */
  function StoredCuadre(id: Uuid, org: Uuid, user: Uuid, req: StoreRequest): Cuadre
    requires StoreValid(req) && Complete(req.conteo) && req.observaciones.Some?
  {
    Cuadre(
      id, org, req.fecha.value, req.saldoInicial.value, 0, 0, 0, 0, 0, 0,
      Some(CountedMoney(req.conteo)), req.observaciones.value, true, Some(user), Some(user), None)
  }

  /** CuadreController::store. `user` is the authenticated user and `id` the
      key the new row receives. No check for an existing day precedes the
      insert; the table's unique key rejects a second row for the same day,
      and the controller answers that failure with 500. The action reads the
      observaciones key even when the validated data leaves it out, so a
      request without it fails inside the action with 500 as well. */
  function Store(cs: seq<Cuadre>, org: Uuid, user: Option<Uuid>, id: Uuid, req: StoreRequest): (r: Result<seq<Cuadre>>)
    ensures r.Err? && r.error == Unauthenticated <==> user.None?
    ensures r.Err? && r.error == ValidationFailed <==> user.Some? && !StoreValid(req)
    ensures r.Err? && r.error == ServerError ==>
      || !Complete(req.conteo) || req.observaciones.None?
      || FindByFecha(cs, org, req.fecha.value).Some? || exists i :: 0 <= i < |cs| && cs[i].id == id
    ensures user.Some? && StoreValid(req) && req.observaciones.None? ==> r == Err(ServerError)
    ensures r.Err? ==> r.error in {Unauthenticated, ValidationFailed, ServerError}
    ensures r.Err? && r.error == ServerError <==>
      user.Some? && StoreValid(req)
      && (|| !Complete(req.conteo) || req.observaciones.None?
          || FindByFecha(cs, org, req.fecha.value).Some? || exists i :: 0 <= i < |cs| && cs[i].id == id)
    ensures r.Ok? ==>
      && StoreValid(req) && Complete(req.conteo) && user.Some? && req.observaciones.Some?
      && r.value == cs + [StoredCuadre(id, org, user.value, req)]
      && r.value[|cs|].cerrado && r.value[|cs|].cerradoPor == user && r.value[|cs|].creadoPor == user
      && r.value[|cs|].TotalIngresos() == 0 && r.value[|cs|].TotalEgresos() == 0
      && r.value[|cs|].saldoAnterior == req.saldoInicial.value
      && r.value[|cs|].saldoFisico == Some(CountedCents(req.conteo) * PerCent)
      && r.value[|cs|].observaciones == req.observaciones.value
  {
    if user.None? then Err(Unauthenticated)
    else if !StoreValid(req) then Err(ValidationFailed)
    else if !Complete(req.conteo) then Err(ServerError)
    else if req.observaciones.None? then Err(ServerError)
    else if FindByFecha(cs, org, req.fecha.value).Some? then Err(ServerError)
    else if exists i :: 0 <= i < |cs| && cs[i].id == id then Err(ServerError)
    else Ok(cs + [StoredCuadre(id, org, user.value, req)])
  }

  /** The client's own total of the count plays no part in the result. */
  lemma {:induction false} StoreIgnoresClientTotal(cs: seq<Cuadre>, org: Uuid, user: Option<Uuid>, id: Uuid, req: StoreRequest, total: Money)
    requires total >= 0 && req.totalEfectivoContado.Some? && req.totalEfectivoContado.value >= 0
    ensures Store(cs, org, user, id, req) == Store(cs, org, user, id, req.(totalEfectivoContado := Some(total)))
  {
  }

  /** Store keeps the table's keys. */
  lemma {:induction false} StoreKeepsKeys(cs: seq<Cuadre>, org: Uuid, user: Option<Uuid>, id: Uuid, req: StoreRequest)
    requires WellKeyed(cs)
    requires Store(cs, org, user, id, req).Ok?
    ensures WellKeyed(Store(cs, org, user, id, req).value)
  {
  }

  /** A day stored after every other day of the organization becomes the
      opening balance of the next: the counted cash carries forward. */
  lemma {:induction false} StoreCarriesForward(cs: seq<Cuadre>, org: Uuid, user: Option<Uuid>, id: Uuid, req: StoreRequest)
    requires Store(cs, org, user, id, req).Ok?
    requires forall i :: 0 <= i < |cs| && cs[i].org == org ==> cs[i].fecha < req.fecha.value
    ensures SaldoAnterior(Store(cs, org, user, id, req).value, org) == CountedCents(req.conteo) * PerCent
  {
    var cs' := Store(cs, org, user, id, req).value;
    assert cs'[|cs|].org == org && cs'[|cs|].cerrado;
  }

  datatype DayStats = DayStats(ingresos: Money, gastos: Money, diferencia: Money)

  /** CuadreController::estadisticasDia for an already parsed date. */
  function EstadisticasDia(cs: seq<Cuadre>, org: Uuid, fecha: Date): (r: DayStats)
    ensures FindByFecha(cs, org, fecha).None? ==> r == DayStats(0, 0, 0)
  {
    match FindByFecha(cs, org, fecha)
    case None => DayStats(0, 0, 0)
    case Some(i) =>
      var c := cs[i];
      var ingresos := c.ingresosEfectivo + c.ingresosTransferencia + c.ingresosTarjeta;
      var gastos := c.egresosEfectivo + c.egresosTransferencia + c.egresosTarjeta;
      DayStats(ingresos, gastos, ingresos - gastos)
  }

  /** The day's figures agree with the record's accessors, and the
      difference is what the day moved the balance by. */
  lemma {:induction false} EstadisticasMatchRecord(cs: seq<Cuadre>, org: Uuid, fecha: Date, i: nat)
    requires WellKeyed(cs)
    requires i < |cs| && cs[i].org == org && cs[i].fecha == fecha
    ensures EstadisticasDia(cs, org, fecha) == DayStats(cs[i].TotalIngresos(), cs[i].TotalEgresos(), cs[i].TotalIngresos() - cs[i].TotalEgresos())
    ensures EstadisticasDia(cs, org, fecha).diferencia == cs[i].SaldoCalculado() - cs[i].saldoAnterior
  {
    var k := FindByFecha(cs, org, fecha).value;
    ByFechaOnePerOrg(cs, fecha, i, k);
  }

  datatype FechaCheck = FechaCheck(valida: bool, existente: Option<Cuadre>)

  /** CuadreController::validarFecha for an already parsed date; a missing
      date is answered 400. */
  function ValidarFecha(cs: seq<Cuadre>, org: Uuid, fecha: Option<Date>): (r: Result<FechaCheck>)
    ensures r.Err? <==> fecha.None?
    ensures r.Err? ==> r.error == BadRequest
    ensures r.Ok? ==> (r.value.valida <==> forall i :: 0 <= i < |cs| ==> cs[i].org != org || cs[i].fecha != fecha.value)
    ensures r.Ok? ==> (r.value.valida <==> r.value.existente.None?)
  {
    if fecha.None? then Err(BadRequest)
    else
      match FindByFecha(cs, org, fecha.value)
      case None => Ok(FechaCheck(true, None))
      case Some(i) => Ok(FechaCheck(false, Some(cs[i])))
  }

  /** A date the check calls valid can be stored; one it calls taken makes a
      store for that date fail. */
  lemma {:induction false} ValidarFechaPredictsStore(cs: seq<Cuadre>, org: Uuid, user: Uuid, id: Uuid, req: StoreRequest)
    requires StoreValid(req) && Complete(req.conteo) && req.observaciones.Some?
    requires forall i :: 0 <= i < |cs| ==> cs[i].id != id
    ensures ValidarFecha(cs, org, req.fecha).value.valida <==> Store(cs, org, Some(user), id, req).Ok?
  {
  }

  /** The fields an update may supply; `None` is an absent field, and a
      nullable field given as null is `Some(None)`. */
  datatype Patch = Patch(
    saldoAnterior: Option<Money>,
    ingresosEfectivo: Option<Money>,
    ingresosTransferencia: Option<Money>,
    ingresosTarjeta: Option<Money>,
    egresosEfectivo: Option<Money>,
    egresosTransferencia: Option<Money>,
    egresosTarjeta: Option<Money>,
    saldoFisico: Option<Option<Money>>,
    observaciones: Option<Option<string>>,
    cerrado: Option<bool>)

  predicate NonNegativeIfGiven(m: Option<Money>) {
    m.Some? ==> m.value >= 0
  }

  predicate PatchValid(p: Patch) {
    && NonNegativeIfGiven(p.saldoAnterior)
    && NonNegativeIfGiven(p.ingresosEfectivo) && NonNegativeIfGiven(p.ingresosTransferencia) && NonNegativeIfGiven(p.ingresosTarjeta)
    && NonNegativeIfGiven(p.egresosEfectivo) && NonNegativeIfGiven(p.egresosTransferencia) && NonNegativeIfGiven(p.egresosTarjeta)
    && (p.observaciones.Some? && p.observaciones.value.Some? ==> |p.observaciones.value.value| <= 1000)
  }

  /** The record with the supplied fields applied. */
  function ApplyPatch(c: Cuadre, p: Patch): Cuadre {
    c.(
      saldoAnterior := p.saldoAnterior.GetOr(c.saldoAnterior),
      ingresosEfectivo := p.ingresosEfectivo.GetOr(c.ingresosEfectivo),
      ingresosTransferencia := p.ingresosTransferencia.GetOr(c.ingresosTransferencia),
      ingresosTarjeta := p.ingresosTarjeta.GetOr(c.ingresosTarjeta),
      egresosEfectivo := p.egresosEfectivo.GetOr(c.egresosEfectivo),
      egresosTransferencia := p.egresosTransferencia.GetOr(c.egresosTransferencia),
      egresosTarjeta := p.egresosTarjeta.GetOr(c.egresosTarjeta),
      saldoFisico := p.saldoFisico.GetOr(c.saldoFisico),
      observaciones := p.observaciones.GetOr(c.observaciones),
      cerrado := p.cerrado.GetOr(c.cerrado))
  }

  /** CuadreController::update. A closed record is refused before the
      request is validated; closing stamps who closed it and when. */
  function Update(cs: seq<Cuadre>, org: Uuid, id: Uuid, user: Option<Uuid>, now: Time, p: Patch): (r: Result<seq<Cuadre>>)
    ensures r.Err? && r.error == NotFound <==> FindCuadre(cs, org, id).None?
    ensures r.Err? && r.error == BadRequest <==> FindCuadre(cs, org, id).Some? && cs[FindCuadre(cs, org, id).value].cerrado
    ensures r.Err? && r.error == ValidationFailed <==>
      FindCuadre(cs, org, id).Some? && !cs[FindCuadre(cs, org, id).value].cerrado && !PatchValid(p)
    ensures r.Err? ==> r.error in {NotFound, BadRequest, ValidationFailed}
    ensures r.Ok? ==> FindCuadre(cs, org, id).Some? && |r.value| == |cs|
    ensures r.Ok? && FindCuadre(cs, org, id).Some? && |r.value| == |cs| ==>
      var k := FindCuadre(cs, org, id).value;
      var c' := r.value[k];
      && !cs[k].cerrado
      && (forall i :: 0 <= i < |cs| && i != k ==> r.value[i] == cs[i])
      && c'.id == id && c'.org == org && c'.fecha == cs[k].fecha && c'.creadoPor == cs[k].creadoPor
      && c'.(cerradoPor := cs[k].cerradoPor, fechaCierre := cs[k].fechaCierre) == ApplyPatch(cs[k], p)
      && (p.cerrado == Some(true) ==> c'.cerrado && c'.cerradoPor == user && c'.fechaCierre == Some(now))
      && (p.cerrado != Some(true) ==> !c'.cerrado && c'.cerradoPor == cs[k].cerradoPor && c'.fechaCierre == cs[k].fechaCierre)
  {
    match FindCuadre(cs, org, id)
    case None => Err(NotFound)
    case Some(k) =>
      var c := cs[k];
      if c.cerrado then Err(BadRequest)
      else if !PatchValid(p) then Err(ValidationFailed)
      else
        var c' := ApplyPatch(c, p);
        var c'' := if p.cerrado == Some(true) then c'.(cerradoPor := user, fechaCierre := Some(now)) else c';
        Ok(cs[k := c''])
  }

  /** Only supplied fields change: each of the ten updatable fields takes the
      supplied value when present and keeps its value when omitted; the key
      columns and the stamps are untouched. */
  lemma {:induction false} PatchFields(c: Cuadre, p: Patch)
    ensures var d := ApplyPatch(c, p);
      && (p.saldoAnterior.None? ==> d.saldoAnterior == c.saldoAnterior) && (p.saldoAnterior.Some? ==> d.saldoAnterior == p.saldoAnterior.value)
      && (p.ingresosEfectivo.None? ==> d.ingresosEfectivo == c.ingresosEfectivo) && (p.ingresosEfectivo.Some? ==> d.ingresosEfectivo == p.ingresosEfectivo.value)
      && (p.ingresosTransferencia.None? ==> d.ingresosTransferencia == c.ingresosTransferencia)
      && (p.ingresosTransferencia.Some? ==> d.ingresosTransferencia == p.ingresosTransferencia.value)
      && (p.ingresosTarjeta.None? ==> d.ingresosTarjeta == c.ingresosTarjeta) && (p.ingresosTarjeta.Some? ==> d.ingresosTarjeta == p.ingresosTarjeta.value)
    ensures var d := ApplyPatch(c, p);
      && (p.egresosEfectivo.None? ==> d.egresosEfectivo == c.egresosEfectivo) && (p.egresosEfectivo.Some? ==> d.egresosEfectivo == p.egresosEfectivo.value)
      && (p.egresosTransferencia.None? ==> d.egresosTransferencia == c.egresosTransferencia)
      && (p.egresosTransferencia.Some? ==> d.egresosTransferencia == p.egresosTransferencia.value)
      && (p.egresosTarjeta.None? ==> d.egresosTarjeta == c.egresosTarjeta) && (p.egresosTarjeta.Some? ==> d.egresosTarjeta == p.egresosTarjeta.value)
    ensures var d := ApplyPatch(c, p);
      && (p.saldoFisico.None? ==> d.saldoFisico == c.saldoFisico) && (p.saldoFisico.Some? ==> d.saldoFisico == p.saldoFisico.value)
      && (p.observaciones.None? ==> d.observaciones == c.observaciones) && (p.observaciones.Some? ==> d.observaciones == p.observaciones.value)
      && (p.cerrado.None? ==> d.cerrado == c.cerrado) && (p.cerrado.Some? ==> d.cerrado == p.cerrado.value)
      && d.id == c.id && d.org == c.org && d.fecha == c.fecha && d.creadoPor == c.creadoPor
      && d.cerradoPor == c.cerradoPor && d.fechaCierre == c.fechaCierre
  {
  }

  /** A valid update of an open record of the organization always succeeds;
      an update that supplies no field and does not close changes nothing. */
  lemma {:induction false} UpdateOpenSucceeds(cs: seq<Cuadre>, org: Uuid, id: Uuid, user: Option<Uuid>, now: Time, p: Patch)
    requires FindCuadre(cs, org, id).Some? && !cs[FindCuadre(cs, org, id).value].cerrado
    requires PatchValid(p)
    ensures Update(cs, org, id, user, now, p).Ok?
    ensures p == Patch(None, None, None, None, None, None, None, None, None, None) ==> Update(cs, org, id, user, now, p) == Ok(cs)
  {
    var k := FindCuadre(cs, org, id).value;
    if p == Patch(None, None, None, None, None, None, None, None, None, None) {
      assert ApplyPatch(cs[k], p) == cs[k];
      assert cs[k := cs[k]] == cs;
    }
  }

  /** CuadreController::destroy: only an open record can be removed. */
  function Destroy(cs: seq<Cuadre>, org: Uuid, id: Uuid): (r: Result<seq<Cuadre>>)
    ensures r.Err? && r.error == NotFound <==> FindCuadre(cs, org, id).None?
    ensures r.Err? && r.error == BadRequest <==> FindCuadre(cs, org, id).Some? && cs[FindCuadre(cs, org, id).value].cerrado
    ensures r.Err? ==> r.error in {NotFound, BadRequest}
    ensures r.Ok? ==>
      var k := FindCuadre(cs, org, id).value;
      && !cs[k].cerrado
      && r.value == cs[..k] + cs[k + 1..]
  {
    match FindCuadre(cs, org, id)
    case None => Err(NotFound)
    case Some(k) =>
      if cs[k].cerrado then Err(BadRequest) else Ok(cs[..k] + cs[k + 1..])
  }

  /** Closed is terminal: once a record is closed, neither update nor
      destroy succeeds on it, whatever the request. */
  lemma {:induction false} ClosedIsTerminal(cs: seq<Cuadre>, org: Uuid, id: Uuid, user: Option<Uuid>, now: Time, p: Patch)
    requires FindCuadre(cs, org, id).Some? && cs[FindCuadre(cs, org, id).value].cerrado
    ensures Update(cs, org, id, user, now, p) == Err(BadRequest)
    ensures Destroy(cs, org, id) == Err(BadRequest)
  {
  }

  /** A record that store created, or that an update closed, refuses every
      later update and deletion. */
  lemma {:induction false} StoredIsTerminal(cs: seq<Cuadre>, org: Uuid, user: Uuid, id: Uuid, req: StoreRequest, now: Time, p: Patch)
    requires WellKeyed(cs)
    requires Store(cs, org, Some(user), id, req).Ok?
    ensures Update(Store(cs, org, Some(user), id, req).value, org, id, Some(user), now, p) == Err(BadRequest)
    ensures Destroy(Store(cs, org, Some(user), id, req).value, org, id) == Err(BadRequest)
  {
    var cs' := Store(cs, org, Some(user), id, req).value;
    assert cs'[|cs|].id == id && cs'[|cs|].org == org;
  }

  lemma {:induction false} ClosingIsTerminal(cs: seq<Cuadre>, org: Uuid, id: Uuid, user: Option<Uuid>, now: Time, p: Patch, now2: Time, p2: Patch)
    requires WellKeyed(cs)
    requires p.cerrado == Some(true) && Update(cs, org, id, user, now, p).Ok?
    ensures Update(Update(cs, org, id, user, now, p).value, org, id, user, now2, p2) == Err(BadRequest)
    ensures Destroy(Update(cs, org, id, user, now, p).value, org, id) == Err(BadRequest)
  {
    var k := FindCuadre(cs, org, id).value;
    var cs' := Update(cs, org, id, user, now, p).value;
    assert cs'[k].id == id && cs'[k].org == org;
  }

  /** Update never changes a row's day or organization, so it keeps the
      table's keys. */
  lemma {:induction false} UpdateKeepsKeys(cs: seq<Cuadre>, org: Uuid, id: Uuid, user: Option<Uuid>, now: Time, p: Patch)
    requires WellKeyed(cs)
    requires Update(cs, org, id, user, now, p).Ok?
    ensures WellKeyed(Update(cs, org, id, user, now, p).value)
  {
  }

  lemma {:induction false} DestroyKeepsKeys(cs: seq<Cuadre>, org: Uuid, id: Uuid)
    requires WellKeyed(cs)
    requires Destroy(cs, org, id).Ok?
    ensures WellKeyed(Destroy(cs, org, id).value)
  {
    var k := FindCuadre(cs, org, id).value;
    var r := cs[..k] + cs[k + 1..];
    forall i, j | 0 <= i < j < |r|
      ensures r[i].id != r[j].id && (r[i].org != r[j].org || r[i].fecha != r[j].fecha)
    {
      var i' := if i < k then i else i + 1;
      var j' := if j < k then j else j + 1;
      assert r[i] == cs[i'] && r[j] == cs[j'];
    }
  }
}
