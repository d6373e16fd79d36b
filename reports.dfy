/**
 * The sales reports (one day, one month, a date range, the current and the
 * previous week, the daily series of a month) and the monthly break-even
 * point. Today's date and the bounds of the weeks are parameters.
 */
module Reports {
  import opened Common
  import opened Schema
  import opened Tables
  import opened Database
  import opened Cash

  // ---------------------------------------------------------------------
  // Listing sales

  /** A sale as the reports list it, with its product's name and cost from a LEFT JOIN (NULL once the product is gone). */
  datatype SaleLine = SaleLine(venta: Sale, productoNombre: Option<string>, costo: Option<int>)

  function JoinProduct(db: Db, v: Sale): (l: SaleLine)
    ensures l.venta == v
    ensures l.productoNombre.Some? <==> HasProduct(db, v.sku)
    ensures l.costo.Some? <==> HasProduct(db, v.sku)
    ensures forall p :: p in db.productos && p.sku == v.sku && UniqueBy(db.productos, ProductKey) ==>
              l.productoNombre == Some(p.nombre) && l.costo == Some(p.costo)
  {
    match FindProduct(db, v.sku)
    case Some(p) =>
      assert forall q :: q in db.productos && q.sku == v.sku && UniqueBy(db.productos, ProductKey) ==> q == p by {
        forall q | q in db.productos && q.sku == v.sku && UniqueBy(db.productos, ProductKey) ensures q == p {
          FirstUnique(db.productos, ProductKey, v.sku, q);
        }
      }
      SaleLine(v, Some(p.nombre), Some(p.costo))
    case None => SaleLine(v, None, None)
  }

  /** `FROM ventas v LEFT JOIN productos p ON v.sku = p.sku`, row for row. */
  function Join(db: Db, s: seq<Sale>): (r: seq<SaleLine>)
    ensures |r| == |s|
    ensures forall i :: 0 <= i < |s| ==> r[i] == JoinProduct(db, s[i])
    ensures forall l :: l in r ==> l.venta in s
    ensures forall v :: v in s ==> exists l :: l in r && l.venta == v
  {
    if s == [] then []
    else
      var init := Join(db, s[..|s| - 1]);
      assert forall v :: v in s ==> v in s[..|s| - 1] || v == s[|s| - 1];
      init + [JoinProduct(db, s[|s| - 1])]
  }

  function SaleUnits(v: Sale): int { v.cantidad }

  /** `(v.get('costo') or 0) * v['cantidad']`: a sale whose product is gone costs nothing. */
  function SaleCost(db: Db): (f: Sale -> int)
    ensures forall v {:trigger f(v)} :: f(v) == (if HasProduct(db, v.sku) then FindProduct(db, v.sku).value.costo else 0) * v.cantidad
  {
    (v: Sale) => (match FindProduct(db, v.sku) case Some(p) => p.costo case None => 0) * v.cantidad
  }

  /** `v.get('producto_nombre') or v['sku']`: the product's name, or the sku when there is no (or an empty) name. */
  function ProductLabel(db: Db): (f: Sale -> string)
    ensures forall v: Sale {:trigger f(v)} :: HasProduct(db, v.sku) && FindProduct(db, v.sku).value.nombre != "" ==>
              f(v) == FindProduct(db, v.sku).value.nombre
    ensures forall v: Sale {:trigger f(v)} :: !HasProduct(db, v.sku) ==> f(v) == v.sku
  {
    (v: Sale) => match FindProduct(db, v.sku)
                 case Some(p) => if p.nombre != "" then p.nombre else v.sku
                 case None => v.sku
  }

  /** `WHERE v.fecha >= ? AND v.fecha <= ?`: both ends included. */
  function SaleBetween(desde: Date, hasta: Date): (p: Sale -> bool)
    ensures forall v {:trigger p(v)} :: p(v) <==> desde.AtOrBefore(v.fecha) && v.fecha.AtOrBefore(hasta)
  {
    (v: Sale) => desde.AtOrBefore(v.fecha) && v.fecha.AtOrBefore(hasta)
  }

  /** `WHERE fecha >= 'YYYY-MM-01' AND fecha < <first day of next month>`. */
  function SaleInMonth(year: int, month: int): (p: Sale -> bool)
    ensures forall v {:trigger p(v)} :: p(v) <==> Date(year, month, 1).AtOrBefore(v.fecha) && v.fecha.Before(NextMonthStart(year, month))
  {
    (v: Sale) => Date(year, month, 1).AtOrBefore(v.fecha) && v.fecha.Before(NextMonthStart(year, month))
  }

  // ---------------------------------------------------------------------
  // One day

  datatype DayReport = DayReport(ventas: seq<SaleLine>, totalesMetodo: map<string, real>, total: real, unidades: int)

  /**
   * The loop of `get_ventas_dia`: `totales[mp] = totales.get(mp, 0) + v['total']`
   * and the running general total, over the day's sales.
   */
  method SumarPorMetodo(ventas: seq<Sale>) returns (totales: map<string, real>, total: real)
    ensures totales == GroupSumR(ventas, SaleMethod, SaleAmount)
    ensures total == SumR(ventas, SaleAmount)
  {
    totales, total := map[], 0.0;
    var i := 0;
    while i < |ventas|
      invariant 0 <= i <= |ventas|
      invariant totales == GroupSumR(ventas[..i], SaleMethod, SaleAmount)
      invariant total == SumR(ventas[..i], SaleAmount)
    {
      var v := ventas[i];
      assert ventas[..i + 1][..i] == ventas[..i];
      totales := BumpR(totales, v.metodoPago, v.total);
      total := total + v.total;
      i := i + 1;
    }
    assert ventas[..i] == ventas;
  }

  /** `get_ventas_dia`: the day's sales with their product names, the totals per payment method, the general total and the units. */
  function VentasDia(db: Db, fecha: Date): (r: DayReport)
    ensures |r.ventas| == |Where(db.ventas, SaleOn(fecha))|
    ensures forall l :: l in r.ventas ==> l.venta in db.ventas && l.venta.fecha == fecha
    ensures forall v :: v in db.ventas && v.fecha == fecha ==> exists l :: l in r.ventas && l.venta == v
  {
    var dia := Where(db.ventas, SaleOn(fecha));
    DayReport(Join(db, dia), GroupSumR(dia, SaleMethod, SaleAmount), SumR(dia, SaleAmount), Sum(dia, SaleUnits))
  }

  /**
   * What the day report adds up: a payment method is listed exactly when
   * some sale of the day used it, and its total is the sum of those sales.
   */
  lemma VentasDiaSums(db: Db, fecha: Date)
    ensures var r := VentasDia(db, fecha);
            && r.total == SumR(Where(db.ventas, SaleOn(fecha)), SaleAmount)
            && r.unidades == Sum(Where(db.ventas, SaleOn(fecha)), SaleUnits)
            && (forall m :: m in r.totalesMetodo <==> exists v :: v in db.ventas && v.fecha == fecha && v.metodoPago == m)
            && (forall m :: m in r.totalesMetodo ==>
                  r.totalesMetodo[m] == SumR(Where(db.ventas, And(SaleOn(fecha), PaidWith(m))), SaleAmount))
  {
    var r := VentasDia(db, fecha);
    var dia := Where(db.ventas, SaleOn(fecha));
    forall m
      ensures m in r.totalesMetodo <==> exists v :: v in db.ventas && v.fecha == fecha && v.metodoPago == m
    {
      if m in r.totalesMetodo {
        var v :| v in dia && SaleMethod(v) == m;
      }
      if exists v :: v in db.ventas && v.fecha == fecha && v.metodoPago == m {
        var v :| v in db.ventas && v.fecha == fecha && v.metodoPago == m;
        assert v in dia;
      }
    }
    forall m | m in r.totalesMetodo
      ensures r.totalesMetodo[m] == SumR(Where(db.ventas, And(SaleOn(fecha), PaidWith(m))), SaleAmount)
    {
      GroupSumRAt(dia, SaleMethod, SaleAmount, m);
      WhereWhere(db.ventas, SaleOn(fecha), PaidWith(m));
    }
  }

  /**
   * The totals per method add up to the general total, read over any
   * duplicate-free list of methods that names every method the day used
   * (a method nobody used contributes zero).
   */
  lemma VentasDiaTotal(db: Db, fecha: Date, metodos: seq<string>)
    requires forall i, j :: 0 <= i < j < |metodos| ==> metodos[i] != metodos[j]
    requires forall v :: v in db.ventas && v.fecha == fecha ==> v.metodoPago in metodos
    ensures SumAtR(metodos, VentasDia(db, fecha).totalesMetodo) == VentasDia(db, fecha).total
  {
    GroupSumRTotal(Where(db.ventas, SaleOn(fecha)), SaleMethod, SaleAmount, metodos);
  }

  /** The day report and the cash drawer see the same sales per method. */
  lemma VentasDiaCaja(db: Db, fecha: Date)
    ensures VentasDia(db, fecha).totalesMetodo == EstadoCaja(db, fecha).totalesVentas
    ensures EstadoCaja(db, fecha).ventasEfectivo == GetR(VentasDia(db, fecha).totalesMetodo, EFECTIVO)
  {
  }

  // ---------------------------------------------------------------------
  // One month, a range, the weeks

  datatype MonthReport = MonthReport(
    ventas: seq<SaleLine>,
    totalVentas: real,
    totalCosto: int,
    utilidadBruta: real,
    totalUnidades: int,
    topProductos: seq<(string, int)>,
    topRevenue: seq<(string, real)>)

  /** The month's sales, from the 1st up to, not including, the 1st of the next month. */
  function SalesOfMonth(db: Db, year: int, month: int): seq<Sale> {
    Where(db.ventas, SaleInMonth(year, month))
  }

  /** The `Counter`s of `get_ventas_mes`: the month's units and revenue per product label. */
  function ConteoMes(db: Db, year: int, month: int): map<string, int> {
    GroupSum(SalesOfMonth(db, year, month), ProductLabel(db), SaleUnits)
  }

  function IngresosMes(db: Db, year: int, month: int): map<string, real> {
    GroupSumR(SalesOfMonth(db, year, month), ProductLabel(db), SaleAmount)
  }

  function UnitsScore(e: (string, int)): real { e.1 as real }
  function RevenueScore(e: (string, real)): real { e.1 }

  /**
   * `get_ventas_mes`: the sales from the first of the month up to, not
   * including, the first of the next month, their revenue, their cost at
   * the products' current cost, the gross profit, the units, and the ten
   * product labels with the most units and the ten with the most revenue
   * (`most_common(10)` of the two counters).
   */
  function VentasMes(db: Db, year: int, month: int): (r: MonthReport)
    ensures |r.ventas| == |Where(db.ventas, SaleInMonth(year, month))|
    ensures forall l :: l in r.ventas ==> l.venta in db.ventas && SaleInMonth(year, month)(l.venta)
    ensures r.utilidadBruta == r.totalVentas - r.totalCosto as real
  {
    var mes := SalesOfMonth(db, year, month);
    var lines := Join(db, mes);
    var ventas, costo := SumR(mes, SaleAmount), Sum(mes, SaleCost(db));
    var etiquetas := FirstKeys(mes, ProductLabel(db));
    MonthReport(lines, ventas, costo, ventas - costo as real, Sum(mes, SaleUnits),
                MostCommon(Entries(etiquetas, ConteoMes(db, year, month)), UnitsScore, 10),
                MostCommon(Entries(etiquetas, IngresosMes(db, year, month)), RevenueScore, 10))
  }

  /**
   * The month's figures are sums over the month's sales, and each product
   * label's units and revenue are the sums over the month's sales of that
   * label.
   */
  lemma VentasMesSums(db: Db, year: int, month: int)
    ensures var r := VentasMes(db, year, month);
            var mes := Where(db.ventas, SaleInMonth(year, month));
            && r.totalVentas == SumR(mes, SaleAmount)
            && r.totalCosto == Sum(mes, SaleCost(db))
            && r.totalUnidades == Sum(mes, SaleUnits)
            && var conteo, ingresos := ConteoMes(db, year, month), IngresosMes(db, year, month);
            && conteo.Keys == ingresos.Keys
            && (forall n :: n in conteo <==> exists v :: v in mes && ProductLabel(db)(v) == n)
            && (forall n :: n in conteo ==>
                  conteo[n] == Sum(Where(mes, KeyIs(ProductLabel(db), n)), SaleUnits)
                  && ingresos[n] == SumR(Where(mes, KeyIs(ProductLabel(db), n)), SaleAmount))
  {
    var mes := Where(db.ventas, SaleInMonth(year, month));
    var conteo, ingresos := ConteoMes(db, year, month), IngresosMes(db, year, month);
    forall n | n in conteo
      ensures conteo[n] == Sum(Where(mes, KeyIs(ProductLabel(db), n)), SaleUnits)
      ensures ingresos[n] == SumR(Where(mes, KeyIs(ProductLabel(db), n)), SaleAmount)
    {
      GroupSumAt(mes, ProductLabel(db), SaleUnits, n);
      GroupSumRAt(mes, ProductLabel(db), SaleAmount, n);
    }
  }

  /** The units per product label add up to the month's units. */
  lemma VentasMesUnidades(db: Db, year: int, month: int, etiquetas: seq<string>)
    requires forall i, j :: 0 <= i < j < |etiquetas| ==> etiquetas[i] != etiquetas[j]
    requires forall n :: n in etiquetas <==> n in Keys(Where(db.ventas, SaleInMonth(year, month)), ProductLabel(db))
    ensures forall n :: n in etiquetas ==> n in ConteoMes(db, year, month)
    ensures SumAt(etiquetas, ConteoMes(db, year, month)) == VentasMes(db, year, month).totalUnidades
  {
    GroupSumTotal(Where(db.ventas, SaleInMonth(year, month)), ProductLabel(db), SaleUnits, etiquetas);
  }

  /** The top lists are `most_common(10)` of the entries of the two counters, in first-sale order. */
  lemma VentasMesTopIs(db: Db, year: int, month: int)
    ensures var r := VentasMes(db, year, month);
            var etiquetas := FirstKeys(SalesOfMonth(db, year, month), ProductLabel(db));
            && r.topProductos == MostCommon(Entries(etiquetas, ConteoMes(db, year, month)), UnitsScore, 10)
            && r.topRevenue == MostCommon(Entries(etiquetas, IngresosMes(db, year, month)), RevenueScore, 10)
  {
  }

  /**
   * `top` is `most_common(10)` of the counter `m`: ten labels, or every
   * label when there are fewer, each with its counter value, from the
   * largest value down, no label twice, and every label left out with a
   * value no larger than any label listed.
   */
  ghost predicate TopTen(m: map<string, int>, top: seq<(string, int)>) {
    && |top| == (if |m| < 10 then |m| else 10)
    && (forall e :: e in top ==> e.0 in m && e.1 == m[e.0])
    && (forall i, j :: 0 <= i < j < |top| ==> top[i].1 >= top[j].1)
    && (forall i, j :: 0 <= i < j < |top| ==> top[i].0 != top[j].0)
    && (forall n, e :: n in m && e in top && (forall f :: f in top ==> f.0 != n) ==> m[n] <= e.1)
  }

  /** The same over a counter of real amounts. */
  ghost predicate TopTenR(m: map<string, real>, top: seq<(string, real)>) {
    && |top| == (if |m| < 10 then |m| else 10)
    && (forall e :: e in top ==> e.0 in m && e.1 == m[e.0])
    && (forall i, j :: 0 <= i < j < |top| ==> top[i].1 >= top[j].1)
    && (forall i, j :: 0 <= i < j < |top| ==> top[i].0 != top[j].0)
    && (forall n, e :: n in m && e in top && (forall f :: f in top ==> f.0 != n) ==> m[n] <= e.1)
  }

  lemma UnitsTop(ks: seq<string>, m: map<string, int>)
    requires Distinct(ks)
    requires forall k :: k in ks <==> k in m
    ensures TopTen(m, MostCommon(Entries(ks, m), UnitsScore, 10))
  {
    TopEntries(ks, m, UnitsScore, 10);
    UnitsTopOf(m, MostCommon(Entries(ks, m), UnitsScore, 10));
  }

  lemma UnitsTopOf(m: map<string, int>, top: seq<(string, int)>)
    requires |top| == (if |m| < 10 then |m| else 10)
    requires forall e :: e in top ==> e.0 in m && e.1 == m[e.0]
    requires forall i, j :: 0 <= i < j < |top| ==> top[i].0 != top[j].0
    requires forall k, e :: k in m && e in top && (forall f :: f in top ==> f.0 != k) ==> UnitsScore((k, m[k])) <= UnitsScore(e)
    requires Ranked(top, UnitsScore)
    ensures TopTen(m, top)
  {
    forall i, j | 0 <= i < j < |top|
      ensures top[i].1 >= top[j].1
    {
      assert UnitsScore(top[i]) >= UnitsScore(top[j]);
    }
    forall n, e | n in m && e in top && (forall f :: f in top ==> f.0 != n)
      ensures m[n] <= e.1
    {
      assert UnitsScore((n, m[n])) <= UnitsScore(e);
    }
  }

  lemma RevenueTop(ks: seq<string>, m: map<string, real>)
    requires Distinct(ks)
    requires forall k :: k in ks <==> k in m
    ensures TopTenR(m, MostCommon(Entries(ks, m), RevenueScore, 10))
  {
    TopEntries(ks, m, RevenueScore, 10);
    RevenueTopOf(m, MostCommon(Entries(ks, m), RevenueScore, 10));
  }

  lemma RevenueTopOf(m: map<string, real>, top: seq<(string, real)>)
    requires |top| == (if |m| < 10 then |m| else 10)
    requires forall e :: e in top ==> e.0 in m && e.1 == m[e.0]
    requires forall i, j :: 0 <= i < j < |top| ==> top[i].0 != top[j].0
    requires forall k, e :: k in m && e in top && (forall f :: f in top ==> f.0 != k) ==> RevenueScore((k, m[k])) <= RevenueScore(e)
    requires Ranked(top, RevenueScore)
    ensures TopTenR(m, top)
  {
    forall i, j | 0 <= i < j < |top|
      ensures top[i].1 >= top[j].1
    {
      assert RevenueScore(top[i]) >= RevenueScore(top[j]);
    }
  }

  /** The units list is the top ten of the units counter, and the revenue list that of the revenue counter. */
  lemma VentasMesTop(db: Db, year: int, month: int)
    ensures TopTen(ConteoMes(db, year, month), VentasMes(db, year, month).topProductos)
    ensures TopTenR(IngresosMes(db, year, month), VentasMes(db, year, month).topRevenue)
  {
    var etiquetas := FirstKeys(SalesOfMonth(db, year, month), ProductLabel(db));
    VentasMesTopIs(db, year, month);
    UnitsTop(etiquetas, ConteoMes(db, year, month));
    RevenueTop(etiquetas, IngresosMes(db, year, month));
  }

  /** `get_ventas_rango`: the sales from `desde` to `hasta`, both days included, with product name and cost. */
  function VentasRango(db: Db, desde: Date, hasta: Date): (r: seq<SaleLine>)
    ensures |r| == |Where(db.ventas, SaleBetween(desde, hasta))|
    ensures forall l :: l in r ==> l.venta in db.ventas && desde.AtOrBefore(l.venta.fecha) && l.venta.fecha.AtOrBefore(hasta)
    ensures forall i :: 0 <= i < |r| ==> r[i] == JoinProduct(db, Where(db.ventas, SaleBetween(desde, hasta))[i])
  {
    Join(db, Where(db.ventas, SaleBetween(desde, hasta)))
  }

  /**
   * For proper dates, the month (first day included, first day of the
   * next month excluded) is the inclusive range from the 1st to the 31st.
   */
  lemma MonthIsRange(db: Db, year: int, month: int)
    requires 1 <= month <= 12
    requires forall v :: v in db.ventas ==> WellFormedDate(v.fecha)
    ensures Where(db.ventas, SaleInMonth(year, month)) == Where(db.ventas, SaleBetween(Date(year, month, 1), Date(year, month, 31)))
  {
    WhereSame(db.ventas, SaleInMonth(year, month), SaleBetween(Date(year, month, 1), Date(year, month, 31)));
  }

  datatype WeekReport = WeekReport(
    ventas: seq<SaleLine>,
    total: real,
    unidades: int,
    costo: int,
    utilidad: real,
    fechaInicio: Date,
    fechaFin: Date)

  /**
   * `get_ventas_semana`: the sales from this week's Monday to today, with
   * their revenue, units, cost and profit. The Monday is a parameter.
   */
  function VentasSemana(db: Db, lunes: Date, hoy: Date): (r: WeekReport)
    ensures r.ventas == VentasRango(db, lunes, hoy)
    ensures r.fechaInicio == lunes && r.fechaFin == hoy
    ensures r.total == SumR(Where(db.ventas, SaleBetween(lunes, hoy)), SaleAmount)
    ensures r.unidades == Sum(Where(db.ventas, SaleBetween(lunes, hoy)), SaleUnits)
    ensures r.costo == Sum(Where(db.ventas, SaleBetween(lunes, hoy)), SaleCost(db))
    ensures r.utilidad == r.total - r.costo as real
  {
    var semana := Where(db.ventas, SaleBetween(lunes, hoy));
    var total, costo := SumR(semana, SaleAmount), Sum(semana, SaleCost(db));
    WeekReport(VentasRango(db, lunes, hoy), total, Sum(semana, SaleUnits), costo, total - costo as real, lunes, hoy)
  }

  datatype WeekTotals = WeekTotals(total: real, unidades: int)

  /**
   * `get_ventas_semana_anterior`: revenue and units from last week's Monday
   * to last Sunday, both included. The two days are parameters.
   */
  function SemanaAnterior(db: Db, lunesPasado: Date, domingoPasado: Date): (r: WeekTotals)
    ensures r.total == SumR(Where(db.ventas, SaleBetween(lunesPasado, domingoPasado)), SaleAmount)
    ensures r.unidades == Sum(Where(db.ventas, SaleBetween(lunesPasado, domingoPasado)), SaleUnits)
  {
    var semana := Where(db.ventas, SaleBetween(lunesPasado, domingoPasado));
    WeekTotals(SumR(semana, SaleAmount), Sum(semana, SaleUnits))
  }

  // ---------------------------------------------------------------------
  // The daily series of a month

  datatype DailySeries = DailySeries(totalDia: map<Date, real>, unidadesDia: map<Date, int>)

  /** `get_ventas_diarias_mes`: `GROUP BY fecha` over the month's sales, with the day's revenue and units. */
  function DiariasMes(db: Db, year: int, month: int): (r: DailySeries)
    ensures r.totalDia.Keys == r.unidadesDia.Keys
    ensures forall d :: d in r.totalDia <==> exists v :: v in db.ventas && v.fecha == d && SaleInMonth(year, month)(v)
  {
    var mes := Where(db.ventas, SaleInMonth(year, month));
    DailySeries(GroupSumR(mes, SaleDate, SaleAmount), GroupSum(mes, SaleDate, SaleUnits))
  }

  /** Each day of the series reports what the day report of that day reports. */
  lemma DiariasMesDia(db: Db, year: int, month: int, d: Date)
    requires d in DiariasMes(db, year, month).totalDia
    ensures DiariasMes(db, year, month).totalDia[d] == VentasDia(db, d).total
    ensures DiariasMes(db, year, month).unidadesDia[d] == VentasDia(db, d).unidades
  {
    var mes := Where(db.ventas, SaleInMonth(year, month));
    var w := Where(db.ventas, SaleOn(d));
    GroupSumRAt(mes, SaleDate, SaleAmount, d);
    GroupSumAt(mes, SaleDate, SaleUnits, d);
    WhereWhere(db.ventas, SaleInMonth(year, month), SaleOn(d));
    var v0 :| v0 in db.ventas && v0.fecha == d && SaleInMonth(year, month)(v0);
    WhereSame(db.ventas, And(SaleInMonth(year, month), SaleOn(d)), SaleOn(d));
  }

  /** The days of the series add up to the month's revenue and units. */
  lemma DiariasMesTotal(db: Db, year: int, month: int, dias: seq<Date>)
    requires forall i, j :: 0 <= i < j < |dias| ==> dias[i] != dias[j]
    requires forall d :: d in dias <==> d in Keys(Where(db.ventas, SaleInMonth(year, month)), SaleDate)
    ensures SumAtR(dias, DiariasMes(db, year, month).totalDia) == VentasMes(db, year, month).totalVentas
    ensures forall d :: d in dias ==> d in DiariasMes(db, year, month).unidadesDia
    ensures SumAt(dias, DiariasMes(db, year, month).unidadesDia) == VentasMes(db, year, month).totalUnidades
  {
    var mes := Where(db.ventas, SaleInMonth(year, month));
    GroupSumRTotal(mes, SaleDate, SaleAmount, dias);
    GroupSumTotal(mes, SaleDate, SaleUnits, dias);
  }

  // ---------------------------------------------------------------------
  // Break-even point

  function ActiveCost(): (p: FixedCost -> bool)
    ensures forall c {:trigger p(c)} :: p(c) <==> c.activo == 1
  {
    (c: FixedCost) => c.activo == 1
  }

  function MontoMensual(c: FixedCost): int { c.montoMensual }

  function InStockPriced(): (p: Product -> bool)
    ensures forall x {:trigger p(x)} :: p(x) <==> x.stock > 0 && x.precioVenta > 0
  {
    (x: Product) => x.stock > 0 && x.precioVenta > 0
  }

  function Priced(): (p: Product -> bool)
    ensures forall x {:trigger p(x)} :: p(x) <==> x.precioVenta > 0
  {
    (x: Product) => x.precioVenta > 0
  }

  /** `max(stock, 1)`: every product weighs at least one unit. */
  function Weight(p: Product): (w: int)
    ensures w >= 1 && w >= p.stock
    ensures p.stock >= 1 ==> w == p.stock
  {
    if p.stock > 1 then p.stock else 1
  }

  /** `(precio - costo) / precio`, or zero for an unpriced product. */
  function Margin(p: Product): (m: real)
    ensures p.precioVenta > 0 && 0 <= p.costo <= p.precioVenta ==> 0.0 <= m <= 1.0
    ensures p.precioVenta <= 0 ==> m == 0.0
  {
    if p.precioVenta > 0 then
      var pv, c := p.precioVenta as real, p.costo as real;
      assert 0.0 <= c <= pv ==> 0.0 <= (pv - c) / pv <= 1.0 by {
        if 0.0 <= c <= pv {
          assert (pv - c) / pv * pv == pv - c;
        }
      }
      (pv - c) / pv
    else 0.0
  }

  function WeightedMargin(p: Product): real { Margin(p) * Weight(p) as real }
  function WeightedPrice(p: Product): int { p.precioVenta * Weight(p) }

  /**
   * The products the averages are taken over: those in stock with a price,
   * or, when there are none, every product with a price.
   */
  function BreakEvenProducts(db: Db): (ps: seq<Product>)
    ensures forall p :: p in ps ==> p in db.productos && p.precioVenta > 0
    ensures (exists p :: p in db.productos && p.stock > 0 && p.precioVenta > 0) ==> ps == Where(db.productos, InStockPriced())
    ensures (forall p :: p in db.productos ==> !(p.stock > 0 && p.precioVenta > 0)) ==> ps == Where(db.productos, Priced())
    ensures ps == [] <==> forall p :: p in db.productos ==> p.precioVenta <= 0
  {
    var enStock := Where(db.productos, InStockPriced());
    if enStock != [] then
      assert enStock[0] in enStock;
      enStock
    else
      var conPrecio := Where(db.productos, Priced());
      assert conPrecio != [] ==> conPrecio[0] in conPrecio;
      assert forall p :: p in db.productos && p.precioVenta > 0 ==> p in conPrecio;
      conPrecio
  }

  /**
   * The loop of `calcular_punto_equilibrio`, over the chosen products: the
   * stock-weighted margins, the total weight and the stock-weighted prices.
   */
  method Ponderar(ps: seq<Product>) returns (totalMargen: real, totalStock: int, totalPrecio: int)
    ensures totalMargen == SumR(ps, WeightedMargin)
    ensures totalStock == Sum(ps, Weight)
    ensures totalPrecio == Sum(ps, WeightedPrice)
  {
    totalMargen, totalStock, totalPrecio := 0.0, 0, 0;
    for i := 0 to |ps|
      invariant totalMargen == SumR(ps[..i], WeightedMargin)
      invariant totalStock == Sum(ps[..i], Weight)
      invariant totalPrecio == Sum(ps[..i], WeightedPrice)
    {
      var p := ps[i];
      assert ps[..i + 1][..i] == ps[..i];
      var stock := if p.stock > 1 then p.stock else 1;
      var margen := if p.precioVenta > 0 then (p.precioVenta - p.costo) as real / p.precioVenta as real else 0.0;
      totalMargen := totalMargen + margen * stock as real;
      totalStock := totalStock + stock;
      totalPrecio := totalPrecio + p.precioVenta * stock;
    }
    assert ps[..|ps|] == ps;
  }

  datatype BreakEven = BreakEven(
    cf: int,
    margenProm: real,
    ticketProm: real,
    pePesos: real,
    peUnidades: real,
    peDiario: real,
    ventasAcumuladas: real,
    unidadesVendidas: int,
    progresoPct: real,
    diasRestantes: int,
    unidadesFaltantes: real)

  /** `avg` is `total` spread over a positive `weight`: `total / weight` when the weight is positive. */
  ghost predicate AverageOver(avg: real, total: real, weight: int) {
    weight > 0 ==> avg * weight as real == total
  }

  /** `a / b if b > 0 else d`, the guarded division the break-even figures use throughout. */
  function DivOr(a: real, b: real, d: real): (q: real)
    ensures b > 0.0 ==> q * b == a
    ensures b <= 0.0 ==> q == d
  {
    if b > 0.0 then a / b else d
  }

  /**
   * The arithmetic of `calcular_punto_equilibrio`, from the fixed costs, the
   * three weighted totals, the month's revenue and units so far and today's
   * day of the month: the break-even revenue is what, at the average margin,
   * covers the fixed costs (nothing when the margin is not positive); the
   * units are that revenue at the average ticket; the daily target is a
   * thirtieth of them; the progress is the revenue so far as a percentage
   * of the break-even revenue; the days left are at least one and the units
   * still missing never negative.
   */
  function BreakEvenFigures(cf: int, totalMargen: real, totalStock: int, totalPrecio: int,
                            ventas: real, unidades: int, dia: int): (r: BreakEven)
    ensures r.cf == cf && r.ventasAcumuladas == ventas && r.unidadesVendidas == unidades
    ensures AverageOver(r.margenProm, totalMargen, totalStock) && AverageOver(r.ticketProm, totalPrecio as real, totalStock)
    ensures totalStock <= 0 ==> r.margenProm == 0.5 && r.ticketProm == 100000.0
    ensures r.margenProm > 0.0 ==> r.pePesos * r.margenProm == cf as real
    ensures r.margenProm <= 0.0 ==> r.pePesos == 0.0
    ensures r.ticketProm > 0.0 ==> r.peUnidades * r.ticketProm == r.pePesos
    ensures r.ticketProm <= 0.0 ==> r.peUnidades == 0.0
    ensures r.peDiario * 30.0 == r.peUnidades
    ensures r.pePesos > 0.0 ==> r.progresoPct * r.pePesos == ventas * 100.0
    ensures r.pePesos <= 0.0 ==> r.progresoPct == 0.0
    ensures r.diasRestantes >= 1 && r.diasRestantes >= 30 - dia
    ensures r.diasRestantes == 1 || r.diasRestantes == 30 - dia
    ensures r.unidadesFaltantes >= 0.0 && r.unidadesFaltantes >= r.peUnidades - unidades as real
    ensures r.unidadesFaltantes == 0.0 || r.unidadesFaltantes == r.peUnidades - unidades as real
  {
    var ts := totalStock as real;
    var margen := DivOr(totalMargen, ts, 0.5);
    var ticket := DivOr(totalPrecio as real, ts, 100000.0);
    var pePesos := DivOr(cf as real, margen, 0.0);
    var peUnidades := DivOr(pePesos, ticket, 0.0);
    var q := DivOr(ventas, pePesos, 0.0);
    assert pePesos > 0.0 ==> q * 100.0 * pePesos == ventas * 100.0 by {
      if pePesos > 0.0 {
        assert q * pePesos == ventas;
      }
    }
    var faltan := peUnidades - unidades as real;
    BreakEven(cf, margen, ticket, pePesos, peUnidades, peUnidades / 30.0, ventas, unidades, q * 100.0,
              if 30 - dia > 1 then 30 - dia else 1, if faltan > 0.0 then faltan else 0.0)
  }

  /**
   * `calcular_punto_equilibrio` for the month of `hoy`: the active fixed
   * costs (zero when there are none), the products' weighted totals
   * (`Ponderar`) and the month's revenue and units so far.
   */
  function PuntoEquilibrio(db: Db, hoy: Date): (r: BreakEven)
    ensures r.cf == Sum(Where(db.costos, ActiveCost()), MontoMensual)
    ensures r.ventasAcumuladas == VentasMes(db, hoy.year, hoy.month).totalVentas
    ensures r.unidadesVendidas == VentasMes(db, hoy.year, hoy.month).totalUnidades
    ensures var ps := BreakEvenProducts(db);
            && AverageOver(r.margenProm, SumR(ps, WeightedMargin), Sum(ps, Weight))
            && AverageOver(r.ticketProm, Sum(ps, WeightedPrice) as real, Sum(ps, Weight))
    ensures Sum(BreakEvenProducts(db), Weight) <= 0 ==> r.margenProm == 0.5 && r.ticketProm == 100000.0
  {
    var ps := BreakEvenProducts(db);
    var mes := VentasMes(db, hoy.year, hoy.month);
    BreakEvenFigures(SumOrZero(Where(db.costos, ActiveCost()), MontoMensual),
                     SumR(ps, WeightedMargin), Sum(ps, Weight), Sum(ps, WeightedPrice),
                     mes.totalVentas, mes.totalUnidades, hoy.day)
  }

  lemma {:induction false} WeightAtLeastCount(ps: seq<Product>)
    ensures Sum(ps, Weight) >= |ps|
    decreases |ps|
  {
    if ps != [] {
      WeightAtLeastCount(ps[..|ps| - 1]);
    }
  }

  lemma {:induction false} WeightedMarginBounds(ps: seq<Product>)
    requires forall p :: p in ps ==> p.precioVenta > 0 && 0 <= p.costo <= p.precioVenta
    ensures 0.0 <= SumR(ps, WeightedMargin) <= Sum(ps, Weight) as real
    decreases |ps|
  {
    if ps != [] {
      var last := ps[|ps| - 1];
      assert last in ps;
      assert forall p :: p in ps[..|ps| - 1] ==> p in ps;
      WeightedMarginBounds(ps[..|ps| - 1]);
      WeightedMarginUnit(last);
      var init := ps[..|ps| - 1];
      assert SumR(ps, WeightedMargin) == SumR(init, WeightedMargin) + WeightedMargin(last);
      assert Sum(ps, Weight) as real == Sum(init, Weight) as real + Weight(last) as real;
    }
  }

  /** One product's weighted margin lies between zero and its weight. */
  lemma WeightedMarginUnit(p: Product)
    requires p.precioVenta > 0 && 0 <= p.costo <= p.precioVenta
    ensures 0.0 <= WeightedMargin(p) <= Weight(p) as real
  {
    var m, w := Margin(p), Weight(p) as real;
    assert 0.0 <= m <= 1.0 && 1.0 <= w;
    UnitTimes(m, w);
    assert WeightedMargin(p) == m * w;
  }

  /** A factor between zero and one scales a non-negative number to between zero and itself. */
  lemma UnitTimes(m: real, w: real)
    requires 0.0 <= m <= 1.0 && 0.0 <= w
    ensures 0.0 <= m * w <= w
  {
    var n := 1.0 - m;
    assert 0.0 <= n;
    assert 0.0 <= m * w;
    assert 0.0 <= n * w;
    assert w == m * w + n * w;
  }

  lemma {:induction false} WeightedPriceBound(ps: seq<Product>)
    requires forall p :: p in ps ==> p.precioVenta > 0
    ensures Sum(ps, WeightedPrice) >= Sum(ps, Weight)
    decreases |ps|
  {
    if ps != [] {
      var last := ps[|ps| - 1];
      assert last in ps;
      assert forall p :: p in ps[..|ps| - 1] ==> p in ps;
      WeightedPriceBound(ps[..|ps| - 1]);
      assert last.precioVenta * Weight(last) >= Weight(last);
    }
  }

  /**
   * With no priced product the averages fall back to one half and 100000,
   * so the break-even revenue is twice the fixed costs.
   */
  lemma PuntoEquilibrioSinProductos(db: Db, hoy: Date)
    requires forall p :: p in db.productos ==> p.precioVenta <= 0
    ensures PuntoEquilibrio(db, hoy).margenProm == 0.5
    ensures PuntoEquilibrio(db, hoy).ticketProm == 100000.0
    ensures PuntoEquilibrio(db, hoy).pePesos == 2.0 * PuntoEquilibrio(db, hoy).cf as real
  {
    assert BreakEvenProducts(db) == [];
    var mes := VentasMes(db, hoy.year, hoy.month);
    FiguresSinProductos(PuntoEquilibrio(db, hoy).cf, mes.totalVentas, mes.totalUnidades, hoy.day);
  }

  lemma FiguresSinProductos(cf: int, ventas: real, unidades: int, dia: int)
    ensures BreakEvenFigures(cf, 0.0, 0, 0, ventas, unidades, dia).margenProm == 0.5
    ensures BreakEvenFigures(cf, 0.0, 0, 0, ventas, unidades, dia).ticketProm == 100000.0
    ensures BreakEvenFigures(cf, 0.0, 0, 0, ventas, unidades, dia).pePesos == 2.0 * cf as real
  {
  }

  /**
   * The average ticket is at least one peso, since every chosen product has
   * a price (so the break-even units are always the break-even revenue at
   * that ticket).
   */
  lemma PuntoEquilibrioTicket(db: Db, hoy: Date)
    ensures PuntoEquilibrio(db, hoy).ticketProm >= 1.0
  {
    var ps := BreakEvenProducts(db);
    var mes := VentasMes(db, hoy.year, hoy.month);
    WeightAtLeastCount(ps);
    WeightedPriceBound(ps);
    FiguresTicket(PuntoEquilibrio(db, hoy).cf, SumR(ps, WeightedMargin), Sum(ps, Weight), Sum(ps, WeightedPrice),
                  mes.totalVentas, mes.totalUnidades, hoy.day);
  }

  /** When every priced product costs between zero and its price, the average margin lies between zero and one. */
  lemma PuntoEquilibrioMargen(db: Db, hoy: Date)
    requires forall p :: p in db.productos && p.precioVenta > 0 ==> 0 <= p.costo <= p.precioVenta
    ensures 0.0 <= PuntoEquilibrio(db, hoy).margenProm <= 1.0
  {
    var ps := BreakEvenProducts(db);
    var mes := VentasMes(db, hoy.year, hoy.month);
    WeightedMarginBounds(ps);
    FiguresMargen(PuntoEquilibrio(db, hoy).cf, SumR(ps, WeightedMargin), Sum(ps, Weight), Sum(ps, WeightedPrice),
                  mes.totalVentas, mes.totalUnidades, hoy.day);
  }

  lemma FiguresTicket(cf: int, tm: real, ts: int, tp: int, ventas: real, unidades: int, dia: int)
    requires ts >= 0 && tp >= ts
    ensures BreakEvenFigures(cf, tm, ts, tp, ventas, unidades, dia).ticketProm >= 1.0
  {
    if ts > 0 {
      TicketAtLeastOne(BreakEvenFigures(cf, tm, ts, tp, ventas, unidades, dia).ticketProm, tp, ts);
    }
  }

  lemma FiguresMargen(cf: int, tm: real, ts: int, tp: int, ventas: real, unidades: int, dia: int)
    requires 0.0 <= tm <= ts as real
    ensures 0.0 <= BreakEvenFigures(cf, tm, ts, tp, ventas, unidades, dia).margenProm <= 1.0
  {
    if ts > 0 {
      MeanInUnit(BreakEvenFigures(cf, tm, ts, tp, ventas, unidades, dia).margenProm, tm, ts);
    }
  }

  lemma TicketAtLeastOne(t: real, tp: int, ts: int)
    requires ts > 0 && tp >= ts && t * ts as real == tp as real
    ensures t >= 1.0
  {
    if t < 1.0 {
      assert t * ts as real < ts as real;
    }
  }

  lemma MeanInUnit(m: real, tm: real, ts: int)
    requires ts > 0 && 0.0 <= tm <= ts as real && m * ts as real == tm
    ensures 0.0 <= m <= 1.0
  {
    if m > 1.0 {
      assert m * ts as real > ts as real;
    }
  }
}
