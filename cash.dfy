/**
 * The daily cash drawer: opening a day with a starting amount, the expected
 * cash of a day (start, plus cash sales, minus cash expenses), closing with
 * the counted amount and its difference, and reopening a closed day.
 */
module Cash {
  import opened Common
  import opened Schema
  import opened Tables
  import opened Database

  function SaleDate(v: Sale): Date { v.fecha }
  function SaleMethod(v: Sale): string { v.metodoPago }
  function SaleAmount(v: Sale): real { v.total }
  function ExpenseAmount(g: Expense): int { g.monto }

  /** `WHERE fecha = ?` on the sales. */
  function SaleOn(fecha: Date): (p: Sale -> bool)
    ensures forall v {:trigger p(v)} :: p(v) <==> v.fecha == fecha
  {
    KeyIs(SaleDate, fecha)
  }

  /** `WHERE metodo_pago = ?` on the sales. */
  function PaidWith(metodo: string): (p: Sale -> bool)
    ensures forall v {:trigger p(v)} :: p(v) <==> v.metodoPago == metodo
  {
    KeyIs(SaleMethod, metodo)
  }

  /** `WHERE fecha = ? AND metodo_pago = 'Efectivo'` on the expenses; a NULL method never matches. */
  function CashExpenseOn(fecha: Date): (p: Expense -> bool)
    ensures forall g {:trigger p(g)} :: p(g) <==> g.fecha == fecha && g.metodoPago == Some(EFECTIVO)
  {
    (g: Expense) => g.fecha == fecha && g.metodoPago == Some(EFECTIVO)
  }

  // Row changes.

  function SetInicio(efectivoInicio: int): (f: CashDay -> CashDay)
    ensures forall c {:trigger f(c)} :: f(c) == c.(efectivoInicio := efectivoInicio)
  {
    (c: CashDay) => c.(efectivoInicio := efectivoInicio)
  }

  function CloseWith(efectivoReal: int, notas: Option<string>): (f: CashDay -> CashDay)
    ensures forall c {:trigger f(c)} :: f(c) == c.(efectivoCierreReal := Some(efectivoReal), cerrada := true, notas := notas)
  {
    (c: CashDay) => c.(efectivoCierreReal := Some(efectivoReal), cerrada := true, notas := notas)
  }

  function Reopen(): (f: CashDay -> CashDay)
    ensures forall c {:trigger f(c)} :: f(c) == c.(cerrada := false, efectivoCierreReal := None, notas := None)
  {
    (c: CashDay) => c.(cerrada := false, efectivoCierreReal := None, notas := None)
  }

  /**
   * `abrir_caja`: a day already on record gets its starting amount
   * overwritten (nothing else of the row changes); otherwise a new open row
   * is inserted.
   */
  function AbrirCaja(db: Db, fecha: Date, efectivoInicio: int := 0): (r: Db)
    ensures r == db.(caja := r.caja)
  {
    match FindCashDay(db, fecha)
    case Some(_) => db.(caja := Update(db.caja, CashDayIs(fecha), SetInicio(efectivoInicio)))
    case None => db.(caja := db.caja + [CashDay(fecha, efectivoInicio, None, false, None)])
  }

  /** What `get_estado_caja` reports for a day. */
  datatype CashState = CashState(
    fecha: Date,
    abierta: bool,
    efectivoInicio: int,
    totalesVentas: map<string, real>,
    ventasEfectivo: real,
    gastosEfectivo: int,
    efectivoEsperado: real,
    cerrada: bool,
    efectivoCierreReal: Option<int>)

  /**
   * `get_estado_caja`: the day's row (or zeros when the day was never
   * opened), the day's sales grouped by payment method, and the expected
   * cash: the start plus the cash sales minus the cash expenses.
   */
  function EstadoCaja(db: Db, fecha: Date): (r: CashState)
    ensures r.fecha == fecha
    ensures r.abierta <==> exists c :: c in db.caja && c.fecha == fecha
    ensures r.efectivoEsperado == r.efectivoInicio as real + r.ventasEfectivo - r.gastosEfectivo as real
    ensures !r.abierta ==> r.efectivoInicio == 0 && !r.cerrada && r.efectivoCierreReal.None?
    ensures FindCashDay(db, fecha).Some? ==>
              && r.efectivoInicio == FindCashDay(db, fecha).value.efectivoInicio
              && r.cerrada == FindCashDay(db, fecha).value.cerrada
              && r.efectivoCierreReal == FindCashDay(db, fecha).value.efectivoCierreReal
  {
    var dia := FindCashDay(db, fecha);
    var inicio := if dia.Some? then dia.value.efectivoInicio else 0;
    var totales := GroupSumR(Where(db.ventas, SaleOn(fecha)), SaleMethod, SaleAmount);
    var ventasEfectivo := if EFECTIVO in totales then totales[EFECTIVO] else 0.0;
    var gastosEfectivo := SumOrZero(Where(db.gastos, CashExpenseOn(fecha)), ExpenseAmount);
    CashState(fecha, dia.Some?, inicio, totales, ventasEfectivo, gastosEfectivo,
              inicio as real + ventasEfectivo - gastosEfectivo as real,
              dia.Some? && dia.value.cerrada,
              if dia.Some? then dia.value.efectivoCierreReal else None)
  }

  /**
   * The figures behind the expected cash: each method's total is the sum of
   * that day's sales paid that way, the cash sales are the sum of the day's
   * sales paid in cash (zero when there are none), and the cash expenses the
   * sum of the day's expenses paid in cash.
   */
  lemma EstadoCajaSums(db: Db, fecha: Date)
    ensures var r := EstadoCaja(db, fecha);
            && (forall m :: m in r.totalesVentas <==> exists v :: v in db.ventas && v.fecha == fecha && v.metodoPago == m)
            && (forall m :: m in r.totalesVentas ==>
                  r.totalesVentas[m] == SumR(Where(db.ventas, And(SaleOn(fecha), PaidWith(m))), SaleAmount))
            && r.ventasEfectivo == SumR(Where(db.ventas, And(SaleOn(fecha), PaidWith(EFECTIVO))), SaleAmount)
            && r.gastosEfectivo == Sum(Where(db.gastos, CashExpenseOn(fecha)), ExpenseAmount)
  {
    var r := EstadoCaja(db, fecha);
    var dia := Where(db.ventas, SaleOn(fecha));
    forall m
      ensures m in r.totalesVentas <==> exists v :: v in db.ventas && v.fecha == fecha && v.metodoPago == m
    {
      if m in r.totalesVentas {
        var v :| v in dia && SaleMethod(v) == m;
      }
      if exists v :: v in db.ventas && v.fecha == fecha && v.metodoPago == m {
        var v :| v in db.ventas && v.fecha == fecha && v.metodoPago == m;
        assert v in dia;
      }
    }
    forall m | m in r.totalesVentas
      ensures r.totalesVentas[m] == SumR(Where(db.ventas, And(SaleOn(fecha), PaidWith(m))), SaleAmount)
    {
      GroupSumRAt(dia, SaleMethod, SaleAmount, m);
      WhereWhere(db.ventas, SaleOn(fecha), PaidWith(m));
    }
    WhereWhere(db.ventas, SaleOn(fecha), PaidWith(EFECTIVO));
    if EFECTIVO !in r.totalesVentas {
      SumROfNone(dia, PaidWith(EFECTIVO), SaleAmount);
    }
  }

  /** The expected cash depends on the sales, the expenses and the day's row only. */
  lemma EstadoCajaSameFigures(d1: Db, d2: Db, fecha: Date)
    requires d1.ventas == d2.ventas && d1.gastos == d2.gastos
    ensures EstadoCaja(d1, fecha).ventasEfectivo == EstadoCaja(d2, fecha).ventasEfectivo
    ensures EstadoCaja(d1, fecha).gastosEfectivo == EstadoCaja(d2, fecha).gastosEfectivo
    ensures EstadoCaja(d1, fecha).totalesVentas == EstadoCaja(d2, fecha).totalesVentas
  {
  }

  /** `cerrar_caja`'s result: the expected cash, the counted cash and their difference. */
  datatype Cierre = Cierre(efectivoEsperado: real, efectivoReal: int, diferencia: real)

  /**
   * `cerrar_caja`: the difference is the counted cash minus the expected
   * cash; the day's row is marked closed with the counted amount and notes,
   * and a day never opened gets a closed row starting at zero.
   */
  function CerrarCaja(db: Db, fecha: Date, efectivoReal: int, notas: Option<string> := None): (r: (Db, Cierre))
    ensures r.1.efectivoEsperado == EstadoCaja(db, fecha).efectivoEsperado
    ensures r.1.efectivoReal == efectivoReal
    ensures r.1.diferencia == efectivoReal as real - r.1.efectivoEsperado
    ensures r.0 == db.(caja := r.0.caja)
  {
    var estado := EstadoCaja(db, fecha);
    var caja := match FindCashDay(db, fecha)
      case Some(_) => Update(db.caja, CashDayIs(fecha), CloseWith(efectivoReal, notas))
      case None => db.caja + [CashDay(fecha, estado.efectivoInicio, Some(efectivoReal), true, notas)];
    (db.(caja := caja), Cierre(estado.efectivoEsperado, efectivoReal, efectivoReal as real - estado.efectivoEsperado))
  }

  /** `reabrir_caja`: the day's close is cleared (flag, counted amount and notes); the start stays. */
  function ReabrirCaja(db: Db, fecha: Date): (r: Db)
    ensures r == db.(caja := r.caja)
    ensures |r.caja| == |db.caja|
  {
    db.(caja := Update(db.caja, CashDayIs(fecha), Reopen()))
  }

  /** The day's row after a change of that row that keeps its date. */
  lemma ChangedDay(db: Db, fecha: Date, f: CashDay -> CashDay, c: CashDay)
    requires UniqueBy(db.caja, CashKey)
    requires forall x :: f(x).fecha == x.fecha
    requires c in db.caja && c.fecha == fecha
    ensures FindCashDay(db.(caja := Update(db.caja, CashDayIs(fecha), f)), fecha) == Some(f(c))
  {
    FindCashDayUnique(db, c);
    UpdateFirst(db.caja, CashKey, CashDayIs(fecha), f, fecha);
  }

  /** The day's row after inserting a row for a day not on record. */
  lemma InsertedDay(db: Db, fecha: Date, c: CashDay)
    requires FindCashDay(db, fecha).None? && c.fecha == fecha
    ensures FindCashDay(db.(caja := db.caja + [c]), fecha) == Some(c)
  {
    FirstAppend(db.caja, c, CashDayIs(fecha));
  }

  /** Changing the rows of one day, keeping their date, leaves every other day's row as it was. */
  lemma OtherDaysUpdated(db: Db, fecha: Date, f: CashDay -> CashDay)
    requires forall x :: f(x).fecha == x.fecha
    ensures forall d :: d != fecha ==> FindCashDay(db.(caja := Update(db.caja, CashDayIs(fecha), f)), d) == FindCashDay(db, d)
  {
    forall d | d != fecha
      ensures FindCashDay(db.(caja := Update(db.caja, CashDayIs(fecha), f)), d) == FindCashDay(db, d)
    {
      UpdateFirst(db.caja, CashKey, CashDayIs(fecha), f, d);
    }
  }

  /** Inserting a row for one day leaves every other day's row as it was. */
  lemma OtherDaysAppended(db: Db, c: CashDay)
    ensures forall d :: d != c.fecha ==> FindCashDay(db.(caja := db.caja + [c]), d) == FindCashDay(db, d)
  {
    forall d | d != c.fecha
      ensures FindCashDay(db.(caja := db.caja + [c]), d) == FindCashDay(db, d)
    {
      FirstAppend(db.caja, c, CashDayIs(d));
    }
  }

  /**
   * The drawer row `abrir_caja` leaves: an existing day keeps its close and
   * notes and gets the new start; a new day is open, uncounted and without
   * notes. No other day changes.
   */
  lemma AbrirCajaRow(db: Db, fecha: Date, efectivoInicio: int)
    requires UniqueBy(db.caja, CashKey)
    ensures var r, o := AbrirCaja(db, fecha, efectivoInicio), FindCashDay(db, fecha);
            && FindCashDay(r, fecha) == Some(if o.Some? then o.value.(efectivoInicio := efectivoInicio)
                                             else CashDay(fecha, efectivoInicio, None, false, None))
            && forall d :: d != fecha ==> FindCashDay(r, d) == FindCashDay(db, d)
  {
    match FindCashDay(db, fecha)
    case Some(c) =>
      ChangedDay(db, fecha, SetInicio(efectivoInicio), c);
      OtherDaysUpdated(db, fecha, SetInicio(efectivoInicio));
    case None =>
      var c := CashDay(fecha, efectivoInicio, None, false, None);
      InsertedDay(db, fecha, c);
      OtherDaysAppended(db, c);
  }

  /**
   * The drawer row `cerrar_caja` leaves: closed, with the counted amount and
   * the notes given (which replace any earlier ones), keeping the start; a
   * day never opened gets such a row starting at zero. No other day changes.
   */
  lemma CerrarCajaRow(db: Db, fecha: Date, efectivoReal: int, notas: Option<string>)
    requires UniqueBy(db.caja, CashKey)
    ensures var r, o := CerrarCaja(db, fecha, efectivoReal, notas).0, FindCashDay(db, fecha);
            && FindCashDay(r, fecha)
               == Some(if o.Some? then o.value.(efectivoCierreReal := Some(efectivoReal), cerrada := true, notas := notas)
                       else CashDay(fecha, 0, Some(efectivoReal), true, notas))
            && forall d :: d != fecha ==> FindCashDay(r, d) == FindCashDay(db, d)
  {
    match FindCashDay(db, fecha)
    case Some(c) =>
      ChangedDay(db, fecha, CloseWith(efectivoReal, notas), c);
      OtherDaysUpdated(db, fecha, CloseWith(efectivoReal, notas));
    case None =>
      var c := CashDay(fecha, 0, Some(efectivoReal), true, notas);
      InsertedDay(db, fecha, c);
      OtherDaysAppended(db, c);
  }

  /**
   * The drawer row `reabrir_caja` leaves: the day's close, counted amount and
   * notes are cleared whatever they were, the start stays, and a day not on
   * record stays off it. No other day changes.
   */
  lemma ReabrirCajaRow(db: Db, fecha: Date)
    requires UniqueBy(db.caja, CashKey)
    ensures var r, o := ReabrirCaja(db, fecha), FindCashDay(db, fecha);
            && FindCashDay(r, fecha)
               == (if o.Some? then Some(o.value.(cerrada := false, efectivoCierreReal := None, notas := None)) else None)
            && forall d :: d != fecha ==> FindCashDay(r, d) == FindCashDay(db, d)
  {
    OtherDaysUpdated(db, fecha, Reopen());
    match FindCashDay(db, fecha)
    case Some(c) =>
      ChangedDay(db, fecha, Reopen(), c);
    case None =>
      UpdateNoMatch(db.caja, CashDayIs(fecha), Reopen());
      assert ReabrirCaja(db, fecha) == db;
  }

  /**
   * Opening sets the day's start to the amount given, overwriting any
   * earlier start rather than adding to it; whether the day is closed, and
   * its counted amount, stay as they were.
   */
  lemma AbrirCajaEstado(db: Db, fecha: Date, efectivoInicio: int)
    requires UniqueBy(db.caja, CashKey)
    ensures var e0, e := EstadoCaja(db, fecha), EstadoCaja(AbrirCaja(db, fecha, efectivoInicio), fecha);
            && e.abierta && e.efectivoInicio == efectivoInicio
            && e.cerrada == e0.cerrada && e.efectivoCierreReal == e0.efectivoCierreReal
            && e.efectivoEsperado == efectivoInicio as real + e0.ventasEfectivo - e0.gastosEfectivo as real
  {
    var r := AbrirCaja(db, fecha, efectivoInicio);
    match FindCashDay(db, fecha)
    case Some(c) =>
      ChangedDay(db, fecha, SetInicio(efectivoInicio), c);
    case None =>
      InsertedDay(db, fecha, CashDay(fecha, efectivoInicio, None, false, None));
  }

  /**
   * Closing leaves the day open and closed with the counted amount, the
   * same start (zero for a day never opened) and the same expected cash.
   */
  lemma CerrarCajaEstado(db: Db, fecha: Date, efectivoReal: int, notas: Option<string>)
    requires UniqueBy(db.caja, CashKey)
    ensures var e0, e := EstadoCaja(db, fecha), EstadoCaja(CerrarCaja(db, fecha, efectivoReal, notas).0, fecha);
            && e.abierta && e.cerrada && e.efectivoCierreReal == Some(efectivoReal)
            && e.efectivoInicio == e0.efectivoInicio
            && e.efectivoEsperado == e0.efectivoEsperado
  {
    match FindCashDay(db, fecha)
    case Some(c) =>
      ChangedDay(db, fecha, CloseWith(efectivoReal, notas), c);
    case None =>
      InsertedDay(db, fecha, CashDay(fecha, 0, Some(efectivoReal), true, notas));
  }

  /** Reopening clears the close and keeps the start, the expected cash and whether the day is on record. */
  lemma ReabrirCajaEstado(db: Db, fecha: Date)
    requires UniqueBy(db.caja, CashKey)
    ensures var e0, e := EstadoCaja(db, fecha), EstadoCaja(ReabrirCaja(db, fecha), fecha);
            && e.abierta == e0.abierta && !e.cerrada && e.efectivoCierreReal.None?
            && e.efectivoInicio == e0.efectivoInicio
            && e.efectivoEsperado == e0.efectivoEsperado
  {
    match FindCashDay(db, fecha)
    case Some(c) =>
      ChangedDay(db, fecha, Reopen(), c);
    case None =>
      UpdateNoMatch(db.caja, CashDayIs(fecha), Reopen());
  }

  /** Each drawer operation keeps the database valid. */
  lemma AbrirCajaValid(db: Db, fecha: Date, efectivoInicio: int)
    requires Valid(db)
    ensures Valid(AbrirCaja(db, fecha, efectivoInicio))
  {
    match FindCashDay(db, fecha)
    case Some(_) =>
      var f := SetInicio(efectivoInicio);
      UniqueUpdate(db.caja, CashKey, CashDayIs(fecha), f);
      AllUpdate(db.caja, CashDayIs(fecha), f, CashOk);
      ValidWithCash(db, Update(db.caja, CashDayIs(fecha), f));
    case None =>
      var c := CashDay(fecha, efectivoInicio, None, false, None);
      UniqueAppend(db.caja, CashKey, c);
      ValidWithCash(db, db.caja + [c]);
  }

  lemma CerrarCajaValid(db: Db, fecha: Date, efectivoReal: int, notas: Option<string>)
    requires Valid(db)
    ensures Valid(CerrarCaja(db, fecha, efectivoReal, notas).0)
  {
    match FindCashDay(db, fecha)
    case Some(_) =>
      var f := CloseWith(efectivoReal, notas);
      UniqueUpdate(db.caja, CashKey, CashDayIs(fecha), f);
      AllUpdate(db.caja, CashDayIs(fecha), f, CashOk);
      ValidWithCash(db, Update(db.caja, CashDayIs(fecha), f));
    case None =>
      var c := CashDay(fecha, 0, Some(efectivoReal), true, notas);
      UniqueAppend(db.caja, CashKey, c);
      ValidWithCash(db, db.caja + [c]);
  }

  lemma ReabrirCajaValid(db: Db, fecha: Date)
    requires Valid(db)
    ensures Valid(ReabrirCaja(db, fecha))
  {
    var f := Reopen();
    UniqueUpdate(db.caja, CashKey, CashDayIs(fecha), f);
    AllUpdate(db.caja, CashDayIs(fecha), f, CashOk);
    ValidWithCash(db, Update(db.caja, CashDayIs(fecha), f));
  }

  /** Two databases with the same sales and expenses and the same drawer row for a day report the same state for it. */
  lemma EstadoCajaSameDay(d1: Db, d2: Db, fecha: Date)
    requires d1.ventas == d2.ventas && d1.gastos == d2.gastos
    requires FindCashDay(d1, fecha).Some? == FindCashDay(d2, fecha).Some?
    requires FindCashDay(d1, fecha).Some? ==>
               var c1, c2 := FindCashDay(d1, fecha).value, FindCashDay(d2, fecha).value;
               c1.efectivoInicio == c2.efectivoInicio && c1.cerrada == c2.cerrada
               && c1.efectivoCierreReal == c2.efectivoCierreReal
    ensures EstadoCaja(d1, fecha) == EstadoCaja(d2, fecha)
  {
  }

  /** Reopening a day just closed gives back its row as it was open, except for the notes, which reopening clears. */
  lemma CerrarReabrirCajaRow(db: Db, fecha: Date, efectivoReal: int, notas: Option<string>, c: CashDay)
    requires UniqueBy(db.caja, CashKey)
    requires c in db.caja && c.fecha == fecha
    ensures FindCashDay(ReabrirCaja(CerrarCaja(db, fecha, efectivoReal, notas).0, fecha), fecha)
         == Some(c.(cerrada := false, efectivoCierreReal := None, notas := None))
  {
    var f := CloseWith(efectivoReal, notas);
    var closed := db.(caja := Update(db.caja, CashDayIs(fecha), f));
    FindCashDayUnique(db, c);
    assert CerrarCaja(db, fecha, efectivoReal, notas).0 == closed;
    UniqueUpdate(db.caja, CashKey, CashDayIs(fecha), f);
    ChangedDay(db, fecha, f, c);
    var fc := f(c);
    ChangedDay(closed, fecha, Reopen(), fc);
  }

  /** Reopening a day just closed reports the day exactly as it was while open and not yet counted. */
  lemma CerrarReabrirCaja(db: Db, fecha: Date, efectivoReal: int, notas: Option<string>, c: CashDay)
    requires UniqueBy(db.caja, CashKey)
    requires c in db.caja && c.fecha == fecha && !c.cerrada && c.efectivoCierreReal.None?
    ensures EstadoCaja(ReabrirCaja(CerrarCaja(db, fecha, efectivoReal, notas).0, fecha), fecha) == EstadoCaja(db, fecha)
  {
    var after := ReabrirCaja(CerrarCaja(db, fecha, efectivoReal, notas).0, fecha);
    CerrarReabrirCajaRow(db, fecha, efectivoReal, notas, c);
    FindCashDayUnique(db, c);
    EstadoCajaSameDay(after, db, fecha);
  }
}
