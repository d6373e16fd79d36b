/**
 * Expenses: one row per real payment by one payer. An expense is recorded
 * for one payer, split evenly over the three partners, or split by given
 * amounts; rows can be edited, deleted and listed by month or date range.
 */
module Expenses {
  import opened Common
  import opened Schema
  import opened Tables
  import opened Database

  function Monto(g: Expense): int { g.monto }
  function Categoria(g: Expense): string { g.categoria }

  /** One payer's share of an expense. */
  datatype Pago = Pago(socio: string, monto: int)

  /** The common columns of the rows one call records. */
  datatype ExpenseInfo = ExpenseInfo(
    fecha: Date,
    categoria: string,
    descripcion: Option<string>,
    metodoPago: Option<string>,
    esInversion: int,
    notas: Option<string>)

  function NewExpense(id: int, info: ExpenseInfo, p: Pago): (g: Expense)
    ensures g.id == id && g.pagadoPor == p.socio && g.monto == p.monto && g.fecha == info.fecha
  {
    Expense(id, info.fecha, info.categoria, p.monto, info.descripcion, info.metodoPago, p.socio, info.esInversion, info.notas)
  }

  /** `registrar_gasto`: one row under the next id, which is returned. */
  function RegistrarGasto(db: Db, info: ExpenseInfo, p: Pago): (r: (Db, int))
    ensures r.1 == db.nextGasto
    ensures r.0 == db.(gastos := db.gastos + [NewExpense(r.1, info, p)], nextGasto := db.nextGasto + 1)
  {
    var id := db.nextGasto;
    (db.(gastos := db.gastos + [NewExpense(id, info, p)], nextGasto := id + 1), id)
  }

  /** The rows a sequence of payments writes, under consecutive ids from `start`. */
  function RowsFor(start: int, info: ExpenseInfo, ps: seq<Pago>): (rows: seq<Expense>)
    ensures |rows| == |ps|
    ensures forall i :: 0 <= i < |ps| ==> rows[i] == NewExpense(start + i, info, ps[i])
  {
    seq(|ps|, i requires 0 <= i < |ps| => NewExpense(start + i, info, ps[i]))
  }

  function Range(start: int, n: nat): (ids: seq<int>)
    ensures |ids| == n && forall i :: 0 <= i < n ==> ids[i] == start + i
  {
    seq(n, i => start + i)
  }

  /**
   * `registrar_gasto` called once per payment, in order: one row per
   * payment under consecutive ids, returned in the same order.
   */
  function RegistrarGastos(db: Db, info: ExpenseInfo, ps: seq<Pago>): (r: (Db, seq<int>))
    ensures r.0 == db.(gastos := db.gastos + RowsFor(db.nextGasto, info, ps), nextGasto := db.nextGasto + |ps|)
    ensures r.1 == Range(db.nextGasto, |ps|)
  {
    if ps == [] then
      assert db.gastos + RowsFor(db.nextGasto, info, ps) == db.gastos;
      (db, [])
    else
      var before := RegistrarGastos(db, info, ps[..|ps| - 1]);
      var after := RegistrarGasto(before.0, info, ps[|ps| - 1]);
      assert RowsFor(db.nextGasto, info, ps) == RowsFor(db.nextGasto, info, ps[..|ps| - 1]) + [NewExpense(after.1, info, ps[|ps| - 1])];
      (after.0, before.1 + [after.1])
  }

  /** Python's `round(t / 3)` for an integer total: the nearest integer, never a tie. */
  function RoundThird(t: int): (q: int)
    ensures -1 <= 3 * q - t <= 1
  {
    (t + 1) / 3
  }

  /** The shares of `registrar_gasto_parejo`: each partner gets `round(total/3)`, the last one also the remainder. */
  function ParejoPagos(total: int): (ps: seq<Pago>)
    ensures |ps| == |SOCIOS|
  {
    var parte := RoundThird(total);
    var resto := total - parte * 3;
    seq(|SOCIOS|, i requires 0 <= i < |SOCIOS| => Pago(SOCIOS[i], parte + (if i == |SOCIOS| - 1 then resto else 0)))
  }

  /**
   * The even split writes exactly one row per partner, in the order JP,
   * KATHE, ANDRES; the first two pay the rounded third and ANDRES pays it
   * plus the remainder, so the three rows add up to the total exactly.
   */
  lemma ParejoSplit(total: int)
    ensures var ps := ParejoPagos(total);
            && |ps| == 3
            && ps[0] == Pago(JP, RoundThird(total))
            && ps[1] == Pago(KATHE, RoundThird(total))
            && ps[2] == Pago(ANDRES, RoundThird(total) + total - 3 * RoundThird(total))
            && ps[0].monto + ps[1].monto + ps[2].monto == total
            && -1 <= ps[2].monto - ps[0].monto <= 1
  {
  }

  function RegistrarGastoParejo(db: Db, info: ExpenseInfo, total: int): (r: (Db, seq<int>))
    ensures |r.1| == 3
  {
    RegistrarGastos(db, info, ParejoPagos(total))
  }

  /** The split's rows are the three partners' shares under the next three ids, and they add up to the total. */
  lemma RegistrarGastoParejoRows(db: Db, info: ExpenseInfo, total: int)
    ensures var r := RegistrarGastoParejo(db, info, total);
            var n := |db.gastos|;
            && |r.0.gastos| == n + 3
            && r.0.gastos[..n] == db.gastos
            && (forall i :: 0 <= i < 3 ==> r.0.gastos[n + i].pagadoPor == SOCIOS[i] && r.0.gastos[n + i].id == r.1[i])
            && r.0.gastos[n].monto + r.0.gastos[n + 1].monto + r.0.gastos[n + 2].monto == total
            && r.1 == [db.nextGasto, db.nextGasto + 1, db.nextGasto + 2]
  {
    ParejoSplit(total);
    var r := RegistrarGastoParejo(db, info, total);
    var rows := RowsFor(db.nextGasto, info, ParejoPagos(total));
    assert r.0.gastos == db.gastos + rows;
    assert (db.gastos + rows)[..|db.gastos|] == db.gastos;
  }

  function Positive(): (p: Pago -> bool)
    ensures forall x {:trigger p(x)} :: p(x) <==> x.monto > 0
  {
    (x: Pago) => x.monto > 0
  }

  /** `registrar_gasto_personalizado`: one row per entry with a positive amount, in the entries' order, and none for the others. */
  function RegistrarGastoPersonalizado(db: Db, info: ExpenseInfo, montos: seq<Pago>): (r: (Db, seq<int>))
    ensures var written := Where(montos, Positive());
            && r.0 == db.(gastos := db.gastos + RowsFor(db.nextGasto, info, written), nextGasto := db.nextGasto + |written|)
            && |r.1| == |written|
  {
    RegistrarGastos(db, info, Where(montos, Positive()))
  }

  /** Every row the custom split writes is an entry with a positive amount, and every such entry gets a row. */
  lemma RegistrarGastoPersonalizadoRows(db: Db, info: ExpenseInfo, montos: seq<Pago>)
    ensures var r := RegistrarGastoPersonalizado(db, info, montos);
            var added := r.0.gastos[|db.gastos|..];
            && (forall g :: g in added ==> g.monto > 0 && Pago(g.pagadoPor, g.monto) in montos)
            && (forall p :: p in montos && p.monto > 0 ==> exists g :: g in added && g.pagadoPor == p.socio && g.monto == p.monto)
  {
    var r := RegistrarGastoPersonalizado(db, info, montos);
    var written := Where(montos, Positive());
    var rows := RowsFor(db.nextGasto, info, written);
    assert r.0.gastos[|db.gastos|..] == rows;
    forall g | g in rows
      ensures g.monto > 0 && Pago(g.pagadoPor, g.monto) in montos
    {
      var i :| 0 <= i < |rows| && rows[i] == g;
      assert written[i] in written;
    }
    forall p | p in montos && p.monto > 0
      ensures exists g :: g in rows && g.pagadoPor == p.socio && g.monto == p.monto
    {
      assert p in written;
      var i :| 0 <= i < |written| && written[i] == p;
      assert rows[i] in rows;
    }
  }

  /** Recording one expense keeps the database valid. */
  lemma RegistrarGastoValid(db: Db, info: ExpenseInfo, p: Pago)
    requires Valid(db)
    ensures Valid(RegistrarGasto(db, info, p).0)
  {
    RegistrarGastosValid(db, info, [p]);
    assert [p][..0] == [];
    assert RegistrarGastos(db, info, [p]).0 == RegistrarGasto(db, info, p).0;
  }

  /** Recording expenses, one by one or split, keeps the database valid. */
  lemma RegistrarGastosValid(db: Db, info: ExpenseInfo, ps: seq<Pago>)
    requires Valid(db)
    ensures Valid(RegistrarGastos(db, info, ps).0)
  {
    var rows := RowsFor(db.nextGasto, info, ps);
    var gs := db.gastos + rows;
    var n := db.nextGasto + |ps|;
    forall i, j | 0 <= i < j < |gs|
      ensures ExpenseKey(gs[i]) != ExpenseKey(gs[j])
    {
      if j >= |db.gastos| && i < |db.gastos| {
        assert gs[i] in db.gastos;
      }
    }
    forall g | g in gs
      ensures g.id < n
    {
      if g !in db.gastos {
        var i :| 0 <= i < |rows| && rows[i] == g;
      }
    }
    ValidWithExpenses(db, gs, n);
  }

  /** The fields `editar_gasto` may change; `None` means "not given". */
  datatype ExpenseChanges = ExpenseChanges(
    fecha: Option<Date>,
    categoria: Option<string>,
    monto: Option<int>,
    descripcion: Option<string>,
    pagadoPor: Option<string>,
    metodoPago: Option<string>)
  {
    predicate None() {
      fecha.None? && categoria.None? && monto.None? && descripcion.None? && pagadoPor.None? && metodoPago.None?
    }
  }

  /** One edited row: every given field set, the others and the id kept. */
  predicate ExpenseEdited(e: ExpenseChanges, g: Expense, h: Expense) {
    && h.id == g.id && h.esInversion == g.esInversion && h.notas == g.notas
    && h.fecha == Pick(e.fecha, g.fecha)
    && h.categoria == Pick(e.categoria, g.categoria)
    && h.monto == Pick(e.monto, g.monto)
    && h.descripcion == PickOpt(e.descripcion, g.descripcion)
    && h.pagadoPor == Pick(e.pagadoPor, g.pagadoPor)
    && h.metodoPago == PickOpt(e.metodoPago, g.metodoPago)
  }

  function ApplyExpenseChanges(e: ExpenseChanges): (f: Expense -> Expense)
    ensures forall g {:trigger f(g)} :: ExpenseEdited(e, g, f(g))
  {
    (g: Expense) => g.(fecha := Pick(e.fecha, g.fecha), categoria := Pick(e.categoria, g.categoria),
                       monto := Pick(e.monto, g.monto), descripcion := PickOpt(e.descripcion, g.descripcion),
                       pagadoPor := Pick(e.pagadoPor, g.pagadoPor), metodoPago := PickOpt(e.metodoPago, g.metodoPago))
  }

  /** `editar_gasto`: sets the given fields of the row with that id; with none given it returns at once. */
  function EditarGasto(db: Db, id: int, e: ExpenseChanges): (r: Db)
    ensures e.None() ==> r == db
    ensures r == db.(gastos := r.gastos)
    ensures |r.gastos| == |db.gastos|
    ensures forall i :: 0 <= i < |db.gastos| ==>
              if db.gastos[i].id == id && !e.None() then ExpenseEdited(e, db.gastos[i], r.gastos[i])
              else r.gastos[i] == db.gastos[i]
  {
    if e.None() then db
    else db.(gastos := Update(db.gastos, ExpenseIdIs(id), ApplyExpenseChanges(e)))
  }

  /** `eliminar_gasto`. */
  function EliminarGasto(db: Db, id: int): (r: Db)
    ensures r == db.(gastos := r.gastos)
    ensures forall g :: g in r.gastos <==> g in db.gastos && g.id != id
  {
    db.(gastos := Where(db.gastos, Not(ExpenseIdIs(id))))
  }

  lemma EditarGastoValid(db: Db, id: int, e: ExpenseChanges)
    requires Valid(db)
    ensures Valid(EditarGasto(db, id, e))
  {
    if !e.None() {
      var f := ApplyExpenseChanges(e);
      UniqueUpdate(db.gastos, ExpenseKey, ExpenseIdIs(id), f);
      AllUpdate(db.gastos, ExpenseIdIs(id), f, KeyBelow(ExpenseKey, db.nextGasto));
      ValidWithExpenses(db, Update(db.gastos, ExpenseIdIs(id), f), db.nextGasto);
    }
  }

  lemma EliminarGastoValid(db: Db, id: int)
    requires Valid(db)
    ensures Valid(EliminarGasto(db, id))
  {
    UniqueWhere(db.gastos, ExpenseKey, Not(ExpenseIdIs(id)));
    ValidWithExpenses(db, Where(db.gastos, Not(ExpenseIdIs(id))), db.nextGasto);
  }

  /** `fecha >= start AND fecha < end`. */
  function InHalfOpen(start: Date, end: Date): (p: Expense -> bool)
    ensures forall g {:trigger p(g)} :: p(g) <==> start.AtOrBefore(g.fecha) && g.fecha.Before(end)
  {
    (g: Expense) => start.AtOrBefore(g.fecha) && g.fecha.Before(end)
  }

  /** `fecha >= start AND fecha <= end`. */
  function InClosed(start: Date, end: Date): (p: Expense -> bool)
    ensures forall g {:trigger p(g)} :: p(g) <==> start.AtOrBefore(g.fecha) && g.fecha.AtOrBefore(end)
  {
    (g: Expense) => start.AtOrBefore(g.fecha) && g.fecha.AtOrBefore(end)
  }

  datatype MonthExpenses = MonthExpenses(gastos: seq<Expense>, porCategoria: map<string, int>, total: int)

  /** `get_gastos_mes`: the month's rows, their sums per category and their total. */
  function GastosMes(db: Db, year: int, month: int): (r: MonthExpenses)
    ensures forall g :: g in r.gastos <==> g in db.gastos && Date(year, month, 1).AtOrBefore(g.fecha)
                                            && g.fecha.Before(NextMonthStart(year, month))
  {
    var gs := Where(db.gastos, InHalfOpen(Date(year, month, 1), NextMonthStart(year, month)));
    MonthExpenses(gs, GroupSum(gs, Categoria, Monto), Sum(gs, Monto))
  }

  /**
   * Each category's figure is the sum of the month's rows in it, and the
   * categories together add up to the month's total.
   */
  lemma GastosMesCategorias(db: Db, year: int, month: int, cats: seq<string>)
    requires forall i, j :: 0 <= i < j < |cats| ==> cats[i] != cats[j]
    requires forall c :: c in cats <==> exists g :: g in GastosMes(db, year, month).gastos && g.categoria == c
    ensures var r := GastosMes(db, year, month);
            && (forall c :: c in r.porCategoria ==> r.porCategoria[c] == Sum(Where(r.gastos, KeyIs(Categoria, c)), Monto))
            && (forall c :: c in cats ==> c in r.porCategoria)
            && SumAt(cats, r.porCategoria) == r.total
  {
    var r := GastosMes(db, year, month);
    forall c | c in r.porCategoria
      ensures r.porCategoria[c] == Sum(Where(r.gastos, KeyIs(Categoria, c)), Monto)
    {
      GroupSumAt(r.gastos, Categoria, Monto, c);
    }
    forall c
      ensures c in cats <==> c in Keys(r.gastos, Categoria)
    {
      if c in Keys(r.gastos, Categoria) {
        var g :| g in r.gastos && Categoria(g) == c;
      }
    }
    GroupSumTotal(r.gastos, Categoria, Monto, cats);
  }

  /** `get_gastos_rango`: the rows dated from `start` to `end`, both included. */
  function GastosRango(db: Db, start: Date, end: Date): (r: seq<Expense>)
    ensures forall g :: g in r <==> g in db.gastos && start.AtOrBefore(g.fecha) && g.fecha.AtOrBefore(end)
  {
    Where(db.gastos, InClosed(start, end))
  }
}
