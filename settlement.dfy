/**
 * The partners' settlement: what each of the three partners paid, what a
 * third of all expenses is, and each partner's balance against that third,
 * with the expenses grouped by category overall and per partner.
 */
module Settlement {
  import opened Common
  import opened Schema
  import opened Tables
  import opened Database
  import opened Expenses

  function PaidBy(s: string): (p: Expense -> bool)
    ensures forall g {:trigger p(g)} :: p(g) <==> g.pagadoPor == s
  {
    (g: Expense) => g.pagadoPor == s
  }

  function PaidByPartner(): (p: Expense -> bool)
    ensures forall g {:trigger p(g)} :: p(g) <==> IsSocio(g.pagadoPor)
  {
    (g: Expense) => IsSocio(g.pagadoPor)
  }

  /** The accumulators of the settlement loop. */
  datatype Tally = Tally(
    aportes: map<string, int>,
    totalReal: int,
    porCategoria: map<string, int>,
    porSocioCategoria: map<string, map<string, int>>)

  /** Every partner has an entry in the per-partner accumulators. */
  predicate TallyOk(t: Tally) {
    && JP in t.aportes && KATHE in t.aportes && ANDRES in t.aportes
    && JP in t.porSocioCategoria && KATHE in t.porSocioCategoria && ANDRES in t.porSocioCategoria
  }

  /** The accumulators before the loop: zero for each partner, nothing grouped. */
  function StartTally(): (t: Tally)
    ensures TallyOk(t)
  {
    Tally(map s | s in SOCIOS :: 0, 0, map[], map s | s in SOCIOS :: map[])
  }

  /**
   * One turn of the loop: a partner's payment adds to that partner's
   * contribution and per-category figures; every payment, a partner's or
   * not, adds to the total and to its category.
   */
  function AddExpense(t: Tally, g: Expense): (r: Tally)
    requires TallyOk(t)
    ensures TallyOk(r)
  {
    var p, m, c := g.pagadoPor, g.monto, g.categoria;
    if IsSocio(p) then
      Tally(Bump(t.aportes, p, m), t.totalReal + m, Bump(t.porCategoria, c, m),
            t.porSocioCategoria[p := Bump(t.porSocioCategoria[p], c, m)])
    else
      Tally(t.aportes, t.totalReal + m, Bump(t.porCategoria, c, m), t.porSocioCategoria)
  }

  lemma AddExpenseAportes(t: Tally, g: Expense)
    requires TallyOk(t)
    ensures AddExpense(t, g).aportes == if IsSocio(g.pagadoPor) then Bump(t.aportes, g.pagadoPor, g.monto) else t.aportes
  {
  }

  lemma AddExpenseSocioCategorias(t: Tally, g: Expense, s: string)
    requires TallyOk(t) && s in SOCIOS
    ensures var r := AddExpense(t, g);
            s in r.porSocioCategoria
            && r.porSocioCategoria[s] == if g.pagadoPor == s then Bump(t.porSocioCategoria[s], g.categoria, g.monto) else t.porSocioCategoria[s]
  {
  }

  lemma AddExpenseCategorias(t: Tally, g: Expense)
    requires TallyOk(t)
    ensures AddExpense(t, g).porCategoria == Bump(t.porCategoria, g.categoria, g.monto)
  {
  }

  /** The accumulators after the loop has seen the rows `gs` in order. */
  function TallyOf(gs: seq<Expense>): (t: Tally)
    ensures TallyOk(t)
  {
    if gs == [] then StartTally() else AddExpense(TallyOf(gs[..|gs| - 1]), gs[|gs| - 1])
  }

  /** The loop's total is the sum of every row. */
  lemma {:induction false} TallyOfTotal(gs: seq<Expense>)
    ensures TallyOf(gs).totalReal == Sum(gs, Monto)
    decreases |gs|
  {
    if gs != [] {
      TallyOfTotal(gs[..|gs| - 1]);
    }
  }

  /** A partner's contribution is the sum of the rows that partner paid. */
  lemma {:induction false} TallyOfAportes(gs: seq<Expense>, s: string)
    requires s in SOCIOS
    ensures TallyOf(gs).aportes[s] == Sum(Where(gs, PaidBy(s)), Monto)
    decreases |gs|
  {
    if gs != [] {
      var init, last := gs[..|gs| - 1], gs[|gs| - 1];
      TallyOfAportes(init, s);
      assert TallyOf(gs) == AddExpense(TallyOf(init), last);
      AddExpenseAportes(TallyOf(init), last);
      var w := Where(init, PaidBy(s));
      if last.pagadoPor == s {
        assert Where(gs, PaidBy(s)) == w + [last];
        assert (w + [last])[..|w|] == w;
      } else {
        assert Where(gs, PaidBy(s)) == w + [] == w;
      }
    }
  }

  /** The loop's grouping by category is `GROUP BY categoria` with `SUM(monto)`. */
  lemma {:induction false} TallyOfCategorias(gs: seq<Expense>)
    ensures TallyOf(gs).porCategoria == GroupSum(gs, Categoria, Monto)
    decreases |gs|
  {
    if gs != [] {
      var init, last := gs[..|gs| - 1], gs[|gs| - 1];
      TallyOfCategorias(init);
      assert TallyOf(gs) == AddExpense(TallyOf(init), last);
      AddExpenseCategorias(TallyOf(init), last);
    }
  }

  /** Each partner's grouping by category is `GROUP BY categoria` over that partner's rows. */
  lemma {:induction false} TallyOfSocioCategorias(gs: seq<Expense>, s: string)
    requires s in SOCIOS
    ensures TallyOf(gs).porSocioCategoria[s] == GroupSum(Where(gs, PaidBy(s)), Categoria, Monto)
    decreases |gs|
  {
    if gs != [] {
      var init, last := gs[..|gs| - 1], gs[|gs| - 1];
      TallyOfSocioCategorias(init, s);
      assert TallyOf(gs) == AddExpense(TallyOf(init), last);
      AddExpenseSocioCategorias(TallyOf(init), last, s);
      var w := Where(init, PaidBy(s));
      if last.pagadoPor == s {
        assert Where(gs, PaidBy(s)) == w + [last];
        assert (w + [last])[..|w|] == w;
      } else {
        assert Where(gs, PaidBy(s)) == w + [] == w;
      }
    }
  }

  /** The partners' contributions and the payments by anyone else add up to the total. */
  lemma {:induction false} TallyOfPartners(gs: seq<Expense>)
    ensures var t := TallyOf(gs);
            t.aportes[JP] + t.aportes[KATHE] + t.aportes[ANDRES] + Sum(Where(gs, Not(PaidByPartner())), Monto)
              == t.totalReal
    decreases |gs|
  {
    if gs != [] {
      var init, last := gs[..|gs| - 1], gs[|gs| - 1];
      TallyOfPartners(init);
      WhereAppend(init, last, Not(PaidByPartner()));
      SumAppend(Where(init, Not(PaidByPartner())), if Not(PaidByPartner())(last) then [last] else [], Monto);
    }
  }

  /** One more row of the same table is one more turn of the loop. */
  lemma TallyOfPrefix(gs: seq<Expense>, i: int)
    requires 0 <= i < |gs|
    ensures TallyOf(gs[..i + 1]) == AddExpense(TallyOf(gs[..i]), gs[i])
  {
    assert gs[..i + 1][..i] == gs[..i];
  }

  /** One partner's line of the settlement. */
  datatype Saldo = Saldo(aportado: int, leCorresponde: real, saldo: real)

  datatype Liquidacion = Liquidacion(
    totalReal: int,
    aportes: map<string, int>,
    parteCadaUno: real,
    saldos: map<string, Saldo>,
    porCategoria: map<string, int>,
    porSocioCategoria: map<string, map<string, int>>,
    gastos: seq<Expense>)

  /** `calcular_liquidacion_socios`: a third of a positive total is each partner's share; each balance is contribution minus share. */
  function CalcularLiquidacion(db: Db): (r: Liquidacion)
    ensures r.parteCadaUno == if r.totalReal > 0 then r.totalReal as real / 3.0 else 0.0
    ensures forall s :: s in SOCIOS <==> s in r.saldos
    ensures forall s :: s in SOCIOS ==>
              s in r.aportes && r.saldos[s] == Saldo(r.aportes[s], r.parteCadaUno, r.aportes[s] as real - r.parteCadaUno)
  {
    var t := TallyOf(db.gastos);
    var parte := if t.totalReal > 0 then t.totalReal as real / 3.0 else 0.0;
    var saldos := map s | s in SOCIOS :: Saldo(t.aportes[s], parte, t.aportes[s] as real - parte);
    Liquidacion(t.totalReal, t.aportes, parte, saldos, t.porCategoria, t.porSocioCategoria, db.gastos)
  }

  /**
   * The settlement's figures: the total counts every row, payers outside
   * the partners included; each contribution counts that partner's rows
   * only; the categories partition the total.
   */
  lemma LiquidacionSums(db: Db, cats: seq<string>)
    requires forall i, j :: 0 <= i < j < |cats| ==> cats[i] != cats[j]
    requires forall c :: c in cats <==> exists g :: g in db.gastos && g.categoria == c
    ensures var r := CalcularLiquidacion(db);
            && r.totalReal == Sum(db.gastos, Monto)
            && (forall s :: s in SOCIOS ==> r.aportes[s] == Sum(Where(db.gastos, PaidBy(s)), Monto))
            && r.aportes[JP] + r.aportes[KATHE] + r.aportes[ANDRES] + Sum(Where(db.gastos, Not(PaidByPartner())), Monto)
                 == r.totalReal
            && (forall c :: c in cats ==> c in r.porCategoria)
            && SumAt(cats, r.porCategoria) == r.totalReal
  {
    TallyOfTotal(db.gastos);
    forall s | s in SOCIOS
      ensures CalcularLiquidacion(db).aportes[s] == Sum(Where(db.gastos, PaidBy(s)), Monto)
    {
      TallyOfAportes(db.gastos, s);
    }
    TallyOfCategorias(db.gastos);
    TallyOfPartners(db.gastos);
    forall c
      ensures c in cats <==> c in Keys(db.gastos, Categoria)
    {
      if c in Keys(db.gastos, Categoria) {
        var g :| g in db.gastos && Categoria(g) == c;
      }
    }
    GroupSumTotal(db.gastos, Categoria, Monto, cats);
  }

  /**
   * When every payment was made by a partner and the total is not
   * negative, the three balances cancel out: what some are owed is exactly
   * what the others owe.
   */
  lemma SaldosCancel(db: Db)
    requires forall g :: g in db.gastos ==> IsSocio(g.pagadoPor)
    requires Sum(db.gastos, Monto) >= 0
    ensures var r := CalcularLiquidacion(db);
            r.saldos[JP].saldo + r.saldos[KATHE].saldo + r.saldos[ANDRES].saldo == 0.0
  {
    var r := CalcularLiquidacion(db);
    TallyOfTotal(db.gastos);
    TallyOfPartners(db.gastos);
    SumOfNone(db.gastos, Not(PaidByPartner()), Monto);
    assert r.aportes[JP] + r.aportes[KATHE] + r.aportes[ANDRES] == r.totalReal;
  }

  /**
   * The settlement loop itself: one pass over the rows updating the
   * contributions, the total and the two category groupings.
   */
  method LiquidacionLoop(gastos: seq<Expense>) returns (aportes: map<string, int>, totalReal: int,
                                                        porCategoria: map<string, int>,
                                                        porSocioCategoria: map<string, map<string, int>>)
    ensures Tally(aportes, totalReal, porCategoria, porSocioCategoria) == TallyOf(gastos)
  {
    aportes := map s | s in SOCIOS :: 0;
    totalReal := 0;
    porCategoria := map[];
    porSocioCategoria := map s | s in SOCIOS :: map[];
    var i := 0;
    while i < |gastos|
      invariant 0 <= i <= |gastos|
      invariant Tally(aportes, totalReal, porCategoria, porSocioCategoria) == TallyOf(gastos[..i])
    {
      var g := gastos[i];
      TallyOfPrefix(gastos, i);
      var monto, pagadoPor, cat := g.monto, g.pagadoPor, g.categoria;
      if pagadoPor in SOCIOS {
        aportes := Bump(aportes, pagadoPor, monto);
        totalReal := totalReal + monto;
        porCategoria := Bump(porCategoria, cat, monto);
        porSocioCategoria := porSocioCategoria[pagadoPor := Bump(porSocioCategoria[pagadoPor], cat, monto)];
      } else {
        totalReal := totalReal + monto;
        porCategoria := Bump(porCategoria, cat, monto);
      }
      i := i + 1;
    }
    assert gastos[..i] == gastos;
  }
}
