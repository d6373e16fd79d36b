/**
 * The ledger's database as one value: the seven tables and, for every table
 * with an `INTEGER PRIMARY KEY AUTOINCREMENT` id, the next id SQLite will
 * hand out. The per-table row selectors and the integrity the schema and the
 * operations maintain together (primary keys, foreign keys, the credit and
 * cash-drawer bookkeeping) are defined here once.
 */
module Database {
  import opened Common
  import opened Schema
  import opened Tables

  datatype Db = Db(
    productos: seq<Product>,
    ventas: seq<Sale>,
    creditos: seq<Credit>,
    gastos: seq<Expense>,
    caja: seq<CashDay>,
    pedidos: seq<Order>,
    costos: seq<FixedCost>,
    nextVenta: int,
    nextCredito: int,
    nextGasto: int,
    nextPedido: int,
    nextCosto: int)

  /** A freshly created database: empty tables, every id sequence at 1. */
  const EMPTY: Db := Db([], [], [], [], [], [], [], 1, 1, 1, 1, 1)

  /** An operation that either completes with a new database and a value, or raises. */
  datatype Outcome<+T> = Done(db: Db, value: T) | Raised(error: Error)

  // Keys of the tables.

  function ProductKey(p: Product): string { p.sku }
  function SaleKey(v: Sale): int { v.id }
  function CreditKey(c: Credit): int { c.id }
  function ExpenseKey(g: Expense): int { g.id }
  function CashKey(c: CashDay): Date { c.fecha }
  function OrderKey(o: Order): int { o.id }
  function CostKey(c: FixedCost): int { c.id }
  function SaleSku(v: Sale): string { v.sku }
  function CreditSale(c: Credit): Option<int> { c.ventaId }

  // `WHERE key = ?` for each table.

  function SkuIs(sku: string): (p: Product -> bool)
    ensures forall x {:trigger p(x)} :: p(x) <==> x.sku == sku
  {
    KeyIs(ProductKey, sku)
  }

  function SaleIdIs(id: int): (p: Sale -> bool)
    ensures forall x {:trigger p(x)} :: p(x) <==> x.id == id
  {
    KeyIs(SaleKey, id)
  }

  function SaleSkuIs(sku: string): (p: Sale -> bool)
    ensures forall x {:trigger p(x)} :: p(x) <==> x.sku == sku
  {
    KeyIs(SaleSku, sku)
  }

  function CreditIdIs(id: int): (p: Credit -> bool)
    ensures forall x {:trigger p(x)} :: p(x) <==> x.id == id
  {
    KeyIs(CreditKey, id)
  }

  function CreditOfSale(ventaId: int): (p: Credit -> bool)
    ensures forall x {:trigger p(x)} :: p(x) <==> x.ventaId == Some(ventaId)
  {
    KeyIs(CreditSale, Some(ventaId))
  }

  function ExpenseIdIs(id: int): (p: Expense -> bool)
    ensures forall x {:trigger p(x)} :: p(x) <==> x.id == id
  {
    KeyIs(ExpenseKey, id)
  }

  function CashDayIs(fecha: Date): (p: CashDay -> bool)
    ensures forall x {:trigger p(x)} :: p(x) <==> x.fecha == fecha
  {
    KeyIs(CashKey, fecha)
  }

  function OrderIdIs(id: int): (p: Order -> bool)
    ensures forall x {:trigger p(x)} :: p(x) <==> x.id == id
  {
    KeyIs(OrderKey, id)
  }

  function CostIdIs(id: int): (p: FixedCost -> bool)
    ensures forall x {:trigger p(x)} :: p(x) <==> x.id == id
  {
    KeyIs(CostKey, id)
  }


  // `SELECT * ... WHERE key = ?` followed by `rows[0]` or `fetchone()`.

  function FindProduct(db: Db, sku: string): (r: Option<Product>)
    ensures r.None? <==> !HasProduct(db, sku)
    ensures r.Some? ==> r.value in db.productos && r.value.sku == sku
  {
    First(db.productos, SkuIs(sku))
  }
  function FindSale(db: Db, id: int): (r: Option<Sale>)
    ensures r.None? <==> !HasSale(db, id)
    ensures r.Some? ==> r.value in db.ventas && r.value.id == id
  {
    First(db.ventas, SaleIdIs(id))
  }
  function FindCredit(db: Db, id: int): (r: Option<Credit>)
    ensures r.None? <==> forall c :: c in db.creditos ==> c.id != id
    ensures r.Some? ==> r.value in db.creditos && r.value.id == id
  {
    First(db.creditos, CreditIdIs(id))
  }
  function FindExpense(db: Db, id: int): (r: Option<Expense>)
    ensures r.None? <==> forall g :: g in db.gastos ==> g.id != id
    ensures r.Some? ==> r.value in db.gastos && r.value.id == id
  {
    First(db.gastos, ExpenseIdIs(id))
  }
  function FindCashDay(db: Db, fecha: Date): (r: Option<CashDay>)
    ensures r.None? <==> forall c :: c in db.caja ==> c.fecha != fecha
    ensures r.Some? ==> r.value in db.caja && r.value.fecha == fecha
  {
    First(db.caja, CashDayIs(fecha))
  }
  function FindOrder(db: Db, id: int): (r: Option<Order>)
    ensures r.None? <==> forall o :: o in db.pedidos ==> o.id != id
    ensures r.Some? ==> r.value in db.pedidos && r.value.id == id
  {
    First(db.pedidos, OrderIdIs(id))
  }

  // Row-level facts the operations keep.

  /** The stored total of a sale is its price, quantity and discount combined. */
  predicate SaleOk(v: Sale) {
    v.total == SaleTotal(v.precioUnitario, v.cantidad, v.descuentoPct)
  }

  /**
   * A paid credit records its full amount as paid and the day it was paid;
   * an open credit has paid strictly less than it owes.
   */
  predicate CreditOk(c: Credit) {
    (c.pagado ==> c.montoPagado == Some(c.monto) && c.fechaPago.Some?)
    && (!c.pagado && c.montoPagado.Some? ==> c.montoPagado.value < c.monto)
  }

  /** A closed day has a counted closing amount. */
  predicate CashOk(c: CashDay) {
    c.cerrada ==> c.efectivoCierreReal.Some?
  }

  /** An order's total is its units times its unit cost. */
  predicate OrderOk(o: Order) {
    o.total == o.unidades * o.costoUnitario
  }

  predicate KeysValid(db: Db) {
    UniqueBy(db.productos, ProductKey)
    && UniqueBy(db.ventas, SaleKey)
    && UniqueBy(db.creditos, CreditKey)
    && UniqueBy(db.gastos, ExpenseKey)
    && UniqueBy(db.caja, CashKey)
    && UniqueBy(db.pedidos, OrderKey)
    && UniqueBy(db.costos, CostKey)
  }

  /** Every id already used lies below the next id the sequence will give. */
  predicate CountersValid(db: Db) {
    (forall v {:trigger v in db.ventas} :: v in db.ventas ==> v.id < db.nextVenta)
    && (forall c {:trigger c in db.creditos} :: c in db.creditos ==> c.id < db.nextCredito)
    && (forall g {:trigger g in db.gastos} :: g in db.gastos ==> g.id < db.nextGasto)
    && (forall o {:trigger o in db.pedidos} :: o in db.pedidos ==> o.id < db.nextPedido)
    && (forall c {:trigger c in db.costos} :: c in db.costos ==> c.id < db.nextCosto)
  }

  predicate HasProduct(db: Db, sku: string) {
    exists p {:trigger p in db.productos} :: p in db.productos && p.sku == sku
  }

  predicate HasSale(db: Db, id: int) {
    exists v {:trigger v in db.ventas} :: v in db.ventas && v.id == id
  }

  /** `ventas.sku REFERENCES productos(sku)` and `creditos_clientes.venta_id REFERENCES ventas(id)`. */
  predicate ForeignKeysValid(db: Db) {
    (forall v {:trigger v in db.ventas} :: v in db.ventas ==> HasProduct(db, v.sku))
    && (forall c {:trigger c in db.creditos} :: c in db.creditos && c.ventaId.Some? ==> HasSale(db, c.ventaId.value))
  }

  predicate RowsValid(db: Db) {
    (forall v {:trigger v in db.ventas} :: v in db.ventas ==> SaleOk(v))
    && (forall c {:trigger c in db.creditos} :: c in db.creditos ==> CreditOk(c))
    && (forall c {:trigger c in db.caja} :: c in db.caja ==> CashOk(c))
    && (forall o {:trigger o in db.pedidos} :: o in db.pedidos ==> OrderOk(o))
  }

  /** Everything the ledger's operations keep true of the database. */
  predicate Valid(db: Db) {
    KeysValid(db) && CountersValid(db) && ForeignKeysValid(db) && RowsValid(db)
  }

  /** The new database holds nothing and satisfies every invariant. */
  lemma EmptyValid()
    ensures Valid(EMPTY)
    ensures EMPTY.productos == [] && EMPTY.ventas == [] && EMPTY.nextVenta == 1
  {
  }

  /** Replacing the products table keeps the database valid when the skus stay unique and every sold sku is still there. */
  lemma ValidWithProducts(db: Db, ps: seq<Product>)
    requires Valid(db)
    requires UniqueBy(ps, ProductKey)
    requires forall v :: v in db.ventas ==> exists p :: p in ps && p.sku == v.sku
    ensures Valid(db.(productos := ps))
  {
    var r := db.(productos := ps);
    assert KeysValid(r);
    assert CountersValid(r);
    assert RowsValid(r);
    forall v | v in r.ventas
      ensures HasProduct(r, v.sku)
    {
    }
  }

  /** `INSERT INTO ventas` under the next id. */
  function InsertSale(db: Db, v: Sale): (r: Db)
    ensures r.ventas == db.ventas + [v] && r.nextVenta == db.nextVenta + 1
    ensures r == db.(ventas := r.ventas, nextVenta := r.nextVenta)
  {
    db.(ventas := db.ventas + [v], nextVenta := db.nextVenta + 1)
  }

  /** Inserting a sale under the next id, for a sku that exists, keeps the database valid. */
  lemma InsertSaleValid(db: Db, v: Sale)
    requires Valid(db)
    requires v.id == db.nextVenta && HasProduct(db, v.sku) && SaleOk(v)
    ensures Valid(InsertSale(db, v)) && HasSale(InsertSale(db, v), v.id)
  {
    var r := InsertSale(db, v);
    UniqueAppend(db.ventas, SaleKey, v);
    assert KeysValid(r);
    assert v in r.ventas;
    forall w | w in r.ventas
      ensures HasProduct(r, w.sku)
    {
      if w != v {
        assert w in db.ventas;
      }
    }
    forall c | c in r.creditos && c.ventaId.Some?
      ensures HasSale(r, c.ventaId.value)
    {
      var w :| w in db.ventas && w.id == c.ventaId.value;
      assert w in r.ventas;
    }
  }

  /** `INSERT INTO creditos_clientes` under the next id. */
  function InsertCredit(db: Db, c: Credit): (r: Db)
    ensures r.creditos == db.creditos + [c] && r.nextCredito == db.nextCredito + 1
    ensures r == db.(creditos := r.creditos, nextCredito := r.nextCredito)
  {
    db.(creditos := db.creditos + [c], nextCredito := db.nextCredito + 1)
  }

  /** Inserting a credit under the next id, for a sale that exists, keeps the database valid. */
  lemma InsertCreditValid(db: Db, c: Credit)
    requires Valid(db)
    requires c.id == db.nextCredito && CreditOk(c) && (c.ventaId.Some? ==> HasSale(db, c.ventaId.value))
    ensures Valid(InsertCredit(db, c))
  {
    UniqueAppend(db.creditos, CreditKey, c);
    ValidWithCredits(db, db.creditos + [c], db.nextCredito + 1);
  }

  /** Deleting credits keeps the database valid. */
  lemma DeleteCreditsValid(db: Db, p: Credit -> bool)
    requires Valid(db)
    ensures Valid(db.(creditos := Where(db.creditos, p)))
  {
    UniqueWhere(db.creditos, CreditKey, p);
  }

  /** Deleting a sale that no credit points at keeps the database valid. */
  lemma DeleteSaleValid(db: Db, id: int)
    requires Valid(db)
    requires forall c :: c in db.creditos ==> c.ventaId != Some(id)
    ensures Valid(db.(ventas := Where(db.ventas, Not(SaleIdIs(id)))))
  {
    var r := db.(ventas := Where(db.ventas, Not(SaleIdIs(id))));
    UniqueWhere(db.ventas, SaleKey, Not(SaleIdIs(id)));
    assert KeysValid(r);
    forall c | c in r.creditos && c.ventaId.Some?
      ensures HasSale(r, c.ventaId.value)
    {
      var w :| w in db.ventas && w.id == c.ventaId.value;
      assert w in r.ventas;
    }
  }

  /**
   * Replacing the sales table keeps the database valid when the ids stay
   * unique and below the sequence, every row keeps its total's formula and
   * an existing sku, and every sale a credit points at is still there.
   */
  lemma ValidWithSales(db: Db, vs: seq<Sale>)
    requires Valid(db)
    requires UniqueBy(vs, SaleKey)
    requires forall w :: w in vs ==> SaleOk(w) && HasProduct(db, w.sku) && w.id < db.nextVenta
    requires forall c :: c in db.creditos && c.ventaId.Some? ==> exists w :: w in vs && w.id == c.ventaId.value
    ensures Valid(db.(ventas := vs))
  {
    var r := db.(ventas := vs);
    assert KeysValid(r);
    assert CountersValid(r);
    assert RowsValid(r);
    forall v | v in r.ventas
      ensures HasProduct(r, v.sku)
    {
      var p :| p in db.productos && p.sku == v.sku;
      assert p in r.productos;
    }
    forall c | c in r.creditos && c.ventaId.Some?
      ensures HasSale(r, c.ventaId.value)
    {
      var w :| w in vs && w.id == c.ventaId.value;
      assert w in r.ventas;
    }
  }

  /** An update of the sales that keeps ids and skus, and the total's formula of the rows it touches, keeps the database valid. */
  lemma UpdateSalesValid(db: Db, p: Sale -> bool, f: Sale -> Sale)
    requires Valid(db)
    requires forall x :: f(x).id == x.id && f(x).sku == x.sku
    requires forall x :: x in db.ventas && p(x) ==> SaleOk(f(x))
    ensures Valid(db.(ventas := Update(db.ventas, p, f)))
  {
    var vs := Update(db.ventas, p, f);
    UniqueUpdate(db.ventas, SaleKey, p, f);
    AllUpdate(db.ventas, p, f, SaleOk);
    forall w | w in vs
      ensures HasProduct(db, w.sku) && w.id < db.nextVenta
    {
      UpdateMember(db.ventas, p, f, w);
    }
    forall c | c in db.creditos && c.ventaId.Some?
      ensures exists w :: w in vs && w.id == c.ventaId.value
    {
      UpdateKeepsKey(db.ventas, SaleKey, p, f, c.ventaId.value);
      assert exists x :: x in db.ventas && SaleKey(x) == c.ventaId.value;
    }
    ValidWithSales(db, vs);
  }

  /** Replacing the credits keeps the database valid when ids stay unique and below the sequence, rows stay consistent and point at sales on record. */
  lemma ValidWithCredits(db: Db, cs: seq<Credit>, n: int)
    requires Valid(db)
    requires UniqueBy(cs, CreditKey) && n >= db.nextCredito
    requires forall c :: c in cs ==> c.id < n && CreditOk(c) && (c.ventaId.Some? ==> HasSale(db, c.ventaId.value))
    ensures Valid(db.(creditos := cs, nextCredito := n))
  {
    var r := db.(creditos := cs, nextCredito := n);
    assert KeysValid(r);
    assert CountersValid(r);
    assert RowsValid(r);
  }

  lemma ValidWithExpenses(db: Db, gs: seq<Expense>, n: int)
    requires Valid(db)
    requires UniqueBy(gs, ExpenseKey) && n >= db.nextGasto
    requires forall g :: g in gs ==> g.id < n
    ensures Valid(db.(gastos := gs, nextGasto := n))
  {
    var r := db.(gastos := gs, nextGasto := n);
    assert KeysValid(r);
    assert CountersValid(r);
  }

  lemma ValidWithCash(db: Db, cs: seq<CashDay>)
    requires Valid(db)
    requires UniqueBy(cs, CashKey)
    requires forall c :: c in cs ==> CashOk(c)
    ensures Valid(db.(caja := cs))
  {
    var r := db.(caja := cs);
    assert KeysValid(r);
    assert RowsValid(r);
  }

  lemma ValidWithOrders(db: Db, os: seq<Order>, n: int)
    requires Valid(db)
    requires UniqueBy(os, OrderKey) && n >= db.nextPedido
    requires forall o :: o in os ==> o.id < n && OrderOk(o)
    ensures Valid(db.(pedidos := os, nextPedido := n))
  {
    var r := db.(pedidos := os, nextPedido := n);
    assert KeysValid(r);
    assert CountersValid(r);
    assert RowsValid(r);
  }

  lemma ValidWithCosts(db: Db, cs: seq<FixedCost>, n: int)
    requires Valid(db)
    requires UniqueBy(cs, CostKey) && n >= db.nextCosto
    requires forall c :: c in cs ==> c.id < n
    ensures Valid(db.(costos := cs, nextCosto := n))
  {
    var r := db.(costos := cs, nextCosto := n);
    assert KeysValid(r);
    assert CountersValid(r);
  }

  /** Under a unique sku, the product found is the only row with that sku. */
  lemma FindProductUnique(db: Db, p: Product)
    requires UniqueBy(db.productos, ProductKey)
    requires p in db.productos
    ensures FindProduct(db, p.sku) == Some(p)
  {
    FirstUnique(db.productos, ProductKey, p.sku, p);
  }

  lemma FindSaleUnique(db: Db, v: Sale)
    requires UniqueBy(db.ventas, SaleKey)
    requires v in db.ventas
    ensures FindSale(db, v.id) == Some(v)
  {
    FirstUnique(db.ventas, SaleKey, v.id, v);
  }

  lemma FindCreditUnique(db: Db, c: Credit)
    requires UniqueBy(db.creditos, CreditKey)
    requires c in db.creditos
    ensures FindCredit(db, c.id) == Some(c)
  {
    FirstUnique(db.creditos, CreditKey, c.id, c);
  }

  lemma FindCashDayUnique(db: Db, c: CashDay)
    requires UniqueBy(db.caja, CashKey)
    requires c in db.caja
    ensures FindCashDay(db, c.fecha) == Some(c)
  {
    FirstUnique(db.caja, CashKey, c.fecha, c);
  }

  lemma FindOrderUnique(db: Db, o: Order)
    requires UniqueBy(db.pedidos, OrderKey)
    requires o in db.pedidos
    ensures FindOrder(db, o.id) == Some(o)
  {
    FirstUnique(db.pedidos, OrderKey, o.id, o);
  }

  lemma FindExpenseUnique(db: Db, g: Expense)
    requires UniqueBy(db.gastos, ExpenseKey)
    requires g in db.gastos
    ensures FindExpense(db, g.id) == Some(g)
  {
    FirstUnique(db.gastos, ExpenseKey, g.id, g);
  }
}
