/**
 * Supplier orders: an order is registered as `Pendiente`, paid (which
 * records the matching merchandise expense and makes it `Pagado`) and
 * received (which adds the delivered units to stock and makes it
 * `Completo`); orders can also be edited, deleted and listed.
 */
module Orders {
  import opened Common
  import opened Schema
  import opened Tables
  import opened Database
  import opened Catalog
  import opened Expenses

  function OrderTotal(o: Order): int { o.total }

  function EstadoIs(e: string): (p: Order -> bool)
    ensures forall o {:trigger p(o)} :: p(o) <==> o.estado == e
  {
    (o: Order) => o.estado == e
  }

  /** `get_pedidos_pendientes`: every order that is not yet `Completo`, paid ones included. */
  function PedidosPendientes(db: Db): (r: seq<Order>)
    ensures forall o :: o in r <==> o in db.pedidos && o.estado != COMPLETO
  {
    Where(db.pedidos, Not(EstadoIs(COMPLETO)))
  }

  /** `get_total_deuda_proveedores`: what is owed for the orders still `Pendiente`, 0 when there are none. */
  function TotalDeuda(db: Db): (r: int)
    ensures r == Sum(Where(db.pedidos, EstadoIs(PENDIENTE)), OrderTotal)
  {
    SumOrZero(Where(db.pedidos, EstadoIs(PENDIENTE)), OrderTotal)
  }

  /** The row `registrar_pedido` inserts: its total is units times unit cost and it starts `Pendiente`. */
  function NewOrder(id: int, fechaPedido: Date, proveedor: string, descripcion: Option<string>,
                    unidades: int, costoUnitario: int, pagadoPor: Option<string>,
                    fechaEntregaEst: Option<Date>, notas: Option<string>): (o: Order)
    ensures o.id == id && o.estado == PENDIENTE && OrderOk(o)
    ensures o.unidades == unidades && o.costoUnitario == costoUnitario && o.proveedor == proveedor
  {
    Order(id, fechaPedido, proveedor, descripcion, unidades, costoUnitario, unidades * costoUnitario,
          PENDIENTE, pagadoPor, fechaEntregaEst, notas)
  }

  /** `registrar_pedido`: one new row under the next id, which is returned. */
  function RegistrarPedido(db: Db, fechaPedido: Date, proveedor: string, descripcion: Option<string>,
                           unidades: int, costoUnitario: int, pagadoPor: Option<string> := None,
                           fechaEntregaEst: Option<Date> := None, notas: Option<string> := None): (r: (Db, int))
    ensures r.1 == db.nextPedido
    ensures r.0 == db.(pedidos := db.pedidos + [NewOrder(r.1, fechaPedido, proveedor, descripcion, unidades,
                                                        costoUnitario, pagadoPor, fechaEntregaEst, notas)],
                       nextPedido := db.nextPedido + 1)
  {
    var id := db.nextPedido;
    var o := NewOrder(id, fechaPedido, proveedor, descripcion, unidades, costoUnitario, pagadoPor, fechaEntregaEst, notas);
    (db.(pedidos := db.pedidos + [o], nextPedido := id + 1), id)
  }

  // Row changes.

  function MarkOrderPaid(pagadoPor: string): (f: Order -> Order)
    ensures forall o {:trigger f(o)} :: f(o) == o.(estado := PAGADO, pagadoPor := Some(pagadoPor))
  {
    (o: Order) => o.(estado := PAGADO, pagadoPor := Some(pagadoPor))
  }

  function MarkOrderComplete(): (f: Order -> Order)
    ensures forall o {:trigger f(o)} :: f(o) == o.(estado := COMPLETO)
  {
    (o: Order) => o.(estado := COMPLETO)
  }

  /** The expense `pagar_pedido` records for an order: merchandise, not an investment, described by the order. */
  function OrderExpenseInfo(o: Order, fechaPago: Date, metodoPago: Option<string>): (info: ExpenseInfo)
    ensures info.fecha == fechaPago && info.categoria == MERCANCIA && info.metodoPago == metodoPago
    ensures info.esInversion == 0 && info.descripcion == Some(OrderPaymentDescription(o))
  {
    ExpenseInfo(fechaPago, MERCANCIA, Some(OrderPaymentDescription(o)), metodoPago, 0, None)
  }

  /**
   * `pagar_pedido`: only a `Pendiente` order can be paid. Its total is
   * recorded as one expense by the payer, and then the order becomes
   * `Pagado` with that payer. The order as read before the change is returned.
   */
  function PagarPedido(db: Db, id: int, pagadoPor: string, fechaPago: Date,
                       metodoPago: Option<string> := Some(TRANSFERENCIA)): (r: Outcome<Order>)
    ensures FindOrder(db, id).None? ==> r == Raised(NotFound)
    ensures FindOrder(db, id).Some? && FindOrder(db, id).value.estado != PENDIENTE ==>
              r == Raised(WrongState(FindOrder(db, id).value.estado))
    ensures FindOrder(db, id).Some? && FindOrder(db, id).value.estado == PENDIENTE ==> r.Done?
    ensures r.Done? ==> FindOrder(db, id) == Some(r.value) && r.value.estado == PENDIENTE
  {
    match FindOrder(db, id)
    case None => Raised(NotFound)
    case Some(o) =>
      if o.estado != PENDIENTE then Raised(WrongState(o.estado))
      else
        var paid := RegistrarGasto(db, OrderExpenseInfo(o, fechaPago, metodoPago), Pago(pagadoPor, o.total)).0;
        Done(paid.(pedidos := Update(paid.pedidos, OrderIdIs(id), MarkOrderPaid(pagadoPor))), o)
  }

  /** One `(sku, cantidad)` pair of a delivery. */
  datatype Item = Item(sku: string, cantidad: int)

  /** `agregar_stock` for each `(sku, cantidad)` pair in turn. */
  function AgregarStocks(db: Db, items: seq<Item>): (r: Db)
    ensures r == db.(productos := r.productos)
    ensures |r.productos| == |db.productos|
  {
    if items == [] then db
    else
      var last := items[|items| - 1];
      AgregarStock(AgregarStocks(db, items[..|items| - 1]), last.sku, last.cantidad)
  }

  /**
   * `recibir_mercancia`: an order still `Pendiente` (not paid yet) is
   * refused; any other, a `Completo` one included, gets its units added to
   * stock and becomes `Completo`.
   */
  function RecibirMercancia(db: Db, id: int, items: seq<Item>): (r: Outcome<Order>)
    ensures FindOrder(db, id).None? ==> r == Raised(NotFound)
    ensures FindOrder(db, id).Some? && FindOrder(db, id).value.estado == PENDIENTE ==> r == Raised(WrongState(PENDIENTE))
    ensures FindOrder(db, id).Some? && FindOrder(db, id).value.estado != PENDIENTE ==> r.Done?
    ensures r.Done? ==> FindOrder(db, id) == Some(r.value) && r.value.estado != PENDIENTE
  {
    match FindOrder(db, id)
    case None => Raised(NotFound)
    case Some(o) =>
      if o.estado == PENDIENTE then Raised(WrongState(o.estado))
      else
        var stocked := AgregarStocks(db, items);
        Done(stocked.(pedidos := Update(stocked.pedidos, OrderIdIs(id), MarkOrderComplete())), o)
  }

  /** The keyword arguments of `editar_pedido`; `None` leaves a column as it is. */
  datatype OrderChanges = OrderChanges(
    proveedor: Option<string>,
    descripcion: Option<string>,
    unidades: Option<int>,
    costoUnitario: Option<int>,
    estado: Option<string>,
    notas: Option<string>)
  {
    predicate None() {
      proveedor.None? && descripcion.None? && unidades.None? && costoUnitario.None? && estado.None? && notas.None?
    }
  }

  /**
   * The recomputed total: when units or unit cost are given and the order
   * exists, the product of the new value of each, the stored one standing in
   * for the one not given.
   */
  function NewTotal(db: Db, id: int, e: OrderChanges): (t: Option<int>)
    ensures t.Some? <==> (e.unidades.Some? || e.costoUnitario.Some?) && FindOrder(db, id).Some?
    ensures t.Some? ==> var o := FindOrder(db, id).value;
                        t.value == Pick(e.unidades, o.unidades) * Pick(e.costoUnitario, o.costoUnitario)
  {
    if e.unidades.None? && e.costoUnitario.None? then None
    else
      match FindOrder(db, id)
      case None => None
      case Some(o) => Some(Pick(e.unidades, o.unidades) * Pick(e.costoUnitario, o.costoUnitario))
  }

  function ApplyOrderChanges(e: OrderChanges, total: Option<int>): (f: Order -> Order)
    ensures forall o {:trigger f(o)} :: f(o) == o.(proveedor := Pick(e.proveedor, o.proveedor),
                                                   descripcion := PickOpt(e.descripcion, o.descripcion),
                                                   unidades := Pick(e.unidades, o.unidades),
                                                   costoUnitario := Pick(e.costoUnitario, o.costoUnitario),
                                                   estado := Pick(e.estado, o.estado),
                                                   notas := PickOpt(e.notas, o.notas),
                                                   total := Pick(total, o.total))
  {
    (o: Order) => o.(proveedor := Pick(e.proveedor, o.proveedor), descripcion := PickOpt(e.descripcion, o.descripcion),
                     unidades := Pick(e.unidades, o.unidades), costoUnitario := Pick(e.costoUnitario, o.costoUnitario),
                     estado := Pick(e.estado, o.estado), notas := PickOpt(e.notas, o.notas),
                     total := Pick(total, o.total))
  }

  /** `editar_pedido`: sets the columns given, the total with them; with nothing given it returns at once. */
  function EditarPedido(db: Db, id: int, e: OrderChanges): (r: Db)
    ensures e.None() ==> r == db
    ensures r == db.(pedidos := r.pedidos)
    ensures |r.pedidos| == |db.pedidos|
    ensures forall i :: 0 <= i < |db.pedidos| ==>
              r.pedidos[i].id == db.pedidos[i].id && (db.pedidos[i].id != id ==> r.pedidos[i] == db.pedidos[i])
  {
    if e.None() then db
    else db.(pedidos := Update(db.pedidos, OrderIdIs(id), ApplyOrderChanges(e, NewTotal(db, id, e))))
  }

  /** `eliminar_pedido`: deletes the row with that id, if any. */
  function EliminarPedido(db: Db, id: int): (r: Db)
    ensures r == db.(pedidos := r.pedidos)
    ensures forall o :: o in r.pedidos <==> o in db.pedidos && o.id != id
  {
    db.(pedidos := Where(db.pedidos, Not(OrderIdIs(id))))
  }

  // Lemmas.

  /** The order after a change of its row that keeps its id. */
  lemma ChangedOrder(db: Db, id: int, f: Order -> Order, o: Order)
    requires UniqueBy(db.pedidos, OrderKey)
    requires forall x :: f(x).id == x.id
    requires o in db.pedidos && o.id == id
    ensures FindOrder(db.(pedidos := Update(db.pedidos, OrderIdIs(id), f)), id) == Some(f(o))
  {
    FindOrderUnique(db, o);
    UpdateFirst(db.pedidos, OrderKey, OrderIdIs(id), f, id);
  }

  /** A change of the rows with one id that keeps ids leaves every other id's order as it was. */
  lemma OtherOrdersUpdated(db: Db, id: int, f: Order -> Order)
    requires forall x :: f(x).id == x.id
    ensures forall k :: k != id ==> FindOrder(db.(pedidos := Update(db.pedidos, OrderIdIs(id), f)), k) == FindOrder(db, k)
  {
    forall k | k != id
      ensures FindOrder(db.(pedidos := Update(db.pedidos, OrderIdIs(id), f)), k) == FindOrder(db, k)
    {
      UpdateFirst(db.pedidos, OrderKey, OrderIdIs(id), f, k);
    }
  }

  /** A change of the rows with one id that keeps ids and gives those rows a consistent total keeps the database valid. */
  lemma UpdateOrdersValid(db: Db, id: int, f: Order -> Order)
    requires Valid(db)
    requires forall x :: f(x).id == x.id
    requires forall x :: x in db.pedidos && x.id == id ==> OrderOk(f(x))
    ensures Valid(db.(pedidos := Update(db.pedidos, OrderIdIs(id), f)))
  {
    var os := Update(db.pedidos, OrderIdIs(id), f);
    UniqueUpdate(db.pedidos, OrderKey, OrderIdIs(id), f);
    forall x | x in os
      ensures x.id < db.nextPedido && OrderOk(x)
    {
      UpdateMember(db.pedidos, OrderIdIs(id), f, x);
    }
    ValidWithOrders(db, os, db.nextPedido);
  }

  lemma RegistrarPedidoValid(db: Db, fechaPedido: Date, proveedor: string, descripcion: Option<string>,
                             unidades: int, costoUnitario: int, pagadoPor: Option<string>,
                             fechaEntregaEst: Option<Date>, notas: Option<string>)
    requires Valid(db)
    ensures Valid(RegistrarPedido(db, fechaPedido, proveedor, descripcion, unidades, costoUnitario,
                                  pagadoPor, fechaEntregaEst, notas).0)
  {
    var o := NewOrder(db.nextPedido, fechaPedido, proveedor, descripcion, unidades, costoUnitario,
                      pagadoPor, fechaEntregaEst, notas);
    UniqueAppend(db.pedidos, OrderKey, o);
    ValidWithOrders(db, db.pedidos + [o], db.nextPedido + 1);
  }

  /** A new order is pending: the debt grows by exactly its total and it is listed among the pending orders. */
  lemma RegistrarPedidoDeuda(db: Db, fechaPedido: Date, proveedor: string, descripcion: Option<string>,
                             unidades: int, costoUnitario: int, pagadoPor: Option<string>,
                             fechaEntregaEst: Option<Date>, notas: Option<string>)
    ensures var r := RegistrarPedido(db, fechaPedido, proveedor, descripcion, unidades, costoUnitario,
                                     pagadoPor, fechaEntregaEst, notas);
            && TotalDeuda(r.0) == TotalDeuda(db) + unidades * costoUnitario
            && exists o :: o in PedidosPendientes(r.0) && o.id == r.1
  {
    var r := RegistrarPedido(db, fechaPedido, proveedor, descripcion, unidades, costoUnitario,
                             pagadoPor, fechaEntregaEst, notas);
    var o := NewOrder(db.nextPedido, fechaPedido, proveedor, descripcion, unidades, costoUnitario,
                      pagadoPor, fechaEntregaEst, notas);
    WhereAppend(db.pedidos, o, EstadoIs(PENDIENTE));
    SumAppend(Where(db.pedidos, EstadoIs(PENDIENTE)), [o], OrderTotal);
    assert o in r.0.pedidos;
    assert o in PedidosPendientes(r.0);
  }

  /**
   * Paying an order records one expense, in the merchandise category, for
   * the order's total and by the payer, and marks the order `Pagado` with
   * that payer; nothing else changes but the expense sequence.
   */
  lemma PagarPedidoRows(db: Db, id: int, pagadoPor: string, fechaPago: Date, metodoPago: Option<string>)
    requires UniqueBy(db.pedidos, OrderKey)
    requires PagarPedido(db, id, pagadoPor, fechaPago, metodoPago).Done?
    ensures var r := PagarPedido(db, id, pagadoPor, fechaPago, metodoPago);
            var o := r.value;
            var g := r.db.gastos[|db.gastos|];
            && |r.db.gastos| == |db.gastos| + 1 && r.db.gastos[..|db.gastos|] == db.gastos
            && g.id == db.nextGasto && g.categoria == MERCANCIA && g.monto == o.total && g.pagadoPor == pagadoPor
            && g.fecha == fechaPago && g.metodoPago == metodoPago && g.esInversion == 0
            && FindOrder(r.db, id) == Some(o.(estado := PAGADO, pagadoPor := Some(pagadoPor)))
            && (forall k :: k != id ==> FindOrder(r.db, k) == FindOrder(db, k))
            && r.db == db.(gastos := r.db.gastos, nextGasto := db.nextGasto + 1, pedidos := r.db.pedidos)
  {
    var o := FindOrder(db, id).value;
    var info := OrderExpenseInfo(o, fechaPago, metodoPago);
    var paid := RegistrarGasto(db, info, Pago(pagadoPor, o.total)).0;
    assert paid.gastos == db.gastos + [NewExpense(db.nextGasto, info, Pago(pagadoPor, o.total))];
    assert paid.gastos[..|db.gastos|] == db.gastos;
    ChangedOrder(paid, id, MarkOrderPaid(pagadoPor), o);
    OtherOrdersUpdated(paid, id, MarkOrderPaid(pagadoPor));
  }

  /** Paying an order takes exactly its total off the supplier debt. */
  lemma PagarPedidoDeuda(db: Db, id: int, pagadoPor: string, fechaPago: Date, metodoPago: Option<string>)
    requires UniqueBy(db.pedidos, OrderKey)
    requires PagarPedido(db, id, pagadoPor, fechaPago, metodoPago).Done?
    ensures var r := PagarPedido(db, id, pagadoPor, fechaPago, metodoPago);
            TotalDeuda(r.db) == TotalDeuda(db) - r.value.total
  {
    var o := FindOrder(db, id).value;
    SumWhereUpdateOne(db.pedidos, OrderKey, id, MarkOrderPaid(pagadoPor), EstadoIs(PENDIENTE), OrderTotal, o);
  }

  /** An order cannot be paid twice: the second payment is refused and records nothing. */
  lemma PagarPedidoTwice(db: Db, id: int, pagadoPor: string, fechaPago: Date, metodoPago: Option<string>,
                         otro: string, fecha2: Date, metodo2: Option<string>)
    requires UniqueBy(db.pedidos, OrderKey)
    requires PagarPedido(db, id, pagadoPor, fechaPago, metodoPago).Done?
    ensures var r := PagarPedido(db, id, pagadoPor, fechaPago, metodoPago);
            PagarPedido(r.db, id, otro, fecha2, metodo2) == Raised(WrongState(PAGADO))
  {
    PagarPedidoRows(db, id, pagadoPor, fechaPago, metodoPago);
  }

  lemma PagarPedidoValid(db: Db, id: int, pagadoPor: string, fechaPago: Date, metodoPago: Option<string>)
    requires Valid(db)
    ensures var r := PagarPedido(db, id, pagadoPor, fechaPago, metodoPago);
            r.Done? ==> Valid(r.db)
  {
    var r := PagarPedido(db, id, pagadoPor, fechaPago, metodoPago);
    if r.Done? {
      var o := FindOrder(db, id).value;
      var info := OrderExpenseInfo(o, fechaPago, metodoPago);
      var paid := RegistrarGasto(db, info, Pago(pagadoPor, o.total)).0;
      RegistrarGastoValid(db, info, Pago(pagadoPor, o.total));
      UpdateOrdersValid(paid, id, MarkOrderPaid(pagadoPor));
    }
  }

  function ItemIs(sku: string): (p: Item -> bool)
    ensures forall it {:trigger p(it)} :: p(it) <==> it.sku == sku
  {
    (it: Item) => it.sku == sku
  }

  function Cantidad(it: Item): int { it.cantidad }

  /** The units of `sku` a delivery holds, over all its pairs. */
  function Delivered(items: seq<Item>, sku: string): int {
    Sum(Where(items, ItemIs(sku)), Cantidad)
  }

  /**
   * Adding a batch of stock raises each known sku's stock by the sum of
   * its quantities in the batch; an unknown sku stays unknown, and no
   * product appears or disappears.
   */
  lemma {:induction false} AgregarStocksOf(db: Db, items: seq<Item>, sku: string)
    ensures var r := AgregarStocks(db, items);
            && (HasProduct(r, sku) <==> HasProduct(db, sku))
            && (HasProduct(db, sku) ==>
                  StockOf(r, sku).Some? && StockOf(r, sku).value == StockOf(db, sku).value + Delivered(items, sku))
    decreases |items|
  {
    if items != [] {
      var init, last := items[..|items| - 1], items[|items| - 1];
      assert items == init + [last];
      var d := AgregarStocks(db, init);
      var r := AgregarStock(d, last.sku, last.cantidad);
      assert AgregarStocks(db, items) == r;
      AgregarStocksOf(db, init, sku);
      assert HasProduct(r, sku) <==> HasProduct(d, sku) by {
        UpdateProductsKeys(d, last.sku, Restock(last.cantidad));
      }
      if HasProduct(db, sku) {
        var tail := if last.sku == sku then [last] else [];
        var before, added := Delivered(init, sku), Sum(tail, Cantidad);
        assert Delivered(items, sku) == before + added by {
          WhereAppend(init, last, ItemIs(sku));
          SumAppend(Where(init, ItemIs(sku)), tail, Cantidad);
        }
        AddedStock(d, last, sku);
      }
    }
  }

  /** One more pair changes a known sku's stock by its quantity when the pair names that sku, and not otherwise. */
  lemma AddedStock(d: Db, last: Item, sku: string)
    requires HasProduct(d, sku)
    ensures StockOf(AgregarStock(d, last.sku, last.cantidad), sku).Some?
    ensures StockOf(AgregarStock(d, last.sku, last.cantidad), sku).value
         == StockOf(d, sku).value + Sum(if last.sku == sku then [last] else [], Cantidad)
  {
    var tail := if last.sku == sku then [last] else [];
    assert Sum(tail, Cantidad) == if last.sku == sku then last.cantidad else 0 by {
      if last.sku == sku {
        assert tail[..0] == [];
      }
    }
    if HasProduct(d, last.sku) {
      AgregarStockOf(d, last.sku, last.cantidad, sku);
    } else {
      AgregarStockUnknownSku(d, last.sku, last.cantidad);
    }
  }

  lemma AgregarStocksValid(db: Db, items: seq<Item>)
    requires Valid(db)
    ensures Valid(AgregarStocks(db, items))
  {
    if items != [] {
      var last := items[|items| - 1];
      AgregarStocksValid(db, items[..|items| - 1]);
      StockChangesValid(AgregarStocks(db, items[..|items| - 1]), last.sku, last.cantidad);
    }
  }

  /**
   * Receiving an order adds the delivered units to stock and marks the
   * order `Completo`, so it leaves the pending list; the supplier debt, the
   * expenses and the sales stay as they were.
   */
  lemma RecibirMercanciaRows(db: Db, id: int, items: seq<Item>, sku: string)
    requires UniqueBy(db.pedidos, OrderKey)
    requires RecibirMercancia(db, id, items).Done?
    ensures var r := RecibirMercancia(db, id, items);
            && FindOrder(r.db, id) == Some(r.value.(estado := COMPLETO))
            && (forall k :: k != id ==> FindOrder(r.db, k) == FindOrder(db, k))
            && (forall x :: x in PedidosPendientes(r.db) ==> x.id != id)
            && TotalDeuda(r.db) == TotalDeuda(db)
            && (HasProduct(db, sku) ==>
                  StockOf(r.db, sku).Some? && StockOf(r.db, sku).value == StockOf(db, sku).value + Delivered(items, sku))
            && r.db == db.(productos := r.db.productos, pedidos := r.db.pedidos)
  {
    var o := FindOrder(db, id).value;
    var stocked := AgregarStocks(db, items);
    var f := MarkOrderComplete();
    var r := RecibirMercancia(db, id, items);
    ChangedOrder(stocked, id, f, o);
    OtherOrdersUpdated(stocked, id, f);
    AgregarStocksOf(db, items, sku);
    StockOfSameProducts(stocked, r.db, sku);
    SumWhereUpdateOne(db.pedidos, OrderKey, id, f, EstadoIs(PENDIENTE), OrderTotal, o);
    forall x | x in PedidosPendientes(r.db)
      ensures x.id != id
    {
      UpdateMember(db.pedidos, OrderIdIs(id), f, x);
    }
  }

  lemma RecibirMercanciaValid(db: Db, id: int, items: seq<Item>)
    requires Valid(db)
    ensures var r := RecibirMercancia(db, id, items);
            r.Done? ==> Valid(r.db)
  {
    if RecibirMercancia(db, id, items).Done? {
      AgregarStocksValid(db, items);
      UpdateOrdersValid(AgregarStocks(db, items), id, MarkOrderComplete());
    }
  }

  /**
   * The life of an order: a new order cannot be received before it is
   * paid; once paid it can, and it ends `Completo`.
   */
  lemma OrderLifecycle(db: Db, fechaPedido: Date, proveedor: string, unidades: int, costoUnitario: int,
                       pagadoPor: string, fechaPago: Date, items: seq<Item>)
    requires Valid(db)
    ensures var (d1, id) := RegistrarPedido(db, fechaPedido, proveedor, None, unidades, costoUnitario);
            && RecibirMercancia(d1, id, items) == Raised(WrongState(PENDIENTE))
            && PagarPedido(d1, id, pagadoPor, fechaPago).Done?
            && var d2 := PagarPedido(d1, id, pagadoPor, fechaPago).db;
               && RecibirMercancia(d2, id, items).Done?
               && FindOrder(RecibirMercancia(d2, id, items).db, id).value.estado == COMPLETO
  {
    var (d1, id) := RegistrarPedido(db, fechaPedido, proveedor, None, unidades, costoUnitario);
    var o := NewOrder(id, fechaPedido, proveedor, None, unidades, costoUnitario, None, None, None);
    RegistrarPedidoValid(db, fechaPedido, proveedor, None, unidades, costoUnitario, None, None, None);
    assert o in d1.pedidos;
    FindOrderUnique(d1, o);
    PagarPedidoRows(d1, id, pagadoPor, fechaPago, Some(TRANSFERENCIA));
    PagarPedidoValid(d1, id, pagadoPor, fechaPago, Some(TRANSFERENCIA));
    var d2 := PagarPedido(d1, id, pagadoPor, fechaPago).db;
    RecibirMercanciaRows(d2, id, items, proveedor);
  }

  /**
   * Editing an order keeps every other order, keeps the edited one's
   * columns not given, sets those given, and keeps its total equal to
   * units times unit cost.
   */
  lemma EditarPedidoRow(db: Db, id: int, e: OrderChanges)
    requires Valid(db)
    requires FindOrder(db, id).Some?
    ensures var o := FindOrder(db, id).value;
            var n := FindOrder(EditarPedido(db, id, e), id);
            && n.Some? && n.value.id == id
            && n.value.unidades == Pick(e.unidades, o.unidades)
            && n.value.costoUnitario == Pick(e.costoUnitario, o.costoUnitario)
            && n.value.estado == Pick(e.estado, o.estado)
            && n.value.proveedor == Pick(e.proveedor, o.proveedor)
            && n.value.descripcion == PickOpt(e.descripcion, o.descripcion)
            && n.value.notas == PickOpt(e.notas, o.notas)
            && n.value.fechaPedido == o.fechaPedido
            && n.value.fechaEntregaEst == o.fechaEntregaEst
            && n.value.pagadoPor == o.pagadoPor
            && OrderOk(n.value)
  {
    var o := FindOrder(db, id).value;
    if !e.None() {
      ChangedOrder(db, id, ApplyOrderChanges(e, NewTotal(db, id, e)), o);
    }
  }

  lemma EditarPedidoValid(db: Db, id: int, e: OrderChanges)
    requires Valid(db)
    ensures Valid(EditarPedido(db, id, e))
  {
    if !e.None() {
      var f := ApplyOrderChanges(e, NewTotal(db, id, e));
      forall x | x in db.pedidos && x.id == id
        ensures OrderOk(f(x))
      {
        FindOrderUnique(db, x);
      }
      UpdateOrdersValid(db, id, f);
    }
  }

  lemma EliminarPedidoValid(db: Db, id: int)
    requires Valid(db)
    ensures Valid(EliminarPedido(db, id))
    ensures FindOrder(EliminarPedido(db, id), id).None?
  {
    UniqueWhere(db.pedidos, OrderKey, Not(OrderIdIs(id)));
    ValidWithOrders(db, Where(db.pedidos, Not(OrderIdIs(id))), db.nextPedido);
  }
}
