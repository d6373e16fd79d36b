/**
 * The ledger's database as the business functions drive it through their
 * connection: one mutable field per table and per id sequence, and the
 * operations that run several statements in a row (or a loop of them) as
 * methods that perform those statements one at a time. Each method is
 * proved to leave the store in exactly the state the corresponding
 * function on `Db` describes, so every property proved about those
 * functions holds of the store.
 */
module Ledger {
  import opened Common
  import opened Schema
  import opened Tables
  import opened Database
  import opened Catalog
  import opened Sales
  import opened Cash
  import opened Credits
  import opened Expenses
  import opened Orders

  class Store {
    var productos: seq<Product>
    var ventas: seq<Sale>
    var creditos: seq<Credit>
    var gastos: seq<Expense>
    var caja: seq<CashDay>
    var pedidos: seq<Order>
    var costos: seq<FixedCost>
    var nextVenta: int
    var nextCredito: int
    var nextGasto: int
    var nextPedido: int
    var nextCosto: int

    /** The tables and sequences as one database value. */
    function State(): Db
      reads this
    {
      Db(productos, ventas, creditos, gastos, caja, pedidos, costos, nextVenta, nextCredito, nextGasto, nextPedido, nextCosto)
    }

    /** A connection onto a database. */
    constructor (db: Db)
      ensures State() == db
    {
      productos, ventas, creditos, gastos, caja, pedidos, costos := db.productos, db.ventas, db.creditos, db.gastos, db.caja, db.pedidos, db.costos;
      nextVenta, nextCredito, nextGasto, nextPedido, nextCosto := db.nextVenta, db.nextCredito, db.nextGasto, db.nextPedido, db.nextCosto;
    }

    /** The commit of a transaction: every table and sequence takes its staged value. */
    method Commit(tx: Db)
      modifies this
      ensures State() == tx
    {
      productos, ventas, creditos, gastos, caja, pedidos, costos := tx.productos, tx.ventas, tx.creditos, tx.gastos, tx.caja, tx.pedidos, tx.costos;
      nextVenta, nextCredito, nextGasto, nextPedido, nextCosto := tx.nextVenta, tx.nextCredito, tx.nextGasto, tx.nextPedido, tx.nextCosto;
    }

    /** `agregar_stock`: one `UPDATE` of the sku's stock. */
    method AgregarStock(sku: string, cantidad: int)
      modifies this
      ensures State() == Catalog.AgregarStock(old(State()), sku, cantidad)
    {
      productos := Update(productos, SkuIs(sku), Restock(cantidad));
    }

    /**
     * `registrar_venta` inside its transaction: the product is read and
     * checked, the sale row and the stock decrement (and, for a credit sale,
     * the receivable) are staged in the transaction `tx`, and only the final
     * commit writes them; a refusal returns before the commit and leaves
     * every table as it was.
     */
    method RegistrarVenta(hoy: Date, ahora: string, sku: string, cantidad: int, precio: int, metodoPago: string,
                          cliente: Option<string>, vendedor: Option<string>, descuento: int, notas: Option<string>)
      returns (r: Result<int, Error>)
      modifies this
      ensures match Sales.RegistrarVenta(old(State()), hoy, ahora, sku, cantidad, precio, metodoPago, cliente, vendedor, descuento, notas)
              case Done(db, id) => r == Success(id) && State() == db
              case Raised(e) => r == Failure(e) && State() == old(State())
    {
      ghost var expected := Sales.RegistrarVenta(State(), hoy, ahora, sku, cantidad, precio, metodoPago, cliente, vendedor, descuento, notas);
      var prod := FindProduct(State(), sku);
      if prod.None? {
        assert expected == Raised(NotFound);
        return Failure(NotFound);
      }
      if prod.value.stock < cantidad {
        assert expected == Raised(InsufficientStock(prod.value.stock, cantidad));
        return Failure(InsufficientStock(prod.value.stock, cantidad));
      }
      var id := nextVenta;
      var v := NewSale(id, hoy, ahora, sku, cantidad, precio, metodoPago, cliente, vendedor, descuento, notas);
      var tx := State();
      tx := tx.(ventas := tx.ventas + [v], nextVenta := id + 1);
      tx := tx.(productos := Update(tx.productos, SkuIs(sku), Destock(cantidad)));
      if metodoPago == CREDITO {
        if !Truthy(cliente) {
          assert expected == Raised(CreditNeedsClient);
          return Failure(CreditNeedsClient);
        }
        tx := tx.(creditos := tx.creditos + [NewCredit(tx.nextCredito, v, cliente.value)], nextCredito := tx.nextCredito + 1);
      }
      assert expected == Done(tx, id);
      Commit(tx);
      return Success(id);
    }

    /**
     * `anular_venta`: the sale is read, then three statements run in turn:
     * the stock is given back, the sale's credits are deleted, the sale is
     * deleted.
     */
    method AnularVenta(id: int) returns (r: Result<Sale, Error>)
      modifies this
      ensures match Sales.AnularVenta(old(State()), id)
              case Done(db, v) => r == Success(v) && State() == db
              case Raised(e) => r == Failure(e) && State() == old(State())
    {
      var found := FindSale(State(), id);
      if found.None? {
        return Failure(NotFound);
      }
      var v := found.value;
      productos := Update(productos, SkuIs(v.sku), Restock(v.cantidad));
      creditos := Where(creditos, Not(CreditOfSale(id)));
      ventas := Where(ventas, Not(SaleIdIs(id)));
      return Success(v);
    }

    /** `abrir_caja`: the day's row is looked up, then either updated or inserted. */
    method AbrirCaja(fecha: Date, efectivoInicio: int)
      modifies this
      ensures State() == Cash.AbrirCaja(old(State()), fecha, efectivoInicio)
    {
      var existing := FindCashDay(State(), fecha);
      if existing.Some? {
        caja := Update(caja, CashDayIs(fecha), SetInicio(efectivoInicio));
      } else {
        caja := caja + [CashDay(fecha, efectivoInicio, None, false, None)];
      }
    }

    /**
     * `cerrar_caja`: the day's state is read first, the difference
     * computed, and then the day's row is closed, or inserted closed.
     */
    method CerrarCaja(fecha: Date, efectivoReal: int, notas: Option<string>) returns (c: Cierre)
      modifies this
      ensures (State(), c) == Cash.CerrarCaja(old(State()), fecha, efectivoReal, notas)
    {
      var estado := EstadoCaja(State(), fecha);
      var diferencia := efectivoReal as real - estado.efectivoEsperado;
      var existing := FindCashDay(State(), fecha);
      if existing.Some? {
        caja := Update(caja, CashDayIs(fecha), CloseWith(efectivoReal, notas));
      } else {
        caja := caja + [CashDay(fecha, estado.efectivoInicio, Some(efectivoReal), true, notas)];
      }
      c := Cierre(estado.efectivoEsperado, efectivoReal, diferencia);
    }

    /** `reabrir_caja`: one `UPDATE` clearing the day's close. */
    method ReabrirCaja(fecha: Date)
      modifies this
      ensures State() == Cash.ReabrirCaja(old(State()), fecha)
    {
      caja := Update(caja, CashDayIs(fecha), Reopen());
    }

    /** `registrar_pago_credito`: the credit is read, then marked paid. */
    method RegistrarPagoCredito(id: int, fechaPago: Date)
      modifies this
      ensures State() == Credits.RegistrarPagoCredito(old(State()), id, fechaPago)
    {
      var found := FindCredit(State(), id);
      if found.Some? {
        creditos := Update(creditos, CreditIdIs(id), MarkPaid(fechaPago, found.value.monto));
      } else {
        creditos := Update(creditos, CreditIdIs(id), MarkPaidDateOnly(fechaPago));
      }
    }

    /** `registrar_abono`: the credit is read and checked, then one `UPDATE` records the payment. */
    method RegistrarAbono(id: int, abono: real, hoy: Date) returns (r: Result<Abono, Error>)
      modifies this
      ensures match Credits.RegistrarAbono(old(State()), id, abono, hoy)
              case Done(db, a) => r == Success(a) && State() == db
              case Raised(e) => r == Failure(e) && State() == old(State())
    {
      ghost var expected := Credits.RegistrarAbono(State(), id, abono, hoy);
      var found := FindCredit(State(), id);
      if found.None? {
        assert expected == Raised(NotFound);
        return Failure(NotFound);
      }
      var c := found.value;
      if c.pagado {
        assert expected == Raised(AlreadyPaid);
        return Failure(AlreadyPaid);
      }
      if abono <= 0.0 {
        assert expected == Raised(InvalidAmount);
        return Failure(InvalidAmount);
      }
      var nuevo := PaidSoFar(c) + abono;
      var saldo := c.monto - nuevo;
      var a := Abono(id, abono, if nuevo < c.monto then nuevo else c.monto, if saldo > 0.0 then saldo else 0.0, saldo <= 0.0);
      if saldo <= 0.0 {
        assert Abonar(c, abono, hoy) == MarkPaid(hoy, c.monto);
        creditos := Update(creditos, CreditIdIs(id), MarkPaid(hoy, c.monto));
      } else {
        assert Abonar(c, abono, hoy) == SetPagado(nuevo);
        creditos := Update(creditos, CreditIdIs(id), SetPagado(nuevo));
      }
      assert expected == Done(State(), a);
      return Success(a);
    }

    /** `registrar_gasto`: one `INSERT`, returning the new row's id. */
    method RegistrarGasto(info: ExpenseInfo, p: Pago) returns (id: int)
      modifies this
      ensures (State(), id) == Expenses.RegistrarGasto(old(State()), info, p)
    {
      id := nextGasto;
      gastos := gastos + [NewExpense(id, info, p)];
      nextGasto := id + 1;
    }

    /**
     * `registrar_gasto_parejo`: the rounded third and the remainder, then a
     * loop over the partners inserting one expense each.
     */
    method RegistrarGastoParejo(info: ExpenseInfo, total: int) returns (ids: seq<int>)
      modifies this
      ensures (State(), ids) == Expenses.RegistrarGastoParejo(old(State()), info, total)
    {
      var parte := RoundThird(total);
      var resto := total - parte * 3;
      ghost var pagos := ParejoPagos(total);
      ghost var start := nextGasto;
      ids := [];
      for i := 0 to |SOCIOS|
        invariant State() == old(State()).(gastos := old(gastos) + RowsFor(start, info, pagos[..i]), nextGasto := start + i)
        invariant ids == Range(start, i)
      {
        var m := parte + (if i == |SOCIOS| - 1 then resto else 0);
        assert Pago(SOCIOS[i], m) == pagos[i];
        assert RowsFor(start, info, pagos[..i + 1]) == RowsFor(start, info, pagos[..i]) + [NewExpense(start + i, info, pagos[i])];
        var gid := RegistrarGasto(info, Pago(SOCIOS[i], m));
        ids := ids + [gid];
      }
      assert pagos[..|SOCIOS|] == pagos;
    }

    /**
     * `registrar_gasto_personalizado`: a loop over the partners' amounts
     * inserting one expense for each positive amount, in order.
     */
    method RegistrarGastoPersonalizado(info: ExpenseInfo, montos: seq<Pago>) returns (ids: seq<int>)
      modifies this
      ensures (State(), ids) == Expenses.RegistrarGastoPersonalizado(old(State()), info, montos)
    {
      ghost var start := nextGasto;
      ids := [];
      for i := 0 to |montos|
        invariant var written := Where(montos[..i], Positive());
                  State() == old(State()).(gastos := old(gastos) + RowsFor(start, info, written), nextGasto := start + |written|)
                  && ids == Range(start, |written|)
      {
        var p := montos[i];
        PersonalizadoStep(start, info, montos, i);
        if p.monto > 0 {
          var gid := RegistrarGasto(info, p);
          ids := ids + [gid];
        }
      }
      assert montos[..|montos|] == montos;
    }

    /**
     * `pagar_pedido`: the order is read and checked, the expense is
     * recorded, then the order is marked paid.
     */
    method PagarPedido(id: int, pagadoPor: string, fechaPago: Date, metodoPago: Option<string>)
      returns (r: Result<Order, Error>)
      modifies this
      ensures match Orders.PagarPedido(old(State()), id, pagadoPor, fechaPago, metodoPago)
              case Done(db, o) => r == Success(o) && State() == db
              case Raised(e) => r == Failure(e) && State() == old(State())
    {
      var found := FindOrder(State(), id);
      if found.None? {
        return Failure(NotFound);
      }
      var o := found.value;
      if o.estado != PENDIENTE {
        return Failure(WrongState(o.estado));
      }
      var _ := RegistrarGasto(OrderExpenseInfo(o, fechaPago, metodoPago), Pago(pagadoPor, o.total));
      pedidos := Update(pedidos, OrderIdIs(id), MarkOrderPaid(pagadoPor));
      return Success(o);
    }

    /**
     * `recibir_mercancia`: the order is read and checked, a loop adds each
     * delivered quantity to its sku's stock, then the order is marked
     * complete.
     */
    method RecibirMercancia(id: int, items: seq<Item>) returns (r: Result<Order, Error>)
      modifies this
      ensures match Orders.RecibirMercancia(old(State()), id, items)
              case Done(db, o) => r == Success(o) && State() == db
              case Raised(e) => r == Failure(e) && State() == old(State())
    {
      var found := FindOrder(State(), id);
      if found.None? {
        return Failure(NotFound);
      }
      var o := found.value;
      if o.estado == PENDIENTE {
        return Failure(WrongState(o.estado));
      }
      for i := 0 to |items|
        invariant State() == AgregarStocks(old(State()), items[..i])
      {
        assert items[..i + 1][..i] == items[..i];
        AgregarStock(items[i].sku, items[i].cantidad);
      }
      assert items[..|items|] == items;
      pedidos := Update(pedidos, OrderIdIs(id), MarkOrderComplete());
      return Success(o);
    }
  }

  /** One more entry of the custom split writes one more row exactly when its amount is positive. */
  lemma PersonalizadoStep(start: int, info: ExpenseInfo, montos: seq<Pago>, i: int)
    requires 0 <= i < |montos|
    ensures var before, after := Where(montos[..i], Positive()), Where(montos[..i + 1], Positive());
            && (montos[i].monto > 0 ==>
                  after == before + [montos[i]]
                  && RowsFor(start, info, after) == RowsFor(start, info, before) + [NewExpense(start + |before|, info, montos[i])])
            && (montos[i].monto <= 0 ==> after == before)
  {
    var before := Where(montos[..i], Positive());
    assert montos[..i + 1] == montos[..i] + [montos[i]];
    WhereAppend(montos[..i], montos[i], Positive());
    if montos[i].monto > 0 {
      assert RowsFor(start, info, before + [montos[i]]) == RowsFor(start, info, before) + [NewExpense(start + |before|, info, montos[i])];
    } else {
      assert before + [] == before;
    }
  }
}
