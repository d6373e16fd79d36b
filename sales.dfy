/**
 * Sales: recording a sale (with its stock decrement and, for credit sales,
 * the receivable), voiding a sale, and editing one without touching stock.
 */
module Sales {
  import opened Common
  import opened Schema
  import opened Tables
  import opened Database
  import opened Catalog

  /** The sale row `registrar_venta` inserts under id `id`. */
  function NewSale(id: int, hoy: Date, ahora: string, sku: string, cantidad: int, precio: int,
                   metodoPago: string, cliente: Option<string>, vendedor: Option<string>,
                   descuento: int, notas: Option<string>): (v: Sale)
    ensures v.id == id && v.sku == sku && v.cantidad == cantidad && v.fecha == hoy
    ensures SaleOk(v)
  {
    Sale(id, hoy, ahora, sku, cantidad, precio, descuento, SaleTotal(precio, cantidad, descuento),
         metodoPago, cliente, vendedor, notas)
  }

  /** The receivable a credit sale opens: nothing paid yet. */
  function NewCredit(id: int, v: Sale, cliente: string): (c: Credit)
    ensures c.ventaId == Some(v.id) && c.monto == v.total && !c.pagado && c.montoPagado.None?
    ensures CreditOk(c)
  {
    Credit(id, Some(v.id), cliente, v.total, None, v.fecha, None, false, v.notas)
  }

  /**
   * The two writes of a sale: the row inserted under the next id, then the
   * sku's stock lowered by the quantity sold.
   */
  function RecordSale(db: Db, v: Sale): (r: Db)
    ensures r.ventas == db.ventas + [v] && r.nextVenta == db.nextVenta + 1
    ensures r.productos == DescontarStock(db, v.sku, v.cantidad).productos
    ensures r == db.(productos := r.productos, ventas := r.ventas, nextVenta := r.nextVenta)
  {
    DescontarStock(InsertSale(db, v), v.sku, v.cantidad)
  }

  /** The write of a credit sale's receivable, under the next credit id. */
  function OpenCredit(db: Db, v: Sale, cliente: string): (r: Db)
    ensures r.creditos == db.creditos + [NewCredit(db.nextCredito, v, cliente)] && r.nextCredito == db.nextCredito + 1
    ensures r == db.(creditos := r.creditos, nextCredito := r.nextCredito)
  {
    InsertCredit(db, NewCredit(db.nextCredito, v, cliente))
  }

  /**
   * `registrar_venta`. The sku must exist and hold enough stock; the sale is
   * inserted and the stock decremented; a credit sale with no client is then
   * refused. Everything happens inside one transaction committed at the very
   * end, so a refusal leaves the database (and the id sequences) as they were.
   */
  function RegistrarVenta(db: Db, hoy: Date, ahora: string, sku: string, cantidad: int, precio: int,
                          metodoPago: string, cliente: Option<string> := None, vendedor: Option<string> := None,
                          descuento: int := 0, notas: Option<string> := None): (r: Outcome<int>)
    ensures r.Raised? <==>
              !HasProduct(db, sku)
              || StockOf(db, sku).value < cantidad
              || (metodoPago == CREDITO && !Truthy(cliente))
    ensures r.Raised? && !HasProduct(db, sku) ==> r.error == NotFound
    ensures r.Raised? && HasProduct(db, sku) && StockOf(db, sku).value < cantidad ==>
              r.error == InsufficientStock(StockOf(db, sku).value, cantidad)
    ensures r.Raised? && HasProduct(db, sku) && StockOf(db, sku).value >= cantidad ==> r.error == CreditNeedsClient
    ensures r.Done? ==> r.value == db.nextVenta
  {
    match FindProduct(db, sku)
    case None => Raised(NotFound)
    case Some(p) =>
      if p.stock < cantidad then Raised(InsufficientStock(p.stock, cantidad))
      else
        var v := NewSale(db.nextVenta, hoy, ahora, sku, cantidad, precio, metodoPago, cliente, vendedor, descuento, notas);
        var staged := RecordSale(db, v);
        if metodoPago == CREDITO then
          if !Truthy(cliente) then Raised(CreditNeedsClient)
          else Done(OpenCredit(staged, v, cliente.value), v.id)
        else Done(staged, v.id)
  }

  /**
   * What a recorded sale writes: the new row at the end of the sales, the
   * stock decrement, and for a credit sale one open receivable for the sale's
   * total; nothing else.
   */
  lemma RegistrarVentaTables(db: Db, hoy: Date, ahora: string, sku: string, cantidad: int, precio: int,
                             metodoPago: string, cliente: Option<string>, vendedor: Option<string>,
                             descuento: int, notas: Option<string>)
    requires RegistrarVenta(db, hoy, ahora, sku, cantidad, precio, metodoPago, cliente, vendedor, descuento, notas).Done?
    ensures var r := RegistrarVenta(db, hoy, ahora, sku, cantidad, precio, metodoPago, cliente, vendedor, descuento, notas);
            var v := NewSale(db.nextVenta, hoy, ahora, sku, cantidad, precio, metodoPago, cliente, vendedor, descuento, notas);
            && r.db.ventas == db.ventas + [v]
            && r.db.nextVenta == db.nextVenta + 1
            && r.db.productos == DescontarStock(db, sku, cantidad).productos
            && r.db.creditos == db.creditos + (if metodoPago == CREDITO then [NewCredit(db.nextCredito, v, cliente.value)] else [])
            && r.db.nextCredito == db.nextCredito + (if metodoPago == CREDITO then 1 else 0)
            && r.db == db.(productos := r.db.productos, ventas := r.db.ventas, creditos := r.db.creditos,
                           nextVenta := r.db.nextVenta, nextCredito := r.db.nextCredito)
  {
  }

  /** A recorded sale lowers the stock of its sku by exactly the quantity sold and no other stock. */
  lemma RegistrarVentaStock(db: Db, hoy: Date, ahora: string, sku: string, cantidad: int, precio: int,
                            metodoPago: string, cliente: Option<string>, vendedor: Option<string>,
                            descuento: int, notas: Option<string>, other: string)
    requires RegistrarVenta(db, hoy, ahora, sku, cantidad, precio, metodoPago, cliente, vendedor, descuento, notas).Done?
    ensures var r := RegistrarVenta(db, hoy, ahora, sku, cantidad, precio, metodoPago, cliente, vendedor, descuento, notas);
            && StockOf(r.db, sku).Some?
            && StockOf(r.db, sku).value == StockOf(db, sku).value - cantidad
            && (other != sku ==> StockOf(r.db, other) == StockOf(db, other))
  {
    var r := RegistrarVenta(db, hoy, ahora, sku, cantidad, precio, metodoPago, cliente, vendedor, descuento, notas);
    RegistrarVentaTables(db, hoy, ahora, sku, cantidad, precio, metodoPago, cliente, vendedor, descuento, notas);
    var d := DescontarStock(db, sku, cantidad);
    DescontarStockOf(db, sku, cantidad, other);
    StockOfSameProducts(r.db, d, sku);
    StockOfSameProducts(r.db, d, other);
  }

  /** The sale row and the stock decrement keep the database valid, and the sale is then on record. */
  lemma RecordSaleValid(db: Db, v: Sale)
    requires Valid(db)
    requires v.id == db.nextVenta && HasProduct(db, v.sku) && SaleOk(v)
    ensures Valid(RecordSale(db, v)) && HasSale(RecordSale(db, v), v.id)
  {
    var withSale := InsertSale(db, v);
    InsertSaleValid(db, v);
    StockChangesValid(withSale, v.sku, v.cantidad);
    assert RecordSale(db, v).ventas == withSale.ventas;
  }

  /** Recording a sale keeps the database valid. */
  lemma RegistrarVentaValid(db: Db, hoy: Date, ahora: string, sku: string, cantidad: int, precio: int,
                            metodoPago: string, cliente: Option<string>, vendedor: Option<string>,
                            descuento: int, notas: Option<string>)
    requires Valid(db)
    requires RegistrarVenta(db, hoy, ahora, sku, cantidad, precio, metodoPago, cliente, vendedor, descuento, notas).Done?
    ensures Valid(RegistrarVenta(db, hoy, ahora, sku, cantidad, precio, metodoPago, cliente, vendedor, descuento, notas).db)
  {
    var r := RegistrarVenta(db, hoy, ahora, sku, cantidad, precio, metodoPago, cliente, vendedor, descuento, notas);
    var v := NewSale(db.nextVenta, hoy, ahora, sku, cantidad, precio, metodoPago, cliente, vendedor, descuento, notas);
    var staged := RecordSale(db, v);
    RecordSaleValid(db, v);
    if metodoPago == CREDITO {
      InsertCreditValid(staged, NewCredit(staged.nextCredito, v, cliente.value));
      assert r.db == OpenCredit(staged, v, cliente.value);
    } else {
      assert r.db == staged;
    }
  }

  /**
   * `anular_venta`: the sale's quantity goes back to stock, every credit
   * opened by the sale is deleted, then the sale itself. Each statement
   * commits on its own; none of them can fail once the sale is found.
   */
  function AnularVenta(db: Db, id: int): (r: Outcome<Sale>)
    ensures r.Raised? <==> !HasSale(db, id)
    ensures r.Raised? ==> r.error == NotFound
    ensures r.Done? ==> r.value in db.ventas && r.value.id == id
    ensures r.Done? ==>
              && r.db.productos == AgregarStock(db, r.value.sku, r.value.cantidad).productos
              && (forall c :: c in r.db.creditos <==> c in db.creditos && c.ventaId != Some(id))
              && (forall v :: v in r.db.ventas <==> v in db.ventas && v.id != id)
              && r.db == db.(productos := r.db.productos, creditos := r.db.creditos, ventas := r.db.ventas)
  {
    match FindSale(db, id)
    case None => Raised(NotFound)
    case Some(v) =>
      var restocked := AgregarStock(db, v.sku, v.cantidad);
      var sinCredito := restocked.(creditos := Where(restocked.creditos, Not(CreditOfSale(id))));
      Done(sinCredito.(ventas := Where(sinCredito.ventas, Not(SaleIdIs(id)))), v)
  }

  /** Voiding a sale keeps the database valid: the credits that pointed at it go with it. */
  lemma AnularVentaValid(db: Db, id: int)
    requires Valid(db)
    ensures AnularVenta(db, id).Done? ==> Valid(AnularVenta(db, id).db)
  {
    match FindSale(db, id)
    case None =>
    case Some(v) =>
      var restocked := AgregarStock(db, v.sku, v.cantidad);
      StockChangesValid(db, v.sku, v.cantidad);
      var sinCredito := restocked.(creditos := Where(restocked.creditos, Not(CreditOfSale(id))));
      DeleteCreditsValid(restocked, Not(CreditOfSale(id)));
      DeleteSaleValid(sinCredito, id);
  }

  /** Voiding the sale just recorded finds exactly the row that was inserted. */
  lemma AnularRecordSaleRow(db: Db, v: Sale, d: Db)
    requires Valid(db) && v.id == db.nextVenta
    requires d.ventas == RecordSale(db, v).ventas
    ensures AnularVenta(d, v.id).Done? && AnularVenta(d, v.id).value == v
  {
    UniqueAppend(db.ventas, SaleKey, v);
    assert v in d.ventas;
    FindSaleUnique(d, v);
  }

  /** Deleting the rows of the sale just recorded leaves the old sales and credits. */
  lemma AnularRecordSaleRows(db: Db, v: Sale, cs: seq<Credit>)
    requires Valid(db) && v.id == db.nextVenta
    requires forall c :: c in cs ==> c.ventaId == Some(v.id)
    ensures Where(db.ventas + [v], Not(SaleIdIs(v.id))) == db.ventas
    ensures Where(db.creditos + cs, Not(CreditOfSale(v.id))) == db.creditos
  {
    WhereAppend(db.ventas, v, Not(SaleIdIs(v.id)));
    WhereKeepsAll(db.ventas, Not(SaleIdIs(v.id)));
    forall c | c in db.creditos
      ensures Not(CreditOfSale(v.id))(c)
    {
      if c.ventaId.Some? {
        var w :| w in db.ventas && w.id == c.ventaId.value;
        assert w.id < v.id;
      }
    }
    WhereKeepsAll(db.creditos, Not(CreditOfSale(v.id)));
    WhereAppendNone(db.creditos, cs, Not(CreditOfSale(v.id)));
  }

  /**
   * Voiding a sale just recorded undoes it: the product, sale and credit
   * tables are exactly as before the sale, and the voided row is the sale
   * that was inserted. Only the id sequences stay advanced.
   */
  lemma AnularRegistrarVenta(db: Db, hoy: Date, ahora: string, sku: string, cantidad: int, precio: int,
                             metodoPago: string, cliente: Option<string>, vendedor: Option<string>,
                             descuento: int, notas: Option<string>)
    requires Valid(db)
    requires RegistrarVenta(db, hoy, ahora, sku, cantidad, precio, metodoPago, cliente, vendedor, descuento, notas).Done?
    ensures var r := RegistrarVenta(db, hoy, ahora, sku, cantidad, precio, metodoPago, cliente, vendedor, descuento, notas);
            var u := AnularVenta(r.db, r.value);
            && u.Done?
            && u.value == NewSale(db.nextVenta, hoy, ahora, sku, cantidad, precio, metodoPago, cliente, vendedor, descuento, notas)
            && u.db.productos == db.productos
            && u.db.ventas == db.ventas
            && u.db.creditos == db.creditos
  {
    var r := RegistrarVenta(db, hoy, ahora, sku, cantidad, precio, metodoPago, cliente, vendedor, descuento, notas);
    var v := NewSale(db.nextVenta, hoy, ahora, sku, cantidad, precio, metodoPago, cliente, vendedor, descuento, notas);
    RegistrarVentaTables(db, hoy, ahora, sku, cantidad, precio, metodoPago, cliente, vendedor, descuento, notas);
    AnularRecordSaleRow(db, v, r.db);
    var cs := if metodoPago == CREDITO then [NewCredit(db.nextCredito, v, cliente.value)] else [];
    AnularRecordSaleRows(db, v, cs);
    DescontarAgregarStock(db, sku, cantidad);
    var u := AnularVenta(r.db, v.id);
    assert u.db.productos == AgregarStock(DescontarStock(db, sku, cantidad), sku, cantidad).productos;
  }

  /** The fields `editar_venta` may change; `None` means "not given". */
  datatype SaleChanges = SaleChanges(
    precio: Option<int>,
    metodoPago: Option<string>,
    vendedor: Option<string>,
    notas: Option<string>)
  {
    predicate None() {
      precio.None? && metodoPago.None? && vendedor.None? && notas.None?
    }
  }

  function ApplySaleChanges(e: SaleChanges, total: Option<real>): (f: Sale -> Sale)
    ensures forall v :: f(v).id == v.id && f(v).cantidad == v.cantidad && f(v).descuentoPct == v.descuentoPct
    ensures forall v :: f(v).sku == v.sku
  {
    (v: Sale) => v.(precioUnitario := Pick(e.precio, v.precioUnitario), metodoPago := Pick(e.metodoPago, v.metodoPago),
                    vendedor := PickOpt(e.vendedor, v.vendedor), notas := PickOpt(e.notas, v.notas),
                    total := Pick(total, v.total))
  }

  /**
   * `editar_venta`: sets the fields given; a new price also sets the total,
   * recomputed from the stored quantity and discount of the sale. With no
   * field given it returns at once. Stock is never touched.
   */
  function EditarVenta(db: Db, id: int, e: SaleChanges): (r: Db)
    ensures e.None() ==> r == db
    ensures r == db.(ventas := r.ventas)
    ensures |r.ventas| == |db.ventas|
    ensures forall i :: 0 <= i < |db.ventas| ==>
              (r.ventas[i].id == db.ventas[i].id && r.ventas[i].sku == db.ventas[i].sku
               && (db.ventas[i].id != id ==> r.ventas[i] == db.ventas[i]))
  {
    if e.None() then db
    else
      var total := match FindSale(db, id)
        case Some(v) => if e.precio.Some? then Some(SaleTotal(e.precio.value, v.cantidad, v.descuentoPct)) else None
        case None => None;
      db.(ventas := Update(db.ventas, SaleIdIs(id), ApplySaleChanges(e, total)))
  }

  /**
   * A new price on an existing sale re-derives its total from the stored
   * quantity and discount; without a new price the price and total stay.
   */
  lemma EditarVentaTotal(db: Db, id: int, e: SaleChanges, v: Sale)
    requires UniqueBy(db.ventas, SaleKey)
    requires v in db.ventas && v.id == id
    requires !e.None()
    ensures var w := FindSale(EditarVenta(db, id, e), id);
            && w.Some?
            && w.value.cantidad == v.cantidad && w.value.descuentoPct == v.descuentoPct
            && (e.precio.Some? ==>
                  w.value.precioUnitario == e.precio.value && w.value.total == SaleTotal(e.precio.value, v.cantidad, v.descuentoPct))
            && (e.precio.None? ==> w.value.precioUnitario == v.precioUnitario && w.value.total == v.total)
            && w.value.metodoPago == Pick(e.metodoPago, v.metodoPago)
            && w.value.vendedor == PickOpt(e.vendedor, v.vendedor)
            && w.value.notas == PickOpt(e.notas, v.notas)
            && w.value.fecha == v.fecha && w.value.sku == v.sku
  {
    FindSaleUnique(db, v);
    var total := if e.precio.Some? then Some(SaleTotal(e.precio.value, v.cantidad, v.descuentoPct)) else None;
    var f := ApplySaleChanges(e, total);
    var vs := Update(db.ventas, SaleIdIs(id), f);
    assert EditarVenta(db, id, e).ventas == vs;
    UpdateFirst(db.ventas, SaleKey, SaleIdIs(id), f, id);
    var w := f(v);
    assert First(vs, SaleIdIs(id)) == Some(w);
  }

  /** Editing a sale keeps the database valid: ids, skus and the stored total's formula all survive. */
  lemma EditarVentaValid(db: Db, id: int, e: SaleChanges)
    requires Valid(db)
    ensures Valid(EditarVenta(db, id, e))
  {
    if !e.None() {
      var total := match FindSale(db, id)
        case Some(v) => if e.precio.Some? then Some(SaleTotal(e.precio.value, v.cantidad, v.descuentoPct)) else None
        case None => None;
      var f := ApplySaleChanges(e, total);
      assert EditarVenta(db, id, e) == db.(ventas := Update(db.ventas, SaleIdIs(id), f));
      forall x | x in db.ventas && SaleIdIs(id)(x)
        ensures SaleOk(f(x))
      {
        if e.precio.Some? {
          FindSaleUnique(db, x);
        }
      }
      UpdateSalesValid(db, SaleIdIs(id), f);
    }
  }
}
