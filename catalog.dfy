/**
 * Products and fixed costs: the inventory CRUD of the ledger, stock
 * additions, the low-stock alert list and the inventory valuation.
 */
module Catalog {
  import opened Common
  import opened Schema
  import opened Tables
  import opened Database

  /** `stock = stock + delta` on one product row. */
  function Restock(delta: int): (f: Product -> Product)
    ensures forall p {:trigger f(p)} :: f(p) == p.(stock := p.stock + delta)
  {
    (p: Product) => p.(stock := p.stock + delta)
  }

  /** `stock = stock - cantidad` on one product row. */
  function Destock(cantidad: int): (f: Product -> Product)
    ensures forall p {:trigger f(p)} :: f(p) == p.(stock := p.stock - cantidad)
  {
    (p: Product) => p.(stock := p.stock - cantidad)
  }

  /** A row change that never touches the sku. */
  ghost predicate KeepsSku(f: Product -> Product) {
    forall p {:trigger f(p)} :: f(p).sku == p.sku
  }

  /** The stock of a product, when the sku exists. */
  function StockOf(db: Db, sku: string): (r: Option<int>)
    ensures r.None? <==> !HasProduct(db, sku)
  {
    match FindProduct(db, sku)
    case Some(p) => Some(p.stock)
    case None => None
  }

  /** Stock lookups see only the products table. */
  lemma StockOfSameProducts(d1: Db, d2: Db, sku: string)
    requires d1.productos == d2.productos
    ensures StockOf(d1, sku) == StockOf(d2, sku)
    ensures HasProduct(d1, sku) <==> HasProduct(d2, sku)
  {
  }

  /** `UPDATE productos SET ... WHERE sku = ?`: `f` applied to every row with that sku. */
  function UpdateProducts(db: Db, sku: string, f: Product -> Product): (r: Db)
    ensures r == db.(productos := r.productos)
    ensures |r.productos| == |db.productos|
  {
    db.(productos := Update(db.productos, SkuIs(sku), f))
  }

  /**
   * Under a change that keeps the sku, the row found under any sku after
   * the update is the row found before, changed when it has the updated sku.
   */
  lemma UpdateProductsFind(db: Db, sku: string, f: Product -> Product, s: string)
    requires KeepsSku(f)
    ensures FindProduct(db, s).None? ==> FindProduct(UpdateProducts(db, sku, f), s).None?
    ensures FindProduct(db, s).Some? ==>
              var x := FindProduct(db, s).value;
              FindProduct(UpdateProducts(db, sku, f), s) == Some(if x.sku == sku then f(x) else x)
  {
    UpdateFirst(db.productos, ProductKey, SkuIs(sku), f, s);
  }

  /** A change that keeps the sku keeps the set of skus and their uniqueness. */
  lemma UpdateProductsKeys(db: Db, sku: string, f: Product -> Product)
    requires KeepsSku(f)
    ensures UniqueBy(db.productos, ProductKey) ==> UniqueBy(UpdateProducts(db, sku, f).productos, ProductKey)
    ensures forall s :: HasProduct(UpdateProducts(db, sku, f), s) <==> HasProduct(db, s)
  {
    if UniqueBy(db.productos, ProductKey) {
      UniqueUpdate(db.productos, ProductKey, SkuIs(sku), f);
    }
    forall s
      ensures HasProduct(UpdateProducts(db, sku, f), s) <==> HasProduct(db, s)
    {
      UpdateKeepsKey(db.productos, ProductKey, SkuIs(sku), f, s);
    }
  }

  /** A change that keeps the sku keeps the database valid. */
  lemma UpdateProductsValid(db: Db, sku: string, f: Product -> Product)
    requires Valid(db)
    requires KeepsSku(f)
    ensures Valid(UpdateProducts(db, sku, f))
  {
    var r := UpdateProducts(db, sku, f);
    UpdateProductsKeys(db, sku, f);
    ValidWithProducts(db, r.productos);
  }

  /**
   * `agregar_stock`: `UPDATE productos SET stock = stock + ? WHERE sku = ?`.
   * Only the stock of the rows with that sku changes.
   */
  function AgregarStock(db: Db, sku: string, cantidad: int): (r: Db)
    ensures r == db.(productos := r.productos)
    ensures |r.productos| == |db.productos|
  {
    UpdateProducts(db, sku, Restock(cantidad))
  }

  /** `UPDATE productos SET stock = stock - ? WHERE sku = ?`, the decrement of a sale. */
  function DescontarStock(db: Db, sku: string, cantidad: int): (r: Db)
    ensures r == db.(productos := r.productos)
    ensures |r.productos| == |db.productos|
  {
    UpdateProducts(db, sku, Destock(cantidad))
  }

  /** An unknown sku is no error: the update matches no row and nothing changes. */
  lemma AgregarStockUnknownSku(db: Db, sku: string, cantidad: int)
    requires !HasProduct(db, sku)
    ensures AgregarStock(db, sku, cantidad) == db
  {
    UpdateNoMatch(db.productos, SkuIs(sku), Restock(cantidad));
  }

  /** Adding stock to a known sku raises its stock by exactly the amount and leaves other skus alone. */
  lemma AgregarStockOf(db: Db, sku: string, cantidad: int, other: string)
    requires HasProduct(db, sku)
    ensures StockOf(AgregarStock(db, sku, cantidad), sku).Some?
    ensures StockOf(AgregarStock(db, sku, cantidad), sku).value == StockOf(db, sku).value + cantidad
    ensures other != sku ==> StockOf(AgregarStock(db, sku, cantidad), other) == StockOf(db, other)
  {
    var f := Restock(cantidad);
    var r := AgregarStock(db, sku, cantidad);
    UpdateProductsFind(db, sku, f, sku);
    UpdateProductsFind(db, sku, f, other);
    var x := FindProduct(db, sku).value;
    var y := f(x);
    assert y.stock == x.stock + cantidad;
    assert FindProduct(r, sku) == Some(y);
    assert StockOf(r, sku) == Some(y.stock);
  }

  /** Taking stock from a known sku lowers its stock by exactly the amount and leaves other skus alone. */
  lemma DescontarStockOf(db: Db, sku: string, cantidad: int, other: string)
    requires HasProduct(db, sku)
    ensures StockOf(DescontarStock(db, sku, cantidad), sku).Some?
    ensures StockOf(DescontarStock(db, sku, cantidad), sku).value == StockOf(db, sku).value - cantidad
    ensures other != sku ==> StockOf(DescontarStock(db, sku, cantidad), other) == StockOf(db, other)
  {
    var f := Destock(cantidad);
    var r := DescontarStock(db, sku, cantidad);
    UpdateProductsFind(db, sku, f, sku);
    UpdateProductsFind(db, sku, f, other);
    var x := FindProduct(db, sku).value;
    var y := f(x);
    assert y.stock == x.stock - cantidad;
    assert FindProduct(r, sku) == Some(y);
    assert StockOf(r, sku) == Some(y.stock);
  }

  /** Adding back what was taken restores the products table exactly. */
  lemma DescontarAgregarStock(db: Db, sku: string, cantidad: int)
    ensures AgregarStock(DescontarStock(db, sku, cantidad), sku, cantidad).productos == db.productos
  {
    var f, g, p := Destock(cantidad), Restock(cantidad), SkuIs(sku);
    forall x
      ensures p(x) ==> p(f(x)) && g(f(x)) == x
    {
      var y := f(x);
      assert y.sku == x.sku && g(y) == x;
    }
    UpdateUndone(db.productos, p, f, g);
  }

  /** Stock changes keep every sku, so they keep the database valid. */
  lemma StockChangesValid(db: Db, sku: string, cantidad: int)
    requires Valid(db)
    ensures Valid(AgregarStock(db, sku, cantidad))
    ensures Valid(DescontarStock(db, sku, cantidad))
    ensures forall s :: HasProduct(AgregarStock(db, sku, cantidad), s) <==> HasProduct(db, s)
    ensures forall s :: HasProduct(DescontarStock(db, sku, cantidad), s) <==> HasProduct(db, s)
  {
    UpdateProductsValid(db, sku, Restock(cantidad));
    UpdateProductsValid(db, sku, Destock(cantidad));
    UpdateProductsKeys(db, sku, Restock(cantidad));
    UpdateProductsKeys(db, sku, Destock(cantidad));
  }

  /** `crear_producto`: an INSERT that the sku primary key rejects when the sku exists. */
  function CrearProducto(db: Db, sku: string, nombre: string, categoria: Option<string>,
                         talla: Option<string>, color: Option<string>, costo: int, precioVenta: int,
                         stock: int := 0, stockMinimo: int := 3,
                         proveedor: Option<string> := None, notas: Option<string> := None): (r: Outcome<()>)
    ensures r.Raised? <==> HasProduct(db, sku)
    ensures r.Raised? ==> r.error == DuplicateKey
    ensures r.Done? ==> r.db == db.(productos := db.productos
              + [Product(sku, nombre, categoria, talla, color, costo, precioVenta, stock, stockMinimo, proveedor, notas)])
  {
    if FindProduct(db, sku).Some? then Raised(DuplicateKey)
    else
      var p := Product(sku, nombre, categoria, talla, color, costo, precioVenta, stock, stockMinimo, proveedor, notas);
      Done(db.(productos := db.productos + [p]), ())
  }

  /** Creating a product keeps the database valid, and the new product is found under its sku. */
  lemma CrearProductoValid(db: Db, sku: string, nombre: string, categoria: Option<string>,
                           talla: Option<string>, color: Option<string>, costo: int, precioVenta: int,
                           stock: int, stockMinimo: int, proveedor: Option<string>, notas: Option<string>)
    requires Valid(db)
    requires !HasProduct(db, sku)
    ensures var r := CrearProducto(db, sku, nombre, categoria, talla, color, costo, precioVenta, stock, stockMinimo, proveedor, notas);
            r.Done? && Valid(r.db) && StockOf(r.db, sku) == Some(stock)
  {
    var p := Product(sku, nombre, categoria, talla, color, costo, precioVenta, stock, stockMinimo, proveedor, notas);
    var r := CrearProducto(db, sku, nombre, categoria, talla, color, costo, precioVenta, stock, stockMinimo, proveedor, notas);
    UniqueAppend(db.productos, ProductKey, p);
    assert p in r.db.productos;
    FindProductUnique(r.db, p);
    forall v | v in r.db.ventas
      ensures HasProduct(r.db, v.sku)
    {
      var q :| q in db.productos && q.sku == v.sku;
      assert q in r.db.productos;
    }
  }

  /** The fields `editar_producto` may change; `None` means "not given". */
  datatype ProductChanges = ProductChanges(
    nombre: Option<string>,
    categoria: Option<string>,
    talla: Option<string>,
    color: Option<string>,
    costo: Option<int>,
    precioVenta: Option<int>,
    stock: Option<int>,
    stockMinimo: Option<int>,
    proveedor: Option<string>,
    notas: Option<string>)
  {
    predicate None() {
      nombre.None? && categoria.None? && talla.None? && color.None? && costo.None?
      && precioVenta.None? && stock.None? && stockMinimo.None? && proveedor.None? && notas.None?
    }
  }

  /** `q` is `p` with every given field set and every other field kept; the sku is never a field. */
  predicate ProductEdited(e: ProductChanges, p: Product, q: Product) {
    && q.sku == p.sku
    && q.nombre == Pick(e.nombre, p.nombre)
    && q.categoria == PickOpt(e.categoria, p.categoria)
    && q.talla == PickOpt(e.talla, p.talla)
    && q.color == PickOpt(e.color, p.color)
    && q.costo == Pick(e.costo, p.costo)
    && q.precioVenta == Pick(e.precioVenta, p.precioVenta)
    && q.stock == Pick(e.stock, p.stock)
    && q.stockMinimo == Pick(e.stockMinimo, p.stockMinimo)
    && q.proveedor == PickOpt(e.proveedor, p.proveedor)
    && q.notas == PickOpt(e.notas, p.notas)
  }

  /** The row change of `editar_producto`: one `field = ?` for each field given. */
  function ApplyProductChanges(e: ProductChanges): (f: Product -> Product)
    ensures KeepsSku(f)
    ensures forall p {:trigger f(p)} :: ProductEdited(e, p, f(p))
  {
    (p: Product) => p.(nombre := Pick(e.nombre, p.nombre), categoria := PickOpt(e.categoria, p.categoria),
            talla := PickOpt(e.talla, p.talla), color := PickOpt(e.color, p.color),
            costo := Pick(e.costo, p.costo), precioVenta := Pick(e.precioVenta, p.precioVenta),
            stock := Pick(e.stock, p.stock), stockMinimo := Pick(e.stockMinimo, p.stockMinimo),
            proveedor := PickOpt(e.proveedor, p.proveedor), notas := PickOpt(e.notas, p.notas))
  }

  /** `editar_producto`: sets only the fields given; with none given it returns at once. */
  function EditarProducto(db: Db, sku: string, e: ProductChanges): (r: Db)
    ensures e.None() ==> r == db
    ensures r == db.(productos := r.productos)
    ensures |r.productos| == |db.productos|
  {
    if e.None() then db
    else UpdateProducts(db, sku, ApplyProductChanges(e))
  }

  /**
   * After an edit, the product found under the edited sku is the one found
   * before with exactly the given fields changed; every other sku finds the
   * same row as before.
   */
  lemma EditarProductoFind(db: Db, sku: string, e: ProductChanges, s: string)
    ensures FindProduct(EditarProducto(db, sku, e), s).Some? <==> FindProduct(db, s).Some?
    ensures FindProduct(db, s).Some? && s == sku ==>
              ProductEdited(e, FindProduct(db, s).value, FindProduct(EditarProducto(db, sku, e), s).value)
    ensures s != sku ==> FindProduct(EditarProducto(db, sku, e), s) == FindProduct(db, s)
  {
    if !e.None() {
      UpdateProductsFind(db, sku, ApplyProductChanges(e), s);
    } else {
      var x := FindProduct(db, s);
      if x.Some? {
        assert ProductEdited(e, x.value, x.value);
      }
    }
  }

  /** Editing a product keeps the database valid: the sku, the key of every reference, never changes. */
  lemma EditarProductoValid(db: Db, sku: string, e: ProductChanges)
    requires Valid(db)
    ensures Valid(EditarProducto(db, sku, e))
  {
    if !e.None() {
      UpdateProductsValid(db, sku, ApplyProductChanges(e));
    }
  }

  /**
   * `eliminar_producto`: refused while any sale references the sku;
   * otherwise the rows with that sku are deleted.
   */
  function EliminarProducto(db: Db, sku: string): (r: Outcome<()>)
    ensures r.Raised? <==> exists v :: v in db.ventas && v.sku == sku
    ensures r.Raised? ==> r.error == HasSales(Count(db.ventas, SaleSkuIs(sku))) && r.error.count > 0
    ensures r.Done? ==> r.db == db.(productos := r.db.productos) && !HasProduct(r.db, sku)
    ensures r.Done? ==> forall p :: p in db.productos && p.sku != sku <==> p in r.db.productos
  {
    var n := Count(db.ventas, SaleSkuIs(sku));
    if n > 0 then Raised(HasSales(n))
    else Done(db.(productos := Where(db.productos, Not(SkuIs(sku)))), ())
  }

  /** Deleting a product keeps the database valid: no sale is left pointing at it. */
  lemma EliminarProductoValid(db: Db, sku: string)
    requires Valid(db)
    ensures EliminarProducto(db, sku).Done? ==> Valid(EliminarProducto(db, sku).db)
  {
    var r := EliminarProducto(db, sku);
    if r.Done? {
      UniqueWhere(db.productos, ProductKey, Not(SkuIs(sku)));
      forall v | v in r.db.ventas
        ensures HasProduct(r.db, v.sku)
      {
        var p :| p in db.productos && p.sku == v.sku;
        assert v.sku != sku;
        assert p in r.db.productos;
      }
    }
  }

  /** `stock <= stock_minimo`, the low-stock alert condition. */
  predicate LowStock(p: Product) {
    p.stock <= p.stockMinimo
  }

  /** `get_alertas_stock`: the products at or below their minimum stock. */
  function AlertasStock(db: Db): (r: seq<Product>)
    ensures forall p :: p in r <==> p in db.productos && p.stock <= p.stockMinimo
  {
    Where(db.productos, LowStock)
  }

  /** One row of `get_resumen_inventario`; the sums are NULL over no rows. */
  datatype InventorySummary = InventorySummary(
    skus: nat,
    unidades: Option<int>,
    valorCosto: Option<int>,
    valorVenta: Option<int>)

  function ProductStock(p: Product): int { p.stock }
  function ProductCostValue(p: Product): int { p.costo * p.stock }
  function ProductSaleValue(p: Product): int { p.precioVenta * p.stock }

  /**
   * `COUNT(*)`, `SUM(stock)`, `SUM(costo * stock)` and `SUM(precio_venta * stock)`
   * over some products: the three sums are NULL exactly when there are none.
   */
  function Summarize(ps: seq<Product>): (r: InventorySummary)
    ensures r.skus == |ps|
    ensures r.unidades.None? <==> ps == []
    ensures ps == [] ==> r.valorCosto.None? && r.valorVenta.None?
    ensures ps != [] ==> && r.unidades == Some(Sum(ps, ProductStock))
                         && r.valorCosto == Some(Sum(ps, ProductCostValue))
                         && r.valorVenta == Some(Sum(ps, ProductSaleValue))
  {
    InventorySummary(|ps|, SqlSum(ps, ProductStock), SqlSum(ps, ProductCostValue), SqlSum(ps, ProductSaleValue))
  }

  function ProductCategoria(p: Product): Option<string> { p.categoria }

  function CategoriaIs(c: Option<string>): (f: Product -> bool)
    ensures forall p {:trigger f(p)} :: f(p) <==> p.categoria == c
  {
    KeyIs(ProductCategoria, c)
  }

  /** `get_resumen_inventario`: the whole-table summary and one per category (NULL is a category). */
  function ResumenInventario(db: Db): (r: (InventorySummary, map<Option<string>, InventorySummary>))
    ensures r.0.skus == |db.productos|
    ensures r.0 == Summarize(db.productos)
    ensures forall c :: c in r.1 <==> exists p :: p in db.productos && p.categoria == c
    ensures forall c :: c in r.1 ==> r.1[c] == Summarize(Where(db.productos, CategoriaIs(c)))
    ensures forall c :: c in r.1 ==> r.1[c].skus > 0 && r.1[c].unidades.Some?
  {
    var cats := set p | p in db.productos :: p.categoria;
    (Summarize(db.productos), map c | c in cats :: Summarize(Where(db.productos, CategoriaIs(c))))
  }

  /** The units of the categories listed in `cs`, added up. */
  function CategoryUnits(cs: seq<Option<string>>, m: map<Option<string>, InventorySummary>): int
    requires forall c :: c in cs ==> c in m && m[c].unidades.Some?
  {
    if cs == [] then 0 else CategoryUnits(cs[..|cs| - 1], m) + m[cs[|cs| - 1]].unidades.value
  }

  lemma {:induction false} CategoryUnitsGroups(cs: seq<Option<string>>, ps: seq<Product>,
                                               m: map<Option<string>, InventorySummary>)
    requires forall c :: c in cs ==> c in m && m[c].unidades.Some?
    requires forall c :: c in cs ==> m[c] == Summarize(Where(ps, CategoriaIs(c)))
    ensures CategoryUnits(cs, m) == SumGroups(cs, ps, ProductCategoria, ProductStock)
    decreases |cs|
  {
    if cs != [] {
      var c := cs[|cs| - 1];
      assert c in cs;
      var w := Where(ps, KeyIs(ProductCategoria, c));
      assert m[c] == Summarize(w);
      assert m[c].unidades.value == Sum(w, ProductStock);
      assert forall x :: x in cs[..|cs| - 1] ==> x in cs;
      CategoryUnitsGroups(cs[..|cs| - 1], ps, m);
    }
  }

  /**
   * The per-category summaries partition the inventory: over a list naming
   * each category once, their units add up to the table's total units.
   */
  lemma ResumenCategoriasSuman(db: Db, cs: seq<Option<string>>)
    requires db.productos != []
    requires forall i, j :: 0 <= i < j < |cs| ==> cs[i] != cs[j]
    requires forall c :: c in cs <==> exists p :: p in db.productos && p.categoria == c
    ensures forall c :: c in cs ==> c in ResumenInventario(db).1 && ResumenInventario(db).1[c].unidades.Some?
    ensures CategoryUnits(cs, ResumenInventario(db).1) == ResumenInventario(db).0.unidades.value
  {
    var r := ResumenInventario(db);
    CategoryUnitsGroups(cs, db.productos, r.1);
    forall x | x in db.productos
      ensures ProductCategoria(x) in cs
    {
    }
    SumGroupsTotal(cs, db.productos, ProductCategoria, ProductStock);
  }

  // Fixed costs.

  /** `crear_costo_fijo`: a new row with the next id; it counts as active unless told otherwise. */
  function CrearCostoFijo(db: Db, concepto: string, montoMensual: int, activo: int := 1,
                          notas: Option<string> := None): (r: (Db, int))
    ensures r.1 == db.nextCosto && r.0.nextCosto == db.nextCosto + 1
    ensures r.0 == db.(costos := db.costos + [FixedCost(r.1, concepto, montoMensual, activo, notas)], nextCosto := r.0.nextCosto)
  {
    var id := db.nextCosto;
    (db.(costos := db.costos + [FixedCost(id, concepto, montoMensual, activo, notas)], nextCosto := id + 1), id)
  }

  datatype CostChanges = CostChanges(
    concepto: Option<string>,
    montoMensual: Option<int>,
    activo: Option<int>,
    notas: Option<string>)
  {
    predicate None() {
      concepto.None? && montoMensual.None? && activo.None? && notas.None?
    }
  }

  /** One edited row: every given field set, the others and the id kept. */
  predicate CostEdited(e: CostChanges, c: FixedCost, h: FixedCost) {
    && h.id == c.id
    && h.concepto == Pick(e.concepto, c.concepto)
    && h.montoMensual == Pick(e.montoMensual, c.montoMensual)
    && h.activo == Pick(e.activo, c.activo)
    && h.notas == PickOpt(e.notas, c.notas)
  }

  function ApplyCostChanges(e: CostChanges): (f: FixedCost -> FixedCost)
    ensures forall c :: f(c).id == c.id
    ensures forall c {:trigger f(c)} :: CostEdited(e, c, f(c))
  {
    (c: FixedCost) => c.(concepto := Pick(e.concepto, c.concepto), montoMensual := Pick(e.montoMensual, c.montoMensual),
            activo := Pick(e.activo, c.activo), notas := PickOpt(e.notas, c.notas))
  }

  /** `editar_costo_fijo`: sets only the fields given; with none given it returns at once. */
  function EditarCostoFijo(db: Db, id: int, e: CostChanges): (r: Db)
    ensures e.None() ==> r == db
    ensures r == db.(costos := r.costos)
    ensures |r.costos| == |db.costos|
    ensures forall i :: 0 <= i < |db.costos| ==>
              (r.costos[i].id == db.costos[i].id && (db.costos[i].id != id ==> r.costos[i] == db.costos[i]))
    ensures forall i :: 0 <= i < |db.costos| && db.costos[i].id == id && e.activo.Some? ==>
              r.costos[i].activo == e.activo.value
    ensures forall i :: 0 <= i < |db.costos| ==>
              if db.costos[i].id == id && !e.None() then CostEdited(e, db.costos[i], r.costos[i])
              else r.costos[i] == db.costos[i]
  {
    if e.None() then db
    else db.(costos := Update(db.costos, CostIdIs(id), ApplyCostChanges(e)))
  }

  /** `eliminar_costo_fijo`: deletes the row with that id, if any. */
  function EliminarCostoFijo(db: Db, id: int): (r: Db)
    ensures r == db.(costos := r.costos)
    ensures forall c :: c in r.costos <==> c in db.costos && c.id != id
  {
    db.(costos := Where(db.costos, Not(CostIdIs(id))))
  }

  /** Each fixed-cost operation keeps the database valid. */
  lemma CrearCostoFijoValid(db: Db, concepto: string, monto: int, activo: int, notas: Option<string>)
    requires Valid(db)
    ensures Valid(CrearCostoFijo(db, concepto, monto, activo, notas).0)
  {
    var c := FixedCost(db.nextCosto, concepto, monto, activo, notas);
    UniqueAppend(db.costos, CostKey, c);
    ValidWithCosts(db, db.costos + [c], db.nextCosto + 1);
  }

  lemma EditarCostoFijoValid(db: Db, id: int, e: CostChanges)
    requires Valid(db)
    ensures Valid(EditarCostoFijo(db, id, e))
  {
    if !e.None() {
      var f := ApplyCostChanges(e);
      UniqueUpdate(db.costos, CostKey, CostIdIs(id), f);
      AllUpdate(db.costos, CostIdIs(id), f, KeyBelow(CostKey, db.nextCosto));
      ValidWithCosts(db, Update(db.costos, CostIdIs(id), f), db.nextCosto);
    }
  }

  lemma EliminarCostoFijoValid(db: Db, id: int)
    requires Valid(db)
    ensures Valid(EliminarCostoFijo(db, id))
  {
    UniqueWhere(db.costos, CostKey, Not(CostIdIs(id)));
    ValidWithCosts(db, Where(db.costos, Not(CostIdIs(id))), db.nextCosto);
  }
}
