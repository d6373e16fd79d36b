/**
 * The spreadsheet migration: the four sheet loops that fill `productos`,
 * `ventas` with `creditos_clientes`, `gastos` and `pedidos_proveedores`.
 * A sheet is the sequence of its data rows; each loop is a method proved
 * against a function that says, row by row, what ends up in the table.
 */
module Migration {
  import opened Common
  import opened Schema
  import opened Strings
  import opened Tables
  import opened Excel
  import opened Cleaning

  // ---------------------------------------------------------------
  // Reading a sheet
  // ---------------------------------------------------------------

  /** How many rows the loops read before the first row whose column `A` is empty. */
  function Leading(rows: seq<Row>): (n: nat)
    ensures n <= |rows|
    ensures forall j :: 0 <= j < n ==> Get(rows[j], 'A') != Blank
    ensures n < |rows| ==> Get(rows[n], 'A') == Blank
    decreases |rows|
  {
    if rows == [] || Get(rows[0], 'A') == Blank then 0
    else
      var n := 1 + Leading(rows[1..]);
      assert forall j :: 1 <= j < |rows| ==> rows[j] == rows[1..][j - 1];
      n
  }

  /** `int(float(vals.get(col, 0) or 0))` is defined on this row. */
  predicate NumericCol(r: Row, col: char) {
    NumericOrEmpty(Get(r, col, Number(0)))
  }

  /** `float(vals.get(col, 0) or 0)`: an empty or missing cell reads as 0. */
  function NumCol(r: Row, col: char): (n: int)
    requires NumericCol(r, col)
    ensures !CellTruthy(Get(r, col, Number(0))) ==> n == 0
    ensures col in r && r[col].Number? ==> n == r[col].n
  {
    NumOrZero(Get(r, col, Number(0)))
  }

  /** `str(vals.get(col, default)).strip()`. */
  function TextCol(r: Row, col: char, default: string): (s: string)
    ensures col !in r ==> s == Strip(default)
    ensures col in r && r[col].Text? ==> s == Strip(r[col].s)
    ensures Strip(s) == s
  {
    var t := Str(Get(r, col, Text(default)));
    StripIdempotent(t);
    Strip(t)
  }

  /** `str(vals.get(col)).strip() if vals.get(col) else None`. */
  function OptTextCol(r: Row, col: char): (s: Option<string>)
    ensures s.None? <==> !CellTruthy(Get(r, col))
    ensures s.Some? && r[col].Text? ==> s.value == Strip(r[col].s)
  {
    var c := Get(r, col);
    if CellTruthy(c) then Some(Strip(Str(c))) else None
  }

  /** `ys` is `xs` read element by element through `f`. */
  ghost predicate ReadAs<T, U>(xs: seq<T>, ys: seq<U>, f: T -> U) {
    |ys| == |xs| && forall j {:trigger f(xs[j])} :: 0 <= j < |xs| ==> ys[j] == f(xs[j])
  }

  lemma ReadAsSnoc<T, U>(xs: seq<T>, ys: seq<U>, f: T -> U, x: T, y: U)
    requires ReadAs(xs, ys, f) && y == f(x)
    ensures ReadAs(xs + [x], ys + [y], f)
  {
    forall j | 0 <= j < |xs| + 1
      ensures (ys + [y])[j] == f((xs + [x])[j])
    {
      if j < |xs| {
        assert (xs + [x])[j] == xs[j];
      }
    }
  }

  lemma SliceSnoc<T>(s: seq<T>, k: nat)
    requires k < |s|
    ensures s[..k + 1] == s[..k] + [s[k]]
  {
  }

  lemma SnocSplit<T>(s: seq<T>)
    requires s != []
    ensures s == s[..|s| - 1] + [s[|s| - 1]]
  {
  }

  /** `[f(x) for x in xs]`. */
  function Mapped<T, U>(xs: seq<T>, f: T -> U): (ys: seq<U>)
    ensures |ys| == |xs|
  {
    if xs == [] then [] else Mapped(xs[..|xs| - 1], f) + [f(xs[|xs| - 1])]
  }

  /** Element `j` of the mapped sequence is `f` of element `j`. */
  lemma {:induction false} MappedAt<T, U>(xs: seq<T>, f: T -> U, j: nat)
    requires j < |xs|
    ensures Mapped(xs, f)[j] == f(xs[j])
    decreases |xs|
  {
    if j < |xs| - 1 {
      MappedAt(xs[..|xs| - 1], f, j);
    }
  }

  /** Reading a sequence one element at a time gives the mapped sequence. */
  lemma {:induction false} ReadAsMapped<T, U>(xs: seq<T>, ys: seq<U>, f: T -> U)
    requires ReadAs(xs, ys, f)
    ensures ys == Mapped(xs, f)
    decreases |xs|
  {
    if xs != [] {
      var n := |xs| - 1;
      assert ReadAs(xs[..n], ys[..n], f);
      ReadAsMapped(xs[..n], ys[..n], f);
      SnocSplit(ys);
    }
  }

  /** The values of the present entries, in order: the rows a loop with `continue` keeps. */
  function Present<U>(opts: seq<Option<U>>): (ys: seq<U>)
    ensures |ys| <= |opts|
  {
    if opts == [] then []
    else
      var last := opts[|opts| - 1];
      Present(opts[..|opts| - 1]) + (if last.Some? then [last.value] else [])
  }

  lemma PresentSnoc<U>(opts: seq<Option<U>>, o: Option<U>)
    ensures Present(opts + [o]) == Present(opts) + (if o.Some? then [o.value] else [])
  {
    assert (opts + [o])[..|opts|] == opts;
  }

  /** Every kept value comes from a present entry, and every present entry is kept. */
  lemma {:induction false} PresentMembers<U>(opts: seq<Option<U>>)
    ensures forall y :: y in Present(opts) <==> Some(y) in opts
    decreases |opts|
  {
    if opts != [] {
      var init := opts[..|opts| - 1];
      PresentMembers(init);
      assert opts == init + [opts[|opts| - 1]];
    }
  }

  // ---------------------------------------------------------------
  // Products
  // ---------------------------------------------------------------

  /** A row of `productos` as the migration writes it; `notas` is the raw cell. */
  datatype MigratedProduct = MigratedProduct(
    sku: string,
    nombre: string,
    categoria: Option<string>,
    talla: Option<string>,
    color: Option<string>,
    costo: int,
    precioVenta: int,
    stock: int,
    stockMinimo: int,
    notas: Cell)

  function Stock(p: MigratedProduct): int { p.stock }

  /** An inventory row the loop can read: its three amount cells are empty or numbers. */
  predicate ProductRowOk(r: Row) {
    NumericCol(r, 'C') && NumericCol(r, 'D') && NumericCol(r, 'G')
  }

  type InventoryRow = r: Row | ProductRowOk(r) witness map[]

  /**
   * The product a row describes, under the SKU written in the sheet: the
   * name stripped, its category, size and colour as the name gives them,
   * the three amounts, a minimum stock of 3 and the notes cell as read.
   */
  function Candidate(r: InventoryRow): MigratedProduct {
    var nombre := TextCol(r, 'B', "");
    var parsed := ParseProducto(nombre);
    MigratedProduct(TextCol(r, 'A', ""), nombre, parsed.categoria, parsed.talla, parsed.color,
                    NumCol(r, 'C'), NumCol(r, 'D'), NumCol(r, 'G'), 3, Get(r, 'H'))
  }

  /** `INSERT OR REPLACE` by SKU: the table after the inserts, the last insert of a SKU winning. */
  function Table(ins: seq<MigratedProduct>): (t: map<string, MigratedProduct>)
    ensures forall k :: k in t ==> t[k].sku == k
    decreases |ins|
  {
    if ins == [] then map[] else Table(ins[..|ins| - 1])[ins[|ins| - 1].sku := ins[|ins| - 1]]
  }

  /** The table's SKUs are exactly the SKUs inserted, and each entry is one of the inserts. */
  lemma {:induction false} TableKeys(ins: seq<MigratedProduct>)
    ensures Table(ins).Keys == set p | p in ins :: p.sku
    ensures forall k :: k in Table(ins) ==> exists j :: 0 <= j < |ins| && ins[j] == Table(ins)[k]
    decreases |ins|
  {
    if ins != [] {
      var init := ins[..|ins| - 1];
      TableKeys(init);
      assert forall p :: p in ins <==> p in init || p == ins[|ins| - 1];
      forall k | k in Table(ins)
        ensures exists j :: 0 <= j < |ins| && ins[j] == Table(ins)[k]
      {
        if k != ins[|ins| - 1].sku {
          var j :| 0 <= j < |init| && init[j] == Table(init)[k];
          assert ins[j] == init[j];
        } else {
          assert ins[|ins| - 1] == Table(ins)[k];
        }
      }
    }
  }

  /** A candidate stored under the SKU it gets once renamed against the SKUs already inserted. */
  function Rename(c: MigratedProduct, seen: set<string>): (p: MigratedProduct)
    ensures p == c.(sku := RenombrarSku(c.sku, c.talla, seen))
  {
    c.(sku := RenombrarSku(c.sku, c.talla, seen))
  }

  /** The inserts the candidates produce, in sheet order, each renamed against the ones before it. */
  function Renamed(cs: seq<MigratedProduct>): (ins: seq<MigratedProduct>)
    ensures |ins| == |cs|
    decreases |cs|
  {
    if cs == [] then []
    else
      var prev := Renamed(cs[..|cs| - 1]);
      prev + [Rename(cs[|cs| - 1], Table(prev).Keys)]
  }

  /** The inserts the inventory rows produce. */
  function Inserts(rows: seq<InventoryRow>): (ins: seq<MigratedProduct>)
    ensures |ins| == |rows|
  {
    Renamed(Mapped(rows, Candidate))
  }

  /** Renaming changes only the SKU: every insert is its row's candidate under some SKU. */
  lemma {:induction false} RenamedKeepsFields(cs: seq<MigratedProduct>, j: nat)
    requires j < |cs|
    ensures Renamed(cs)[j] == cs[j].(sku := Renamed(cs)[j].sku)
    decreases |cs|
  {
    if j < |cs| - 1 {
      RenamedKeepsFields(cs[..|cs| - 1], j);
    }
  }

  lemma KeysUpdate<K, V>(m: map<K, V>, k: K, v: V)
    ensures m[k := v].Keys == m.Keys + {k}
  {
  }

  /** Appending a candidate renamed against the table so far. */
  lemma RenamedSnoc(cs: seq<MigratedProduct>, c: MigratedProduct, sku: string)
    requires sku == RenombrarSku(c.sku, c.talla, Table(Renamed(cs)).Keys)
    ensures var ins, p := Renamed(cs), c.(sku := sku);
            && Renamed(cs + [c]) == ins + [p]
            && Table(ins + [p]) == Table(ins)[sku := p]
            && Sum(ins + [p], Stock) == Sum(ins, Stock) + c.stock
  {
    assert (cs + [c])[..|cs|] == cs;
    var ins, p := Renamed(cs), c.(sku := sku);
    assert (ins + [p])[..|ins|] == ins;
    SumAppend(ins, [p], Stock);
  }

  /**
   * The SKU a row is inserted under: a SKU already seen is renamed when
   * the name gives a size, first to its base plus the size, and when that
   * is taken too, to the SKU plus the size.
   */
  method ElegirSku(sku0: string, realTalla: Option<string>, seen: set<string>) returns (sku: string)
    ensures sku == RenombrarSku(sku0, realTalla, seen)
  {
    sku := sku0;
    if sku in seen {
      if Truthy(realTalla) {
        var base := BaseSku(sku);
        var nuevo := base + "-" + realTalla.value;
        if nuevo in seen {
          nuevo := sku + "-" + realTalla.value;
        }
        sku := nuevo;
      }
    }
  }

  /**
   * Reading one row's cells (the loop body up to the SKU check): the
   * product read is the row's candidate, so the candidates read so far
   * grow by it.
   */
  method LeerProducto(r: InventoryRow, ghost read: seq<InventoryRow>, ghost cands: seq<MigratedProduct>) returns (c: MigratedProduct)
    requires ReadAs(read, cands, Candidate)
    ensures ReadAs(read + [r], cands + [c], Candidate)
  {
    var nombre := TextCol(r, 'B', "");
    var parsed := ParseProducto(nombre);
    c := MigratedProduct(TextCol(r, 'A', ""), nombre, parsed.categoria, parsed.talla, parsed.color,
                         NumCol(r, 'C'), NumCol(r, 'D'), NumCol(r, 'G'), 3, Get(r, 'H'));
    assert c == Candidate(r);
    ReadAsSnoc(read, cands, Candidate, r, c);
  }

  /**
   * Inserting one candidate (the loop body after the row is read): under
   * its chosen SKU, overwriting any product already there, and adding its
   * stock to the units counted.
   */
  method InsertarProducto(c: MigratedProduct, productos: map<string, MigratedProduct>, seen: set<string>,
                          totalStock: int, ghost cands: seq<MigratedProduct>)
    returns (productos': map<string, MigratedProduct>, seen': set<string>, totalStock': int)
    requires productos == Table(Renamed(cands)) && seen == productos.Keys
    requires totalStock == Sum(Renamed(cands), Stock)
    ensures productos' == Table(Renamed(cands + [c])) && seen' == productos'.Keys
    ensures totalStock' == Sum(Renamed(cands + [c]), Stock)
  {
    var sku := ElegirSku(c.sku, c.talla, seen);
    RenamedSnoc(cands, c, sku);
    KeysUpdate(productos, sku, c.(sku := sku));
    seen' := seen + {sku};
    productos' := productos[sku := c.(sku := sku)];
    totalStock' := totalStock + c.stock;
  }

  /**
   * `migrate_productos`: reads rows until the first one without a SKU,
   * inserts each under its (possibly renamed) SKU and counts the rows and
   * the units read.
   */
  method MigrarProductos(rows: seq<Row>) returns (productos: map<string, MigratedProduct>, count: nat, totalStock: int)
    requires forall j :: 0 <= j < Leading(rows) ==> ProductRowOk(rows[j])
    ensures count == Leading(rows)
    ensures productos == Table(Inserts(rows[..count]))
    ensures totalStock == Sum(Inserts(rows[..count]), Stock)
  {
    var seen: set<string> := {};
    productos := map[];
    count := 0;
    totalStock := 0;
    ghost var read: seq<InventoryRow> := [];
    ghost var cands: seq<MigratedProduct> := [];
    while count < |rows| && Get(rows[count], 'A') != Blank
      invariant count <= Leading(rows) && read == rows[..count]
      invariant ReadAs(read, cands, Candidate)
      invariant productos == Table(Renamed(cands)) && seen == productos.Keys
      invariant totalStock == Sum(Renamed(cands), Stock)
      decreases |rows| - count
    {
      assert count < Leading(rows);
      var r: InventoryRow := rows[count];
      var c := LeerProducto(r, read, cands);
      productos, seen, totalStock := InsertarProducto(c, productos, seen, totalStock, cands);
      SliceSnoc(rows, count);
      read := read + [r];
      cands := cands + [c];
      count := count + 1;
    }
    ReadAsMapped(read, cands, Candidate);
  }

  /** The table never has more products than rows were read, since a repeated SKU overwrites. */
  lemma {:induction false} TableSize(ins: seq<MigratedProduct>)
    ensures |Table(ins)| <= |ins|
    decreases |ins|
  {
    if ins != [] {
      TableSize(ins[..|ins| - 1]);
    }
  }

  /** Each SKU's entry is its last insert. */
  lemma {:induction false} TableLastWins(ins: seq<MigratedProduct>, j: nat)
    requires j < |ins|
    requires forall k :: j < k < |ins| ==> ins[k].sku != ins[j].sku
    ensures ins[j].sku in Table(ins) && Table(ins)[ins[j].sku] == ins[j]
    decreases |ins|
  {
    if j < |ins| - 1 {
      var init := ins[..|ins| - 1];
      assert forall k :: j < k < |init| ==> init[k] == ins[k];
      TableLastWins(init, j);
    }
  }

  /**
   * When the SKUs written in the sheet are all different, nothing is
   * renamed: the inserts are the candidates themselves and the table has
   * one product per row.
   */
  lemma {:induction false} DistinctSkusKept(cs: seq<MigratedProduct>)
    requires forall i, j :: 0 <= i < j < |cs| ==> cs[i].sku != cs[j].sku
    ensures Renamed(cs) == cs
    ensures |Table(cs)| == |cs|
    decreases |cs|
  {
    if cs != [] {
      var init := cs[..|cs| - 1];
      var c := cs[|cs| - 1];
      DistinctSkusKept(init);
      TableKeys(init);
      assert c.sku !in Table(init) by {
        assert forall j :: 0 <= j < |init| ==> init[j].sku != c.sku;
      }
      assert Rename(c, Table(Renamed(init)).Keys) == c;
      assert Renamed(cs) == init + [c];
      SnocSplit(cs);
      assert Table(cs) == Table(init)[c.sku := c];
    }
  }

  /** A repeated SKU of a row whose name gives a size never overwrites the product already stored under it. */
  lemma {:induction false} RepeatedSkuRenamed(cs: seq<MigratedProduct>)
    requires cs != []
    requires var init := cs[..|cs| - 1];
             cs[|cs| - 1].sku in Table(Renamed(init)) && Truthy(cs[|cs| - 1].talla)
    ensures var init := cs[..|cs| - 1];
            Renamed(cs)[|cs| - 1].sku != cs[|cs| - 1].sku
            && Table(Renamed(cs))[cs[|cs| - 1].sku] == Table(Renamed(init))[cs[|cs| - 1].sku]
  {
  }

  // ---------------------------------------------------------------
  // Sales and customer credits
  // ---------------------------------------------------------------

  /**
   * A row of `ventas` as the migration writes it: one unit, no discount,
   * the total equal to the price; the customer cell is stripped when it is
   * not empty and the notes cell is kept as read.
   */
  datatype MigratedSale = MigratedSale(
    fecha: string,
    sku: string,
    cantidad: int,
    precioUnitario: int,
    descuentoPct: int,
    total: int,
    metodoPago: string,
    cliente: Cell,
    notas: Cell)

  /** A row of `creditos_clientes` opened for a migrated credit sale. */
  datatype MigratedCredit = MigratedCredit(
    ventaId: int,
    cliente: Cell,
    monto: int,
    fechaCredito: string,
    pagado: int,
    notas: Cell)

  /** A sales row the loop reads: it has a date and its price is empty or a number. */
  predicate SaleRowOk(r: Row) {
    Get(r, 'A') != Blank && NumericCol(r, 'E')
  }

  type SaleRow = r: Row | SaleRowOk(r) witness map['A' := Number(0)]

  /** `cliente = str(cliente).strip()` when the cell is not empty; an empty cell is kept as it is. */
  function ClienteDe(g: Cell): (c: Cell)
    ensures CellTruthy(c) <==> CellTruthy(g) && Strip(Str(g)) != ""
  {
    if CellTruthy(g) then Text(Strip(Str(g))) else g
  }

  /** The sale a row describes. */
  function VentaDe(r: SaleRow): MigratedSale {
    var precio := NumCol(r, 'E');
    MigratedSale(ToDateStr(Get(r, 'A')).value, TextCol(r, 'B', ""), 1, precio, 0, precio,
                 NormalizarMetodo(TextCol(r, 'F', "")), ClienteDe(Get(r, 'G')), Get(r, 'H'))
  }

  /** A sale opens a credit when its method is the credit method and its customer is not empty. */
  predicate DaCredito(v: MigratedSale) {
    v.metodoPago == CREDITO && CellTruthy(v.cliente)
  }

  /** The credit opened for sale `v` stored under id `ventaId`: the whole total, nothing paid yet. */
  function CreditoDe(v: MigratedSale, ventaId: int): MigratedCredit {
    MigratedCredit(ventaId, v.cliente, v.total, v.fecha, 0, v.notas)
  }

  /** The credits the sales open; the sale at position `k` gets the id `primerId + k`. */
  function Creditos(vs: seq<MigratedSale>, primerId: int): (cs: seq<MigratedCredit>)
    ensures |cs| <= |vs|
  {
    if vs == [] then []
    else
      var k := |vs| - 1;
      Creditos(vs[..k], primerId) + (if DaCredito(vs[k]) then [CreditoDe(vs[k], primerId + k)] else [])
  }

  lemma CreditosSnoc(vs: seq<MigratedSale>, v: MigratedSale, primerId: int)
    ensures Creditos(vs + [v], primerId)
         == Creditos(vs, primerId) + (if DaCredito(v) then [CreditoDe(v, primerId + |vs|)] else [])
  {
    assert (vs + [v])[..|vs|] == vs;
  }

  /** Reading one sales row: the sale read is the row's sale. */
  method LeerVenta(r: SaleRow, ghost read: seq<SaleRow>, ghost vs: seq<MigratedSale>) returns (v: MigratedSale)
    requires ReadAs(read, vs, VentaDe)
    ensures ReadAs(read + [r], vs + [v], VentaDe)
  {
    var precio := NumCol(r, 'E');
    var cliente := Get(r, 'G');
    if CellTruthy(cliente) {
      cliente := Text(Strip(Str(cliente)));
    }
    var metodo := NormalizarMetodo(TextCol(r, 'F', ""));
    v := MigratedSale(ToDateStr(Get(r, 'A')).value, TextCol(r, 'B', ""), 1, precio, 0, precio,
                      metodo, cliente, Get(r, 'H'));
    ReadAsSnoc(read, vs, VentaDe, r, v);
  }

  /** The credit rows inserted after sale `v` was stored under `ventaId`: one for a credit sale with a customer, none otherwise. */
  method AbrirCredito(v: MigratedSale, ventaId: int) returns (nuevos: seq<MigratedCredit>)
    ensures nuevos == if DaCredito(v) then [CreditoDe(v, ventaId)] else []
  {
    nuevos := [];
    if v.metodoPago == CREDITO && CellTruthy(v.cliente) {
      nuevos := [MigratedCredit(ventaId, v.cliente, v.total, v.fecha, 0, v.notas)];
    }
  }

  /**
   * `migrate_ventas`: reads rows until the first one without a date, inserts
   * each sale (the `k`-th under id `primerId + k`) and, for a credit sale
   * with a customer, a credit for its total; returns both counts.
   */
  method MigrarVentas(rows: seq<Row>, primerId: int)
    returns (ventas: seq<MigratedSale>, creditos: seq<MigratedCredit>, count: nat, nCreditos: nat)
    requires forall j :: 0 <= j < Leading(rows) ==> NumericCol(rows[j], 'E')
    ensures count == Leading(rows)
    ensures ventas == Mapped<SaleRow, MigratedSale>(rows[..count], VentaDe)
    ensures creditos == Creditos(ventas, primerId)
    ensures nCreditos == |creditos|
  {
    ventas, creditos, count, nCreditos := [], [], 0, 0;
    ghost var read: seq<SaleRow> := [];
    while count < |rows| && Get(rows[count], 'A') != Blank
      invariant count <= Leading(rows) && read == rows[..count]
      invariant ReadAs(read, ventas, VentaDe)
      invariant creditos == Creditos(ventas, primerId) && nCreditos == |creditos|
      decreases |rows| - count
    {
      assert count < Leading(rows);
      var r: SaleRow := rows[count];
      var v := LeerVenta(r, read, ventas);
      var nuevos := AbrirCredito(v, primerId + count);
      CreditosSnoc(ventas, v, primerId);
      ventas := ventas + [v];
      creditos := creditos + nuevos;
      nCreditos := nCreditos + |nuevos|;
      SliceSnoc(rows, count);
      read := read + [r];
      count := count + 1;
    }
    ReadAsMapped(read, ventas, VentaDe);
  }

  /** Every migrated sale is one unit at the sheet's price, without discount, and its total is that price. */
  lemma VentaUnidad(rows: seq<SaleRow>, k: nat)
    requires k < |rows|
    ensures var v := Mapped(rows, VentaDe)[k];
            && v.cantidad == 1 && v.descuentoPct == 0
            && v.precioUnitario == NumCol(rows[k], 'E') && v.total == v.precioUnitario
  {
    MappedAt(rows, VentaDe, k);
  }

  /** The credits are exactly those of the credit sales, in order, each under its sale's id. */
  lemma {:induction false} CreditosDeVentas(vs: seq<MigratedSale>, primerId: int)
    ensures forall c :: c in Creditos(vs, primerId) ==>
              exists k :: 0 <= k < |vs| && DaCredito(vs[k]) && c == CreditoDe(vs[k], primerId + k)
    ensures forall k :: 0 <= k < |vs| && DaCredito(vs[k]) ==> CreditoDe(vs[k], primerId + k) in Creditos(vs, primerId)
    decreases |vs|
  {
    if vs != [] {
      var n := |vs| - 1;
      var init := vs[..n];
      CreditosDeVentas(init, primerId);
      assert forall k :: 0 <= k < n ==> init[k] == vs[k];
    }
  }

  /**
   * Sale `k` has a credit exactly when its method, normalised, is the
   * credit method and its customer cell is not blank once stripped; that
   * credit is for the sale's price, on the sale's date, with nothing paid.
   */
  lemma TieneCredito(rows: seq<SaleRow>, primerId: int, k: nat)
    requires k < |rows|
    ensures var cs, r := Creditos(Mapped(rows, VentaDe), primerId), rows[k];
            && ((exists c :: c in cs && c.ventaId == primerId + k)
                  <==> NormalizarMetodo(TextCol(r, 'F', "")) == CREDITO
                       && CellTruthy(Get(r, 'G')) && Strip(Str(Get(r, 'G'))) != "")
            && (forall c :: c in cs && c.ventaId == primerId + k ==>
                  c.monto == NumCol(r, 'E') && c.fechaCredito == ToDateStr(Get(r, 'A')).value && c.pagado == 0)
  {
    CreditoDeVenta(Mapped(rows, VentaDe), primerId, k);
    MappedAt(rows, VentaDe, k);
    VentaCampos(rows[k]);
  }

  /** Sale `k` has a credit exactly when it opens one, and that credit is the one it opens. */
  lemma CreditoDeVenta(vs: seq<MigratedSale>, primerId: int, k: nat)
    requires k < |vs|
    ensures var cs := Creditos(vs, primerId);
            && ((exists c :: c in cs && c.ventaId == primerId + k) <==> DaCredito(vs[k]))
            && (forall c :: c in cs && c.ventaId == primerId + k ==> c == CreditoDe(vs[k], primerId + k))
  {
    var cs := Creditos(vs, primerId);
    CreditosDeVentas(vs, primerId);
    forall c | c in cs && c.ventaId == primerId + k
      ensures DaCredito(vs[k]) && c == CreditoDe(vs[k], primerId + k)
    {
      var j :| 0 <= j < |vs| && DaCredito(vs[j]) && c == CreditoDe(vs[j], primerId + j);
      assert j == k;
    }
    if DaCredito(vs[k]) {
      assert CreditoDe(vs[k], primerId + k) in cs;
    }
  }

  /** The fields of a row's sale that its credit copies, and when it opens one. */
  lemma VentaCampos(r: SaleRow)
    ensures var v := VentaDe(r);
            && v.total == NumCol(r, 'E') && v.fecha == ToDateStr(Get(r, 'A')).value
            && (DaCredito(v) <==> NormalizarMetodo(TextCol(r, 'F', "")) == CREDITO
                                  && CellTruthy(Get(r, 'G')) && Strip(Str(Get(r, 'G'))) != "")
  {
  }

  /** A sales row whose method mentions `cr` in any case and whose customer is filled in opens a credit. */
  lemma CreditoPorMetodo(r: SaleRow)
    requires Contains(Lower(TextCol(r, 'F', "")), "cr")
    requires CellTruthy(Get(r, 'G')) && Strip(Str(Get(r, 'G'))) != ""
    ensures DaCredito(VentaDe(r))
  {
  }

  // ---------------------------------------------------------------
  // Expenses
  // ---------------------------------------------------------------

  /** Expenses dated before the shop opened count as investment. */
  const FECHA_APERTURA: string := "2026-02-15"

  /** A row of `gastos` as the migration writes it. */
  datatype MigratedExpense = MigratedExpense(
    fecha: string,
    categoria: string,
    monto: int,
    descripcion: string,
    metodoPago: Option<string>,
    pagadoPor: string,
    esInversion: int,
    notas: Option<string>)

  function PagadoPor(g: MigratedExpense): string { g.pagadoPor }

  function MontoDe(g: MigratedExpense): int { g.monto }

  /** An expense row the loop reads: when it has a date and an amount, `float` accepts the amount. */
  predicate ExpenseRowOk(r: Row) {
    Get(r, 'A') == Blank || Get(r, 'C') == Blank || Parseable(Get(r, 'C'))
  }

  type ExpenseRow = r: Row | ExpenseRowOk(r) witness map[]

  /** The notes column: stripped when not empty, and no notes when that leaves `None` or nothing. */
  function NotasGasto(r: Row): (n: Option<string>)
    ensures n != Some("None") && n != Some("")
  {
    var n := OptTextCol(r, 'G');
    if n == Some("None") || n == Some("") then None else n
  }

  /** Who paid, given the responsible name written in the sheet: that partner after the old name is mapped, or `JP`. */
  function PagadorNombre(nombre: string): string {
    var responsable := FixSocio(Some(nombre));
    if IsSocio(responsable.value) then responsable.value else JP
  }

  /** Who paid: `JP` when the responsible cell is empty. */
  function PagadorDe(r: Row): string {
    var f := Get(r, 'F');
    if CellTruthy(f) then PagadorNombre(Strip(Str(f))) else JP
  }

  /**
   * The expense a row records, or nothing when the row lacks a date or an
   * amount or its amount is zero.
   */
  function GastoDe(r: ExpenseRow): Option<MigratedExpense> {
    var a, c := Get(r, 'A'), Get(r, 'C');
    if a == Blank || c == Blank then None
    else if NumValue(c) == 0 then None
    else
      var fecha := ToDateStr(a).value;
      Some(MigratedExpense(fecha, OptTextCol(r, 'B').GetOr(""), NumValue(c), OptTextCol(r, 'D').GetOr(""),
                           OptTextCol(r, 'E'), PagadorDe(r),
                           if fecha != "" && LexLess(fecha, FECHA_APERTURA) then 1 else 0, NotasGasto(r)))
  }

  /** Reading one expense row (the loop body up to the insert): the row's expense, if any. */
  method LeerGasto(r: ExpenseRow, ghost read: seq<ExpenseRow>, ghost opts: seq<Option<MigratedExpense>>)
    returns (o: Option<MigratedExpense>)
    requires ReadAs(read, opts, GastoDe)
    ensures ReadAs(read + [r], opts + [o], GastoDe)
  {
    var fecha, monto := Get(r, 'A'), Get(r, 'C');
    if fecha == Blank || monto == Blank {
      o := None;
    } else if NumValue(monto) == 0 {
      o := None;
    } else {
      var fechaStr := ToDateStr(fecha).value;
      var esInversion := if fechaStr != "" && LexLess(fechaStr, FECHA_APERTURA) then 1 else 0;
      o := Some(MigratedExpense(fechaStr, OptTextCol(r, 'B').GetOr(""), NumValue(monto), OptTextCol(r, 'D').GetOr(""),
                                OptTextCol(r, 'E'), PagadorDe(r), esInversion, NotasGasto(r)));
    }
    ReadAsSnoc(read, opts, GastoDe, r, o);
  }

  lemma GroupSumSnoc<T(!new), K(!new)>(s: seq<T>, x: T, key: T -> K, f: T -> int)
    ensures GroupSum(s + [x], key, f) == Bump(GroupSum(s, key, f), key(x), f(x))
  {
    assert (s + [x])[..|s|] == s;
  }

  /**
   * `migrate_gastos`: goes through every row, skipping the ones without an
   * expense, inserts the others in order, and adds each amount to its
   * payer's running total.
   */
  method MigrarGastos(rows: seq<Row>) returns (gastos: seq<MigratedExpense>, totales: map<string, int>, count: nat)
    requires forall j :: 0 <= j < |rows| ==> ExpenseRowOk(rows[j])
    ensures gastos == Present(Mapped<ExpenseRow, Option<MigratedExpense>>(rows, GastoDe))
    ensures count == |gastos|
    ensures totales == GroupSum(gastos, PagadoPor, MontoDe)
  {
    gastos, totales, count := [], map[], 0;
    ghost var read: seq<ExpenseRow> := [];
    ghost var opts: seq<Option<MigratedExpense>> := [];
    for i := 0 to |rows|
      invariant read == rows[..i]
      invariant ReadAs(read, opts, GastoDe)
      invariant gastos == Present(opts) && count == |gastos|
      invariant totales == GroupSum(gastos, PagadoPor, MontoDe)
    {
      var r: ExpenseRow := rows[i];
      var o := LeerGasto(r, read, opts);
      PresentSnoc(opts, o);
      if o.Some? {
        var g := o.value;
        GroupSumSnoc(gastos, g, PagadoPor, MontoDe);
        gastos := gastos + [g];
        count := count + 1;
        totales := Bump(totales, g.pagadoPor, g.monto);
      }
      SliceSnoc(rows, i);
      read := read + [r];
      opts := opts + [o];
    }
    assert rows[..|rows|] == rows;
    ReadAsMapped(read, opts, GastoDe);
  }

  /** A row is skipped exactly when it has no date, no amount, or an amount of zero. */
  lemma GastoOmitido(r: ExpenseRow)
    ensures GastoDe(r).None?
        <==> Get(r, 'A') == Blank || Get(r, 'C') == Blank || NumValue(Get(r, 'C')) == 0
  {
  }

  /**
   * An imported expense keeps the sheet's amount, which is not zero, is
   * paid by a partner, and is an investment exactly when it is dated
   * before the opening day.
   */
  lemma GastoReglas(r: ExpenseRow)
    requires GastoDe(r).Some?
    ensures var g := GastoDe(r).value;
            && g.monto == NumValue(Get(r, 'C')) && g.monto != 0
            && g.fecha == ToDateStr(Get(r, 'A')).value
            && g.pagadoPor == PagadorDe(r) && IsSocio(g.pagadoPor)
            && (g.esInversion == 1 <==> g.fecha != "" && LexLess(g.fecha, FECHA_APERTURA))
            && (g.esInversion == 0 || g.esInversion == 1)
  {
    PagadorSocio(r);
  }

  /** The payer is always one of the partners. */
  lemma PagadorSocio(r: Row)
    ensures IsSocio(PagadorDe(r))
  {
  }

  /**
   * A responsible name is kept (blanks aside) when it is a partner, becomes
   * `ANDRES` when it is the old name `MILE`, and is replaced by `JP` otherwise.
   */
  lemma PagadorNombreReglas(nombre: string)
    ensures IsSocio(Strip(nombre)) ==> PagadorNombre(nombre) == Strip(nombre)
    ensures Strip(nombre) == "MILE" ==> PagadorNombre(nombre) == ANDRES
    ensures !IsSocio(Strip(nombre)) && Strip(nombre) != "MILE" ==> PagadorNombre(nombre) == JP
  {
    var n := Strip(nombre);
    if nombre == "" {
      assert n == "" && !IsSocio(n);
      assert FixSocio(Some(nombre)) == Some("");
      assert PagadorNombre(nombre) == JP;
    } else if n == "MILE" {
      assert FixSocio(Some(nombre)) == Some(ANDRES);
      assert IsSocio(ANDRES) && !IsSocio(n);
      assert PagadorNombre(nombre) == ANDRES;
    } else {
      assert FixSocio(Some(nombre)) == Some(n);
      assert PagadorNombre(nombre) == if IsSocio(n) then n else JP;
    }
  }

  /** The payer of a row: `JP` for an empty responsible cell, otherwise the rule on the stripped name. */
  lemma PagadorReglas(r: Row)
    ensures var f := Get(r, 'F');
            && (!CellTruthy(f) ==> PagadorDe(r) == JP)
            && (CellTruthy(f) && IsSocio(Strip(Str(f))) ==> PagadorDe(r) == Strip(Str(f)))
            && (CellTruthy(f) && Strip(Str(f)) == "MILE" ==> PagadorDe(r) == ANDRES)
            && (CellTruthy(f) && !IsSocio(Strip(Str(f))) && Strip(Str(f)) != "MILE" ==> PagadorDe(r) == JP)
  {
    var f := Get(r, 'F');
    if CellTruthy(f) {
      var n := Strip(Str(f));
      StripIdempotent(Str(f));
      PagadorNombreReglas(n);
    }
  }

  /** Every expense the migration keeps obeys the row rules. */
  lemma GastosReglas(rows: seq<ExpenseRow>)
    ensures forall g: MigratedExpense :: g in Present(Mapped(rows, GastoDe)) ==>
              && g.monto != 0 && IsSocio(g.pagadoPor)
              && (g.esInversion == 1 <==> g.fecha != "" && LexLess(g.fecha, FECHA_APERTURA))
  {
    var opts: seq<Option<MigratedExpense>> := Mapped(rows, GastoDe);
    PresentMembers(opts);
    forall g: MigratedExpense | g in Present(opts)
      ensures g.monto != 0 && IsSocio(g.pagadoPor)
      ensures g.esInversion == 1 <==> g.fecha != "" && LexLess(g.fecha, FECHA_APERTURA)
    {
      var j :| 0 <= j < |opts| && opts[j] == Some(g);
      MappedAt(rows, GastoDe, j);
      GastoReglas(rows[j]);
    }
  }

  /**
   * Each payer's running total is the sum of the amounts of that payer's
   * expenses, and when every expense is paid by a partner only partners
   * have totals.
   */
  lemma TotalesPorSocio(gastos: seq<MigratedExpense>)
    ensures var m := GroupSum(gastos, PagadoPor, MontoDe);
            forall k :: k in m ==> m[k] == Sum(Where(gastos, KeyIs(PagadoPor, k)), MontoDe)
    ensures (forall g :: g in gastos ==> IsSocio(g.pagadoPor)) ==>
              forall k :: k in GroupSum(gastos, PagadoPor, MontoDe) ==> IsSocio(k)
  {
    forall k | k in GroupSum(gastos, PagadoPor, MontoDe)
      ensures GroupSum(gastos, PagadoPor, MontoDe)[k] == Sum(Where(gastos, KeyIs(PagadoPor, k)), MontoDe)
    {
      GroupSumAt(gastos, PagadoPor, MontoDe, k);
    }
  }

  // ---------------------------------------------------------------
  // Supplier orders
  // ---------------------------------------------------------------

  /** A row of `pedidos_proveedores` as the migration writes it; the total is the sheet's, not recomputed. */
  datatype MigratedOrder = MigratedOrder(
    fechaPedido: string,
    proveedor: string,
    descripcion: string,
    unidades: int,
    costoUnitario: int,
    total: int,
    estado: string,
    fechaEntregaEst: Option<string>,
    notas: Option<string>)

  /** An order row the loop reads: it has a date and its three amount cells are empty or numbers. */
  predicate OrderRowOk(r: Row) {
    Get(r, 'A') != Blank && NumericCol(r, 'D') && NumericCol(r, 'E') && NumericCol(r, 'F')
  }

  type OrderRow = r: Row | OrderRowOk(r) witness map['A' := Number(0)]

  /**
   * The notes column: stripped when not empty, no notes when that leaves
   * `None`, and the old partner name `MILE` replaced by `ANDRES` in
   * non-empty notes.
   */
  function NotasPedido(r: Row): Option<string> {
    var n := OptTextCol(r, 'I');
    var n' := if n == Some("None") then None else n;
    if Truthy(n') then Some(Replace(n'.value, "MILE", ANDRES)) else n'
  }

  /** The order a row describes, with the `2025-02` date typo fixed. */
  function PedidoDe(r: OrderRow): MigratedOrder {
    MigratedOrder(CorregirFecha(ToDateStr(Get(r, 'A'))).value, TextCol(r, 'B', ""), TextCol(r, 'C', ""),
                  NumCol(r, 'D'), NumCol(r, 'E'), NumCol(r, 'F'), TextCol(r, 'G', PENDIENTE),
                  ToDateStr(Get(r, 'H')), NotasPedido(r))
  }

  /** Reading one order row: the order read is the row's order. */
  method LeerPedido(r: OrderRow, ghost read: seq<OrderRow>, ghost ps: seq<MigratedOrder>) returns (p: MigratedOrder)
    requires ReadAs(read, ps, PedidoDe)
    ensures ReadAs(read + [r], ps + [p], PedidoDe)
  {
    var notas := OptTextCol(r, 'I');
    if notas == Some("None") {
      notas := None;
    }
    if Truthy(notas) {
      notas := Some(Replace(notas.value, "MILE", ANDRES));
    }
    var fechaStr := ToDateStr(Get(r, 'A'));
    if Truthy(fechaStr) && StartsWith(fechaStr.value, "2025-02") {
      fechaStr := Some("2026" + fechaStr.value[4..]);
    }
    p := MigratedOrder(fechaStr.value, TextCol(r, 'B', ""), TextCol(r, 'C', ""),
                       NumCol(r, 'D'), NumCol(r, 'E'), NumCol(r, 'F'), TextCol(r, 'G', PENDIENTE),
                       ToDateStr(Get(r, 'H')), notas);
    ReadAsSnoc(read, ps, PedidoDe, r, p);
  }

  /** `migrate_pedidos`: reads rows until the first one without a date and inserts each order. */
  method MigrarPedidos(rows: seq<Row>) returns (pedidos: seq<MigratedOrder>, count: nat)
    requires forall j :: 0 <= j < Leading(rows) ==> NumericCol(rows[j], 'D') && NumericCol(rows[j], 'E') && NumericCol(rows[j], 'F')
    ensures count == Leading(rows)
    ensures pedidos == Mapped<OrderRow, MigratedOrder>(rows[..count], PedidoDe)
  {
    pedidos, count := [], 0;
    ghost var read: seq<OrderRow> := [];
    while count < |rows| && Get(rows[count], 'A') != Blank
      invariant count <= Leading(rows) && read == rows[..count]
      invariant ReadAs(read, pedidos, PedidoDe) && count == |pedidos|
      decreases |rows| - count
    {
      assert count < Leading(rows);
      var r: OrderRow := rows[count];
      var p := LeerPedido(r, read, pedidos);
      pedidos := pedidos + [p];
      SliceSnoc(rows, count);
      read := read + [r];
      count := count + 1;
    }
    ReadAsMapped(read, pedidos, PedidoDe);
  }

  /**
   * No order date keeps the `2025-02` typo: such a date gets the year
   * `2026` and keeps the rest, any other date is the sheet's as written.
   */
  lemma PedidoFecha(r: OrderRow)
    ensures var f, orig := PedidoDe(r).fechaPedido, ToDateStr(Get(r, 'A')).value;
            && !StartsWith(f, "2025-02") && |f| == |orig|
            && (StartsWith(orig, "2025-02") ==> f == "2026" + orig[4..])
            && (!StartsWith(orig, "2025-02") ==> f == orig)
  {
    var orig := ToDateStr(Get(r, 'A'));
    assert orig.Some?;
    CorregirFechaSpec(orig);
    assert PedidoDe(r).fechaPedido == CorregirFecha(orig).value;
    if StartsWith(orig.value, "2025-02") {
      assert |orig.value| >= 7 && Truthy(orig);
      assert CorregirFecha(orig) == Some("2026" + orig.value[4..]);
    }
  }

  lemma StripPendiente()
    ensures Strip(PENDIENTE) == PENDIENTE
  {
    assert PENDIENTE[0] == 'P' && PENDIENTE[|PENDIENTE| - 1] == 'e';
    StripTrimmed(PENDIENTE);
  }

  lemma StripNone()
    ensures Strip("None") == "None"
  {
    assert "None"[0] == 'N' && "None"[3] == 'e';
    StripTrimmed("None");
  }

  /**
   * The status defaults to `Pendiente` only when the sheet has no status
   * column at all; an empty status cell reads as the text `None`, and a
   * written one is kept, stripped.
   */
  lemma EstadoPedido(r: OrderRow)
    ensures 'G' !in r ==> PedidoDe(r).estado == PENDIENTE
    ensures 'G' in r && r['G'] == Blank ==> PedidoDe(r).estado == "None"
    ensures 'G' in r && r['G'].Text? ==> PedidoDe(r).estado == Strip(r['G'].s)
  {
    assert PedidoDe(r).estado == TextCol(r, 'G', PENDIENTE);
    if 'G' !in r {
      StripPendiente();
    } else if r['G'] == Blank {
      assert Str(Get(r, 'G', Text(PENDIENTE))) == "None";
      StripNone();
    }
  }

  /** The migrated total is the sheet's total cell, whatever the units and unit cost say. */
  lemma PedidoTotal(r: OrderRow)
    ensures PedidoDe(r).total == NumCol(r, 'F')
    ensures PedidoDe(r).unidades == NumCol(r, 'D') && PedidoDe(r).costoUnitario == NumCol(r, 'E')
  {
  }

  lemma {:induction false} ContainsShort(s: string, sub: string)
    requires |s| < |sub|
    ensures !Contains(s, sub)
    decreases |s|
  {
    if s != [] {
      ContainsShort(s[1..], sub);
    }
  }

  /** Text without an `M` in front of text free of `MILE` is still free of it. */
  lemma {:induction false} NoMileAfter(x: string, u: string)
    requires forall i :: 0 <= i < |x| ==> x[i] != 'M'
    requires !Contains(u, "MILE")
    ensures !Contains(x + u, "MILE")
    decreases |x|
  {
    if x != [] {
      NoMileAfter(x[1..], u);
      assert (x + u)[1..] == x[1..] + u;
      assert (x + u)[0] == x[0];
      assert !StartsWith(x + u, "MILE");
    } else {
      assert x + u == u;
    }
  }

  /** A rewritten text starts with a word free of `M` and `A` only when the original does. */
  lemma {:induction false} ReplacePrefixMile(x: string, w: string)
    requires forall i :: 0 <= i < |w| ==> w[i] != 'M' && w[i] != 'A'
    ensures StartsWith(Replace(x, "MILE", ANDRES), w) ==> StartsWith(x, w)
    decreases |x|
  {
    if w != [] && |x| >= 4 {
      if x[..4] == "MILE" {
        assert Replace(x, "MILE", ANDRES)[0] == 'A';
      } else {
        var u := Replace(x[1..], "MILE", ANDRES);
        assert Replace(x, "MILE", ANDRES) == [x[0]] + u;
        ReplacePrefixMile(x[1..], w[1..]);
      }
    }
  }

  /** Replacing `MILE` by `ANDRES` leaves no `MILE` behind. */
  lemma {:induction false} ReplaceMile(s: string)
    ensures !Contains(Replace(s, "MILE", ANDRES), "MILE")
    decreases |s|
  {
    var t := Replace(s, "MILE", ANDRES);
    if |s| < 4 {
      ContainsShort(s, "MILE");
    } else if s[..4] == "MILE" {
      ReplaceMile(s[4..]);
      NoMileAfter(ANDRES, Replace(s[4..], "MILE", ANDRES));
    } else {
      var u := Replace(s[1..], "MILE", ANDRES);
      ReplaceMile(s[1..]);
      assert t == [s[0]] + u;
      if s[0] == 'M' {
        ReplacePrefixMile(s[1..], "ILE");
        assert s[1..][..3] != "ILE";
      } else {
        assert t[0] == s[0];
      }
      assert !StartsWith(t, "MILE");
      assert t[1..] == u;
    }
  }

  /**
   * Order notes: none for an empty cell or the text `None`, and no `MILE`
   * left in the notes kept.
   */
  lemma NotasPedidoReglas(r: Row)
    ensures !CellTruthy(Get(r, 'I')) ==> NotasPedido(r).None?
    ensures Strip(Str(Get(r, 'I'))) == "None" ==> NotasPedido(r).None?
    ensures NotasPedido(r).Some? ==> !Contains(NotasPedido(r).value, "MILE")
  {
    var n := OptTextCol(r, 'I');
    if n.Some? && n.value != "None" && n.value != "" {
      ReplaceMile(n.value);
    } else if n == Some("") {
      ContainsShort("", "MILE");
    }
  }
}
