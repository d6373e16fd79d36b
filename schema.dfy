/**
 * The seven tables of the ORVANN ledger as row datatypes, the status and
 * payment-method strings the business logic compares against, calendar
 * dates, and the errors the operations raise.
 */
module Schema {
  import opened Common
  import Strings

  /** The three partners, in the order the settlement and the even split use. */
  const JP: string := "JP"
  const KATHE: string := "KATHE"
  const ANDRES: string := "ANDRES"
  const SOCIOS: seq<string> := [JP, KATHE, ANDRES]

  const EFECTIVO: string := "Efectivo"
  const TRANSFERENCIA: string := "Transferencia"
  const DATAFONO: string := "Datáfono"
  const CREDITO: string := "Crédito"

  const PENDIENTE: string := "Pendiente"
  const PAGADO: string := "Pagado"
  const COMPLETO: string := "Completo"

  /** Category of the expense an order payment records. */
  const MERCANCIA: string := "Mercancía"

  predicate IsSocio(s: string) {
    s in SOCIOS
  }

  /**
   * A calendar day. The ledger stores ISO `YYYY-MM-DD` strings and compares
   * them as strings, which for four-digit years is the order on
   * (year, month, day) used here.
   */
  datatype Date = Date(year: int, month: int, day: int) {
    predicate Before(other: Date) {
      year < other.year
      || (year == other.year && month < other.month)
      || (year == other.year && month == other.month && day < other.day)
    }

    predicate AtOrBefore(other: Date) {
      this == other || Before(other)
    }
  }

  /** A proper calendar day: month in 1..12 and day in 1..31. */
  predicate WellFormedDate(d: Date) {
    1 <= d.month <= 12 && 1 <= d.day <= 31
  }

  /** The first day of the month after `month` of `year`, as the month reports compute it. */
  function NextMonthStart(year: int, month: int): (d: Date)
    ensures d.day == 1
    ensures month == 12 ==> d.year == year + 1 && d.month == 1
    ensures month != 12 ==> d.year == year && d.month == month + 1
  {
    if month == 12 then Date(year + 1, 1, 1) else Date(year, month + 1, 1)
  }

  /** A row of `productos`; the sku is the primary key. */
  datatype Product = Product(
    sku: string,
    nombre: string,
    categoria: Option<string>,
    talla: Option<string>,
    color: Option<string>,
    costo: int,
    precioVenta: int,
    stock: int,
    stockMinimo: int,
    proveedor: Option<string>,
    notas: Option<string>)

  /** A row of `ventas`; `total` is the discounted amount the sale was recorded for. */
  datatype Sale = Sale(
    id: int,
    fecha: Date,
    hora: string,
    sku: string,
    cantidad: int,
    precioUnitario: int,
    descuentoPct: int,
    total: real,
    metodoPago: string,
    cliente: Option<string>,
    vendedor: Option<string>,
    notas: Option<string>)

  /** A row of `creditos_clientes`, the receivable a credit sale opens. */
  datatype Credit = Credit(
    id: int,
    ventaId: Option<int>,
    cliente: string,
    monto: real,
    montoPagado: Option<real>,
    fechaCredito: Date,
    fechaPago: Option<Date>,
    pagado: bool,
    notas: Option<string>)

  /** A row of `gastos`: one real payment by one payer. */
  datatype Expense = Expense(
    id: int,
    fecha: Date,
    categoria: string,
    monto: int,
    descripcion: Option<string>,
    metodoPago: Option<string>,
    pagadoPor: string,
    esInversion: int,
    notas: Option<string>)

  /** A row of `caja_diaria`, keyed by its date. */
  datatype CashDay = CashDay(
    fecha: Date,
    efectivoInicio: int,
    efectivoCierreReal: Option<int>,
    cerrada: bool,
    notas: Option<string>)

  /** A row of `pedidos_proveedores`. */
  datatype Order = Order(
    id: int,
    fechaPedido: Date,
    proveedor: string,
    descripcion: Option<string>,
    unidades: int,
    costoUnitario: int,
    total: int,
    estado: string,
    pagadoPor: Option<string>,
    fechaEntregaEst: Option<Date>,
    notas: Option<string>)

  /** A row of `costos_fijos`; only rows with `activo = 1` enter the break-even point. */
  datatype FixedCost = FixedCost(
    id: int,
    concepto: string,
    montoMensual: int,
    activo: int,
    notas: Option<string>)

  /** The exceptions the ledger operations raise. */
  datatype Error =
    | NotFound
    | InsufficientStock(available: int, requested: int)
    | CreditNeedsClient
    | AlreadyPaid
    | InvalidAmount
    | WrongState(estado: string)
    | HasSales(count: nat)
    | DuplicateKey

  /** Python truthiness of an optional string: neither None nor empty. */
  predicate Truthy(s: Option<string>) {
    s.Some? && s.value != ""
  }

  /** `precio * cantidad * (1 - descuento / 100)`, the amount a sale is recorded for. */
  function SaleTotal(precio: int, cantidad: int, descuento: int): (t: real)
    ensures descuento == 0 ==> t == (precio * cantidad) as real
    ensures descuento == 100 ==> t == 0.0
    ensures 0 <= descuento <= 100 && precio >= 0 && cantidad >= 0 ==> 0.0 <= t <= (precio * cantidad) as real
  {
    var gross := (precio * cantidad) as real;
    var factor := 1.0 - descuento as real / 100.0;
    assert 0 <= descuento <= 100 ==> 0.0 <= factor <= 1.0;
    assert 0 <= precio && 0 <= cantidad ==> 0.0 <= gross;
    assert 0.0 <= gross && 0.0 <= factor <= 1.0 ==> 0.0 <= gross * factor <= gross;
    gross * factor
  }

  /** The text `pagar_pedido` gives the expense it records for an order. */
  function OrderPaymentDescription(o: Order): (s: string)
    ensures Strings.StartsWith(s, "Pedido #")
    ensures var n, m := |Strings.IntToString(o.id)|, |o.proveedor|;
      |s| >= 13 + n + m
      && s[8..8 + n] == Strings.IntToString(o.id)
      && s[8 + n..11 + n] == " — "
      && s[11 + n..11 + n + m] == o.proveedor
      && s[11 + n + m..13 + n + m] == ": "
      && s[13 + n + m..] == (match o.descripcion case Some(d) => d case None => "None")
  {
    var id, d := Strings.IntToString(o.id), (match o.descripcion case Some(d) => d case None => "None");
    var s := "Pedido #" + id + " — " + o.proveedor + ": " + d;
    assert s == "Pedido #" + (id + (" — " + (o.proveedor + (": " + d))));
    s
  }

  /** The order number can be read back from the expense text: the digits after `#` spell the id. */
  lemma OrderPaymentDescriptionId(o: Order)
    requires o.id >= 0
    ensures var s, n := OrderPaymentDescription(o), |Strings.NatToString(o.id)|;
      |s| >= 8 + n
      && (forall i :: 8 <= i < 8 + n ==> Strings.IsDigit(s[i]))
      && Strings.ParseNat(s[8..8 + n]) == o.id
  {
    var s := OrderPaymentDescription(o);
    var d := Strings.NatToString(o.id);
    assert s[8..8 + |d|] == d;
    Strings.ParseNatToString(o.id);
  }
}
