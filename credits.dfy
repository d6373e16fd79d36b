/**
 * Customer credits: the open receivables with their sale and product, paying
 * a credit off in full, and partial payments that settle it once they cover
 * the amount owed.
 */
module Credits {
  import opened Common
  import opened Schema
  import opened Tables
  import opened Database

  /** A row of `get_creditos_pendientes`: the credit with its sale's date and sku and the product's name, when they exist. */
  datatype PendingCredit = PendingCredit(
    credito: Credit,
    fechaVenta: Option<Date>,
    sku: Option<string>,
    productoNombre: Option<string>)

  /** `WHERE pagado = 0`. */
  function Open(): (p: Credit -> bool)
    ensures forall c {:trigger p(c)} :: p(c) <==> !c.pagado
  {
    (c: Credit) => !c.pagado
  }

  /** The two `LEFT JOIN`s for one credit: its sale when it has one on record, and that sale's product. */
  function Joined(db: Db, c: Credit): (r: PendingCredit)
    ensures r.credito == c
    ensures r.fechaVenta.Some? <==> c.ventaId.Some? && HasSale(db, c.ventaId.value)
    ensures r.productoNombre.Some? ==> r.sku.Some? && HasProduct(db, r.sku.value)
  {
    var v := if c.ventaId.Some? then FindSale(db, c.ventaId.value) else None;
    var p := if v.Some? then FindProduct(db, v.value.sku) else None;
    PendingCredit(c,
                  if v.Some? then Some(v.value.fecha) else None,
                  if v.Some? then Some(v.value.sku) else None,
                  if p.Some? then Some(p.value.nombre) else None)
  }

  function JoinAll(db: Db, cs: seq<Credit>): (r: seq<PendingCredit>)
    ensures |r| == |cs|
    ensures forall i :: 0 <= i < |cs| ==> r[i] == Joined(db, cs[i])
  {
    if cs == [] then [] else JoinAll(db, cs[..|cs| - 1]) + [Joined(db, cs[|cs| - 1])]
  }

  /** `get_creditos_pendientes`: every credit not yet paid, joined with its sale and product. */
  function CreditosPendientes(db: Db): (r: seq<PendingCredit>)
    ensures forall x :: x in r ==> x.credito in db.creditos && !x.credito.pagado
    ensures forall c :: c in db.creditos && !c.pagado ==> exists x :: x in r && x.credito == c
  {
    var open := Where(db.creditos, Open());
    var r := JoinAll(db, open);
    assert forall x :: x in r ==> exists i :: 0 <= i < |open| && x == Joined(db, open[i]);
    forall c | c in db.creditos && !c.pagado
      ensures exists x :: x in r && x.credito == c
    {
      var i :| 0 <= i < |open| && open[i] == c;
      assert r[i] in r;
    }
    r
  }

  // Row changes.

  function MarkPaid(fechaPago: Date, montoPagado: real): (f: Credit -> Credit)
    ensures forall c {:trigger f(c)} :: f(c) == c.(pagado := true, fechaPago := Some(fechaPago), montoPagado := Some(montoPagado))
  {
    (c: Credit) => c.(pagado := true, fechaPago := Some(fechaPago), montoPagado := Some(montoPagado))
  }

  function MarkPaidDateOnly(fechaPago: Date): (f: Credit -> Credit)
    ensures forall c {:trigger f(c)} :: f(c) == c.(pagado := true, fechaPago := Some(fechaPago))
  {
    (c: Credit) => c.(pagado := true, fechaPago := Some(fechaPago))
  }

  function SetPagado(montoPagado: real): (f: Credit -> Credit)
    ensures forall c {:trigger f(c)} :: f(c) == c.(montoPagado := Some(montoPagado))
  {
    (c: Credit) => c.(montoPagado := Some(montoPagado))
  }

  /**
   * `registrar_pago_credito`: the credit is marked paid on the given day
   * with its whole amount as paid. For an id not on record the second
   * `UPDATE` of the source runs and matches no row.
   */
  function RegistrarPagoCredito(db: Db, id: int, fechaPago: Date): (r: Db)
    ensures r == db.(creditos := r.creditos)
    ensures |r.creditos| == |db.creditos|
    ensures forall k :: k != id ==> FindCredit(r, k) == FindCredit(db, k)
  {
    match FindCredit(db, id)
    case Some(c) =>
      OtherCreditsUpdated(db, id, MarkPaid(fechaPago, c.monto));
      db.(creditos := Update(db.creditos, CreditIdIs(id), MarkPaid(fechaPago, c.monto)))
    case None =>
      OtherCreditsUpdated(db, id, MarkPaidDateOnly(fechaPago));
      db.(creditos := Update(db.creditos, CreditIdIs(id), MarkPaidDateOnly(fechaPago)))
  }

  /** A change of the rows with one id that keeps ids leaves every other id's credit as it was. */
  lemma OtherCreditsUpdated(db: Db, id: int, f: Credit -> Credit)
    requires forall x :: f(x).id == x.id
    ensures forall k :: k != id ==> FindCredit(db.(creditos := Update(db.creditos, CreditIdIs(id), f)), k) == FindCredit(db, k)
  {
    forall k | k != id
      ensures FindCredit(db.(creditos := Update(db.creditos, CreditIdIs(id), f)), k) == FindCredit(db, k)
    {
      UpdateFirst(db.creditos, CreditKey, CreditIdIs(id), f, k);
    }
  }

  /** The credit after a change of its row that keeps its id. */
  lemma ChangedCredit(db: Db, id: int, f: Credit -> Credit, c: Credit)
    requires UniqueBy(db.creditos, CreditKey)
    requires forall x :: f(x).id == x.id
    requires c in db.creditos && c.id == id
    ensures FindCredit(db.(creditos := Update(db.creditos, CreditIdIs(id), f)), id) == Some(f(c))
    ensures UniqueBy(Update(db.creditos, CreditIdIs(id), f), CreditKey)
  {
    FindCreditUnique(db, c);
    UpdateFirst(db.creditos, CreditKey, CreditIdIs(id), f, id);
    UniqueUpdate(db.creditos, CreditKey, CreditIdIs(id), f);
  }

  /** Paying a credit off records it as paid, on that day, for its whole amount; a missing id changes nothing. */
  lemma RegistrarPagoCreditoRow(db: Db, id: int, fechaPago: Date)
    requires UniqueBy(db.creditos, CreditKey)
    ensures var r := RegistrarPagoCredito(db, id, fechaPago);
            match FindCredit(db, id)
            case None => r == db
            case Some(c) => FindCredit(r, id) == Some(c.(pagado := true, fechaPago := Some(fechaPago), montoPagado := Some(c.monto)))
  {
    match FindCredit(db, id)
    case None =>
      UpdateNoMatch(db.creditos, CreditIdIs(id), MarkPaidDateOnly(fechaPago));
    case Some(c) =>
      ChangedCredit(db, id, MarkPaid(fechaPago, c.monto), c);
  }

  lemma RegistrarPagoCreditoValid(db: Db, id: int, fechaPago: Date)
    requires Valid(db)
    ensures Valid(RegistrarPagoCredito(db, id, fechaPago))
  {
    match FindCredit(db, id)
    case None =>
      UpdateNoMatch(db.creditos, CreditIdIs(id), MarkPaidDateOnly(fechaPago));
    case Some(c) =>
      var f := MarkPaid(fechaPago, c.monto);
      var cs := Update(db.creditos, CreditIdIs(id), f);
      UniqueUpdate(db.creditos, CreditKey, CreditIdIs(id), f);
      forall x | x in cs
        ensures x.id < db.nextCredito && CreditOk(x) && (x.ventaId.Some? ==> HasSale(db, x.ventaId.value))
      {
        UpdateMember(db.creditos, CreditIdIs(id), f, x);
        var y :| y in db.creditos && x == (if CreditIdIs(id)(y) then f(y) else y);
        if y.id == id {
          FindCreditUnique(db, y);
        }
      }
      ValidWithCredits(db, cs, db.nextCredito);
  }

  /** What `registrar_abono` returns. */
  datatype Abono = Abono(creditoId: int, abono: real, totalPagado: real, saldoRestante: real, completado: bool)

  /** The amount paid so far: `monto_pagado or 0`. */
  function PaidSoFar(c: Credit): real {
    if c.montoPagado.Some? then c.montoPagado.value else 0.0
  }

  /**
   * The row change a payment makes: when the payment covers what is left,
   * the credit is settled today for exactly its amount; otherwise only the
   * amount paid grows.
   */
  function Abonar(c: Credit, abono: real, hoy: Date): (f: Credit -> Credit)
    ensures forall x {:trigger f(x)} :: f(x).id == x.id
    ensures c.monto - (PaidSoFar(c) + abono) <= 0.0 ==>
              forall x {:trigger f(x)} :: f(x) == x.(pagado := true, fechaPago := Some(hoy), montoPagado := Some(c.monto))
    ensures c.monto - (PaidSoFar(c) + abono) > 0.0 ==>
              forall x {:trigger f(x)} :: f(x) == x.(montoPagado := Some(PaidSoFar(c) + abono))
  {
    var nuevo := PaidSoFar(c) + abono;
    if c.monto - nuevo <= 0.0 then MarkPaid(hoy, c.monto) else SetPagado(nuevo)
  }

  /**
   * `registrar_abono`: a payment on an open credit. The credit must exist,
   * be unpaid, and the payment be positive. When the payment covers what is
   * left the credit is settled for exactly its amount today; otherwise the
   * amount paid grows by the payment.
   */
  function RegistrarAbono(db: Db, id: int, abono: real, hoy: Date): (r: Outcome<Abono>)
    ensures r.Raised? <==>
              FindCredit(db, id).None? || FindCredit(db, id).value.pagado || abono <= 0.0
    ensures r.Raised? && FindCredit(db, id).None? ==> r.error == NotFound
    ensures r.Raised? && FindCredit(db, id).Some? && FindCredit(db, id).value.pagado ==> r.error == AlreadyPaid
    ensures r.Raised? && FindCredit(db, id).Some? && !FindCredit(db, id).value.pagado ==> r.error == InvalidAmount
    ensures r.Done? ==>
              var c := FindCredit(db, id).value;
              && r.value.creditoId == id && r.value.abono == abono
              && r.value.totalPagado <= c.monto && r.value.saldoRestante >= 0.0
              && r.value.totalPagado + r.value.saldoRestante == c.monto
              && (r.value.completado <==> PaidSoFar(c) + abono >= c.monto)
              && (!r.value.completado ==> r.value.totalPagado == PaidSoFar(c) + abono)
    ensures r.Done? ==> r.db == db.(creditos := r.db.creditos)
    ensures r.Done? ==> forall k :: k != id ==> FindCredit(r.db, k) == FindCredit(db, k)
  {
    match FindCredit(db, id)
    case None => Raised(NotFound)
    case Some(c) =>
      if c.pagado then Raised(AlreadyPaid)
      else if abono <= 0.0 then Raised(InvalidAmount)
      else
        var nuevo := PaidSoFar(c) + abono;
        var saldo := c.monto - nuevo;
        OtherCreditsUpdated(db, id, Abonar(c, abono, hoy));
        Done(db.(creditos := Update(db.creditos, CreditIdIs(id), Abonar(c, abono, hoy))),
             Abono(id, abono, if nuevo < c.monto then nuevo else c.monto, if saldo > 0.0 then saldo else 0.0, saldo <= 0.0))
  }

  /** A payment that covers the rest marks the credit paid today for exactly its amount. */
  lemma AbonoCompleta(db: Db, id: int, abono: real, hoy: Date, c: Credit)
    requires UniqueBy(db.creditos, CreditKey)
    requires RegistrarAbono(db, id, abono, hoy).Done? && FindCredit(db, id) == Some(c)
    requires c.monto - (PaidSoFar(c) + abono) <= 0.0
    ensures var r := RegistrarAbono(db, id, abono, hoy);
            && r.value.completado && r.value.totalPagado == c.monto
            && FindCredit(r.db, id) == Some(c.(pagado := true, fechaPago := Some(hoy), montoPagado := Some(c.monto)))
  {
    ChangedCredit(db, id, Abonar(c, abono, hoy), c);
  }

  /** A payment that leaves something owed stores the new amount paid and nothing else. */
  lemma AbonoParcial(db: Db, id: int, abono: real, hoy: Date, c: Credit)
    requires UniqueBy(db.creditos, CreditKey)
    requires RegistrarAbono(db, id, abono, hoy).Done? && FindCredit(db, id) == Some(c)
    requires c.monto - (PaidSoFar(c) + abono) > 0.0
    ensures var r := RegistrarAbono(db, id, abono, hoy);
            && !r.value.completado && r.value.totalPagado == PaidSoFar(c) + abono
            && FindCredit(r.db, id) == Some(c.(montoPagado := Some(PaidSoFar(c) + abono)))
  {
    ChangedCredit(db, id, Abonar(c, abono, hoy), c);
  }

  lemma RegistrarAbonoValid(db: Db, id: int, abono: real, hoy: Date)
    requires Valid(db)
    ensures RegistrarAbono(db, id, abono, hoy).Done? ==> Valid(RegistrarAbono(db, id, abono, hoy).db)
  {
    if RegistrarAbono(db, id, abono, hoy).Done? {
      var c := FindCredit(db, id).value;
      var f := Abonar(c, abono, hoy);
      var cs := Update(db.creditos, CreditIdIs(id), f);
      assert RegistrarAbono(db, id, abono, hoy).db == db.(creditos := cs);
      UniqueUpdate(db.creditos, CreditKey, CreditIdIs(id), f);
      forall x | x in cs
        ensures x.id < db.nextCredito && CreditOk(x) && (x.ventaId.Some? ==> HasSale(db, x.ventaId.value))
      {
        UpdateMember(db.creditos, CreditIdIs(id), f, x);
        var y :| y in db.creditos && x == (if CreditIdIs(id)(y) then f(y) else y);
        if y.id == id {
          FindCreditUnique(db, y);
        }
      }
      ValidWithCredits(db, cs, db.nextCredito);
    }
  }

  /**
   * Two partial payments in a row add up: after paying `a` and then `b` on
   * an open credit, the amount paid is what was paid before plus `a + b`,
   * capped at the amount owed.
   */
  lemma AbonosAcumulan(db: Db, id: int, a: real, b: real, hoy: Date)
    requires UniqueBy(db.creditos, CreditKey)
    requires RegistrarAbono(db, id, a, hoy).Done?
    requires !RegistrarAbono(db, id, a, hoy).value.completado
    requires b > 0.0
    ensures var r1 := RegistrarAbono(db, id, a, hoy);
            var r2 := RegistrarAbono(r1.db, id, b, hoy);
            var c := FindCredit(db, id).value;
            && r2.Done?
            && r2.value.totalPagado == (if PaidSoFar(c) + a + b < c.monto then PaidSoFar(c) + a + b else c.monto)
  {
    AbonoParcial(db, id, a, hoy, FindCredit(db, id).value);
  }
}
