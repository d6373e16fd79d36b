/**
 * The pure pieces of the administration page: the automatic SKU built from
 * category, colour and size, the manual override of that SKU, and the two
 * classifiers that turn a partner's balance and a cash-close difference
 * into the message shown.
 */
module Admin {
  import opened Common
  import opened Schema
  import opened Strings
  import opened Database
  import opened Tables
  import opened Cash
  import opened Expenses
  import opened Settlement

  const CATEGORIAS_PRODUCTO: seq<string> :=
    ["Camisa", "Hoodie", "Buzo", "Chaqueta", "Chompa", "Jogger", "Sudadera", "Pantaloneta", "Otro"]
  const TALLAS: seq<string> := ["S", "M", "L", "XL", "2XL"]

  /** The three-letter SKU prefix of each product category. */
  const CAT_PREFIX: map<string, string> := map[
    "Camisa" := "CAM", "Hoodie" := "HOO", "Buzo" := "BUZ", "Chaqueta" := "CHQ",
    "Chompa" := "CHO", "Jogger" := "JOG", "Sudadera" := "SUD", "Pantaloneta" := "PAN", "Otro" := "OTR"]

  /** Every category the form offers has a prefix. */
  lemma CatPrefixCovers()
    ensures forall c :: c in CATEGORIAS_PRODUCTO ==> c in CAT_PREFIX
  {
  }

  /** Each prefix is three upper-case letters. */
  lemma CatPrefixShape(c: string)
    requires c in CAT_PREFIX
    ensures |CAT_PREFIX[c]| == 3 && Upper(CAT_PREFIX[c]) == CAT_PREFIX[c]
    ensures !IsSpace(CAT_PREFIX[c][0])
  {
    var v := CAT_PREFIX[c];
    assert |v| == 3 && 'A' <= v[0] <= 'Z' && 'A' <= v[1] <= 'Z' && 'A' <= v[2] <= 'Z';
    UpperLetters(v);
  }

  /** A string of upper-case letters is its own upper-casing. */
  lemma UpperLetters(v: string)
    requires |v| == 3 && forall i :: 0 <= i < |v| ==> 'A' <= v[i] <= 'Z'
    ensures Upper(v) == v && !IsSpace(v[0])
  {
    assert forall i :: 0 <= i < |v| ==> UpperChar(v[i]) == v[i];
  }

  /** No two categories share a prefix. */
  lemma CatPrefixInjective(a: string, b: string)
    requires a in CAT_PREFIX && b in CAT_PREFIX && a != b
    ensures CAT_PREFIX[a] != CAT_PREFIX[b]
  {
  }

  /** Python's `s[:n]`. */
  function Take(s: string, n: nat): (r: string)
    ensures |r| == if |s| < n then |s| else n
    ensures r == s[..|r|]
  {
    if |s| <= n then s else s[..n]
  }

  /** The category part: the table prefix, or the first three characters upper-cased. */
  function CatCode(categoria: string): (r: string)
    ensures categoria in CAT_PREFIX ==> r == CAT_PREFIX[categoria]
    ensures categoria !in CAT_PREFIX ==> r == Upper(Take(categoria, 3))
    ensures categoria !in CAT_PREFIX ==> |r| <= 3 && |r| <= |categoria| && r == Upper(categoria)[..|r|]
    ensures Upper(r) == r
  {
    if categoria in CAT_PREFIX then CAT_PREFIX[categoria]
    else
      var r := Upper(Take(categoria, 3));
      UpperPrefix(categoria, |r|);
      UpperIdempotent(Take(categoria, 3));
      r
  }

  /** The colour part: at most three characters of the stripped, upper-cased colour, or `XXX` when there is none. */
  function ColorCode(color: Option<string>): (r: string)
    ensures |r| <= 3
    ensures color.None? || color.value == [] ==> r == "XXX"
    ensures color.Some? && color.value != [] ==> r == Take(Upper(Strip(color.value)), 3)
    ensures color.Some? && color.value != [] ==> |r| <= |Strip(color.value)| && r == Upper(Strip(color.value))[..|r|]
    ensures color.Some? && color.value != [] && |Strip(color.value)| >= 3 ==> |r| == 3
    ensures Upper(r) == r
  {
    match color
    case Some(c) =>
      if c == [] then "XXX"
      else
        var r := Take(Upper(Strip(c)), 3);
        UpperPrefix(Upper(Strip(c)), |r|);
        UpperIdempotent(Strip(c));
        r
    case None => "XXX"
  }

  /** The size part: the stripped, upper-cased size. */
  function TallaCode(talla: string): (r: string)
    ensures r == Upper(Strip(talla))
    ensures Strip(r) == r && Upper(r) == r
    ensures |r| <= |talla|
  {
    var r := Upper(Strip(talla));
    UpperStripCommute(Strip(talla));
    StripIdempotent(talla);
    UpperIdempotent(Strip(talla));
    r
  }

  /** `_generar_sku`: `CAT-COL-TALLA`. */
  function GenerarSku(categoria: string, color: Option<string>, talla: string): (r: string)
    ensures var c, k, t := CatCode(categoria), ColorCode(color), TallaCode(talla);
      && |r| == |c| + |k| + |t| + 2 && r[|c|] == '-' && r[|c| + 1 + |k|] == '-'
      && r[..|c|] == c && r[|c| + 1..|c| + 1 + |k|] == k && r[|c| + 2 + |k|..] == t
  {
    Dashed(CatCode(categoria), ColorCode(color), TallaCode(talla))
  }

  /** `c-k-t`: the three parts sit before, between and after its two dashes. */
  function Dashed(c: string, k: string, t: string): (r: string)
    ensures |r| == |c| + |k| + |t| + 2 && r[|c|] == '-' && r[|c| + 1 + |k|] == '-'
    ensures r[..|c|] == c && r[|c| + 1..|c| + 1 + |k|] == k && r[|c| + 2 + |k|..] == t
  {
    var r := c + "-" + k + "-" + t;
    assert r == c + ("-" + (k + ("-" + t)));
    r
  }

  predicate NoDash(s: string) {
    forall i :: 0 <= i < |s| ==> s[i] != '-'
  }

  lemma DashedParts(c: string, k: string, t: string)
    ensures StartsWith(c + "-" + k + "-" + t, c + "-")
    ensures NoDash(t) ==>
              var r := c + "-" + k + "-" + t;
              r[LastIndexOf(r, '-') + 1..] == t
  {
    var r := c + "-" + k + "-" + t;
    assert r == (c + "-") + (k + "-" + t);
    assert r[..|c + "-"|] == c + "-";
    if NoDash(t) {
      assert r == (c + "-" + k) + ['-'] + t;
      LastIndexOfSplit(c + "-" + k, '-', t);
    }
  }

  /** The SKU starts with the category part and a dash (for a known category, its table prefix). */
  lemma GenerarSkuPrefix(categoria: string, color: Option<string>, talla: string)
    ensures StartsWith(GenerarSku(categoria, color, talla), CatCode(categoria) + "-")
  {
    DashedParts(CatCode(categoria), ColorCode(color), TallaCode(talla));
  }

  /** When the size has no dash, the text after the SKU's last dash is the size part: it can be read back with `rsplit('-', 1)`. */
  lemma GenerarSkuTalla(categoria: string, color: Option<string>, talla: string)
    requires NoDash(TallaCode(talla))
    ensures var r := GenerarSku(categoria, color, talla);
            r[LastIndexOf(r, '-') + 1..] == TallaCode(talla)
  {
    var c, k, t := CatCode(categoria), ColorCode(color), TallaCode(talla);
    DashedParts(c, k, t);
    assert GenerarSku(categoria, color, talla) == c + "-" + k + "-" + t;
  }

  /** The SKU the form finally uses: the stripped, upper-cased override when it is not blank, otherwise the automatic one. */
  function FinalSku(override: string, auto: string): (r: string)
    ensures Strip(override) != [] ==> r == Upper(Strip(override))
    ensures Strip(override) != [] ==> r != [] && Strip(r) == r && Upper(r) == r
    ensures Strip(override) == [] ==> r == auto
  {
    if Strip(override) != [] then
      var r := Upper(Strip(override));
      UpperStripCommute(Strip(override));
      StripIdempotent(override);
      UpperIdempotent(Strip(override));
      r
    else auto
  }

  /** Applying the override rule to its own result changes nothing. */
  lemma FinalSkuIdempotent(override: string, auto: string)
    requires Strip(override) != []
    ensures FinalSku(FinalSku(override, auto), auto) == FinalSku(override, auto)
  {
  }

  /**
   * Leaving the pre-filled automatic SKU in the override field keeps it
   * unchanged: for a known category and a non-blank size the automatic SKU
   * is already stripped and upper-cased.
   */
  lemma FinalSkuKeepsAuto(categoria: string, color: Option<string>, talla: string)
    requires categoria in CAT_PREFIX
    requires TallaCode(talla) != []
    ensures var auto := GenerarSku(categoria, color, talla);
            FinalSku(auto, auto) == auto
  {
    var c, k, t := CatCode(categoria), ColorCode(color), TallaCode(talla);
    var auto := GenerarSku(categoria, color, talla);
    CatPrefixShape(categoria);
    assert auto[0] == c[0];
    assert !IsSpace(c[0]);
    assert auto[|auto| - 1] == t[|t| - 1];
    assert !IsSpace(t[|t| - 1]);
    StripTrimmed(auto);
    UpperAppend(c, "-");
    UpperAppend(c + "-", k);
    UpperAppend(c + "-" + k, "-");
    UpperAppend(c + "-" + k + "-", t);
    assert Upper("-") == "-";
  }

  // ---------------------------------------------------------------
  // Partner balances
  // ---------------------------------------------------------------

  /** What the settlement table says about one partner. */
  datatype EstadoSaldo = LeDeben(monto: real) | Debe(monto: real) | PazYSalvo

  /** A positive balance is owed to the partner, a negative one is owed by them, zero is settled. */
  function ClasificarSaldo(saldo: real): (r: EstadoSaldo)
    ensures r.LeDeben? <==> saldo > 0.0
    ensures r.Debe? <==> saldo < 0.0
    ensures r.PazYSalvo? <==> saldo == 0.0
    ensures !r.PazYSalvo? ==> r.monto > 0.0 && (r.monto == saldo || r.monto == -saldo)
  {
    if saldo > 0.0 then LeDeben(saldo)
    else if saldo < 0.0 then Debe(-saldo)
    else PazYSalvo
  }

  /**
   * When every expense was paid by a partner, someone is owed money exactly
   * when someone owes money: the balances cannot all lean the same way.
   */
  lemma SaldosOpuestos(db: Db)
    requires forall g :: g in db.gastos ==> IsSocio(g.pagadoPor)
    requires Sum(db.gastos, Monto) >= 0
    ensures var r := CalcularLiquidacion(db);
            (exists s :: s in SOCIOS && ClasificarSaldo(r.saldos[s].saldo).LeDeben?)
              <==> (exists s :: s in SOCIOS && ClasificarSaldo(r.saldos[s].saldo).Debe?)
  {
    var r := CalcularLiquidacion(db);
    SaldosCancel(db);
    var a, b, c := r.saldos[JP].saldo, r.saldos[KATHE].saldo, r.saldos[ANDRES].saldo;
    assert a + b + c == 0.0;
    if a > 0.0 || b > 0.0 || c > 0.0 {
      if a < 0.0 {
        assert ClasificarSaldo(a).Debe?;
      } else if b < 0.0 {
        assert ClasificarSaldo(b).Debe?;
      } else {
        assert ClasificarSaldo(c).Debe?;
      }
    }
    if a < 0.0 || b < 0.0 || c < 0.0 {
      if a > 0.0 {
        assert ClasificarSaldo(a).LeDeben?;
      } else if b > 0.0 {
        assert ClasificarSaldo(b).LeDeben?;
      } else {
        assert ClasificarSaldo(c).LeDeben?;
      }
    }
  }

  // ---------------------------------------------------------------
  // Cash-close difference
  // ---------------------------------------------------------------

  /** The message after closing the drawer. */
  datatype AvisoCierre = Cuadrada | Sobrante(monto: real) | Faltante(monto: real)

  /** Less than one peso either way is balanced; otherwise the surplus or the shortfall. */
  function ClasificarCierre(diferencia: real): (r: AvisoCierre)
    ensures r.Cuadrada? <==> -1.0 < diferencia < 1.0
    ensures r.Sobrante? <==> diferencia >= 1.0
    ensures r.Faltante? <==> diferencia <= -1.0
    ensures r.Sobrante? ==> r.monto == diferencia
    ensures r.Faltante? ==> r.monto == -diferencia
  {
    var magnitud := if diferencia < 0.0 then -diferencia else diferencia;
    if magnitud < 1.0 then Cuadrada
    else if diferencia > 0.0 then Sobrante(diferencia)
    else Faltante(magnitud)
  }

  /**
   * Closing the drawer reports a shortfall exactly when the counted cash is
   * at least one peso below the expected cash (the opening amount plus the
   * day's cash sales minus its cash expenses), and the shortfall is that gap.
   */
  lemma CierreFaltante(db: Db, fecha: Date, efectivoReal: int, notas: Option<string>)
    ensures var esperado := EstadoCaja(db, fecha).efectivoEsperado;
            var aviso := ClasificarCierre(CerrarCaja(db, fecha, efectivoReal, notas).1.diferencia);
            && (aviso.Faltante? <==> efectivoReal as real <= esperado - 1.0)
            && (aviso.Faltante? ==> aviso.monto == esperado - efectivoReal as real)
            && (aviso.Sobrante? <==> efectivoReal as real >= esperado + 1.0)
  {
  }
}
