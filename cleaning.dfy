/**
 * The value-cleaning rules of the spreadsheet migration: the partner
 * rename, product-name parsing into category, size and colour, the
 * payment-method normalisation, the supplier-order date fix and the
 * renaming of repeated SKUs.
 */
module Cleaning {
  import opened Common
  import opened Schema
  import opened Strings

  // ---------------------------------------------------------------
  // Partner rename
  // ---------------------------------------------------------------

  const SOCIO_RENAME: map<string, string> := map["MILE" := ANDRES]

  /** `fix_socio`: strips a non-empty name and maps the old partner name to its replacement; an empty or missing name passes through. */
  function FixSocio(nombre: Option<string>): (r: Option<string>)
    ensures !Truthy(nombre) ==> r == nombre
    ensures Truthy(nombre) && Strip(nombre.value) == "MILE" ==> r == Some(ANDRES)
    ensures Truthy(nombre) && Strip(nombre.value) != "MILE" ==> r == Some(Strip(nombre.value))
  {
    if Truthy(nombre) then
      var n := Strip(nombre.value);
      Some(if n in SOCIO_RENAME then SOCIO_RENAME[n] else n)
    else nombre
  }

  /** The old name never survives, and renaming twice is renaming once. */
  lemma FixSocioIdempotent(nombre: Option<string>)
    ensures FixSocio(nombre) != Some("MILE")
    ensures FixSocio(FixSocio(nombre)) == FixSocio(nombre)
  {
    if Truthy(nombre) {
      var n := Strip(nombre.value);
      StripIdempotent(nombre.value);
      if n == "MILE" {
        StripAndres();
      }
    }
  }

  lemma StripAndres()
    ensures Strip(ANDRES) == ANDRES && ANDRES != "MILE"
  {
    assert ANDRES[0] == 'A' && ANDRES[|ANDRES| - 1] == 'S';
    StripTrimmed(ANDRES);
  }

  /** A current partner's name, possibly with surrounding blanks, comes out as that partner. */
  lemma FixSocioPartners(nombre: string)
    requires IsSocio(Strip(nombre))
    ensures FixSocio(Some(nombre)) == Some(Strip(nombre))
  {
  }

  // ---------------------------------------------------------------
  // Payment methods
  // ---------------------------------------------------------------

  /** The spreadsheet's free-text payment method mapped to the ledger's names, checking `cr`, `transf`, `dat`, `efect` in that order. */
  function NormalizarMetodo(metodo: string): (r: string)
    ensures r == metodo || r in {CREDITO, TRANSFERENCIA, DATAFONO, EFECTIVO}
    ensures Contains(Lower(metodo), "cr") ==> r == CREDITO
    ensures !Contains(Lower(metodo), "cr") && Contains(Lower(metodo), "transf") ==> r == TRANSFERENCIA
    ensures (!Contains(Lower(metodo), "cr") && !Contains(Lower(metodo), "transf")
             && Contains(Lower(metodo), "dat")) ==> r == DATAFONO
    ensures (!Contains(Lower(metodo), "cr") && !Contains(Lower(metodo), "transf")
             && !Contains(Lower(metodo), "dat") && Contains(Lower(metodo), "efect")) ==> r == EFECTIVO
    ensures r != metodo ==> Contains(Lower(metodo), "cr") || Contains(Lower(metodo), "transf")
                            || Contains(Lower(metodo), "dat") || Contains(Lower(metodo), "efect")
  {
    var m := Lower(metodo);
    if Contains(m, "cr") then CREDITO
    else if Contains(m, "transf") then TRANSFERENCIA
    else if Contains(m, "dat") then DATAFONO
    else if Contains(m, "efect") then EFECTIVO
    else metodo
  }

  /** A text without some character of `sub` cannot contain `sub`. */
  lemma {:induction false} NotContainsChar(s: string, sub: string, k: nat)
    requires k < |sub|
    requires forall i :: 0 <= i < |s| ==> s[i] != sub[k]
    ensures !Contains(s, sub)
    decreases |s|
  {
    if |sub| <= |s| {
      assert s[..|sub|][k] == s[k];
    }
    if s != [] {
      NotContainsChar(s[1..], sub, k);
    }
  }

  /** A text in which the first two characters of `sub` never appear side by side cannot contain `sub`. */
  lemma {:induction false} NotContainsPair(s: string, sub: string)
    requires |sub| >= 2
    requires forall i :: 0 <= i < |s| - 1 ==> !(s[i] == sub[0] && s[i + 1] == sub[1])
    ensures !Contains(s, sub)
    decreases |s|
  {
    if |sub| <= |s| {
      assert s[..|sub|][0] == s[0] && s[..|sub|][1] == s[1];
    }
    if s != [] {
      NotContainsPair(s[1..], sub);
    }
  }

  lemma ContainsPrefix(s: string, sub: string)
    requires StartsWith(s, sub)
    ensures Contains(s, sub)
  {
  }

  lemma LowerCredito()
    ensures Lower(CREDITO) == "crédito"
  {
    LowerIs(CREDITO, "crédito");
  }

  lemma LowerTransferencia()
    ensures Lower(TRANSFERENCIA) == "transferencia"
  {
    LowerIs(TRANSFERENCIA, "transferencia");
  }

  lemma LowerDatafono()
    ensures Lower(DATAFONO) == "datáfono"
  {
    LowerIs(DATAFONO, "datáfono");
  }

  lemma LowerEfectivo()
    ensures Lower(EFECTIVO) == "efectivo"
  {
    LowerIs(EFECTIVO, "efectivo");
  }

  lemma NormalizarCredito()
    ensures NormalizarMetodo(CREDITO) == CREDITO
  {
    LowerCredito();
    var c := "crédito";
    assert c[..2] == "cr";
    ContainsPrefix(c, "cr");
  }

  /** None of the earlier keywords occurs in the lower-cased `Transferencia`. */
  lemma TransferenciaNoCr()
    ensures !Contains("transferencia", "cr")
  {
    NotContainsPair("transferencia", "cr");
  }

  lemma TransferenciaTokens()
    ensures !Contains("transferencia", "cr") && Contains("transferencia", "transf")
  {
    var t := "transferencia";
    TransferenciaNoCr();
    assert t[..6] == "transf";
    ContainsPrefix(t, "transf");
  }

  lemma NormalizarTransferencia()
    ensures NormalizarMetodo(TRANSFERENCIA) == TRANSFERENCIA
  {
    LowerTransferencia();
    TransferenciaTokens();
  }

  lemma DatafonoNoCr()
    ensures !Contains("datáfono", "cr")
  {
    NotContainsChar("datáfono", "cr", 0);
  }

  lemma DatafonoNoTransf()
    ensures !Contains("datáfono", "transf")
  {
    NotContainsChar("datáfono", "transf", 4);
  }

  lemma DatafonoTokens()
    ensures !Contains("datáfono", "cr") && !Contains("datáfono", "transf") && Contains("datáfono", "dat")
  {
    var d := "datáfono";
    DatafonoNoCr();
    DatafonoNoTransf();
    assert d[..3] == "dat";
    ContainsPrefix(d, "dat");
  }

  lemma NormalizarDatafono()
    ensures NormalizarMetodo(DATAFONO) == DATAFONO
  {
    LowerDatafono();
    DatafonoTokens();
  }

  lemma EfectivoNoCrTransf()
    ensures !Contains("efectivo", "cr") && !Contains("efectivo", "transf")
  {
    NotContainsChar("efectivo", "cr", 1);
    NotContainsChar("efectivo", "transf", 1);
  }

  lemma EfectivoNoDat()
    ensures !Contains("efectivo", "dat")
  {
    NotContainsChar("efectivo", "dat", 1);
  }

  lemma EfectivoTokens()
    ensures !Contains("efectivo", "cr") && !Contains("efectivo", "transf")
    ensures !Contains("efectivo", "dat") && Contains("efectivo", "efect")
  {
    var e := "efectivo";
    EfectivoNoCrTransf();
    EfectivoNoDat();
    assert e[..5] == "efect";
    ContainsPrefix(e, "efect");
  }

  lemma NormalizarEfectivo()
    ensures NormalizarMetodo(EFECTIVO) == EFECTIVO
  {
    LowerEfectivo();
    EfectivoTokens();
  }

  /** The ledger's own four names come through unchanged, so normalising twice is normalising once. */
  lemma NormalizarMetodoIdempotent(metodo: string)
    ensures NormalizarMetodo(CREDITO) == CREDITO
    ensures NormalizarMetodo(TRANSFERENCIA) == TRANSFERENCIA
    ensures NormalizarMetodo(DATAFONO) == DATAFONO
    ensures NormalizarMetodo(EFECTIVO) == EFECTIVO
    ensures NormalizarMetodo(NormalizarMetodo(metodo)) == NormalizarMetodo(metodo)
  {
    NormalizarCredito();
    NormalizarTransferencia();
    NormalizarDatafono();
    NormalizarEfectivo();
  }

  // ---------------------------------------------------------------
  // Supplier-order date fix
  // ---------------------------------------------------------------

  /** An order date starting `2025-02` (a typo in the spreadsheet) gets the year `2026`. */
  function CorregirFecha(fecha: Option<string>): (r: Option<string>)
    ensures r.None? <==> fecha.None?
    ensures Truthy(fecha) && StartsWith(fecha.value, "2025-02") ==> r == Some("2026" + fecha.value[4..])
    ensures !(Truthy(fecha) && StartsWith(fecha.value, "2025-02")) ==> r == fecha
  {
    if Truthy(fecha) && StartsWith(fecha.value, "2025-02") then Some("2026" + fecha.value[4..]) else fecha
  }

  /** The fix keeps the length and everything after the year, and no fixed date still starts with `2025-02`. */
  lemma CorregirFechaSpec(fecha: Option<string>)
    ensures var r := CorregirFecha(fecha);
            && (r.Some? ==> |r.value| == |fecha.value|)
            && (r.Some? && |fecha.value| >= 4 ==> r.value[4..] == fecha.value[4..])
            && (r.Some? ==> !StartsWith(r.value, "2025-02"))
            && CorregirFecha(r) == r
  {
    var r := CorregirFecha(fecha);
    if Truthy(fecha) && StartsWith(fecha.value, "2025-02") {
      var v := r.value;
      assert v[..4] == "2026";
      assert v[4..] == fecha.value[4..];
      assert v[..7][3] == '6';
    }
  }
  // ---------------------------------------------------------------
  // Product names
  // ---------------------------------------------------------------

  const TALLAS_CONOCIDAS: seq<string> := ["S", "M", "L", "XL", "2XL"]

  /** The name prefixes that give a category, in the order they are tried. */
  const CATEGORIAS_POR_PREFIJO: seq<(string, string)> := [
    ("camisa", "Camisa"), ("hoodie", "Hoodie"), ("chompa", "Chompa"), ("buzo", "Buzo"),
    ("chaqueta", "Chaqueta"), ("jogger", "Jogger"), ("sudadera", "Sudadera"), ("pantaloneta", "Pantaloneta")]

  /** The category of the first prefix in `tabla` that the (lower-cased) name starts with. */
  function CategoriaDe(nombre: string, tabla: seq<(string, string)>): (r: Option<string>)
    ensures r.Some? ==> exists i :: 0 <= i < |tabla| && StartsWith(nombre, tabla[i].0) && r.value == tabla[i].1
                          && forall j :: 0 <= j < i ==> !StartsWith(nombre, tabla[j].0)
    ensures r.None? <==> forall i :: 0 <= i < |tabla| ==> !StartsWith(nombre, tabla[i].0)
  {
    if tabla == [] then None
    else if StartsWith(nombre, tabla[0].0) then Some(tabla[0].1)
    else
      var r := CategoriaDe(nombre, tabla[1..]);
      assert forall j :: 1 <= j < |tabla| ==> tabla[j] == tabla[1..][j - 1];
      r
  }

  /** A token that names a size once upper-cased. */
  predicate IsTalla(w: string) {
    Upper(w) in TALLAS_CONOCIDAS
  }

  /** The position of the first size token at or after `from`. */
  function FirstTalla(parts: seq<string>, from: nat): (k: Option<nat>)
    requires from <= |parts|
    ensures k.Some? ==> from <= k.value < |parts| && IsTalla(parts[k.value])
                        && forall j :: from <= j < k.value ==> !IsTalla(parts[j])
    ensures k.None? ==> forall j :: from <= j < |parts| ==> !IsTalla(parts[j])
    decreases |parts| - from
  {
    if from == |parts| then None
    else if IsTalla(parts[from]) then Some(from)
    else FirstTalla(parts, from + 1)
  }

  /** What a product name says about the product. */
  datatype ParsedName = ParsedName(categoria: Option<string>, talla: Option<string>, color: Option<string>)

  /** The size: the size token upper-cased, when there is one. */
  function TallaEn(parts: seq<string>, k: Option<nat>): (t: Option<string>)
    requires k.Some? ==> k.value < |parts|
    ensures t.Some? <==> k.Some?
    ensures k.Some? && IsTalla(parts[k.value]) ==> t.value in TALLAS_CONOCIDAS
  {
    if k.Some? then Some(Upper(parts[k.value])) else None
  }

  /** The colour: the tokens after the size, joined by spaces, when there are any. */
  function ColorTras(parts: seq<string>, k: Option<nat>): (c: Option<string>)
    requires k.Some? ==> k.value < |parts|
  {
    if k.Some? && k.value + 1 < |parts| then NonBlank(Strip(Join(parts[k.value + 1..], " "))) else None
  }

  /** `x or None` on a text: no value for the empty text. */
  function NonBlank(c: string): (r: Option<string>)
    ensures r.None? <==> c == ""
    ensures r.Some? ==> r.value == c
  {
    if c == "" then None else Some(c)
  }

  /**
   * `parse_producto`: an empty name gives nothing; otherwise the category
   * comes from the lower-cased name's prefix, the size is the first token
   * that is a known size once upper-cased, and the colour is what follows
   * the size.
   */
  function ParseProducto(nombre: string): (r: ParsedName)
    ensures nombre == "" ==> r == ParsedName(None, None, None)
    ensures nombre != "" ==> r.categoria == CategoriaDe(Lower(Strip(nombre)), CATEGORIAS_POR_PREFIJO)
    ensures r.talla.Some? ==> r.talla.value in TALLAS_CONOCIDAS
    ensures var n := Strip(nombre); r.talla.Some? <==> nombre != "" && exists w :: w in Words(n) && IsTalla(w)
    ensures r.color.Some? ==> r.talla.Some?
  {
    if nombre == "" then ParsedName(None, None, None)
    else
      var n := Strip(nombre);
      var parts := Words(n);
      var k := FirstTalla(parts, 0);
      var talla := TallaEn(parts, k);
      assert k.None? ==> forall w :: w in parts ==> !IsTalla(w);
      assert k.Some? ==> parts[k.value] in parts && IsTalla(parts[k.value]);
      ParsedName(CategoriaDe(Lower(n), CATEGORIAS_POR_PREFIJO), talla, ColorTras(parts, k))
  }

  /** A joined run of tokens is already stripped and not empty. */
  lemma {:induction false} JoinStripped(ws: seq<string>)
    requires ws != [] && forall w :: w in ws ==> IsWord(w)
    ensures Join(ws, " ") != [] && Strip(Join(ws, " ")) == Join(ws, " ")
  {
    var j := Join(ws, " ");
    JoinStartsWithFirst(ws);
    assert ws[0] in ws;
    assert j[0] == ws[0][0];
    JoinLast(ws);
    assert LStrip(j) == j;
  }

  lemma {:induction false} JoinLast(ws: seq<string>)
    requires ws != [] && forall w :: w in ws ==> IsWord(w)
    ensures |Join(ws, " ")| >= 1 && !IsSpace(Join(ws, " ")[|Join(ws, " ")| - 1])
  {
    var last := ws[|ws| - 1];
    assert last in ws;
    if |ws| > 1 {
      assert forall w :: w in ws[1..] ==> w in ws;
      JoinLast(ws[1..]);
      assert ws[1..][|ws[1..]| - 1] == last;
    }
  }

  /** Tokens joined by spaces make a non-blank, stripped text that splits back into those tokens. */
  lemma JoinedTokens(rest: seq<string>)
    requires rest != [] && forall w :: w in rest ==> IsWord(w)
    ensures Join(rest, " ") != [] && Strip(Join(rest, " ")) == Join(rest, " ")
    ensures Words(Join(rest, " ")) == rest
  {
    JoinStripped(rest);
    WordsOfJoin(rest);
  }

  lemma ColorTrasJoin(parts: seq<string>, k: Option<nat>)
    requires k.Some? && k.value + 1 < |parts|
    requires Join(parts[k.value + 1..], " ") != [] && Strip(Join(parts[k.value + 1..], " ")) == Join(parts[k.value + 1..], " ")
    ensures ColorTras(parts, k) == Some(Join(parts[k.value + 1..], " "))
  {
  }

  /** Tokens after position `k`, when there are any, are what `color` splits into. */
  predicate SplitsAfter(parts: seq<string>, k: Option<nat>, color: Option<string>) {
    k.Some? && k.value + 1 < |parts| ==> color.Some? && Words(color.value) == parts[k.value + 1..]
  }

  /**
   * A colour read after the size at position `k` is the tokens after it
   * joined back, and it splits into those same tokens.
   */
  lemma ColorTrasSplits(parts: seq<string>, k: Option<nat>, color: Option<string>)
    requires forall w :: w in parts ==> IsWord(w)
    requires k.Some? ==> k.value < |parts|
    requires color == ColorTras(parts, k)
    ensures SplitsAfter(parts, k, color)
  {
    if k.Some? && k.value + 1 < |parts| {
      var rest := parts[k.value + 1..];
      SuffixWords(parts, k.value + 1);
      JoinedTokens(rest);
      ColorTrasJoin(parts, k);
      assert color.value == Join(rest, " ");
    }
  }

  /** The colour of a parsed name is what follows its first size token. */
  lemma ParseProductoColorTras(nombre: string)
    requires nombre != ""
    ensures var n := Strip(nombre); var parts := Words(n);
            ParseProducto(nombre).color == ColorTras(parts, FirstTalla(parts, 0))
  {
  }

  /** The size of a parsed name is its first size token, upper-cased; no such token, no size. */
  lemma ParseProductoTalla(nombre: string)
    requires nombre != ""
    ensures var n := Strip(nombre); var parts := Words(n);
            ParseProducto(nombre).talla == TallaEn(parts, FirstTalla(parts, 0))
  {
  }

  /** No colour is read when the size is the last token or there is no size. */
  lemma ColorTrasNone(parts: seq<string>, k: Option<nat>)
    requires k.Some? ==> k.value + 1 == |parts|
    ensures ColorTras(parts, k).None?
  {
  }

  /**
   * The colour is exactly the tokens after the size: splitting it again
   * gives those tokens back.
   */
  lemma ParseProductoColor(nombre: string)
    requires nombre != ""
    ensures var parts := Words(Strip(nombre)); SplitsAfter(parts, FirstTalla(parts, 0), ParseProducto(nombre).color)
  {
    var parts := Words(Strip(nombre));
    ParseProductoColorTras(nombre);
    ColorTrasSplits(parts, FirstTalla(parts, 0), ParseProducto(nombre).color);
  }

  /** There is no colour when the size is the last token or there is no size. */
  lemma ParseProductoSinColor(nombre: string)
    requires nombre != ""
    ensures var n := Strip(nombre); var parts := Words(n);
            var k := FirstTalla(parts, 0);
            k.None? || k.value + 1 == |parts| ==> ParseProducto(nombre).color.None?
  {
    var n := Strip(nombre);
    var parts := Words(n);
    var k := FirstTalla(parts, 0);
    ParseProductoColorTras(nombre);
    if k.None? || k.value + 1 == |parts| {
      ColorTrasNone(parts, k);
    }
  }

  lemma SuffixWords(parts: seq<string>, from: nat)
    requires from <= |parts| && forall w :: w in parts ==> IsWord(w)
    ensures forall w :: w in parts[from..] ==> IsWord(w)
  {
    assert forall w :: w in parts[from..] ==> w in parts;
  }

  /** `parse_producto` as the script runs it: a search over the tokens that stops at the first size. */
  method ParsearProducto(nombre: string) returns (r: ParsedName)
    ensures r == ParseProducto(nombre)
  {
    if nombre == "" {
      return ParsedName(None, None, None);
    }
    var n := Strip(nombre);
    var categoria := CategoriaDe(Lower(n), CATEGORIAS_POR_PREFIJO);
    var parts := Words(n);
    var talla: Option<string> := None;
    var tallaIdx: Option<nat> := None;
    var i := 0;
    while i < |parts|
      invariant 0 <= i <= |parts|
      invariant tallaIdx.None? && talla.None?
      invariant FirstTalla(parts, 0) == FirstTalla(parts, i)
      decreases |parts| - i
    {
      if IsTalla(parts[i]) {
        talla := Some(Upper(parts[i]));
        tallaIdx := Some(i);
        break;
      }
      i := i + 1;
    }
    assert tallaIdx == FirstTalla(parts, 0);
    var color := ColorDe(parts, tallaIdx);
    r := ParsedName(categoria, talla, color);
  }

  /** The colour step of `parse_producto`: the tokens after the size, stripped, or none when that is empty. */
  method ColorDe(parts: seq<string>, tallaIdx: Option<nat>) returns (color: Option<string>)
    requires tallaIdx.Some? ==> tallaIdx.value < |parts|
    ensures color == ColorTras(parts, tallaIdx)
  {
    color := None;
    if tallaIdx.Some? && tallaIdx.value + 1 < |parts| {
      var c := Strip(Join(parts[tallaIdx.value + 1..], " "));
      // `color == ''` becomes no colour
      if c != "" {
        color := Some(c);
      }
    }
  }

  // ---------------------------------------------------------------
  // Repeated SKUs
  // ---------------------------------------------------------------

  /** `sku.rsplit('-', 1)[0] if '-' in sku else sku`: the SKU without its last dash-separated part. */
  function BaseSku(sku: string): (b: string)
    ensures |b| <= |sku| && b == sku[..|b|]
    ensures b == sku <==> forall i :: 0 <= i < |sku| ==> sku[i] != '-'
  {
    var k := LastIndexOf(sku, '-');
    if k >= 0 then sku[..k] else sku
  }

  /**
   * A SKU already seen whose name gives a size is renamed to its base plus
   * that size, or, when that name is taken too, to the SKU plus the size;
   * any other SKU is kept.
   */
  function RenombrarSku(sku: string, talla: Option<string>, vistos: set<string>): (r: string)
    ensures sku !in vistos || !Truthy(talla) ==> r == sku
    ensures sku in vistos && Truthy(talla) ==>
              (r == BaseSku(sku) + "-" + talla.value && r !in vistos)
              || (BaseSku(sku) + "-" + talla.value in vistos && r == sku + "-" + talla.value)
    ensures sku in vistos && Truthy(talla) ==> r != sku
  {
    if sku in vistos && Truthy(talla) then
      var nuevo := BaseSku(sku) + "-" + talla.value;
      if nuevo in vistos then sku + "-" + talla.value else nuevo
    else sku
  }

  /** Replacing the size part: a SKU ending in `-` and a dash-free part gets its last part swapped for the size. */
  lemma RenombrarSkuSwapsSize(base: string, parte: string, talla: string, vistos: set<string>)
    requires forall i :: 0 <= i < |parte| ==> parte[i] != '-'
    requires base + "-" + parte in vistos && talla != ""
    requires base + "-" + talla !in vistos
    ensures RenombrarSku(base + "-" + parte, Some(talla), vistos) == base + "-" + talla
  {
    var sku := base + "-" + parte;
    assert sku == base + ['-'] + parte;
    LastIndexOfSplit(base, '-', parte);
    assert BaseSku(sku) == base;
  }

  /**
   * The fallback name is not checked against the SKUs already seen: with
   * `SUD-NEG-L` and `SUD-NEG-L-L` both taken, a third `SUD-NEG-L` of size
   * `L` is renamed to `SUD-NEG-L-L` again.
   */
  lemma RenombrarSkuCollides()
    ensures var vistos := {"SUD-NEG-L", "SUD-NEG-L-L"};
            RenombrarSku("SUD-NEG-L", Some("L"), vistos) == "SUD-NEG-L-L"
            && "SUD-NEG-L-L" in vistos
  {
    var sku := "SUD-NEG-L";
    assert sku == "SUD-NEG" + ['-'] + "L";
    LastIndexOfSplit("SUD-NEG", '-', "L");
    assert BaseSku(sku) == "SUD-NEG";
  }
}
