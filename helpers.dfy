/**
 * The display helpers shared by the pages: the stock and break-even colour
 * classifiers, the Colombian-peso formatter on integers, and the lists of
 * payment methods and sellers offered by the forms.
 */
module Helpers {
  import opened Common
  import opened Schema
  import opened Strings

  // ---------------------------------------------------------------
  // Stock indicator
  // ---------------------------------------------------------------

  const ROJO: string := "\U{1F534}"
  const AMARILLO: string := "\U{1F7E1}"
  const VERDE: string := "\U{1F7E2}"

  /** `color_stock`: red when out of stock, yellow up to the minimum, green above it. */
  function ColorStock(stock: int, minimo: int := 3): (r: string)
    ensures r == ROJO <==> stock <= 0
    ensures r == AMARILLO <==> 0 < stock <= minimo
    ensures r == VERDE <==> 0 < stock && minimo < stock
  {
    if stock <= 0 then ROJO
    else if stock <= minimo then AMARILLO
    else VERDE
  }

  /** The indicator is always one of the three colours. */
  lemma ColorStockBands(stock: int, minimo: int)
    ensures ColorStock(stock, minimo) in {ROJO, AMARILLO, VERDE}
    ensures ColorStock(stock) == AMARILLO <==> 1 <= stock <= 3
  {
  }

  // ---------------------------------------------------------------
  // Break-even bar colour
  // ---------------------------------------------------------------

  /** `color_pe`: the colour of the break-even progress bar. */
  function ColorPe(progresoPct: real): (r: string)
    ensures r == "green" <==> progresoPct >= 100.0
    ensures r == "orange" <==> 50.0 <= progresoPct < 100.0
    ensures r == "red" <==> progresoPct < 50.0
  {
    if progresoPct >= 100.0 then "green"
    else if progresoPct >= 50.0 then "orange"
    else "red"
  }

  /** The bar never turns back from green to orange or red as progress grows. */
  lemma {:induction false} ColorPeMonotone(p: real, q: real)
    requires p <= q
    ensures ColorPe(p) == "green" ==> ColorPe(q) == "green"
    ensures ColorPe(q) == "red" ==> ColorPe(p) == "red"
    ensures ColorPe(p) == "orange" ==> ColorPe(q) != "red"
  {
  }

  // ---------------------------------------------------------------
  // Peso formatter
  // ---------------------------------------------------------------

  /** Three decimal digits with leading zeros. */
  function Pad3(k: nat): (s: string)
    requires k < 1000
    ensures |s| == 3 && forall i :: 0 <= i < 3 ==> IsDigit(s[i])
  {
    [DigitChar(k / 100), DigitChar(k / 10 % 10), DigitChar(k % 10)]
  }

  /** The digits of `n` with a `.` between every group of three, counted from the right. */
  function Grouped(n: nat): (s: string)
    decreases n
  {
    if n < 1000 then NatToString(n) else Grouped(n / 1000) + "." + Pad3(n % 1000)
  }

  /**
   * `fmt_cop` on integer amounts: `None` shows as `$0`; a negative amount is
   * its absolute value with a leading minus; thousands are separated by `.`.
   */
  function FmtCop(valor: Option<int>): (r: string)
    ensures valor.None? ==> r == "$0"
    ensures valor.Some? && valor.value >= 0 ==> r == "$" + Grouped(valor.value)
    ensures valor.Some? && valor.value < 0 ==> r == "-$" + Grouped(-valor.value)
  {
    match valor
    case None => "$0"
    case Some(v) => if v < 0 then "-$" + Grouped(-v) else "$" + Grouped(v)
  }

  /** A string with every `.` removed. */
  function DropDots(s: string): (r: string)
    ensures forall i :: 0 <= i < |r| ==> r[i] != '.'
    ensures |r| <= |s|
  {
    if s == [] then []
    else if s[|s| - 1] == '.' then DropDots(s[..|s| - 1])
    else DropDots(s[..|s| - 1]) + [s[|s| - 1]]
  }

  /** Number of `.` in a string. */
  function Dots(s: string): (k: nat)
    ensures k <= |s|
  {
    if s == [] then 0 else Dots(s[..|s| - 1]) + (if s[|s| - 1] == '.' then 1 else 0)
  }

  lemma {:induction false} DropDotsAppend(a: string, b: string)
    ensures DropDots(a + b) == DropDots(a) + DropDots(b)
    ensures Dots(a + b) == Dots(a) + Dots(b)
    decreases |b|
  {
    if b != [] {
      var b' := b[..|b| - 1];
      assert (a + b)[..|a + b| - 1] == a + b';
      DropDotsAppend(a, b');
    } else {
      assert a + b == a;
    }
  }

  lemma {:induction false} DropDotsDigits(s: string)
    requires forall i :: 0 <= i < |s| ==> IsDigit(s[i])
    ensures DropDots(s) == s
    ensures Dots(s) == 0
    decreases |s|
  {
    if s != [] {
      DropDotsDigits(s[..|s| - 1]);
    }
  }

  /** The decimal digits of `n` split into the digits of `n / 1000` and three more. */
  lemma NatToStringThousands(n: nat)
    requires n >= 1000
    ensures NatToString(n) == NatToString(n / 1000) + Pad3(n % 1000)
  {
    var q, k := n / 1000, n % 1000;
    ThousandsDigits(n);
    var a, b, c := NatToString(n / 100), NatToString(n / 10), NatToString(n);
    assert b == a + [DigitChar((n / 10) % 10)];
    assert c == b + [DigitChar(n % 10)];
    assert a == NatToString(q) + [DigitChar(k / 100)];
    assert c == NatToString(q) + [DigitChar(k / 100), DigitChar(k / 10 % 10), DigitChar(k % 10)];
  }

  /** The last three decimal digits of `n`, read off `n` or off `n % 1000`. */
  lemma ThousandsDigits(n: nat)
    requires n >= 1000
    ensures n / 10 >= 10 && n / 10 / 10 == n / 100 && n / 100 >= 10 && n / 100 / 10 == n / 1000
    ensures (n / 100) % 10 == (n % 1000) / 100
    ensures (n / 10) % 10 == (n % 1000) / 10 % 10
    ensures n % 10 == (n % 1000) % 10
  {
    var q, k := n / 1000, n % 1000;
    assert n == 1000 * q + k;
    assert n / 10 == 100 * q + k / 10;
    assert n / 100 == 10 * q + k / 100;
  }

  lemma NatToStringShort(n: nat)
    requires n < 1000
    ensures |NatToString(n)| <= 3
  {
    if n >= 10 {
      assert NatToString(n) == NatToString(n / 10) + [DigitChar(n % 10)];
      if n / 10 >= 10 {
        assert NatToString(n / 10) == NatToString(n / 100) + [DigitChar(n / 10 % 10)];
      }
    }
  }

  /** One more group: the separator count grows by one and the digits by three. */
  lemma GroupedStep(g: string, p: string)
    requires |p| == 3 && forall i :: 0 <= i < 3 ==> IsDigit(p[i])
    ensures DropDots(g + "." + p) == DropDots(g) + p
    ensures Dots(g + "." + p) == Dots(g) + 1
  {
    DropDotsAppend(g, ".");
    DropDotsAppend(g + ".", p);
    DropDotsDigits(p);
    assert "."[..0] == [];
  }

  /** Deleting the separators gives back the plain decimal digits of the amount. */
  lemma {:induction false} GroupedDigits(n: nat)
    ensures DropDots(Grouped(n)) == NatToString(n)
    ensures Dots(Grouped(n)) == (|NatToString(n)| - 1) / 3
    decreases n
  {
    if n < 1000 {
      DropDotsDigits(NatToString(n));
      NatToStringShort(n);
    } else {
      var g, p := Grouped(n / 1000), Pad3(n % 1000);
      assert Grouped(n) == g + "." + p;
      GroupedDigits(n / 1000);
      NatToStringThousands(n);
      GroupedStep(g, p);
      var len := |NatToString(n / 1000)|;
      assert |NatToString(n)| == len + 3;
      assert (len + 2) / 3 == (len - 1) / 3 + 1;
    }
  }

  /**
   * For a non-negative amount the text is `$` followed by the grouped
   * digits: deleting `$` and `.` leaves the decimal digits of the amount,
   * which read back as the amount, and there is one separator per full
   * group of three digits beyond the first.
   */
  lemma FmtCopDigits(v: int)
    requires v >= 0
    ensures FmtCop(Some(v))[0] == '$'
    ensures DropDots(FmtCop(Some(v))[1..]) == NatToString(v)
    ensures ParseNat(DropDots(FmtCop(Some(v))[1..])) == v
    ensures Dots(FmtCop(Some(v))) == (|NatToString(v)| - 1) / 3
  {
    var s := FmtCop(Some(v));
    assert s[1..] == Grouped(v);
    GroupedDigits(v);
    ParseNatToString(v);
    DropDotsAppend("$", Grouped(v));
    assert Dots("$") == 0 by { assert "$"[..0] == []; }
  }

  /** The sign rule: a negative amount is its opposite with a leading minus. */
  lemma FmtCopNegative(v: int)
    requires v < 0
    ensures FmtCop(Some(v)) == "-" + FmtCop(Some(-v))
  {
  }

  // ---------------------------------------------------------------
  // Form option lists
  // ---------------------------------------------------------------

  const METODOS_PAGO: seq<string> := [EFECTIVO, TRANSFERENCIA, DATAFONO, CREDITO]
  const VENDEDORES: seq<string> := [JP, KATHE, ANDRES]

  /** The payment methods offered are exactly the four the ledger knows. */
  lemma MetodosPago()
    ensures |METODOS_PAGO| == 4 && CREDITO in METODOS_PAGO
    ensures forall i, j :: 0 <= i < j < |METODOS_PAGO| ==> METODOS_PAGO[i] != METODOS_PAGO[j]
    ensures forall m :: m in METODOS_PAGO <==> m in {EFECTIVO, TRANSFERENCIA, DATAFONO, CREDITO}
  {
  }

  /** The sellers offered are exactly the three partners. */
  lemma Vendedores()
    ensures VENDEDORES == SOCIOS
    ensures forall s :: s in VENDEDORES <==> IsSocio(s)
  {
  }
}
