/**
 * The handful of Python string operations the ledger and its scripts rely on:
 * `strip`, `upper`/`lower` (ASCII letters only), `startswith`, `in` on strings,
 * `split()` with no argument, `' '.join`, `replace`, `rsplit('-', 1)`,
 * `<` on strings, and the decimal rendering of integers.
 */
module Strings {

  /**
   * The characters `str.strip()` and `str.split()` remove: those for which
   * Python's `str.isspace()` holds (ASCII whitespace, the four separators
   * U+001C..U+001F, NEL, no-break space and the Unicode space separators).
   */
  predicate IsSpace(c: char) {
    c == ' ' || '\t' <= c <= '\r' || '\U{001C}' <= c <= '\U{001F}'
    || c == '\U{0085}' || c == '\U{00A0}' || c == '\U{1680}' || '\U{2000}' <= c <= '\U{200A}'
    || c == '\U{2028}' || c == '\U{2029}' || c == '\U{202F}' || c == '\U{205F}' || c == '\U{3000}'
  }

  /** A token produced by `str.split()`: non-empty, without whitespace. */
  predicate IsWord(w: string) {
    w != [] && forall i :: 0 <= i < |w| ==> !IsSpace(w[i])
  }

  function LStrip(s: string): (r: string)
    ensures |r| <= |s| && r == s[|s| - |r|..]
    ensures r == [] || !IsSpace(r[0])
    ensures forall i :: 0 <= i < |s| - |r| ==> IsSpace(s[i])
  {
    if s != [] && IsSpace(s[0]) then LStrip(s[1..]) else s
  }

  function RStrip(s: string): (r: string)
    ensures |r| <= |s| && r == s[..|r|]
    ensures r == [] || !IsSpace(r[|r| - 1])
    ensures forall i :: |r| <= i < |s| ==> IsSpace(s[i])
  {
    if s != [] && IsSpace(s[|s| - 1]) then RStrip(s[..|s| - 1]) else s
  }

  /** Python's `s.strip()`. */
  function Strip(s: string): (r: string)
    ensures |r| <= |s|
    ensures r == [] || (!IsSpace(r[0]) && !IsSpace(r[|r| - 1]))
  {
    RStrip(LStrip(s))
  }

  /** `strip()` leaves a string alone when both ends are not whitespace. */
  lemma StripTrimmed(s: string)
    requires s != [] && !IsSpace(s[0]) && !IsSpace(s[|s| - 1])
    ensures Strip(s) == s
  {
    assert LStrip(s) == s;
  }

  /** Stripping twice is stripping once. */
  lemma StripIdempotent(s: string)
    ensures Strip(Strip(s)) == Strip(s)
  {
    var r := Strip(s);
    assert LStrip(r) == r;
    assert RStrip(r) == r;
  }

  function UpperChar(c: char): char {
    if 'a' <= c <= 'z' then (c as int - 32) as char else c
  }

  function LowerChar(c: char): char {
    if 'A' <= c <= 'Z' then (c as int + 32) as char else c
  }

  /** Python's `s.upper()` on ASCII letters; every other character is kept. */
  function Upper(s: string): (r: string)
    ensures |r| == |s|
    ensures forall i :: 0 <= i < |s| ==> r[i] == UpperChar(s[i])
  {
    if s == [] then [] else [UpperChar(s[0])] + Upper(s[1..])
  }

  /** Python's `s.lower()` on ASCII letters; every other character is kept. */
  function Lower(s: string): (r: string)
    ensures |r| == |s|
    ensures forall i :: 0 <= i < |s| ==> r[i] == LowerChar(s[i])
  {
    if s == [] then [] else [LowerChar(s[0])] + Lower(s[1..])
  }

  /** Upper-casing leaves no lower-case ASCII letter, so doing it twice changes nothing. */
  lemma UpperIdempotent(s: string)
    ensures Upper(Upper(s)) == Upper(s)
  {
    var u := Upper(s);
    assert forall i :: 0 <= i < |u| ==> UpperChar(u[i]) == u[i];
  }

  lemma UpperCharSpace(c: char)
    ensures IsSpace(UpperChar(c)) <==> IsSpace(c)
  {
  }

  /** A string whose characters are the lower-cased characters of `s` is `Lower(s)`. */
  lemma LowerIs(s: string, t: string)
    requires |s| == |t| && forall i :: 0 <= i < |s| ==> LowerChar(s[i]) == t[i]
    ensures Lower(s) == t
  {
  }

  /** Upper-casing works character by character, so it distributes over concatenation. */
  lemma UpperAppend(a: string, b: string)
    ensures Upper(a + b) == Upper(a) + Upper(b)
  {
    assert forall i :: 0 <= i < |a + b| ==> Upper(a + b)[i] == (Upper(a) + Upper(b))[i];
  }

  /** Upper-casing neither creates nor removes whitespace, so it commutes with `strip`. */
  lemma UpperStripCommute(s: string)
    ensures Strip(Upper(s)) == Upper(Strip(s))
  {
    LStripUpper(s);
    RStripUpper(LStrip(s));
  }

  lemma {:induction false} LStripUpper(s: string)
    ensures LStrip(Upper(s)) == Upper(LStrip(s))
    decreases |s|
  {
    if s != [] {
      var u := Upper(s);
      UpperCharSpace(s[0]);
      assert u[0] == UpperChar(s[0]);
      if IsSpace(s[0]) {
        assert LStrip(u) == LStrip(u[1..]);
        assert u[1..] == Upper(s[1..]);
        LStripUpper(s[1..]);
      } else {
        assert LStrip(u) == u;
      }
    }
  }

  lemma UpperPrefix(s: string, n: nat)
    requires n <= |s|
    ensures Upper(s)[..n] == Upper(s[..n])
  {
    var a := Upper(s)[..n];
    var b := Upper(s[..n]);
    assert |a| == |b|;
    forall i | 0 <= i < n
      ensures a[i] == b[i]
    {
      assert a[i] == UpperChar(s[i]);
      assert b[i] == UpperChar(s[..n][i]);
    }
  }

  lemma {:induction false} RStripUpper(s: string)
    ensures RStrip(Upper(s)) == Upper(RStrip(s))
    decreases |s|
  {
    if s != [] {
      var n := |s| - 1;
      var u := Upper(s);
      UpperCharSpace(s[n]);
      assert u[n] == UpperChar(s[n]);
      if IsSpace(s[n]) {
        assert IsSpace(u[n]);
        UpperPrefix(s, n);
        RStripUpper(s[..n]);
        calc {
          RStrip(u);
          RStrip(u[..n]);
          RStrip(Upper(s[..n]));
          Upper(RStrip(s[..n]));
          Upper(RStrip(s));
        }
      } else {
        assert !IsSpace(u[n]);
        assert RStrip(u) == u;
        assert RStrip(s) == s;
      }
    }
  }

  /** Python's `s.startswith(p)`. */
  predicate StartsWith(s: string, p: string) {
    |p| <= |s| && s[..|p|] == p
  }

  /** Python's `sub in s`. */
  predicate Contains(s: string, sub: string)
    decreases |s|
  {
    StartsWith(s, sub) || (s != [] && Contains(s[1..], sub))
  }

  /** Length of the leading run of non-whitespace characters. */
  function TokenLen(s: string): (n: nat)
    ensures n <= |s|
    ensures forall i :: 0 <= i < n ==> !IsSpace(s[i])
    ensures n < |s| ==> IsSpace(s[n])
    ensures s != [] && !IsSpace(s[0]) ==> n >= 1
  {
    if s == [] || IsSpace(s[0]) then 0 else 1 + TokenLen(s[1..])
  }

  /** Python's `s.split()`: the maximal runs of non-whitespace characters, in order. */
  function Words(s: string): (ws: seq<string>)
    ensures forall w :: w in ws ==> IsWord(w)
    decreases |s|
  {
    var t := LStrip(s);
    if t == [] then []
    else
      var n := TokenLen(t);
      [t[..n]] + Words(t[n..])
  }

  /** Python's `sep.join(ws)`. */
  function Join(ws: seq<string>, sep: string): string {
    if ws == [] then ""
    else if |ws| == 1 then ws[0]
    else ws[0] + sep + Join(ws[1..], sep)
  }

  lemma TokenLenWord(w: string, rest: string)
    requires forall i :: 0 <= i < |w| ==> !IsSpace(w[i])
    ensures TokenLen(w + rest) == |w| + TokenLen(rest)
  {
    if w != [] {
      var j := w + rest;
      assert j != [] && j[0] == w[0] && !IsSpace(j[0]);
      assert j[1..] == w[1..] + rest;
      TokenLenWord(w[1..], rest);
      assert TokenLen(j) == 1 + TokenLen(j[1..]);
    } else {
      assert w + rest == rest;
    }
  }

  lemma JoinStartsWithFirst(ws: seq<string>)
    requires ws != [] && forall w :: w in ws ==> IsWord(w)
    ensures |Join(ws, " ")| >= |ws[0]| && Join(ws, " ")[..|ws[0]|] == ws[0]
  {
  }

  lemma WordsSingle(w: string)
    requires IsWord(w)
    ensures Words(w) == [w]
  {
    TokenLenWord(w, "");
    assert w + "" == w;
    assert LStrip(w) == w;
    assert w[..|w|] == w;
    assert w[|w|..] == "";
  }

  lemma WordsAfterSpace(rest: string)
    requires rest == [] || !IsSpace(rest[0])
    ensures Words(" " + rest) == Words(rest)
  {
    var t := " " + rest;
    assert t[1..] == rest;
    assert LStrip(t) == LStrip(rest);
  }

  lemma WordsCons(w: string, rest: string)
    requires IsWord(w) && (rest == [] || !IsSpace(rest[0]))
    ensures Words(w + " " + rest) == [w] + Words(rest)
  {
    var j := w + " " + rest;
    assert j == w + (" " + rest);
    assert j[0] == w[0];
    assert LStrip(j) == j;
    TokenLenWord(w, " " + rest);
    assert TokenLen(j) == |w|;
    assert j[..|w|] == w;
    assert j[|w|..] == " " + rest;
    WordsAfterSpace(rest);
  }

  /** Splitting what `' '.join` produced from tokens gives the tokens back. */
  lemma {:induction false} WordsOfJoin(ws: seq<string>)
    requires forall w :: w in ws ==> IsWord(w)
    ensures Words(Join(ws, " ")) == ws
  {
    if ws == [] {
    } else if |ws| == 1 {
      assert ws[0] in ws;
      WordsSingle(ws[0]);
    } else {
      assert ws[0] in ws && ws[1] in ws;
      var rest := Join(ws[1..], " ");
      JoinStartsWithFirst(ws[1..]);
      assert rest[0] == ws[1][0];
      WordsCons(ws[0], rest);
      WordsOfJoin(ws[1..]);
    }
  }

  /** Python's `s.replace(pat, rep)`: left to right, non-overlapping. */
  function Replace(s: string, pat: string, rep: string): string
    requires pat != []
    decreases |s|
  {
    if |s| < |pat| then s
    else if s[..|pat|] == pat then rep + Replace(s[|pat|..], pat, rep)
    else [s[0]] + Replace(s[1..], pat, rep)
  }

  /** Index of the last occurrence of `c`, or -1. */
  function LastIndexOf(s: string, c: char): (k: int)
    ensures -1 <= k < |s|
    ensures k >= 0 ==> s[k] == c
    ensures forall i :: k < i < |s| ==> s[i] != c
  {
    if s == [] then -1
    else if s[|s| - 1] == c then |s| - 1
    else LastIndexOf(s[..|s| - 1], c)
  }

  /** The last occurrence is the position after which the character no longer appears. */
  lemma LastIndexOfAt(s: string, c: char, j: int)
    requires 0 <= j < |s| && s[j] == c
    requires forall i :: j < i < |s| ==> s[i] != c
    ensures LastIndexOf(s, c) == j
  {
    var k := LastIndexOf(s, c);
    if k < j {
      assert false;
    }
  }

  lemma TailWithout(s: string, x: string, c: char, t: string)
    requires s == x + [c] + t
    requires forall i :: 0 <= i < |t| ==> t[i] != c
    ensures s[|x|] == c
    ensures forall i :: |x| < i < |s| ==> s[i] != c
  {
    forall i | |x| < i < |s|
      ensures s[i] != c
    {
      assert s[i] == t[i - |x| - 1];
    }
  }

  /** In `x + c + t` with no `c` in `t`, the last `c` is the one after `x`: what `rsplit(c, 1)` splits at. */
  lemma LastIndexOfSplit(x: string, c: char, t: string)
    requires forall i :: 0 <= i < |t| ==> t[i] != c
    ensures LastIndexOf(x + [c] + t, c) == |x|
  {
    var s := x + [c] + t;
    TailWithout(s, x, c, t);
    LastIndexOfAt(s, c, |x|);
  }

  /** Python's `s < t`: lexicographic order on code points. */
  predicate LexLess(a: string, b: string) {
    if a == [] then b != []
    else if b == [] then false
    else if a[0] != b[0] then a[0] < b[0]
    else LexLess(a[1..], b[1..])
  }

  function DigitChar(d: nat): char
    requires d < 10
  {
    ('0' as int + d) as char
  }

  predicate IsDigit(c: char) {
    '0' <= c <= '9'
  }

  function DigitValue(c: char): nat
    requires IsDigit(c)
  {
    c as int - '0' as int
  }

  /** Python's `str(n)` for a natural number. */
  function NatToString(n: nat): (s: string)
    ensures s != [] && forall i :: 0 <= i < |s| ==> IsDigit(s[i])
    ensures |s| > 1 ==> s[0] != '0'
    decreases n
  {
    if n < 10 then [DigitChar(n)] else NatToString(n / 10) + [DigitChar(n % 10)]
  }

  /** Python's `str(i)` for an integer. */
  function IntToString(i: int): string {
    if i < 0 then "-" + NatToString(-i) else NatToString(i)
  }

  /** Reads a string of decimal digits back as a number. */
  function ParseNat(s: string): nat
    requires forall i :: 0 <= i < |s| ==> IsDigit(s[i])
  {
    if s == [] then 0 else 10 * ParseNat(s[..|s| - 1]) + DigitValue(s[|s| - 1])
  }

  /** Rendering a number in decimal and reading it back gives the number. */
  lemma {:induction false} ParseNatToString(n: nat)
    ensures ParseNat(NatToString(n)) == n
    decreases n
  {
    if n >= 10 {
      var s := NatToString(n);
      assert s[..|s| - 1] == NatToString(n / 10);
      ParseNatToString(n / 10);
    }
  }
}
