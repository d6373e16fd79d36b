/**
 * SQL over tables held as sequences of rows: `SELECT ... WHERE` is `Where`,
 * `UPDATE ... WHERE` is `Update` (every matching row changes), `DELETE ...
 * WHERE` keeps the rows `Where` the condition fails, `fetchone` is `First`,
 * `SUM` and `GROUP BY ... SUM` are `Sum` and `GroupSum`. Every fold runs
 * from the front, the way the ledger's own loops walk the rows, so each is
 * defined on its last element.
 */
module Tables {
  import opened Common

  function Not<T(!new)>(p: T -> bool): (q: T -> bool)
    ensures forall x {:trigger q(x)} :: q(x) <==> !p(x)
  {
    x => !p(x)
  }

  function And<T(!new)>(p: T -> bool, q: T -> bool): (r: T -> bool)
    ensures forall x {:trigger r(x)} :: r(x) <==> p(x) && q(x)
  {
    x => p(x) && q(x)
  }

  /** The rows satisfying `p`, in table order. */
  function Where<T(!new)>(s: seq<T>, p: T -> bool): (r: seq<T>)
    ensures |r| <= |s|
    ensures forall x {:trigger x in r} {:trigger x in s} :: x in r <==> x in s && p(x)
  {
    if s == [] then []
    else Where(s[..|s| - 1], p) + (if p(s[|s| - 1]) then [s[|s| - 1]] else [])
  }

  /** Every row satisfying `p` replaced by `f` of it, the others untouched. */
  function Update<T>(s: seq<T>, p: T -> bool, f: T -> T): (r: seq<T>)
    ensures |r| == |s|
    ensures forall i :: 0 <= i < |s| ==> r[i] == if p(s[i]) then f(s[i]) else s[i]
  {
    if s == [] then []
    else
      var last := s[|s| - 1];
      var r := Update(s[..|s| - 1], p, f) + [if p(last) then f(last) else last];
      assert forall i :: 0 <= i < |s| - 1 ==> r[i] == Update(s[..|s| - 1], p, f)[i];
      r
  }

  /** The first row satisfying `p`, as `fetchone()` or `rows[0]` gives it. */
  function First<T(!new)>(s: seq<T>, p: T -> bool): (r: Option<T>)
    ensures r.None? <==> forall x :: x in s ==> !p(x)
    ensures r.Some? ==> r.value in s && p(r.value)
  {
    if s == [] then None
    else if p(s[0]) then Some(s[0])
    else First(s[1..], p)
  }

  function Count<T(!new)>(s: seq<T>, p: T -> bool): (n: nat)
    ensures n <= |s|
    ensures n == 0 <==> forall x :: x in s ==> !p(x)
  {
    var w := Where(s, p);
    assert w != [] ==> w[0] in w;
    |w|
  }

  function Sum<T>(s: seq<T>, f: T -> int): int {
    if s == [] then 0 else Sum(s[..|s| - 1], f) + f(s[|s| - 1])
  }

  function SumR<T>(s: seq<T>, f: T -> real): real {
    if s == [] then 0.0 else SumR(s[..|s| - 1], f) + f(s[|s| - 1])
  }

  /** `key < n` as a row predicate. */
  function KeyBelow<T(!new)>(key: T -> int, n: int): (p: T -> bool)
    ensures forall x {:trigger p(x)} :: p(x) <==> key(x) < n
  {
    x => key(x) < n
  }

  /** SQL `SUM`: NULL over no rows. */
  function SqlSum<T>(s: seq<T>, f: T -> int): (r: Option<int>)
    ensures r.None? <==> s == []
    ensures r.Some? ==> r.value == Sum(s, f)
  {
    if s == [] then None else Some(Sum(s, f))
  }

  /** `SUM(...)` read back with `or 0`: NULL and zero both give zero. */
  function SumOrZero<T>(s: seq<T>, f: T -> int): (r: int)
    ensures r == Sum(s, f)
  {
    match SqlSum(s, f)
    case Some(t) => if t != 0 then t else 0
    case None => 0
  }

  /** The first row satisfying `p` after appending one. */
  lemma {:induction false} FirstAppend<T(!new)>(s: seq<T>, x: T, p: T -> bool)
    ensures First(s + [x], p) == if First(s, p).Some? then First(s, p) else if p(x) then Some(x) else None
    decreases |s|
  {
    if s != [] {
      assert (s + [x])[1..] == s[1..] + [x];
      FirstAppend(s[1..], x, p);
    }
  }

  /** A key that is unique: no two rows share it. */
  predicate UniqueBy<T, K(==)>(s: seq<T>, key: T -> K) {
    forall i, j :: 0 <= i < j < |s| ==> key(s[i]) != key(s[j])
  }

  function KeyIs<T(!new), K(==)>(key: T -> K, k: K): (p: T -> bool)
    ensures forall x {:trigger p(x)} :: p(x) <==> key(x) == k
  {
    x => key(x) == k
  }

  /** The set of keys occurring in the rows. */
  ghost function Keys<T(!new), K(!new)>(s: seq<T>, key: T -> K): (ks: set<K>)
    ensures forall x :: x in s ==> key(x) in ks
  {
    set x | x in s :: key(x)
  }

  /** `m[k] = m.get(k, 0) + v`: the entry for `k` grows by `v`, every other entry stays. */
  function Bump<K(!new)>(m: map<K, int>, k: K, v: int): (r: map<K, int>)
    ensures k in r && r[k] == (if k in m then m[k] else 0) + v
    ensures forall j {:trigger j in r} :: j in r <==> j == k || j in m
    ensures forall j {:trigger r[j]} :: j in m && j != k ==> r[j] == m[j]
  {
    m[k := (if k in m then m[k] else 0) + v]
  }

  /** `GROUP BY key` with `SUM(f)`, built as the loop `d[k] = d.get(k, 0) + f(row)`. */
  function GroupSum<T(!new), K(!new)>(s: seq<T>, key: T -> K, f: T -> int): (m: map<K, int>)
    ensures m.Keys == Keys(s, key)
  {
    if s == [] then map[]
    else Bump(GroupSum(s[..|s| - 1], key, f), key(s[|s| - 1]), f(s[|s| - 1]))
  }

  /** `d[k] = d.get(k, 0) + v` on a map of real amounts. */
  function BumpR<K(!new)>(m: map<K, real>, k: K, v: real): (r: map<K, real>)
    ensures k in r && r[k] == (if k in m then m[k] else 0.0) + v
    ensures forall j {:trigger j in r} :: j in r <==> j == k || j in m
    ensures forall j {:trigger r[j]} :: j in m && j != k ==> r[j] == m[j]
  { m[k := (if k in m then m[k] else 0.0) + v] }

  /** The same grouping over real amounts. */
  function GroupSumR<T(!new), K(!new)>(s: seq<T>, key: T -> K, f: T -> real): (m: map<K, real>)
    ensures m.Keys == Keys(s, key)
  {
    if s == [] then map[]
    else
      BumpR(GroupSumR(s[..|s| - 1], key, f), key(s[|s| - 1]), f(s[|s| - 1]))
  }

  /**
   * The distinct keys of the rows in order of first appearance: the order
   * in which a `Counter` filled row by row holds its keys.
   */
  function FirstKeys<T(!new), K(==, !new)>(s: seq<T>, key: T -> K): (ks: seq<K>)
    ensures Distinct(ks)
    ensures forall k :: k in ks <==> k in Keys(s, key)
  {
    if s == [] then []
    else
      var ks := FirstKeys(s[..|s| - 1], key);
      assert forall x :: x in s <==> x in s[..|s| - 1] || x == s[|s| - 1];
      if key(s[|s| - 1]) in ks then ks else ks + [key(s[|s| - 1])]
  }

  /** The `(key, value)` pairs of `m` for the keys `ks`, in that order: `Counter.items()`. */
  function Entries<K, V>(ks: seq<K>, m: map<K, V>): (es: seq<(K, V)>)
    requires forall k :: k in ks ==> k in m
    ensures |es| == |ks|
    ensures forall i :: 0 <= i < |ks| ==> es[i] == (ks[i], m[ks[i]])
  {
    seq(|ks|, i requires 0 <= i < |ks| => (ks[i], m[ks[i]]))
  }

  /** The position of the first entry with the largest score. */
  function FirstMax<E>(es: seq<E>, score: E -> real): (i: nat)
    requires es != []
    ensures i < |es|
    ensures forall j :: 0 <= j < |es| ==> score(es[j]) <= score(es[i])
    ensures forall j :: 0 <= j < i ==> score(es[j]) < score(es[i])
  {
    if |es| == 1 then 0
    else
      var i := FirstMax(es[1..], score);
      if score(es[0]) >= score(es[1..][i]) then 0 else i + 1
  }

  /** Largest score first. */
  ghost predicate Ranked<E>(top: seq<E>, score: E -> real) {
    forall i, j :: 0 <= i < j < |top| ==> score(top[i]) >= score(top[j])
  }

  /** Every entry of `es` left out of `top` scores no more than any entry of `top`. */
  ghost predicate Dominates<E>(es: seq<E>, top: seq<E>, score: E -> real) {
    forall e, t :: e in es && e !in top && t in top ==> score(e) <= score(t)
  }

  /**
   * `most_common(n)`: the `n` entries with the largest scores (all of them
   * when there are fewer), largest first; an entry left out scores no more
   * than any entry kept. Among equal scores the earlier entry comes first.
   */
  function MostCommon<E>(es: seq<E>, score: E -> real, n: nat): (top: seq<E>)
    ensures |top| == if n < |es| then n else |es|
    ensures multiset(top) <= multiset(es)
    ensures Ranked(top, score) && Dominates(es, top, score)
    decreases n
  {
    if n == 0 || es == [] then []
    else
      var i := FirstMax(es, score);
      var tail := MostCommon(es[..i] + es[i + 1..], score, n - 1);
      MostCommonStep(es, score, i, tail);
      [es[i]] + tail
  }

  /** Putting the largest entry in front of the best of the others ranks the whole. */
  lemma MostCommonStep<E>(es: seq<E>, score: E -> real, i: nat, tail: seq<E>)
    requires i < |es|
    requires forall j :: 0 <= j < |es| ==> score(es[j]) <= score(es[i])
    requires multiset(tail) <= multiset(es[..i] + es[i + 1..])
    requires Ranked(tail, score) && Dominates(es[..i] + es[i + 1..], tail, score)
    ensures multiset([es[i]] + tail) <= multiset(es)
    ensures Ranked([es[i]] + tail, score) && Dominates(es, [es[i]] + tail, score)
  {
    var rest := es[..i] + es[i + 1..];
    RemoveAt(es, i);
    assert forall t :: t in tail ==> t in multiset(rest);
    StepRanked(es, score, i, tail);
    StepDominates(es, score, i, tail);
  }

  /** Taking out the entry at `i` leaves the others, as a multiset and entry by entry. */
  lemma RemoveAt<E>(es: seq<E>, i: nat)
    requires i < |es|
    ensures multiset(es) == multiset(es[..i] + es[i + 1..]) + multiset{es[i]}
    ensures forall t :: t in es[..i] + es[i + 1..] ==> t in es
  {
    assert es == es[..i] + [es[i]] + es[i + 1..];
  }

  lemma StepRanked<E>(es: seq<E>, score: E -> real, i: nat, tail: seq<E>)
    requires i < |es|
    requires forall j :: 0 <= j < |es| ==> score(es[j]) <= score(es[i])
    requires forall t :: t in tail ==> t in es
    requires Ranked(tail, score)
    ensures Ranked([es[i]] + tail, score)
  {
    var top := [es[i]] + tail;
    forall a, b | 0 <= a < b < |top|
      ensures score(top[a]) >= score(top[b])
    {
      assert top[b] == tail[b - 1];
      if a > 0 {
        assert top[a] == tail[a - 1];
      } else {
        assert top[b] in es;
      }
    }
  }

  lemma StepDominates<E>(es: seq<E>, score: E -> real, i: nat, tail: seq<E>)
    requires i < |es|
    requires forall j :: 0 <= j < |es| ==> score(es[j]) <= score(es[i])
    requires Dominates(es[..i] + es[i + 1..], tail, score)
    ensures Dominates(es, [es[i]] + tail, score)
  {
    var rest := es[..i] + es[i + 1..];
    var top := [es[i]] + tail;
    forall e, t | e in es && e !in top && t in top
      ensures score(e) <= score(t)
    {
      var j :| 0 <= j < |es| && es[j] == e;
      if t != es[i] {
        assert t in tail;
        if j < i {
          assert rest[j] == e;
        } else {
          assert rest[j - 1] == e;
        }
      }
    }
  }

  /** No element occurs twice. */
  ghost predicate Distinct<E>(s: seq<E>) {
    forall i, j :: 0 <= i < j < |s| ==> s[i] != s[j]
  }

  lemma {:induction false} DistinctCount<E>(s: seq<E>, x: E)
    requires Distinct(s)
    ensures multiset(s)[x] <= 1
    decreases |s|
  {
    if s != [] {
      var init := s[..|s| - 1];
      assert s == init + [s[|s| - 1]];
      assert Distinct(init) by {
        forall i, j | 0 <= i < j < |init| ensures init[i] != init[j] {
          assert init[i] == s[i] && init[j] == s[j];
        }
      }
      DistinctCount(init, x);
    }
  }

  lemma TwiceCount<E>(s: seq<E>, i: nat, j: nat)
    requires i < j < |s| && s[i] == s[j]
    ensures multiset(s)[s[i]] >= 2
  {
    assert s == s[..i] + [s[i]] + s[i + 1..j] + [s[j]] + s[j + 1..];
  }

  /**
   * `most_common(n)` of a counter's entries, its keys listed once each:
   * `min(n, |m|)` entries, each with its key's value, no key twice, and
   * every key left out scoring no more than any key kept.
   */
  lemma TopEntries<K, V>(ks: seq<K>, m: map<K, V>, score: ((K, V)) -> real, n: nat)
    requires Distinct(ks)
    requires forall k :: k in ks <==> k in m
    ensures var top := MostCommon(Entries(ks, m), score, n);
            && |top| == (if |m| < n then |m| else n)
            && (forall e :: e in top ==> e.0 in m && e.1 == m[e.0])
            && (forall i, j :: 0 <= i < j < |top| ==> top[i].0 != top[j].0)
            && (forall k, e :: k in m && e in top && (forall f :: f in top ==> f.0 != k) ==> score((k, m[k])) <= score(e))
  {
    var es := Entries(ks, m);
    var top := MostCommon(es, score, n);
    KeysCount(ks, m.Keys);
    EntriesDistinct(ks, m);
    TopKeysDistinct(ks, m, top);
    TopLeavesLess(ks, m, score, top);
  }

  lemma EntriesDistinct<K, V>(ks: seq<K>, m: map<K, V>)
    requires Distinct(ks)
    requires forall k :: k in ks ==> k in m
    ensures Distinct(Entries(ks, m))
  {
    var es := Entries(ks, m);
    forall i, j | 0 <= i < j < |es| ensures es[i] != es[j] {
      assert es[i].0 == ks[i] && es[j].0 == ks[j];
    }
  }

  /** Entries taken at most once each from a key's entries have different keys. */
  lemma TopKeysDistinct<K, V>(ks: seq<K>, m: map<K, V>, top: seq<(K, V)>)
    requires forall k :: k in ks ==> k in m
    requires Distinct(Entries(ks, m))
    requires multiset(top) <= multiset(Entries(ks, m))
    ensures forall e :: e in top ==> e.0 in m && e.1 == m[e.0]
    ensures forall i, j :: 0 <= i < j < |top| ==> top[i].0 != top[j].0
  {
    var es := Entries(ks, m);
    forall e | e in top
      ensures e in es && e.0 in m && e.1 == m[e.0]
    {
      assert e in multiset(es);
      var i :| 0 <= i < |es| && es[i] == e;
    }
    forall i, j | 0 <= i < j < |top|
      ensures top[i].0 != top[j].0
    {
      if top[i].0 == top[j].0 {
        assert top[i] == top[j];
        TwiceCount(top, i, j);
        DistinctCount(es, top[i]);
        assert false;
      }
    }
  }

  lemma TopLeavesLess<K, V>(ks: seq<K>, m: map<K, V>, score: ((K, V)) -> real, top: seq<(K, V)>)
    requires forall k :: k in ks <==> k in m
    requires Dominates(Entries(ks, m), top, score)
    ensures forall k, e :: k in m && e in top && (forall f :: f in top ==> f.0 != k) ==> score((k, m[k])) <= score(e)
  {
    var es := Entries(ks, m);
    forall k, e | k in m && e in top && (forall f :: f in top ==> f.0 != k)
      ensures score((k, m[k])) <= score(e)
    {
      var i :| 0 <= i < |ks| && ks[i] == k;
      assert es[i] == (k, m[k]) && es[i] in es && es[i] !in top;
    }
  }

  /** Keys listed once each are as many as the set they list. */
  lemma {:induction false} KeysCount<K>(ks: seq<K>, s: set<K>)
    requires Distinct(ks)
    requires forall k :: k in ks <==> k in s
    ensures |ks| == |s|
    decreases |ks|
  {
    if ks != [] {
      var init, last := ks[..|ks| - 1], ks[|ks| - 1];
      assert forall k :: k in init ==> k in ks && k != last by {
        forall k | k in init ensures k in ks && k != last {
          var i :| 0 <= i < |init| && init[i] == k;
          assert ks[i] == k;
        }
      }
      assert forall k :: k in ks ==> k in init || k == last;
      assert Distinct(init) by {
        forall i, j | 0 <= i < j < |init| ensures init[i] != init[j] {
          assert init[i] == ks[i] && init[j] == ks[j];
        }
      }
      KeysCount(init, s - {last});
    }
  }

  // ---------------------------------------------------------------------
  // Lemmas

  lemma SumAppend<T>(a: seq<T>, b: seq<T>, f: T -> int)
    ensures Sum(a + b, f) == Sum(a, f) + Sum(b, f)
    decreases |b|
  {
    if b != [] {
      assert (a + b)[..|a + b| - 1] == a + b[..|b| - 1];
      SumAppend(a, b[..|b| - 1], f);
    } else {
      assert a + b == a;
    }
  }

  lemma SumRAppend<T>(a: seq<T>, b: seq<T>, f: T -> real)
    ensures SumR(a + b, f) == SumR(a, f) + SumR(b, f)
    decreases |b|
  {
    if b != [] {
      assert (a + b)[..|a + b| - 1] == a + b[..|b| - 1];
      SumRAppend(a, b[..|b| - 1], f);
    } else {
      assert a + b == a;
    }
  }

  /** Splitting a table by a condition splits its sum. */
  lemma {:induction false} SumSplit<T(!new)>(s: seq<T>, p: T -> bool, f: T -> int)
    ensures Sum(s, f) == Sum(Where(s, p), f) + Sum(Where(s, Not(p)), f)
    decreases |s|
  {
    if s != [] {
      var init, last := s[..|s| - 1], s[|s| - 1];
      SumSplit(init, p, f);
      if p(last) {
        SumAppend(Where(init, p), [last], f);
        assert Where(init, Not(p)) + [] == Where(init, Not(p));
      } else {
        SumAppend(Where(init, Not(p)), [last], f);
        assert Where(init, p) + [] == Where(init, p);
      }
    }
  }

  /** A group's sum is the sum of the rows carrying its key. */
  lemma {:induction false} GroupSumAt<T(!new), K(!new)>(s: seq<T>, key: T -> K, f: T -> int, k: K)
    requires k in Keys(s, key)
    ensures GroupSum(s, key, f)[k] == Sum(Where(s, KeyIs(key, k)), f)
    decreases |s|
  {
    var init, last := s[..|s| - 1], s[|s| - 1];
    var m := GroupSum(init, key, f);
    var w := Where(init, KeyIs(key, k));
    assert GroupSum(s, key, f) == Bump(m, key(last), f(last));
    if k in Keys(init, key) {
      GroupSumAt(init, key, f, k);
    } else {
      SumOfNone(init, KeyIs(key, k), f);
    }
    if key(last) == k {
      assert Where(s, KeyIs(key, k)) == w + [last];
      assert (w + [last])[..|w|] == w;
    } else {
      assert Where(s, KeyIs(key, k)) == w + [] == w;
    }
  }

  lemma {:induction false} GroupSumRAt<T(!new), K(!new)>(s: seq<T>, key: T -> K, f: T -> real, k: K)
    requires k in Keys(s, key)
    ensures GroupSumR(s, key, f)[k] == SumR(Where(s, KeyIs(key, k)), f)
    decreases |s|
  {
    var init, last := s[..|s| - 1], s[|s| - 1];
    var m := GroupSumR(init, key, f);
    var w := Where(init, KeyIs(key, k));
    var prev := if k in m then m[k] else 0.0;
    if k in Keys(init, key) {
      GroupSumRAt(init, key, f, k);
    } else {
      SumROfNone(init, KeyIs(key, k), f);
    }
    assert prev == SumR(w, f);
    if key(last) == k {
      assert GroupSumR(s, key, f)[k] == prev + f(last);
      assert Where(s, KeyIs(key, k)) == w + [last];
      assert (w + [last])[..|w|] == w;
      assert SumR(w + [last], f) == SumR(w, f) + f(last);
    } else {
      assert GroupSumR(s, key, f)[k] == m[k];
      assert Where(s, KeyIs(key, k)) == w + [] == w;
    }
  }

  /** When nothing satisfies the condition, the filtered sum is zero. */
  lemma SumOfNone<T(!new)>(s: seq<T>, p: T -> bool, f: T -> int)
    requires forall x :: x in s ==> !p(x)
    ensures Where(s, p) == [] && Sum(Where(s, p), f) == 0
  {
  }

  lemma SumROfNone<T(!new)>(s: seq<T>, p: T -> bool, f: T -> real)
    requires forall x :: x in s ==> !p(x)
    ensures Where(s, p) == [] && SumR(Where(s, p), f) == 0.0
  {
  }

  /** Sum of `m[k]` over a list of keys. */
  function SumAt<K>(ks: seq<K>, m: map<K, int>): int
    requires forall k :: k in ks ==> k in m
  {
    if ks == [] then 0 else SumAt(ks[..|ks| - 1], m) + m[ks[|ks| - 1]]
  }

  /** The sum of every group named in `ks`. */
  ghost function SumGroups<T(!new), K>(ks: seq<K>, s: seq<T>, key: T -> K, f: T -> int): int {
    if ks == [] then 0
    else SumGroups(ks[..|ks| - 1], s, key, f) + Sum(Where(s, KeyIs(key, ks[|ks| - 1])), f)
  }

  lemma {:induction false} SumGroupsEmpty<T(!new), K>(ks: seq<K>, key: T -> K, f: T -> int)
    ensures SumGroups(ks, [], key, f) == 0
    decreases |ks|
  {
    if ks != [] {
      SumGroupsEmpty(ks[..|ks| - 1], key, f);
    }
  }

  lemma {:induction false} SumGroupsSnoc<T(!new), K>(ks: seq<K>, s: seq<T>, key: T -> K, f: T -> int)
    requires forall i, j :: 0 <= i < j < |ks| ==> ks[i] != ks[j]
    requires s != []
    ensures SumGroups(ks, s, key, f)
         == SumGroups(ks, s[..|s| - 1], key, f) + (if key(s[|s| - 1]) in ks then f(s[|s| - 1]) else 0)
    decreases |ks|
  {
    if ks != [] {
      var rest, k := ks[..|ks| - 1], ks[|ks| - 1];
      var init, last := s[..|s| - 1], s[|s| - 1];
      SumGroupsSnoc(rest, s, key, f);
      var w := Where(init, KeyIs(key, k));
      if key(last) == k {
        assert Where(s, KeyIs(key, k)) == w + [last];
        assert (w + [last])[..|w|] == w;
        assert forall i :: 0 <= i < |rest| ==> rest[i] == ks[i] && ks[i] != k;
      } else {
        assert Where(s, KeyIs(key, k)) == w + [] == w;
        assert ks == rest + [k];
      }
    }
  }

  /** The groups of a duplicate-free key list covering every row partition the table's sum. */
  lemma {:induction false} SumGroupsTotal<T(!new), K>(ks: seq<K>, s: seq<T>, key: T -> K, f: T -> int)
    requires forall i, j :: 0 <= i < j < |ks| ==> ks[i] != ks[j]
    requires forall x :: x in s ==> key(x) in ks
    ensures SumGroups(ks, s, key, f) == Sum(s, f)
    decreases |s|
  {
    if s == [] {
      SumGroupsEmpty(ks, key, f);
    } else {
      SumGroupsSnoc(ks, s, key, f);
      assert s[|s| - 1] in s;
      SumGroupsTotal(ks, s[..|s| - 1], key, f);
    }
  }

  lemma {:induction false} SumAtGroups<T(!new), K>(ks: seq<K>, s: seq<T>, key: T -> K, f: T -> int, m: map<K, int>)
    requires forall k :: k in ks ==> k in m && m[k] == Sum(Where(s, KeyIs(key, k)), f)
    ensures SumAt(ks, m) == SumGroups(ks, s, key, f)
    decreases |ks|
  {
    if ks != [] {
      SumAtGroups(ks[..|ks| - 1], s, key, f, m);
    }
  }

  /**
   * Summing the groups over a duplicate-free list of exactly the keys that
   * occur gives back the sum of the whole table: the groups partition it.
   */
  lemma GroupSumTotal<T(!new), K(!new)>(s: seq<T>, key: T -> K, f: T -> int, ks: seq<K>)
    requires forall i, j :: 0 <= i < j < |ks| ==> ks[i] != ks[j]
    requires forall k :: k in ks <==> k in Keys(s, key)
    ensures forall k :: k in ks ==> k in GroupSum(s, key, f)
    ensures SumAt(ks, GroupSum(s, key, f)) == Sum(s, f)
  {
    var m := GroupSum(s, key, f);
    forall k | k in ks
      ensures m[k] == Sum(Where(s, KeyIs(key, k)), f)
    {
      GroupSumAt(s, key, f, k);
    }
    SumAtGroups(ks, s, key, f, m);
    SumGroupsTotal(ks, s, key, f);
  }

  /** Two conditions that agree on every row filter the table alike. */
  lemma {:induction false} WhereSame<T(!new)>(s: seq<T>, p: T -> bool, q: T -> bool)
    requires forall x :: x in s ==> p(x) == q(x)
    ensures Where(s, p) == Where(s, q)
    decreases |s|
  {
    if s != [] {
      assert s[|s| - 1] in s;
      WhereSame(s[..|s| - 1], p, q);
    }
  }

  /** `d.get(k, 0)` on a map of real amounts. */
  function GetR<K>(m: map<K, real>, k: K): real {
    if k in m then m[k] else 0.0
  }

  /** Sum of `d.get(k, 0)` over a list of keys. */
  function SumAtR<K>(ks: seq<K>, m: map<K, real>): real {
    if ks == [] then 0.0 else SumAtR(ks[..|ks| - 1], m) + GetR(m, ks[|ks| - 1])
  }

  lemma {:induction false} SumAtREmpty<K>(ks: seq<K>)
    ensures SumAtR(ks, map[]) == 0.0
    decreases |ks|
  {
    if ks != [] {
      SumAtREmpty(ks[..|ks| - 1]);
    }
  }

  /** Bumping one key raises the sum over a duplicate-free key list by the amount exactly when the key is listed. */
  lemma {:induction false} SumAtRBump<K(!new)>(ks: seq<K>, m: map<K, real>, k: K, v: real)
    requires forall i, j :: 0 <= i < j < |ks| ==> ks[i] != ks[j]
    ensures SumAtR(ks, BumpR(m, k, v)) == SumAtR(ks, m) + (if k in ks then v else 0.0)
    decreases |ks|
  {
    if ks != [] {
      var rest, j := ks[..|ks| - 1], ks[|ks| - 1];
      SumAtRBump(rest, m, k, v);
      assert ks == rest + [j];
      if k == j {
        assert k !in rest by {
          forall i | 0 <= i < |rest| ensures rest[i] != k { assert rest[i] == ks[i]; }
        }
      }
    }
  }

  /**
   * The real-valued groups, read over a duplicate-free list naming every key
   * that occurs, add up to the sum of the whole table.
   */
  lemma {:induction false} GroupSumRTotal<T(!new), K(!new)>(s: seq<T>, key: T -> K, f: T -> real, ks: seq<K>)
    requires forall i, j :: 0 <= i < j < |ks| ==> ks[i] != ks[j]
    requires forall x :: x in s ==> key(x) in ks
    ensures SumAtR(ks, GroupSumR(s, key, f)) == SumR(s, f)
    decreases |s|
  {
    if s == [] {
      SumAtREmpty(ks);
    } else {
      var init, last := s[..|s| - 1], s[|s| - 1];
      assert forall x :: x in init ==> x in s;
      assert last in s;
      GroupSumRTotal(init, key, f, ks);
      SumAtRBump(ks, GroupSumR(init, key, f), key(last), f(last));
    }
  }

  /** Filtering a table with one more row filters the old rows and then the new one. */
  lemma WhereAppend<T(!new)>(s: seq<T>, x: T, p: T -> bool)
    ensures Where(s + [x], p) == Where(s, p) + (if p(x) then [x] else [])
  {
    assert (s + [x])[..|s|] == s;
  }

  /** Filtering twice is filtering once by both conditions. */
  lemma {:induction false} WhereWhere<T(!new)>(s: seq<T>, p: T -> bool, q: T -> bool)
    ensures Where(Where(s, p), q) == Where(s, And(p, q))
    decreases |s|
  {
    if s != [] {
      var init, last := s[..|s| - 1], s[|s| - 1];
      WhereWhere(init, p, q);
      if p(last) {
        WhereAppend(Where(init, p), last, q);
      } else {
        assert Where(s, p) == Where(init, p) + [] == Where(init, p);
      }
    }
  }

  /** Rows appended that the filter drops leave the filtered table as it was. */
  lemma {:induction false} WhereAppendNone<T(!new)>(s: seq<T>, t: seq<T>, p: T -> bool)
    requires forall x :: x in t ==> !p(x)
    ensures Where(s + t, p) == Where(s, p)
    decreases |t|
  {
    if t != [] {
      var init, last := t[..|t| - 1], t[|t| - 1];
      assert s + t == (s + init) + [last];
      assert last in t;
      WhereAppend(s + init, last, p);
      WhereAppendNone(s, init, p);
    } else {
      assert s + t == s;
    }
  }

  /** A condition every row meets filters nothing out. */
  lemma {:induction false} WhereKeepsAll<T(!new)>(s: seq<T>, p: T -> bool)
    requires forall x :: x in s ==> p(x)
    ensures Where(s, p) == s
    decreases |s|
  {
    if s != [] {
      assert s[|s| - 1] in s;
      WhereKeepsAll(s[..|s| - 1], p);
      assert s[..|s| - 1] + [s[|s| - 1]] == s;
    }
  }

  /** An update whose condition no row meets changes nothing. */
  lemma UpdateNoMatch<T>(s: seq<T>, p: T -> bool, f: T -> T)
    requires forall x :: x in s ==> !p(x)
    ensures Update(s, p, f) == s
  {
    var r := Update(s, p, f);
    forall i | 0 <= i < |s|
      ensures r[i] == s[i]
    {
      assert s[i] in s;
    }
  }

  /** An update undone by a second one on the same rows restores the table. */
  lemma UpdateUndone<T>(s: seq<T>, p: T -> bool, f: T -> T, g: T -> T)
    requires forall x :: p(x) ==> p(f(x)) && g(f(x)) == x
    ensures Update(Update(s, p, f), p, g) == s
  {
    var r := Update(Update(s, p, f), p, g);
    forall i | 0 <= i < |s|
      ensures r[i] == s[i]
    {
    }
  }

  lemma UpdateAppend<T>(s: seq<T>, x: T, p: T -> bool, f: T -> T)
    ensures Update(s + [x], p, f) == Update(s, p, f) + [if p(x) then f(x) else x]
  {
    var r := Update(s + [x], p, f);
    var t := Update(s, p, f) + [if p(x) then f(x) else x];
    forall i | 0 <= i < |r|
      ensures r[i] == t[i]
    {
      if i < |s| {
        assert (s + [x])[i] == s[i];
      }
    }
  }

  /** A row property that the update keeps holds of every row after it. */
  lemma AllUpdate<T>(s: seq<T>, p: T -> bool, f: T -> T, q: T -> bool)
    requires forall x :: x in s ==> q(x)
    requires forall x :: x in s && p(x) ==> q(f(x))
    ensures forall x :: x in Update(s, p, f) ==> q(x)
  {
    var r := Update(s, p, f);
    forall x | x in r
      ensures q(x)
    {
      var i :| 0 <= i < |r| && r[i] == x;
      assert s[i] in s;
    }
  }

  /** An update that keeps the key keeps the set of keys occurring in the table. */
  lemma UpdateKeepsKey<T(!new), K(!new)>(s: seq<T>, key: T -> K, p: T -> bool, f: T -> T, k: K)
    requires forall x :: key(f(x)) == key(x)
    ensures (exists x :: x in Update(s, p, f) && key(x) == k) <==> (exists x :: x in s && key(x) == k)
  {
    var r := Update(s, p, f);
    if exists x :: x in s && key(x) == k {
      var x :| x in s && key(x) == k;
      var i :| 0 <= i < |s| && s[i] == x;
      assert key(r[i]) == k && r[i] in r;
    }
    if exists x :: x in r && key(x) == k {
      var x :| x in r && key(x) == k;
      var i :| 0 <= i < |r| && r[i] == x;
      assert key(s[i]) == k && s[i] in s;
    }
  }

  /** Under an update that keeps the key, the first row with a key is the updated first row with it. */
  lemma {:induction false} UpdateFirst<T(!new), K(!new)>(s: seq<T>, key: T -> K, p: T -> bool, f: T -> T, k: K)
    requires forall x :: key(f(x)) == key(x)
    ensures var o := First(s, KeyIs(key, k));
            First(Update(s, p, f), KeyIs(key, k)) == if o.Some? then Some(if p(o.value) then f(o.value) else o.value) else None
    decreases |s|
  {
    if s != [] {
      var r := Update(s, p, f);
      assert r[1..] == Update(s[1..], p, f);
      assert r[0] == if p(s[0]) then f(s[0]) else s[0];
      UpdateFirst(s[1..], key, p, f, k);
    }
  }

  /** Every row after an update is an old row or the update of one. */
  lemma UpdateMember<T>(s: seq<T>, p: T -> bool, f: T -> T, x: T)
    requires x in Update(s, p, f)
    ensures exists y :: y in s && x == (if p(y) then f(y) else y)
  {
    var r := Update(s, p, f);
    var i :| 0 <= i < |r| && r[i] == x;
    assert s[i] in s;
  }

  /** Uniqueness survives dropping rows. */
  lemma {:induction false} UniqueWhere<T(!new), K>(s: seq<T>, key: T -> K, p: T -> bool)
    requires UniqueBy(s, key)
    ensures UniqueBy(Where(s, p), key)
    decreases |s|
  {
    if s != [] {
      var init, last := s[..|s| - 1], s[|s| - 1];
      UniqueWhere(init, key, p);
      if p(last) {
        var w := Where(init, p);
        forall i | 0 <= i < |w|
          ensures key(w[i]) != key(last)
        {
          assert w[i] in init;
          var j :| 0 <= j < |init| && init[j] == w[i];
          assert s[j] == w[i];
        }
      }
    }
  }

  /** Uniqueness survives an update that keeps the key. */
  lemma UniqueUpdate<T, K>(s: seq<T>, key: T -> K, p: T -> bool, f: T -> T)
    requires UniqueBy(s, key)
    requires forall x :: key(f(x)) == key(x)
    ensures UniqueBy(Update(s, p, f), key)
  {
    var r := Update(s, p, f);
    forall i, j | 0 <= i < j < |r|
      ensures key(r[i]) != key(r[j])
    {
      assert key(r[i]) == key(s[i]) && key(r[j]) == key(s[j]);
    }
  }

  /** Uniqueness survives appending a row with a fresh key. */
  lemma UniqueAppend<T, K>(s: seq<T>, key: T -> K, x: T)
    requires UniqueBy(s, key)
    requires forall y :: y in s ==> key(y) != key(x)
    ensures UniqueBy(s + [x], key)
  {
    var r := s + [x];
    forall i, j | 0 <= i < j < |r|
      ensures key(r[i]) != key(r[j])
    {
      if j == |s| {
        assert r[i] in s;
      } else {
        assert r[i] == s[i] && r[j] == s[j];
      }
    }
  }

  /** Under a unique key, the row `First` finds is the only one with that key. */
  lemma FirstUnique<T(!new), K>(s: seq<T>, key: T -> K, k: K, x: T)
    requires UniqueBy(s, key)
    requires x in s && key(x) == k
    ensures First(s, KeyIs(key, k)) == Some(x)
  {
    var r := First(s, KeyIs(key, k));
    var i :| 0 <= i < |s| && s[i] == r.value;
    var j :| 0 <= j < |s| && s[j] == x;
    assert key(s[i]) == key(s[j]);
  }

  /**
   * Under a unique key, an update of the one row with key `k` changes a
   * filtered sum by what that row contributed before and after the change.
   */
  lemma {:induction false} SumWhereUpdateOne<T(!new), K>(s: seq<T>, key: T -> K, k: K, f: T -> T,
                                                        q: T -> bool, g: T -> int, x: T)
    requires UniqueBy(s, key) && x in s && key(x) == k
    ensures Sum(Where(Update(s, KeyIs(key, k), f), q), g)
         == Sum(Where(s, q), g) - (if q(x) then g(x) else 0) + (if q(f(x)) then g(f(x)) else 0)
    decreases |s|
  {
    var p := KeyIs(key, k);
    var init, last := s[..|s| - 1], s[|s| - 1];
    assert s == init + [last];
    var u := Update(init, p, f);
    var last' := if p(last) then f(last) else last;
    UpdateAppend(init, last, p, f);
    WhereAppend(u, last', q);
    WhereAppend(init, last, q);
    SumAppend(Where(u, q), if q(last') then [last'] else [], g);
    SumAppend(Where(init, q), if q(last) then [last] else [], g);
    if key(last) == k {
      forall y | y in init
        ensures !p(y)
      {
        var i :| 0 <= i < |init| && init[i] == y;
        assert s[i] == y;
      }
      UpdateNoMatch(init, p, f);
    } else {
      assert UniqueBy(init, key) by {
        forall i, j | 0 <= i < j < |init|
          ensures key(init[i]) != key(init[j])
        {
          assert init[i] == s[i] && init[j] == s[j];
        }
      }
      SumWhereUpdateOne(init, key, k, f, q, g, x);
    }
  }
}
