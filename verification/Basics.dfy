/** Shared vocabulary: optional values, and the insertion-ordered `Map` of JavaScript. */
module Options {

  datatype Option<+T> = None | Some(value: T)

  /** `text || null`: the empty string counts as absent. */
  function NonEmpty(text: Option<string>): Option<string> {
    if text == Some("") then None else text
  }
}

module Sequences {

  /** The elements of `s` that satisfy `keep`, in their order. */
  function Filter<T(!new)>(keep: T -> bool, s: seq<T>): (r: seq<T>)
    ensures |r| <= |s|
    ensures forall x :: x in r <==> x in s && keep(x)
    ensures (forall x | x in s :: keep(x)) ==> r == s
  {
    if s == [] then []
    else
      assert s == [s[0]] + s[1..];
      if keep(s[0]) then [s[0]] + Filter(keep, s[1..]) else Filter(keep, s[1..])
  }

  lemma {:induction false} FilterAppend<T(!new)>(keep: T -> bool, s: seq<T>, t: seq<T>)
    ensures Filter(keep, s + t) == Filter(keep, s) + Filter(keep, t)
  {
    if s == [] {
      assert s + t == t;
    } else {
      assert (s + t)[0] == s[0] && (s + t)[1..] == s[1..] + t;
      FilterAppend(keep, s[1..], t);
    }
  }

  /** `e` placed before the first element it must precede. */
  function Insert<T(!new)>(less: (T, T) -> bool, s: seq<T>, e: T): (r: seq<T>)
    ensures multiset(r) == multiset(s) + multiset{e}
    ensures |r| == |s| + 1
  {
    if s == [] then [e]
    else if less(e, s[0]) then [e] + s
    else
      assert s == [s[0]] + s[1..];
      [s[0]] + Insert(less, s[1..], e)
  }

  /** `Array.prototype.sort`: stable, `less(a, b)` meaning that the comparator answers a negative number. */
  function Sort<T(!new)>(less: (T, T) -> bool, s: seq<T>): (r: seq<T>)
    ensures multiset(r) == multiset(s)
    ensures |r| == |s|
    ensures forall x :: x in r <==> x in s
  {
    if s == [] then []
    else
      assert s == s[..|s| - 1] + [s[|s| - 1]];
      var r := Insert(less, Sort(less, s[..|s| - 1]), s[|s| - 1]);
      assert forall x :: x in r <==> x in multiset(r);
      assert forall x :: x in s <==> x in multiset(s);
      r
  }

  ghost predicate WeakOrder<T(!new)>(less: (T, T) -> bool) {
    && (forall a, b :: less(a, b) ==> !less(b, a))
    && (forall a, b, c :: !less(b, a) && !less(c, b) ==> !less(c, a))
  }

  ghost predicate Ordered<T(!new)>(less: (T, T) -> bool, s: seq<T>) {
    forall i, j | 0 <= i < j < |s| :: !less(s[j], s[i])
  }

  lemma {:induction false} InsertOrders<T(!new)>(less: (T, T) -> bool, s: seq<T>, e: T)
    requires WeakOrder(less) && Ordered(less, s)
    ensures Ordered(less, Insert(less, s, e))
  {
    if s != [] && !less(e, s[0]) {
      InsertOrders(less, s[1..], e);
      var rest := Insert(less, s[1..], e);
      forall j | 0 <= j < |rest|
        ensures !less(rest[j], s[0])
      {
        assert rest[j] in multiset(rest);
        assert rest[j] == e || rest[j] in s[1..];
      }
    }
  }

  lemma {:induction false} SortOrders<T(!new)>(less: (T, T) -> bool, s: seq<T>)
    requires WeakOrder(less)
    ensures Ordered(less, Sort(less, s))
  {
    if s != [] {
      SortOrders(less, s[..|s| - 1]);
      InsertOrders(less, Sort(less, s[..|s| - 1]), s[|s| - 1]);
    }
  }

  /** None of these elements precedes another. */
  ghost predicate Tied<T(!new)>(less: (T, T) -> bool, same: T -> bool) {
    forall a, b :: same(a) && same(b) ==> !less(a, b)
  }

  lemma {:induction false} InsertIsStable<T(!new)>(less: (T, T) -> bool, s: seq<T>, e: T, same: T -> bool)
    requires WeakOrder(less) && Ordered(less, s)
    requires Tied(less, same)
    ensures Filter(same, Insert(less, s, e)) == Filter(same, s) + if same(e) then [e] else []
  {
    if s == [] {
    } else if less(e, s[0]) {
      forall x | x in s && same(e)
        ensures !same(x)
      {
        var j :| 0 <= j < |s| && s[j] == x;
        assert j > 0 ==> !less(s[j], s[0]);
      }
      if same(e) {
        NoneKept(same, s);
      }
      assert ([e] + s)[1..] == s;
    } else {
      InsertIsStable(less, s[1..], e, same);
      var rest := Insert(less, s[1..], e);
      assert ([s[0]] + rest)[1..] == rest;
    }
  }

  lemma {:induction false} NoneKept<T(!new)>(keep: T -> bool, s: seq<T>)
    requires forall x | x in s :: !keep(x)
    ensures Filter(keep, s) == []
  {
    if s != [] {
      NoneKept(keep, s[1..]);
    }
  }

  /** Elements that do not precede each other keep their order. */
  lemma SortIsStable<T(!new)>(less: (T, T) -> bool, s: seq<T>, same: T -> bool)
    requires WeakOrder(less) && Tied(less, same)
    ensures Filter(same, Sort(less, s)) == Filter(same, s)
  {
    hide Sort, Insert, Filter, WeakOrder, Tied;
    PrefixIsStable(less, s, same, |s|);
    assert s[..|s|] == s;
  }

  lemma {:induction false} PrefixIsStable<T(!new)>(less: (T, T) -> bool, s: seq<T>, same: T -> bool, n: nat)
    requires WeakOrder(less) && Tied(less, same) && n <= |s|
    ensures Filter(same, Sort(less, s[..n])) == Filter(same, s[..n])
  {
    hide Sort, Filter, Insert, WeakOrder, Tied;
    if n == 0 {
      NothingSorted(less, same);
      assert s[..0] == [];
    } else {
      PrefixIsStable(less, s, same, n - 1);
      OneMoreSorted(less, s[..n - 1], s[n - 1], same);
      assert s[..n] == s[..n - 1] + [s[n - 1]];
    }
  }

  lemma NothingSorted<T(!new)>(less: (T, T) -> bool, same: T -> bool)
    ensures Filter(same, Sort(less, [])) == Filter(same, [])
  {
  }

  lemma OneMoreSorted<T(!new)>(less: (T, T) -> bool, s: seq<T>, e: T, same: T -> bool)
    requires WeakOrder(less) && Tied(less, same)
    requires Filter(same, Sort(less, s)) == Filter(same, s)
    ensures Filter(same, Sort(less, s + [e])) == Filter(same, s + [e])
  {
    assert (s + [e])[..|s + [e]| - 1] == s;
    assert Sort(less, s + [e]) == Insert(less, Sort(less, s), e);
    hide Sort, Insert, Filter, Tied;
    SortOrders(less, s);
    InsertIsStable(less, Sort(less, s), e, same);
    FilterAppend(same, s, [e]);
    OneKept(same, e);
  }

  lemma OneKept<T(!new)>(keep: T -> bool, x: T)
    ensures Filter(keep, [x]) == if keep(x) then [x] else []
  {
  }

  lemma Twice<T>(s: seq<T>, i: nat, j: nat)
    requires i < j < |s| && s[i] == s[j]
    ensures multiset(s)[s[i]] >= 2
  {
    assert s == s[..j] + s[j..];
    assert s[..j][i] in s[..j] && s[j..][0] in s[j..];
  }

  lemma {:induction false} NoRepeats<T>(s: seq<T>)
    requires forall i, j | 0 <= i < j < |s| :: s[i] != s[j]
    ensures forall x :: multiset(s)[x] <= 1
  {
    if s != [] {
      NoRepeats(s[1..]);
      assert s == [s[0]] + s[1..];
      assert s[0] !in s[1..];
    }
  }
}

/** A JavaScript `Map`: iteration follows first insertion, and writing an existing key keeps its place. */
module JsMaps {
  import opened Options

  datatype Entry<K, V> = Entry(key: K, value: V)

  type JsMap<K, V> = seq<Entry<K, V>>

  /** The position of key `k`, or `|m|` when it is absent. */
  function Find<K(==), V>(m: JsMap<K, V>, k: K): (i: nat)
    ensures i <= |m|
    ensures i < |m| ==> m[i].key == k
    ensures forall j | 0 <= j < i :: m[j].key != k
  {
    if m == [] then 0
    else if m[0].key == k then 0
    else
      assert forall j | 0 < j < |m| :: m[1..][j - 1] == m[j];
      1 + Find(m[1..], k)
  }

  predicate Has<K(==), V>(m: JsMap<K, V>, k: K) {
    Find(m, k) < |m|
  }

  function Get<K(==), V>(m: JsMap<K, V>, k: K): Option<V> {
    if Has(m, k) then Some(m[Find(m, k)].value) else None
  }

  function Set<K(==), V>(m: JsMap<K, V>, k: K, v: V): JsMap<K, V> {
    if Has(m, k) then m[Find(m, k) := Entry(k, v)] else m + [Entry(k, v)]
  }

  /** The values, in the order of first insertion. */
  function Values<K, V>(m: JsMap<K, V>): (r: seq<V>)
    ensures |r| == |m|
    ensures forall i | 0 <= i < |m| :: r[i] == m[i].value
  {
    seq(|m|, i requires 0 <= i < |m| => m[i].value)
  }

  /** Every key is written in one place only. */
  ghost predicate Distinct<K, V>(m: JsMap<K, V>) {
    forall i, j | 0 <= i < j < |m| :: m[i].key != m[j].key
  }

  lemma FindIs<K, V>(m: JsMap<K, V>, i: nat)
    requires Distinct(m) && i < |m|
    ensures Find(m, m[i].key) == i
  {
  }

  lemma SetThenGet<K, V>(m: JsMap<K, V>, k: K, v: V)
    ensures Get(Set(m, k, v), k) == Some(v)
    ensures forall k' | k' != k :: Get(Set(m, k, v), k') == Get(m, k')
    ensures Distinct(m) ==> Distinct(Set(m, k, v))
  {
    var s := Set(m, k, v);
    assert s[Find(m, k)].key == k;
    forall k' | k' != k
      ensures Get(s, k') == Get(m, k')
    {
      var i, j := Find(s, k'), Find(m, k');
      if j < |m| { assert s[j].key == k'; }
      if i < |s| { assert m[i].key == k'; }
    }
  }
}
