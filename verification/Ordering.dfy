/** Key-ordered lists. Every canonical form of the repository is `list.sort(key=...)`
    after a duplicate check, so one theory of sorted, duplicate-free key lists serves
    relational rows, browser entries, cookies, origins and tool catalogs. */
module Ordering {
  import opened Common

  /** What the proofs need of a sort order: irreflexive, transitive and total. */
  ghost predicate StrictOrder<K(!new)>(less: (K, K) -> bool) {
    && (forall a :: !less(a, a))
    && (forall a, b, c :: less(a, b) && less(b, c) ==> less(a, c))
    && (forall a, b :: a == b || less(a, b) || less(b, a))
  }

  /** Python's order on `bytes` and on tuples of integers. */
  predicate LexLess(a: seq<int>, b: seq<int>) {
    |b| != 0 && (|a| == 0 || a[0] < b[0] || (a[0] == b[0] && LexLess(a[1..], b[1..])))
  }

  lemma {:induction false} LexTransitive(a: seq<int>, b: seq<int>, c: seq<int>)
    requires LexLess(a, b) && LexLess(b, c)
    ensures LexLess(a, c)
    decreases |a|
  {
    if |a| != 0 && a[0] == b[0] && b[0] == c[0] {
      LexTransitive(a[1..], b[1..], c[1..]);
    }
  }

  lemma {:induction false} LexTotal(a: seq<int>, b: seq<int>)
    ensures !LexLess(a, a)
    ensures a == b || LexLess(a, b) || LexLess(b, a)
    decreases |a|
  {
    if |a| != 0 {
      LexTotal(a[1..], if |b| != 0 then b[1..] else []);
      if |b| != 0 && a[0] == b[0] && a[1..] == b[1..] {
        assert a == [a[0]] + a[1..] && b == [b[0]] + b[1..];
      }
    }
  }

  lemma {:induction false} LexIsStrictOrder()
    ensures StrictOrder(LexLess)
  {
    forall a: seq<int>, b: seq<int>, c: seq<int> | LexLess(a, b) && LexLess(b, c) ensures LexLess(a, c) {
      LexTransitive(a, b, c);
    }
    forall a: seq<int>, b: seq<int> ensures !LexLess(a, a) && (a == b || LexLess(a, b) || LexLess(b, a)) {
      LexTotal(a, b);
    }
  }

  function Keys<K, V>(ps: seq<(K, V)>): (ks: seq<K>)
    ensures |ks| == |ps|
    ensures forall i :: 0 <= i < |ps| ==> ks[i] == ps[i].0
  {
    seq(|ps|, i requires 0 <= i < |ps| => ps[i].0)
  }

  function Values<K, V>(ps: seq<(K, V)>): (vs: seq<V>)
    ensures |vs| == |ps|
    ensures forall i :: 0 <= i < |ps| ==> vs[i] == ps[i].1
  {
    seq(|ps|, i requires 0 <= i < |ps| => ps[i].1)
  }

  ghost predicate StrictlySorted<K(!new)>(less: (K, K) -> bool, ks: seq<K>) {
    forall i, j :: 0 <= i < j < |ks| ==> less(ks[i], ks[j])
  }

  lemma {:induction false} DistinctExtend<K>(ks: seq<K>, k: K)
    ensures Distinct(ks + [k]) <==> Distinct(ks) && k !in ks
  {
    if Distinct(ks + [k]) {
      forall i, j | 0 <= i < j < |ks| ensures ks[i] != ks[j] {
        assert (ks + [k])[i] != (ks + [k])[j];
      }
      forall i | 0 <= i < |ks| ensures ks[i] != k {
        assert (ks + [k])[i] != (ks + [k])[|ks|];
      }
    }
  }

  /** Stable insertion, then stable sort by the first component. */
  function Insert<K, V>(less: (K, K) -> bool, ps: seq<(K, V)>, p: (K, V)): seq<(K, V)> {
    if |ps| == 0 || !less(p.0, ps[|ps| - 1].0) then ps + [p]
    else Insert(less, ps[..|ps| - 1], p) + [ps[|ps| - 1]]
  }

  function SortByKey<K, V>(less: (K, K) -> bool, ps: seq<(K, V)>): seq<(K, V)> {
    if |ps| == 0 then []
    else Insert(less, SortByKey(less, ps[..|ps| - 1]), ps[|ps| - 1])
  }

  lemma {:induction false} InsertKeepsElements<K(!new), V(!new)>(less: (K, K) -> bool, ps: seq<(K, V)>, p: (K, V))
    ensures multiset(Insert(less, ps, p)) == multiset(ps) + multiset{p}
  {
    if |ps| != 0 && less(p.0, ps[|ps| - 1].0) {
      InsertKeepsElements(less, ps[..|ps| - 1], p);
      assert ps == ps[..|ps| - 1] + [ps[|ps| - 1]];
    }
  }

  /** Sorting neither loses, adds nor alters an element. */
  lemma {:induction false} SortKeepsElements<K(!new), V(!new)>(less: (K, K) -> bool, ps: seq<(K, V)>)
    ensures multiset(SortByKey(less, ps)) == multiset(ps)
  {
    if |ps| != 0 {
      SortKeepsElements(less, ps[..|ps| - 1]);
      InsertKeepsElements(less, SortByKey(less, ps[..|ps| - 1]), ps[|ps| - 1]);
      assert ps == ps[..|ps| - 1] + [ps[|ps| - 1]];
    }
  }

  /** Every key is below this one. */
  ghost predicate AllBelow<K(!new), V>(less: (K, K) -> bool, ps: seq<(K, V)>, k: K) {
    forall i :: 0 <= i < |ps| ==> less(ps[i].0, k)
  }

  lemma {:induction false} AppendSorts<K(!new), V(!new)>(less: (K, K) -> bool, ps: seq<(K, V)>, q: (K, V))
    requires StrictlySorted(less, Keys(ps)) && AllBelow(less, ps, q.0)
    ensures StrictlySorted(less, Keys(ps + [q]))
  {
    assert Keys(ps + [q]) == Keys(ps) + [q.0];
  }

  lemma {:induction false} InsertBelow<K(!new), V(!new)>(less: (K, K) -> bool, ps: seq<(K, V)>, p: (K, V), k: K)
    requires AllBelow(less, ps, k) && less(p.0, k)
    ensures AllBelow(less, Insert(less, ps, p), k)
  {
    if |ps| != 0 && less(p.0, ps[|ps| - 1].0) {
      InsertBelow(less, ps[..|ps| - 1], p, k);
    }
  }

  lemma {:induction false} InsertSorts<K(!new), V(!new)>(less: (K, K) -> bool, ps: seq<(K, V)>, p: (K, V))
    requires StrictOrder(less) && StrictlySorted(less, Keys(ps)) && p.0 !in Keys(ps)
    ensures StrictlySorted(less, Keys(Insert(less, ps, p)))
  {
    if |ps| != 0 {
      var front, last := ps[..|ps| - 1], ps[|ps| - 1];
      assert Keys(front) == Keys(ps)[..|front|];
      forall i | 0 <= i < |front| ensures less(front[i].0, last.0) {
        assert less(Keys(ps)[i], Keys(ps)[|ps| - 1]);
      }
      if less(p.0, last.0) {
        InsertSorts(less, front, p);
        InsertBelow(less, front, p, last.0);
        AppendSorts(less, Insert(less, front, p), last);
      } else {
        assert Keys(ps)[|ps| - 1] == last.0;
        assert AllBelow(less, ps, p.0);
        AppendSorts(less, ps, p);
      }
    }
  }

  lemma {:induction false} SameElementsSameKeys<K(!new), V(!new)>(ps: seq<(K, V)>, qs: seq<(K, V)>, k: K)
    requires multiset(ps) == multiset(qs)
    ensures k in Keys(ps) <==> k in Keys(qs)
  {
    if k in Keys(ps) {
      var i :| 0 <= i < |ps| && ps[i].0 == k;
      assert ps[i] in multiset(qs);
      var j :| 0 <= j < |qs| && qs[j] == ps[i];
      assert Keys(qs)[j] == k;
    }
    if k in Keys(qs) {
      var i :| 0 <= i < |qs| && qs[i].0 == k;
      assert qs[i] in multiset(ps);
      var j :| 0 <= j < |ps| && ps[j] == qs[i];
      assert Keys(ps)[j] == k;
    }
  }

  /** A duplicate-free list sorts into strictly ascending keys. */
  lemma {:induction false} SortSorts<K(!new), V(!new)>(less: (K, K) -> bool, ps: seq<(K, V)>)
    requires StrictOrder(less) && Distinct(Keys(ps))
    ensures StrictlySorted(less, Keys(SortByKey(less, ps)))
  {
    if |ps| != 0 {
      var front, last := ps[..|ps| - 1], ps[|ps| - 1];
      assert forall i :: 0 <= i < |front| ==> Keys(front)[i] == Keys(ps)[i];
      SortSorts(less, front);
      SortKeepsElements(less, front);
      SameElementsSameKeys(SortByKey(less, front), front, last.0);
      assert forall i :: 0 <= i < |front| ==> Keys(ps)[i] != Keys(ps)[|ps| - 1];
      InsertSorts(less, SortByKey(less, front), last);
    }
  }

  lemma {:induction false} LastIsGreatest<K(!new), V(!new)>(less: (K, K) -> bool, ps: seq<(K, V)>, p: (K, V))
    requires StrictlySorted(less, Keys(ps)) && p in ps
    ensures p == ps[|ps| - 1] || less(p.0, ps[|ps| - 1].0)
  {
    var i :| 0 <= i < |ps| && ps[i] == p;
    assert i < |ps| - 1 ==> less(Keys(ps)[i], Keys(ps)[|ps| - 1]);
  }

  lemma {:induction false} SortedFront<K(!new), V(!new)>(less: (K, K) -> bool, ps: seq<(K, V)>)
    requires |ps| != 0 && StrictlySorted(less, Keys(ps))
    ensures StrictlySorted(less, Keys(ps[..|ps| - 1]))
    ensures multiset(ps) == multiset(ps[..|ps| - 1]) + multiset{ps[|ps| - 1]}
  {
    assert ps == ps[..|ps| - 1] + [ps[|ps| - 1]];
    assert Keys(ps[..|ps| - 1]) == Keys(ps)[..|ps| - 1];
  }

  lemma {:induction false} Cancel<T>(a: multiset<T>, b: multiset<T>, x: T)
    requires a + multiset{x} == b + multiset{x}
    ensures a == b
  {
    assert a == (a + multiset{x}) - multiset{x};
    assert b == (b + multiset{x}) - multiset{x};
  }

  lemma {:induction false} LastsMatch<K(!new), V(!new)>(less: (K, K) -> bool, ps: seq<(K, V)>, qs: seq<(K, V)>)
    requires StrictOrder(less) && |ps| != 0 && |qs| != 0
    requires StrictlySorted(less, Keys(ps)) && StrictlySorted(less, Keys(qs))
    requires multiset(ps) == multiset(qs)
    ensures ps[|ps| - 1] == qs[|qs| - 1]
  {
    assert ps[|ps| - 1] in multiset(qs) && qs[|qs| - 1] in multiset(ps);
    LastIsGreatest(less, ps, qs[|qs| - 1]);
    LastIsGreatest(less, qs, ps[|ps| - 1]);
  }

  /** Two strictly sorted lists with the same elements are the same list. */
  lemma {:induction false} SortedListUnique<K(!new), V(!new)>(less: (K, K) -> bool, ps: seq<(K, V)>, qs: seq<(K, V)>)
    requires StrictOrder(less)
    requires StrictlySorted(less, Keys(ps)) && StrictlySorted(less, Keys(qs))
    requires multiset(ps) == multiset(qs)
    ensures ps == qs
    decreases |ps|
  {
    assert |ps| == |multiset(ps)| == |multiset(qs)| == |qs|;
    if |ps| != 0 {
      SortedFront(less, ps);
      SortedFront(less, qs);
      LastsMatch(less, ps, qs);
      Cancel(multiset(ps[..|ps| - 1]), multiset(qs[..|qs| - 1]), ps[|ps| - 1]);
      SortedListUnique(less, ps[..|ps| - 1], qs[..|qs| - 1]);
    }
  }

  lemma {:induction false} DistinctCountedOnce<K(!new), V(!new)>(ps: seq<(K, V)>, p: (K, V))
    requires Distinct(Keys(ps))
    ensures multiset(ps)[p] <= 1
  {
    if |ps| != 0 {
      var front, last := ps[..|ps| - 1], ps[|ps| - 1];
      assert ps == front + [last];
      assert forall i :: 0 <= i < |front| ==> Keys(front)[i] == Keys(ps)[i];
      DistinctCountedOnce(front, p);
      assert forall i :: 0 <= i < |front| ==> Keys(front)[i] != Keys(ps)[|ps| - 1];
      assert last !in front;
    }
  }

  lemma {:induction false} OneElementPerKey<K(!new), V(!new)>(ps: seq<(K, V)>, p: (K, V), q: (K, V))
    requires Distinct(Keys(ps)) && p in multiset(ps) && q in multiset(ps) && p.0 == q.0
    ensures p == q
  {
    var a :| 0 <= a < |ps| && ps[a] == p;
    var b :| 0 <= b < |ps| && ps[b] == q;
    assert Keys(ps)[a] == Keys(ps)[b];
  }

  lemma {:induction false} CountedTwice<T>(s: seq<T>, i: nat, j: nat)
    requires i < j < |s| && s[i] == s[j]
    ensures multiset(s)[s[i]] >= 2
  {
    assert s == s[..j] + s[j..];
    assert s[i] in s[..j] && s[j] in s[j..];
  }

  lemma {:induction false} SameElementsDistinct<K(!new), V(!new)>(ps: seq<(K, V)>, qs: seq<(K, V)>)
    requires multiset(ps) == multiset(qs) && Distinct(Keys(ps))
    ensures Distinct(Keys(qs))
  {
    forall i, j | 0 <= i < j < |qs| ensures Keys(qs)[i] != Keys(qs)[j] {
      if qs[i].0 == qs[j].0 {
        OneElementPerKey(ps, qs[i], qs[j]);
        CountedTwice(qs, i, j);
        DistinctCountedOnce(ps, qs[i]);
      }
    }
  }

  /** The canonical order does not depend on the order of arrival. */
  lemma {:induction false} SortIgnoresOrder<K(!new), V(!new)>(less: (K, K) -> bool, ps: seq<(K, V)>, qs: seq<(K, V)>)
    requires StrictOrder(less) && Distinct(Keys(ps)) && multiset(ps) == multiset(qs)
    ensures SortByKey(less, ps) == SortByKey(less, qs)
  {
    SameElementsDistinct(ps, qs);
    SortSorts(less, ps);
    SortSorts(less, qs);
    SortKeepsElements(less, ps);
    SortKeepsElements(less, qs);
    SortedListUnique(less, SortByKey(less, ps), SortByKey(less, qs));
  }

  /** A list already in canonical order is left alone. */
  lemma {:induction false} SortFixesSorted<K(!new), V(!new)>(less: (K, K) -> bool, ps: seq<(K, V)>)
    requires StrictOrder(less) && StrictlySorted(less, Keys(ps))
    ensures Distinct(Keys(ps)) && SortByKey(less, ps) == ps
  {
    SortSorts(less, ps);
    SortKeepsElements(less, ps);
    SortedListUnique(less, SortByKey(less, ps), ps);
  }

  function Map<A, B>(f: A -> B, xs: seq<A>): (ys: seq<B>)
    ensures |ys| == |xs| && forall i :: 0 <= i < |xs| ==> ys[i] == f(xs[i])
  {
    seq(|xs|, i requires 0 <= i < |xs| => f(xs[i]))
  }

  lemma {:induction false} MapKeepsCounts<A(!new), B(!new)>(f: A -> B, xs: seq<A>, ys: seq<A>)
    requires multiset(xs) == multiset(ys)
    ensures multiset(Map(f, xs)) == multiset(Map(f, ys))
    decreases |xs|
  {
    assert |xs| == |multiset(xs)| == |multiset(ys)| == |ys|;
    if |xs| != 0 {
      var n := |xs| - 1;
      assert xs[n] in multiset(ys);
      var j :| 0 <= j < |ys| && ys[j] == xs[n];
      var rest := ys[..j] + ys[j + 1..];
      RemoveAt(ys, j);
      RemoveAt(xs, n);
      assert xs[..n] + xs[n + 1..] == xs[..n];
      Cancel(multiset(xs[..n]), multiset(rest), xs[n]);
      MapKeepsCounts(f, xs[..n], rest);
      RemoveAt(Map(f, xs), n);
      RemoveAt(Map(f, ys), j);
      assert Map(f, xs)[..n] + Map(f, xs)[n + 1..] == Map(f, xs[..n]);
      assert Map(f, ys)[..j] + Map(f, ys)[j + 1..] == Map(f, rest);
    }
  }

  lemma {:induction false} RemoveAt<T>(s: seq<T>, j: nat)
    requires j < |s|
    ensures multiset(s) == multiset(s[..j] + s[j + 1..]) + multiset{s[j]}
  {
    assert s == s[..j] + [s[j]] + s[j + 1..];
  }

  /** `sorted(names)`. */
  function SortNames(names: seq<seq<int>>): seq<seq<int>> {
    Keys(SortByKey(LexLess, Map(n => (n, n), names)))
  }

  /** Sorting names keeps them all and, without duplicates, makes them strictly ascending. */
  lemma {:induction false} SortNamesSorts(names: seq<seq<int>>)
    ensures forall n :: n in SortNames(names) <==> n in names
    ensures Distinct(names) ==> StrictlySorted(LexLess, SortNames(names))
  {
    var ps := Map(n => (n, n), names);
    SortKeepsElements(LexLess, ps);
    forall n ensures n in SortNames(names) <==> n in names {
      SameElementsSameKeys(SortByKey(LexLess, ps), ps, n);
      assert Keys(ps) == names;
    }
    if Distinct(names) {
      assert Keys(ps) == names;
      LexIsStrictOrder();
      SortSorts(LexLess, ps);
    }
  }
}
