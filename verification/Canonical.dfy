/** Canonical lists. Several formats are built the same way: walk a list, give every item an
    identity, refuse a repeated identity, normalise the item, and finally sort by identity.
    This module is that construction once, with what it guarantees. */
module Canonical {
  import opened Common
  import opened Ordering

  /** How one kind of item is treated: identity first, then (identity being new) its form. */
  datatype Rule<!T, K, U, E> = Rule(key: T -> Result<K, E>, form: T -> Result<U, E>, repeated: E)

  function Admit<T, K(==), U, E>(rule: Rule<T, K, U, E>, ps: seq<(K, U)>, x: T): Result<seq<(K, U)>, E> {
    match rule.key(x)
    case Err(e) => Err(e)
    case Ok(k) =>
      if k in Keys(ps) then Err(rule.repeated)
      else
        match rule.form(x)
        case Err(e) => Err(e)
        case Ok(u) => Ok(ps + [(k, u)])
  }

  function Scan<T, K(==), U, E>(rule: Rule<T, K, U, E>, xs: seq<T>): Result<seq<(K, U)>, E> {
    if |xs| == 0 then Ok([])
    else
      match Scan(rule, xs[..|xs| - 1])
      case Err(e) => Err(e)
      case Ok(ps) => Admit(rule, ps, xs[|xs| - 1])
  }

  function Canonical<T, K(==), U, E>(less: (K, K) -> bool, rule: Rule<T, K, U, E>, xs: seq<T>): Result<seq<U>, E> {
    match Scan(rule, xs)
    case Err(e) => Err(e)
    case Ok(ps) => Ok(Values(SortByKey(less, ps)))
  }

  /** The loop every canonicaliser runs: a seen-set, a growing list, one sort at the end. */
  method Canonicalize<T, K(==), U, E>(less: (K, K) -> bool, rule: Rule<T, K, U, E>, xs: seq<T>) returns (r: Result<seq<U>, E>)
    ensures r == Canonical(less, rule, xs)
  {
    var result: seq<(K, U)> := [];
    var seen: set<K> := {};
    for n := 0 to |xs|
      invariant Scan(rule, xs[..n]) == Ok(result)
      invariant seen == set k | k in Keys(result)
    {
      assert xs[..n + 1][..n] == xs[..n];
      ScanPrefix(rule, xs, n + 1);
      match rule.key(xs[n]) {
        case Err(e) => return Err(e);
        case Ok(k) =>
          if k in seen {
            return Err(rule.repeated);
          }
          match rule.form(xs[n]) {
            case Err(e) => return Err(e);
            case Ok(u) =>
              seen := seen + {k};
              assert Keys(result + [(k, u)]) == Keys(result) + [k];
              result := result + [(k, u)];
          }
      }
    }
    assert xs[..|xs|] == xs;
    r := Ok(Values(SortByKey(less, result)));
  }

  lemma {:induction false} ScanPrefix<T, K, U, E>(rule: Rule<T, K, U, E>, xs: seq<T>, n: nat)
    requires n <= |xs|
    ensures Scan(rule, xs[..n]).Err? ==> Scan(rule, xs) == Scan(rule, xs[..n])
    decreases |xs|
  {
    if n == |xs| {
      assert xs[..n] == xs;
    } else {
      assert xs[..|xs| - 1][..n] == xs[..n];
      ScanPrefix(rule, xs[..|xs| - 1], n);
    }
  }

  /** What an item contributes on its own. */
  function Verdict<T, K, U, E>(rule: Rule<T, K, U, E>, x: T): Option<(K, U)> {
    match (rule.key(x), rule.form(x))
    case (Ok(k), Ok(u)) => Some((k, u))
    case _ => None
  }

  function Verdicts<T, K, U, E>(rule: Rule<T, K, U, E>, xs: seq<T>): (vs: seq<Option<(K, U)>>)
    ensures |vs| == |xs| && forall i :: 0 <= i < |xs| ==> vs[i] == Verdict(rule, xs[i])
  {
    seq(|xs|, i requires 0 <= i < |xs| => Verdict(rule, xs[i]))
  }

  predicate AllSome<V>(vs: seq<Option<V>>) {
    forall i :: 0 <= i < |vs| ==> vs[i].Some?
  }

  function Unwrap<V>(vs: seq<Option<V>>): (us: seq<V>)
    requires AllSome(vs)
    ensures |us| == |vs| && forall i :: 0 <= i < |vs| ==> vs[i] == Some(us[i])
  {
    seq(|vs|, i requires 0 <= i < |vs| => vs[i].value)
  }

  /** Every item passes on its own and no two have the same identity. */
  predicate Passes<K(==), U>(vs: seq<Option<(K, U)>>) {
    AllSome(vs) && Distinct(Keys(Unwrap(vs)))
  }

  lemma {:induction false} PassesExtend<K, U>(vs: seq<Option<(K, U)>>, v: Option<(K, U)>)
    ensures AllSome(vs + [v]) <==> AllSome(vs) && v.Some?
    ensures AllSome(vs + [v]) ==> Unwrap(vs + [v]) == Unwrap(vs) + [v.value]
    ensures Passes(vs + [v]) <==> Passes(vs) && v.Some? && v.value.0 !in Keys(Unwrap(vs))
  {
    if AllSome(vs + [v]) {
      assert forall i :: 0 <= i < |vs| ==> (vs + [v])[i] == vs[i];
      assert (vs + [v])[|vs|] == v;
      assert Unwrap(vs + [v]) == Unwrap(vs) + [v.value];
      assert Keys(Unwrap(vs) + [v.value]) == Keys(Unwrap(vs)) + [v.value.0];
      DistinctExtend(Keys(Unwrap(vs)), v.value.0);
    }
  }

  /** The scan succeeds exactly when all items pass, and then lists them in order. */
  lemma {:induction false} ScanCollects<T, K, U, E>(rule: Rule<T, K, U, E>, xs: seq<T>)
    ensures Scan(rule, xs).Ok? <==> Passes(Verdicts(rule, xs))
    ensures Scan(rule, xs).Ok? ==> Scan(rule, xs).value == Unwrap(Verdicts(rule, xs))
  {
    if |xs| != 0 {
      var front, last := xs[..|xs| - 1], xs[|xs| - 1];
      ScanCollects(rule, front);
      assert Verdicts(rule, xs) == Verdicts(rule, front) + [Verdict(rule, last)];
      PassesExtend(Verdicts(rule, front), Verdict(rule, last));
    }
  }

  lemma {:induction false} UnwrapKeepsCounts<V(!new)>(vs: seq<Option<V>>, ws: seq<Option<V>>)
    requires AllSome(vs) && multiset(vs) == multiset(ws)
    ensures AllSome(ws) && multiset(Unwrap(vs)) == multiset(Unwrap(ws))
  {
    forall i | 0 <= i < |ws| ensures ws[i].Some? {
      assert ws[i] in multiset(vs);
    }
    if |vs| == 0 {
      assert |multiset(ws)| == 0;
    } else {
      var first := vs[0].value;
      var f := (v: Option<V>) => if v.Some? then v.value else first;
      MapKeepsCounts(f, vs, ws);
      assert Map(f, vs) == Unwrap(vs) && Map(f, ws) == Unwrap(ws);
    }
  }

  /** Lists whose items give the same verdicts, in whatever order, have one canonical form. */
  lemma {:induction false} IgnoresOrder<T(!new), K(!new), U(!new), E(!new)>(
    less: (K, K) -> bool, rule: Rule<T, K, U, E>, xs: seq<T>, ys: seq<T>)
    requires StrictOrder(less) && multiset(Verdicts(rule, xs)) == multiset(Verdicts(rule, ys))
    requires Canonical(less, rule, xs).Ok?
    ensures Canonical(less, rule, ys) == Canonical(less, rule, xs)
  {
    var vs, ws := Verdicts(rule, xs), Verdicts(rule, ys);
    ScanCollects(rule, xs);
    ScanCollects(rule, ys);
    UnwrapKeepsCounts(vs, ws);
    SameElementsDistinct(Unwrap(vs), Unwrap(ws));
    SortIgnoresOrder(less, Unwrap(vs), Unwrap(ws));
  }

  /** The canonical list holds every item's form exactly as often as it came, its identities
      strictly ascending. */
  lemma {:induction false} Describes<T(!new), K(!new), U(!new), E(!new)>(
    less: (K, K) -> bool, rule: Rule<T, K, U, E>, xs: seq<T>) returns (ps: seq<(K, U)>)
    requires StrictOrder(less) && Canonical(less, rule, xs).Ok?
    ensures Canonical(less, rule, xs).value == Values(ps) && StrictlySorted(less, Keys(ps))
    ensures AllSome(Verdicts(rule, xs)) && multiset(ps) == multiset(Unwrap(Verdicts(rule, xs)))
    ensures forall i :: 0 <= i < |ps| ==> exists x :: x in xs && Verdict(rule, x) == Some(ps[i])
  {
    ScanCollects(rule, xs);
    var us := Unwrap(Verdicts(rule, xs));
    ps := SortByKey(less, us);
    SortSorts(less, us);
    SortKeepsElements(less, us);
    forall i | 0 <= i < |ps| ensures exists x :: x in xs && Verdict(rule, x) == Some(ps[i]) {
      assert ps[i] in multiset(us);
      var j :| 0 <= j < |us| && us[j] == ps[i];
      assert xs[j] in xs && Verdict(rule, xs[j]) == Some(ps[i]);
    }
  }

  /** A list whose verdicts are these pairs, already strictly sorted, is its own form. */
  lemma {:induction false} SortedIsCanonical<T(!new), K(!new), U(!new), E(!new)>(
    less: (K, K) -> bool, rule: Rule<T, K, U, E>, xs: seq<T>, ps: seq<(K, U)>)
    requires StrictOrder(less) && StrictlySorted(less, Keys(ps)) && |ps| == |xs|
    requires forall i :: 0 <= i < |xs| ==> Verdict(rule, xs[i]) == Some(ps[i])
    ensures Canonical(less, rule, xs) == Ok(Values(ps))
  {
    SortFixesSorted(less, ps);
    ScanCollects(rule, xs);
    assert Unwrap(Verdicts(rule, xs)) == ps;
  }

  /** Canonicalising its own output changes nothing, if every form is its own form. */
  lemma {:induction false} Stable<T(!new), K(!new), E(!new)>(less: (K, K) -> bool, rule: Rule<T, K, T, E>, xs: seq<T>)
    requires StrictOrder(less) && Canonical(less, rule, xs).Ok?
    requires forall x :: x in xs && Verdict(rule, x).Some? ==> Verdict(rule, Verdict(rule, x).value.1) == Verdict(rule, x)
    ensures Canonical(less, rule, Canonical(less, rule, xs).value) == Canonical(less, rule, xs)
  {
    var ps := Describes(less, rule, xs);
    forall i | 0 <= i < |ps| ensures Verdict(rule, Values(ps)[i]) == Some(ps[i]) {
      var x :| x in xs && Verdict(rule, x) == Some(ps[i]);
    }
    SortedIsCanonical(less, rule, Values(ps), ps);
  }

  /** Two descriptions of the items: if the first determines the second, equal first
      descriptions mean equal second ones. */
  lemma {:induction false} CountsFollow<T(!new), S(!new), R(!new)>(f: T -> S, g: T -> R, xs: seq<T>, ys: seq<T>)
    requires multiset(Map(f, xs)) == multiset(Map(f, ys))
    requires forall x, y :: x in xs && y in ys && f(x) == f(y) ==> g(x) == g(y)
    ensures multiset(Map(g, xs)) == multiset(Map(g, ys))
    decreases |xs|
  {
    assert |Map(f, xs)| == |multiset(Map(f, xs))| == |multiset(Map(f, ys))| == |Map(f, ys)|;
    if |xs| != 0 {
      var n := |xs| - 1;
      assert Map(f, xs)[n] in multiset(Map(f, ys));
      var j :| 0 <= j < |ys| && Map(f, ys)[j] == f(xs[n]);
      assert xs[n] in xs && ys[j] in ys;
      var rest := ys[..j] + ys[j + 1..];
      MapWithout(f, xs, n);
      MapWithout(f, ys, j);
      MapWithout(g, xs, n);
      MapWithout(g, ys, j);
      assert xs[..n] + xs[n + 1..] == xs[..n];
      Cancel(multiset(Map(f, xs[..n])), multiset(Map(f, rest)), f(xs[n]));
      CountsFollow(f, g, xs[..n], rest);
    }
  }

  lemma {:induction false} MapWithout<A(!new), B(!new)>(f: A -> B, s: seq<A>, j: nat)
    requires j < |s|
    ensures multiset(Map(f, s)) == multiset(Map(f, s[..j] + s[j + 1..])) + multiset{f(s[j])}
  {
    RemoveAt(Map(f, s), j);
    assert Map(f, s)[..j] + Map(f, s)[j + 1..] == Map(f, s[..j] + s[j + 1..]);
  }
}
