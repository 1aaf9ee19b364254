/**
 Sort keys: Python tuples of integers and strings, compared lexicographically, and flat maps over lists.
 */
module Keys {
  import opened Sorting

  datatype Atom = N(n: int) | S(s: string)

  predicate AtomLe(a: Atom, b: Atom)
  {
    match (a, b)
    case (N(m), N(n)) => m <= n
    case (S(s), S(t)) => StrLe(s, t)
    case (N(_), S(_)) => true
    case (S(_), N(_)) => false
  }

  predicate KeyLe(a: seq<Atom>, b: seq<Atom>)
  {
    a == [] || (b != [] && AtomLe(a[0], b[0]) && (a[0] == b[0] ==> KeyLe(a[1..], b[1..])))
  }

  lemma AtomLeOrder(a: Atom, b: Atom, c: Atom)
    ensures AtomLe(a, b) || AtomLe(b, a)
    ensures AtomLe(a, b) && AtomLe(b, a) ==> a == b
    ensures AtomLe(a, b) && AtomLe(b, c) ==> AtomLe(a, c)
  {
    StrLeOrder();
  }

  lemma {:induction false} KeyLeTotal(a: seq<Atom>, b: seq<Atom>)
    ensures KeyLe(a, b) || KeyLe(b, a)
  {
    if a != [] && b != [] {
      AtomLeOrder(a[0], b[0], b[0]);
      KeyLeTotal(a[1..], b[1..]);
    }
  }

  lemma {:induction false} KeyLeAntisymmetric(a: seq<Atom>, b: seq<Atom>)
    requires KeyLe(a, b) && KeyLe(b, a)
    ensures a == b
  {
    if a != [] && b != [] {
      AtomLeOrder(a[0], b[0], b[0]);
      KeyLeAntisymmetric(a[1..], b[1..]);
      assert a == [a[0]] + a[1..] && b == [b[0]] + b[1..];
    }
  }

  lemma {:induction false} KeyLeTransitive(a: seq<Atom>, b: seq<Atom>, c: seq<Atom>)
    requires KeyLe(a, b) && KeyLe(b, c)
    ensures KeyLe(a, c)
  {
    if a != [] {
      AtomLeOrder(a[0], b[0], c[0]);
      AtomLeOrder(b[0], a[0], c[0]);
      if a[0] == b[0] == c[0] {
        KeyLeTransitive(a[1..], b[1..], c[1..]);
      }
    }
  }

  function ByKey<T>(key: T -> seq<Atom>): (T, T) -> bool
  {
    (x, y) => KeyLe(key(x), key(y))
  }

  /** Where two keys agree on the first atoms, the next one decides. */
  lemma {:induction false} KeyLeAfter(a: seq<Atom>, b: seq<Atom>, k: nat)
    requires KeyLe(a, b) && k < |a| && k < |b| && a[..k] == b[..k]
    ensures AtomLe(a[k], b[k])
  {
    if k > 0 {
      assert a[0] == a[..k][0] == b[..k][0] == b[0];
      assert a[1..][..k - 1] == a[..k][1..] && b[1..][..k - 1] == b[..k][1..];
      KeyLeAfter(a[1..], b[1..], k - 1);
    }
  }

  lemma ByKeyOrder<T(!new)>(key: T -> seq<Atom>)
    ensures TotalPreorder(ByKey(key))
  {
    var le := ByKey(key);
    forall x, y ensures le(x, y) || le(y, x) {
      KeyLeTotal(key(x), key(y));
    }
    forall x, y, z | le(x, y) && le(y, z) ensures le(x, z) {
      KeyLeTransitive(key(x), key(y), key(z));
    }
  }

  /** The key tells the elements of `xs` apart. */
  ghost predicate KeyedBy<T>(key: T -> seq<Atom>, xs: seq<T>)
  {
    forall x, y :: x in xs && y in xs && key(x) == key(y) ==> x == y
  }

  lemma SortByKeyForgetsOrder<T(!new)>(key: T -> seq<Atom>, xs: seq<T>, ys: seq<T>)
    requires multiset(xs) == multiset(ys) && KeyedBy(key, xs)
    ensures SortBy(ByKey(key), xs) == SortBy(ByKey(key), ys)
  {
    var le := ByKey(key);
    ByKeyOrder(key);
    forall x, y | x in xs && y in xs && le(x, y) && le(y, x) ensures x == y {
      KeyLeAntisymmetric(key(x), key(y));
    }
    SortForgetsOrder(le, xs, ys);
  }

  // ---------- Flat maps ----------

  function FlatMap<T, U>(f: T -> seq<U>, xs: seq<T>): seq<U>
  {
    if xs == [] then [] else f(xs[0]) + FlatMap(f, xs[1..])
  }

  lemma {:induction false} FlatMapAppend<T, U>(f: T -> seq<U>, xs: seq<T>, ys: seq<T>)
    ensures FlatMap(f, xs + ys) == FlatMap(f, xs) + FlatMap(f, ys)
  {
    if xs == [] {
      assert xs + ys == ys;
    } else {
      assert (xs + ys)[1..] == xs[1..] + ys && (xs + ys)[0] == xs[0];
      FlatMapAppend(f, xs[1..], ys);
    }
  }

  lemma FlatMapSnoc<T, U>(f: T -> seq<U>, xs: seq<T>, n: nat)
    requires n < |xs|
    ensures FlatMap(f, xs[..n + 1]) == FlatMap(f, xs[..n]) + f(xs[n])
  {
    assert xs[..n + 1] == xs[..n] + [xs[n]];
    FlatMapAppend(f, xs[..n], [xs[n]]);
    assert FlatMap(f, [xs[n]]) == f(xs[n]) + FlatMap(f, []);
  }

  lemma {:induction false} FlatMapMember<T, U>(f: T -> seq<U>, xs: seq<T>, u: U)
    ensures u in FlatMap(f, xs) <==> exists x :: x in xs && u in f(x)
  {
    if xs != [] {
      assert xs == [xs[0]] + xs[1..];
      FlatMapMember(f, xs[1..], u);
    }
  }

  lemma FlatMapOrigin<T, U>(f: T -> seq<U>, xs: seq<T>, u: U) returns (x: T)
    requires u in FlatMap(f, xs)
    ensures x in xs && u in f(x)
  {
    FlatMapMember(f, xs, u);
    x :| x in xs && u in f(x);
  }

  /** Where `x` stands in `ys`, and what is left without it. */
  lemma Pull<T>(x: T, ys: seq<T>) returns (left: seq<T>, right: seq<T>)
    requires x in ys
    ensures ys == left + [x] + right
    ensures multiset(left + right) == multiset(ys) - multiset{x}
  {
    var i :| 0 <= i < |ys| && ys[i] == x;
    left, right := ys[..i], ys[i + 1..];
    assert ys == left + [x] + right;
  }

  lemma FlatMapPull<T, U>(f: T -> seq<U>, left: seq<T>, x: T, right: seq<T>)
    ensures multiset(FlatMap(f, left + [x] + right)) == multiset(f(x)) + multiset(FlatMap(f, left + right))
  {
    FlatMapAppend(f, left, right);
    FlatMapAppend(f, left + [x], right);
    FlatMapAppend(f, left, [x]);
    assert FlatMap(f, [x]) == f(x) + FlatMap(f, []);
  }

  /** A flat map over the same elements in another order, with a function that gives the same elements. */
  lemma {:induction false} FlatMapForgetsOrder<T, U>(f: T -> seq<U>, g: T -> seq<U>, xs: seq<T>, ys: seq<T>)
    requires multiset(xs) == multiset(ys)
    requires forall x :: x in xs ==> multiset(f(x)) == multiset(g(x))
    ensures multiset(FlatMap(f, xs)) == multiset(FlatMap(g, ys))
  {
    SameMembers(xs, ys);
    if xs != [] {
      var x := xs[0];
      assert x in xs;
      var left, right := Pull(x, ys);
      TailMultiset(xs);
      FlatMapForgetsOrder(f, g, xs[1..], left + right);
      FlatMapPull(g, left, x, right);
    }
  }

  function Map<T, U>(f: T -> U, xs: seq<T>): (r: seq<U>)
    ensures |r| == |xs| && forall i :: 0 <= i < |xs| ==> r[i] == f(xs[i])
  {
    seq(|xs|, i requires 0 <= i < |xs| => f(xs[i]))
  }

  lemma MapConcat<T, U>(f: T -> U, xs: seq<T>, ys: seq<T>)
    ensures Map(f, xs + ys) == Map(f, xs) + Map(f, ys)
  {
  }

  lemma MapMembers<T, U>(f: T -> U, xs: seq<T>, u: U)
    ensures u in Map(f, xs) <==> exists x :: x in xs && f(x) == u
  {
    if u in Map(f, xs) {
      var i :| 0 <= i < |xs| && Map(f, xs)[i] == u;
      assert xs[i] in xs;
    }
    if x :| x in xs && f(x) == u {
      var i :| 0 <= i < |xs| && xs[i] == x;
      assert Map(f, xs)[i] == u;
    }
  }

  lemma HasMember<T>(xs: seq<T>)
    ensures xs == [] || exists x :: x in xs
  {
    assert xs == [] || xs[0] in xs;
  }

  lemma MapSnoc<T, U>(f: T -> U, xs: seq<T>, n: nat)
    requires n < |xs|
    ensures Map(f, xs[..n + 1]) == Map(f, xs[..n]) + [f(xs[n])]
  {
  }

  lemma MapFirst<T, U>(f: T -> U, xs: seq<T>)
    requires xs != []
    ensures Map(f, xs) == [f(xs[0])] + Map(f, xs[1..])
  {
  }

  lemma {:induction false} MapForgetsOrder<T, U>(f: T -> U, xs: seq<T>, ys: seq<T>)
    requires multiset(xs) == multiset(ys)
    ensures multiset(Map(f, xs)) == multiset(Map(f, ys))
  {
    var g := (x: T) => [f(x)];
    MapIsFlat(f, g, xs);
    MapIsFlat(f, g, ys);
    FlatMapForgetsOrder(g, g, xs, ys);
  }

  lemma {:induction false} MapIsFlat<T, U>(f: T -> U, g: T -> seq<U>, xs: seq<T>)
    requires forall x :: x in xs ==> g(x) == [f(x)]
    ensures FlatMap(g, xs) == Map(f, xs)
  {
    if xs != [] {
      MapFirst(f, xs);
      MapIsFlat(f, g, xs[1..]);
    }
  }

  lemma {:induction false} FilterForgetsOrder<T(!new)>(p: T -> bool, xs: seq<T>, ys: seq<T>)
    requires multiset(xs) == multiset(ys)
    ensures multiset(Filter(p, xs)) == multiset(Filter(p, ys))
  {
    var g := (x: T) => if p(x) then [x] else [];
    FilterIsFlat(p, g, xs);
    FilterIsFlat(p, g, ys);
    FlatMapForgetsOrder(g, g, xs, ys);
  }

  lemma {:induction false} FilterIsFlat<T(!new)>(p: T -> bool, g: T -> seq<T>, xs: seq<T>)
    requires forall x :: x in xs ==> g(x) == if p(x) then [x] else []
    ensures FlatMap(g, xs) == Filter(p, xs)
  {
    if xs != [] {
      FilterIsFlat(p, g, xs[1..]);
    }
  }

  lemma FilterSnoc<T(!new)>(p: T -> bool, xs: seq<T>, n: nat)
    requires n < |xs|
    ensures Filter(p, xs[..n + 1]) == Filter(p, xs[..n]) + if p(xs[n]) then [xs[n]] else []
  {
    assert xs[..n + 1] == xs[..n] + [xs[n]];
    FilterConcat(p, xs[..n], [xs[n]]);
    assert Filter(p, [xs[n]][1..]) == [];
  }

  lemma MapFilterSnoc<T(!new), U>(f: T -> U, p: T -> bool, xs: seq<T>, n: nat)
    requires n < |xs|
    ensures Map(f, Filter(p, xs[..n + 1])) == Map(f, Filter(p, xs[..n])) + if p(xs[n]) then [f(xs[n])] else []
  {
    FilterSnoc(p, xs, n);
  }

  // ---------- First occurrences ----------

  ghost predicate Distinct<T>(xs: seq<T>)
  {
    forall i, j :: 0 <= i < j < |xs| ==> xs[i] != xs[j]
  }

  /** The keys of a dictionary filled in the order of `xs`. */
  function Firsts<T(==)>(xs: seq<T>): seq<T>
  {
    if xs == [] then []
    else
      var last := xs[|xs| - 1];
      var r := Firsts(xs[..|xs| - 1]);
      if last in r then r else r + [last]
  }

  lemma {:induction false} FirstsMembers<T(!new)>(xs: seq<T>)
    ensures Distinct(Firsts(xs))
    ensures forall x :: x in Firsts(xs) <==> x in xs
    ensures |Firsts(xs)| <= |xs|
    ensures xs != [] ==> Firsts(xs) != []
  {
    if xs != [] {
      FirstsMembers(xs[..|xs| - 1]);
      assert xs == xs[..|xs| - 1] + [xs[|xs| - 1]];
    }
  }

  lemma FirstsLast<T>(xs: seq<T>, x: T)
    ensures Firsts(xs + [x]) == if x in Firsts(xs) then Firsts(xs) else Firsts(xs) + [x]
  {
    assert (xs + [x])[..|xs + [x]| - 1] == xs;
  }

  lemma FirstsSnoc<T>(xs: seq<T>, n: nat)
    requires n < |xs|
    ensures Firsts(xs[..n + 1]) == var r := Firsts(xs[..n]); if xs[n] in r then r else r + [xs[n]]
  {
    FirstsLast(xs[..n], xs[n]);
    assert xs[..n + 1] == xs[..n] + [xs[n]];
  }

  /** Enters into a dictionary's keys `was` each of `more` that is not there yet. */
  method AddFirsts<T(==)>(ghost before: seq<T>, more: seq<T>, was: seq<T>) returns (keys: seq<T>)
    requires was == Firsts(before)
    ensures keys == Firsts(before + more)
  {
    keys := was;
    ghost var seen := before;
    for j := 0 to |more|
      invariant seen == before + more[..j]
      invariant keys == Firsts(seen)
    {
      FirstsLast(seen, more[j]);
      assert more[..j + 1] == more[..j] + [more[j]];
      seen := seen + [more[j]];
      assert seen == before + more[..j + 1];
      if more[j] !in keys {
        keys := keys + [more[j]];
      }
    }
    assert seen == before + more;
  }

  /** Distinct sequences with the same members are permutations of each other. */
  lemma {:induction false} DistinctPermutation<T>(xs: seq<T>, ys: seq<T>)
    requires Distinct(xs) && Distinct(ys) && forall x :: x in xs <==> x in ys
    ensures multiset(xs) == multiset(ys)
  {
    forall x ensures multiset(xs)[x] == multiset(ys)[x] {
      DistinctCount(xs, x);
      DistinctCount(ys, x);
      assert x in xs <==> x in ys;
    }
  }

  lemma {:induction false} DistinctCount<T>(xs: seq<T>, x: T)
    requires Distinct(xs)
    ensures multiset(xs)[x] == if x in xs then 1 else 0
  {
    if xs != [] {
      assert xs == [xs[0]] + xs[1..];
      DistinctCount(xs[1..], x);
      assert xs[0] !in xs[1..];
    }
  }

  lemma DistinctForgetsOrder<T(!new)>(xs: seq<T>, ys: seq<T>)
    requires Distinct(xs) && multiset(xs) == multiset(ys)
    ensures Distinct(ys)
  {
    forall i, j | 0 <= i < j < |ys| ensures ys[i] != ys[j] {
      DistinctCount(xs, ys[i]);
      assert ys == ys[..i] + [ys[i]] + ys[i + 1..];
      assert multiset(ys)[ys[i]] >= 1 + multiset(ys[i + 1..])[ys[i]];
      assert ys[j] == ys[i + 1..][j - i - 1];
      assert ys[j] in ys[i + 1..];
    }
  }

  // ---------- Dictionaries in insertion order ----------

  /** The dictionary `m` has the keys `order` and maps each to its `value`. */
  ghost predicate Dictionary<K(!new), V>(order: seq<K>, m: map<K, V>, value: K -> V)
  {
    && (forall k :: k in m <==> k in order)
    && forall k :: k in m ==> m[k] == value(k)
  }

  lemma DictionaryPut<K(!new), V>(order: seq<K>, m: map<K, V>, value: K -> V, k: K, next: seq<K>, value': K -> V)
    requires Dictionary(order, m, value)
    requires next == if k in order then order else order + [k]
    requires forall q :: q in order && q != k ==> value'(q) == value(q)
    ensures Dictionary(next, m[k := value'(k)], value')
  {
    var u := m[k := value'(k)];
    forall q ensures q in u <==> q in next {
      assert q in u <==> q in m || q == k;
    }
    forall q | q in u ensures u[q] == value'(q) {
      assert q != k ==> q in order && u[q] == m[q];
    }
  }

  function Listed<K, T>(m: map<K, seq<T>>, k: K): seq<T> { if k in m then m[k] else [] }

  function HasKey<K(==), T>(key: T -> K, k: K): T -> bool { x => key(x) == k }

  function Group<K(==), T(!new)>(key: T -> K, xs: seq<T>, k: K): seq<T> { Filter(HasKey(key, k), xs) }

  /** A dictionary of lists filled in the order of `xs`. */
  method GroupBy<K(==, !new), T(!new)>(key: T -> K, xs: seq<T>) returns (m: map<K, seq<T>>)
    ensures forall k :: Listed(m, k) == Group(key, xs, k)
  {
    m := map[];
    for i := 0 to |xs|
      invariant forall k :: Listed(m, k) == Group(key, xs[..i], k)
    {
      ghost var was, next := m, i + 1;
      var mine := key(xs[i]);
      m := m[mine := Listed(m, mine) + [xs[i]]];
      forall k ensures Listed(m, k) == Group(key, xs[..next], k) {
        FilterSnoc(HasKey(key, k), xs, i);
        assert Listed(m, k) == if k == mine then Listed(was, k) + [xs[i]] else Listed(was, k);
      }
    }
    assert xs[..|xs|] == xs;
  }
}
