/** Keeping the first item of each key while walking groups of items in the arbitrary order
    of a map, and exactly when the order does not show in the result. */
module FirstWins {
  import opened Types

  ghost predicate HasKey<T, K>(items: seq<T>, key: T -> Option<K>, k: Option<K>) {
    exists x <- items :: key(x) == k
  }

  /** Every item without a key and the first item of each key, in order. */
  ghost function First<T, K>(items: seq<T>, key: T -> Option<K>): seq<T> {
    if items == [] then []
    else
      var rest, x := First(items[..|items| - 1], key), items[|items| - 1];
      if key(x).Some? && HasKey(rest, key, key(x)) then rest else rest + [x]
  }

  ghost function Flat<X, T>(xs: seq<X>, f: X -> seq<T>): seq<T> {
    if xs == [] then [] else Flat(xs[..|xs| - 1], f) + f(xs[|xs| - 1])
  }

  ghost predicate OnePerKey<T, K>(items: seq<T>, key: T -> Option<K>) {
    forall i, j :: 0 <= i < j < |items| && key(items[i]) == key(items[j]) ==> key(items[i]).None?
  }

  lemma FirstSnoc<T, K>(items: seq<T>, x: T, key: T -> Option<K>)
    ensures First(items + [x], key) ==
            if key(x).Some? && HasKey(First(items, key), key, key(x)) then First(items, key) else First(items, key) + [x]
  {
    assert (items + [x])[..|items|] == items;
  }

  /** Nothing is invented and no key is lost. */
  lemma {:induction false} FirstKeys<T, K>(items: seq<T>, key: T -> Option<K>, k: Option<K>)
    ensures HasKey(First(items, key), key, k) <==> HasKey(items, key, k)
    ensures forall x <- First(items, key) :: x in items
  {
    if items != [] {
      var ini, x := items[..|items| - 1], items[|items| - 1];
      assert items == ini + [x] && forall y :: y in items <==> y in ini || y == x;
      FirstKeys(ini, key, k);
    }
  }

  lemma {:induction false} FirstOnePerKey<T, K>(items: seq<T>, key: T -> Option<K>)
    ensures OnePerKey(First(items, key), key)
  {
    if items != [] {
      FirstOnePerKey(items[..|items| - 1], key);
      var rest := First(items[..|items| - 1], key);
      assert forall i :: 0 <= i < |rest| ==> rest[i] in rest;
    }
  }

  lemma {:induction false} FirstKeepsKeyless<T, K>(items: seq<T>, key: T -> Option<K>, x: T)
    requires key(x).None?
    ensures multiset(First(items, key))[x] == multiset(items)[x]
  {
    if items != [] {
      FirstKeepsKeyless(items[..|items| - 1], key, x);
      assert items == items[..|items| - 1] + [items[|items| - 1]];
    }
  }

  /** What is kept of a list stays kept when more follows, and what is kept of two lists in
      a row is kept of one of them alone. */
  lemma {:induction false} FirstAppend<T, K>(a: seq<T>, b: seq<T>, key: T -> Option<K>)
    ensures First(a, key) <= First(a + b, key)
    ensures forall x <- First(a + b, key) :: x in First(a, key) || x in First(b, key)
    decreases |b|
  {
    if b == [] {
      assert a + b == a;
    } else {
      var ini, x := b[..|b| - 1], b[|b| - 1];
      FirstAppend(a, ini, key);
      assert a + b == (a + ini) + [x] && b == ini + [x];
      FirstSnoc(a + ini, x, key);
      FirstSnoc(ini, x, key);
      if x !in First(b, key) {
        FirstKeys(ini, key, key(x));
        FirstKeys(a + ini, key, key(x));
        assert forall y <- ini :: y in a + ini;
      }
    }
  }

  // ----- Groups -------------------------------------------------------------------------

  lemma {:induction false} FlatAppend<X, T>(a: seq<X>, b: seq<X>, f: X -> seq<T>)
    ensures Flat(a + b, f) == Flat(a, f) + Flat(b, f)
    decreases |b|
  {
    if b == [] {
      assert a + b == a;
    } else {
      assert (a + b)[..|a + b| - 1] == a + b[..|b| - 1];
      FlatAppend(a, b[..|b| - 1], f);
    }
  }

  lemma FlatOne<X, T>(x: X, f: X -> seq<T>)
    ensures Flat([x], f) == f(x)
  {
    assert [x][..0] == [];
  }

  lemma FlatPull<X, T>(ys: seq<X>, i: nat, f: X -> seq<T>)
    requires i < |ys|
    ensures multiset(Flat(ys, f)) == multiset(Flat(ys[..i] + ys[i + 1..], f)) + multiset(f(ys[i]))
  {
    assert ys == ys[..i] + ([ys[i]] + ys[i + 1..]);
    FlatAppend(ys[..i], [ys[i]] + ys[i + 1..], f);
    FlatAppend([ys[i]], ys[i + 1..], f);
    FlatAppend(ys[..i], ys[i + 1..], f);
    FlatOne(ys[i], f);
  }

  lemma PullCounts<X>(ys: seq<X>, i: nat)
    requires i < |ys|
    ensures multiset(ys) == multiset(ys[..i] + ys[i + 1..]) + multiset{ys[i]}
  {
    assert ys == ys[..i] + [ys[i]] + ys[i + 1..];
  }

  /** Where ys has the last item of xs; without it both still have the same items. */
  lemma Matching<X>(xs: seq<X>, ys: seq<X>) returns (i: nat)
    requires multiset(xs) == multiset(ys) && xs != []
    ensures i < |ys| && ys[i] == xs[|xs| - 1]
    ensures multiset(xs[..|xs| - 1]) == multiset(ys[..i] + ys[i + 1..])
  {
    var m := |xs| - 1;
    assert xs[m] in multiset(ys);
    i :| 0 <= i < |ys| && ys[i] == xs[m];
    PullCounts(xs, m);
    PullCounts(ys, i);
    assert xs[..m] + xs[m + 1..] == xs[..m];
    Cancel(multiset(xs[..m]), multiset(ys[..i] + ys[i + 1..]), xs[m]);
  }

  lemma Cancel<X>(p: multiset<X>, q: multiset<X>, x: X)
    requires p + multiset{x} == q + multiset{x}
    ensures p == q
  {
    assert p == p + multiset{x} - multiset{x} && q == q + multiset{x} - multiset{x};
  }

  lemma {:induction false} FlatPermutes<X, T>(xs: seq<X>, ys: seq<X>, f: X -> seq<T>)
    requires multiset(xs) == multiset(ys)
    ensures multiset(Flat(xs, f)) == multiset(Flat(ys, f))
  {
    if xs == [] {
      assert |multiset(ys)| == |ys|;
    } else {
      var ini, x := xs[..|xs| - 1], xs[|xs| - 1];
      var i := Matching(xs, ys);
      FlatPull(ys, i, f);
      FlatPermutes(ini, ys[..i] + ys[i + 1..], f);
    }
  }

  lemma {:induction false} FlatMember<X, T>(xs: seq<X>, f: X -> seq<T>, t: T)
    ensures t in Flat(xs, f) <==> exists x <- xs :: t in f(x)
  {
    if xs != [] {
      var ini, x := xs[..|xs| - 1], xs[|xs| - 1];
      assert forall y :: y in xs <==> y in ini || y == x;
      FlatMember(ini, f, t);
    }
  }

  /** An item kept of all groups is kept of its own. */
  lemma {:induction false} KeptInGroup<X, T, K>(xs: seq<X>, f: X -> seq<T>, key: T -> Option<K>, t: T)
    requires t in First(Flat(xs, f), key)
    ensures exists x <- xs :: t in First(f(x), key)
  {
    if xs != [] {
      var ini, x := xs[..|xs| - 1], xs[|xs| - 1];
      FirstAppend(Flat(ini, f), f(x), key);
      if t in First(Flat(ini, f), key) {
        KeptInGroup(ini, f, key, t);
        var y :| y in ini && t in First(f(y), key);
        assert y in xs;
      } else {
        assert x in xs;
      }
    }
  }

  // ----- Every order --------------------------------------------------------------------

  /** Groups never offer two different items for one key. */
  ghost predicate Agree<X, T, K>(xs: seq<X>, f: X -> seq<T>, key: T -> Option<K>) {
    forall x, y | x in xs && y in xs :: AgreeOn(First(f(x), key), First(f(y), key), key)
  }

  ghost predicate AgreeOn<T, K>(some: seq<T>, others: seq<T>, key: T -> Option<K>) {
    forall a, b | a in some && b in others :: key(a) == key(b) && key(a).Some? ==> a == b
  }

  ghost predicate SameInEveryOrder<X(!new), T, K>(xs: seq<X>, f: X -> seq<T>, key: T -> Option<K>) {
    forall ys :: multiset(ys) == multiset(xs) ==>
                 multiset(First(Flat(ys, f), key)) == multiset(First(Flat(xs, f), key))
  }

  lemma CountOne<T, K>(items: seq<T>, key: T -> Option<K>, t: T)
    requires OnePerKey(items, key) && key(t).Some?
    ensures multiset(items)[t] == if t in items then 1 else 0
  {
    if t in items {
      var i :| 0 <= i < |items| && items[i] == t;
      assert items == items[..i] + [t] + items[i + 1..];
      assert t !in items[..i] && t !in items[i + 1..];
    }
  }

  lemma KeptAgain<X, T, K>(xs: seq<X>, ys: seq<X>, f: X -> seq<T>, key: T -> Option<K>, t: T)
    requires Agree(xs, f, key) && multiset(ys) == multiset(xs)
    requires key(t).Some? && t in First(Flat(xs, f), key)
    ensures t in First(Flat(ys, f), key)
  {
    FlatPermutes(xs, ys, f);
    FirstKeys(Flat(xs, f), key, key(t));
    assert t in multiset(Flat(ys, f));
    FirstKeys(Flat(ys, f), key, key(t));
    var u :| u in First(Flat(ys, f), key) && key(u) == key(t);
    KeptInGroup(xs, f, key, t);
    KeptInGroup(ys, f, key, u);
    var x :| x in xs && t in First(f(x), key);
    var y :| y in ys && u in First(f(y), key);
    assert y in multiset(xs);
  }

  lemma AgreeingCounts<X, T, K>(xs: seq<X>, ys: seq<X>, f: X -> seq<T>, key: T -> Option<K>, t: T)
    requires Agree(xs, f, key) && multiset(ys) == multiset(xs)
    ensures multiset(First(Flat(ys, f), key))[t] == multiset(First(Flat(xs, f), key))[t]
  {
    if key(t).None? {
      FirstKeepsKeyless(Flat(xs, f), key, t);
      FirstKeepsKeyless(Flat(ys, f), key, t);
      FlatPermutes(xs, ys, f);
    } else {
      FirstOnePerKey(Flat(xs, f), key);
      FirstOnePerKey(Flat(ys, f), key);
      CountOne(First(Flat(xs, f), key), key, t);
      CountOne(First(Flat(ys, f), key), key, t);
      if t in First(Flat(xs, f), key) {
        KeptAgain(xs, ys, f, key, t);
      }
      if t in First(Flat(ys, f), key) {
        assert Agree(ys, f, key) by {
          assert forall y <- ys :: y in multiset(xs);
        }
        KeptAgain(ys, xs, f, key, t);
      }
    }
  }

  lemma AgreeingKeep<X, T, K>(xs: seq<X>, ys: seq<X>, f: X -> seq<T>, key: T -> Option<K>)
    requires Agree(xs, f, key) && multiset(ys) == multiset(xs)
    ensures multiset(First(Flat(ys, f), key)) == multiset(First(Flat(xs, f), key))
  {
    var p, q := multiset(First(Flat(ys, f), key)), multiset(First(Flat(xs, f), key));
    forall t | t in p + q ensures p[t] == q[t] {
      AgreeingCounts(xs, ys, f, key, t);
    }
    assert p <= q && q <= p;
  }

  /** The order in which x comes first keeps what x offers and nothing else for its keys. */
  lemma PutFirst<X, T, K>(xs: seq<X>, x: X, f: X -> seq<T>, key: T -> Option<K>, a: T, b: T) returns (ys: seq<X>)
    requires x in xs && a in First(f(x), key) && key(a) == key(b) && key(a).Some? && a != b
    ensures multiset(ys) == multiset(xs)
    ensures a in First(Flat(ys, f), key) && b !in First(Flat(ys, f), key)
  {
    var i :| 0 <= i < |xs| && xs[i] == x;
    var rest := xs[..i] + xs[i + 1..];
    ys := [x] + rest;
    PullCounts(xs, i);
    FlatAppend([x], rest, f);
    FlatOne(x, f);
    FirstAppend(f(x), Flat(rest, f), key);
    var kept := First(Flat(ys, f), key);
    FirstOnePerKey(Flat(ys, f), key);
    var j :| 0 <= j < |First(f(x), key)| && First(f(x), key)[j] == a;
    assert kept[j] == a;
  }

  /** What is kept does not depend on the order of the groups if and only if no two groups
      offer different items for one key. */
  lemma SameInEveryOrderIffAgree<X(!new), T, K>(xs: seq<X>, f: X -> seq<T>, key: T -> Option<K>)
    ensures SameInEveryOrder(xs, f, key) <==> Agree(xs, f, key)
  {
    if Agree(xs, f, key) {
      forall ys | multiset(ys) == multiset(xs)
        ensures multiset(First(Flat(ys, f), key)) == multiset(First(Flat(xs, f), key))
      {
        AgreeingKeep(xs, ys, f, key);
      }
    } else {
      var x, y, a, b :| x in xs && y in xs && a in First(f(x), key) && b in First(f(y), key)
                        && key(a) == key(b) && key(a).Some? && a != b;
      var ys := PutFirst(xs, x, f, key, a, b);
      var zs := PutFirst(xs, y, f, key, b, a);
      var p, q := First(Flat(ys, f), key), First(Flat(zs, f), key);
      assert a in multiset(p) && a !in multiset(q);
    }
  }

  /** Which keys are kept never depends on the order. */
  lemma KeysInEveryOrder<X, T, K>(xs: seq<X>, ys: seq<X>, f: X -> seq<T>, key: T -> Option<K>, k: Option<K>)
    requires multiset(ys) == multiset(xs)
    ensures HasKey(First(Flat(ys, f), key), key, k) <==> HasKey(First(Flat(xs, f), key), key, k)
  {
    FirstKeys(Flat(xs, f), key, k);
    FirstKeys(Flat(ys, f), key, k);
    FlatPermutes(xs, ys, f);
    assert forall t :: t in Flat(xs, f) <==> t in multiset(Flat(xs, f));
    assert forall t :: t in Flat(ys, f) <==> t in multiset(Flat(ys, f));
  }
}
