/** Keyed comparison of two arrays: the diff that drives every reconciliation. */
module Comparable {
  datatype ChangedPair<T> = ChangedPair(oldItem: T, newItem: T)

  datatype Diff<T> = Diff(added: seq<T>, deleted: seq<T>, changed: seq<ChangedPair<T>>, same: seq<T>) {
    predicate IsChanged() {
      |added| != 0 || |deleted| != 0 || |changed| != 0
    }
  }

  /** The key -> item map of an array; of several items with one key the last wins. */
  function KeyGen<T, K>(items: seq<T>, key: T -> K): (m: map<K, T>)
    ensures forall k <- m :: key(m[k]) == k && m[k] in items
    ensures forall x <- items :: key(x) in m
    ensures |items| > 0 ==> m[key(items[|items| - 1])] == items[|items| - 1]
  {
    if items == [] then map[]
    else
      var last := items[|items| - 1];
      KeyGen(items[..|items| - 1], key)[key(last) := last]
  }

  lemma KeyGenSnoc<T, K>(items: seq<T>, x: T, key: T -> K)
    ensures KeyGen(items + [x], key) == KeyGen(items, key)[key(x) := x]
  {
    assert (items + [x])[..|items|] == items;
  }

  /** No item after position i has its key. */
  ghost predicate IsLast<T, K>(items: seq<T>, i: nat, key: T -> K) {
    i < |items| && forall j :: i < j < |items| ==> key(items[j]) != key(items[i])
  }

  lemma {:induction false} LastWins<T, K>(items: seq<T>, i: nat, key: T -> K)
    requires IsLast(items, i, key)
    ensures KeyGen(items, key)[key(items[i])] == items[i]
  {
    if i < |items| - 1 {
      LastWins(items[..|items| - 1], i, key);
      assert key(items[|items| - 1]) != key(items[i]);
    }
  }

  ghost predicate DistinctKeys<T, K>(items: seq<T>, key: T -> K) {
    forall i, j :: 0 <= i < j < |items| ==> key(items[i]) != key(items[j])
  }

  /** items enumerates the entries of m under the keys ks, each once, in some order. */
  ghost predicate Lists<T, K>(items: seq<T>, m: map<K, T>, ks: set<K>, key: T -> K) {
    && DistinctKeys(items, key)
    && (forall x <- items :: key(x) in ks && key(x) in m && m[key(x)] == x)
    && (forall k <- ks :: k in m && m[k] in items && key(m[k]) == k)
  }

  lemma ListsStep<T, K>(items: seq<T>, m: map<K, T>, ks: set<K>, k: K, key: T -> K)
    requires Lists(items, m, ks, key)
    requires k in m && k !in ks && key(m[k]) == k
    ensures Lists(items + [m[k]], m, ks + {k}, key)
  {
    forall i | 0 <= i < |items| ensures key(items[i]) != k {
      assert items[i] in items;
    }
  }

  function NewItems<T>(changed: seq<ChangedPair<T>>): (r: seq<T>)
    ensures |r| == |changed|
    ensures forall i :: 0 <= i < |r| ==> r[i] == changed[i].newItem
  {
    seq(|changed|, i requires 0 <= i < |changed| => changed[i].newItem)
  }

  function OldItems<T>(changed: seq<ChangedPair<T>>): (r: seq<T>)
    ensures |r| == |changed|
    ensures forall i :: 0 <= i < |r| ==> r[i] == changed[i].oldItem
  {
    seq(|changed|, i requires 0 <= i < |changed| => changed[i].oldItem)
  }

  function ChangedKeys<T, K>(o: map<K, T>, n: map<K, T>, equal: (T, T) -> bool): set<K> {
    set k | k in o && k in n && !equal(o[k], n[k])
  }

  function SameKeys<T, K>(o: map<K, T>, n: map<K, T>, equal: (T, T) -> bool): set<K> {
    set k | k in o && k in n && equal(o[k], n[k])
  }

  /** d sorts the keys of o and n into four lists, each exact, in any order. */
  ghost predicate IsDiff<T, K>(o: map<K, T>, n: map<K, T>, key: T -> K, equal: (T, T) -> bool, d: Diff<T>) {
    && Lists(d.added, n, n.Keys - o.Keys, key)
    && Lists(d.deleted, o, o.Keys - n.Keys, key)
    && Lists(OldItems(d.changed), o, ChangedKeys(o, n, equal), key)
    && Lists(NewItems(d.changed), n, ChangedKeys(o, n, equal), key)
    && (forall p <- d.changed :: key(p.oldItem) == key(p.newItem))
    && Lists(d.same, o, SameKeys(o, n, equal), key)
  }

  /** The diff of the keys of o outside todo; nothing is added yet. */
  ghost predicate IsPartial<T, K>(o: map<K, T>, n: map<K, T>, key: T -> K, equal: (T, T) -> bool, d: Diff<T>, todo: set<K>) {
    && Lists(d.deleted, o, o.Keys - n.Keys - todo, key)
    && Lists(OldItems(d.changed), o, ChangedKeys(o, n, equal) - todo, key)
    && Lists(NewItems(d.changed), n, ChangedKeys(o, n, equal) - todo, key)
    && (forall p <- d.changed :: key(p.oldItem) == key(p.newItem))
    && Lists(d.same, o, SameKeys(o, n, equal) - todo, key)
  }

  /** Sorts one key of the old map into its list. */
  function Classify<T, K(==)>(o: map<K, T>, n: map<K, T>, equal: (T, T) -> bool, d: Diff<T>, k: K): Diff<T>
    requires k in o
  {
    if k !in n then d.(deleted := d.deleted + [o[k]])
    else if !equal(o[k], n[k]) then d.(changed := d.changed + [ChangedPair(o[k], n[k])])
    else d.(same := d.same + [o[k]])
  }

  lemma ClassifyStep<T, K>(o: map<K, T>, n: map<K, T>, key: T -> K, equal: (T, T) -> bool, d: Diff<T>, todo: set<K>, k: K)
    requires IsPartial(o, n, key, equal, d, todo)
    requires k in o && k in todo && key(o[k]) == k && (k in n ==> key(n[k]) == k)
    ensures IsPartial(o, n, key, equal, Classify(o, n, equal, d, k), todo - {k})
  {
    var gone, differ, agree := o.Keys - n.Keys, ChangedKeys(o, n, equal), SameKeys(o, n, equal);
    var left := todo - {k};
    if k !in n {
      ListsStep(d.deleted, o, gone - todo, k, key);
      assert gone - todo + {k} == gone - left && differ - todo == differ - left && agree - todo == agree - left;
    } else if !equal(o[k], n[k]) {
      ListsStep(OldItems(d.changed), o, differ - todo, k, key);
      ListsStep(NewItems(d.changed), n, differ - todo, k, key);
      var p := ChangedPair(o[k], n[k]);
      assert OldItems(d.changed + [p]) == OldItems(d.changed) + [o[k]];
      assert NewItems(d.changed + [p]) == NewItems(d.changed) + [n[k]];
      assert differ - todo + {k} == differ - left && gone - todo == gone - left && agree - todo == agree - left;
    } else {
      ListsStep(d.same, o, agree - todo, k, key);
      assert agree - todo + {k} == agree - left && gone - todo == gone - left && differ - todo == differ - left;
    }
  }

  lemma KeyGenMeaning<T, K>(items: seq<T>, key: T -> K)
    ensures KeyGen(items, key).Keys == KeysOf(items, key)
    ensures forall i: nat :: IsLast(items, i, key) ==> KeyGen(items, key)[key(items[i])] == items[i]
  {
    forall i: nat | IsLast(items, i, key) ensures KeyGen(items, key)[key(items[i])] == items[i] {
      LastWins(items, i, key);
    }
  }

  /** Fills the map of an array; of two items with one key the later stays. */
  method FillKeys<T, K(==)>(items: seq<T>, key: T -> K) returns (m: map<K, T>)
    ensures m == KeyGen(items, key)
    ensures m.Keys == KeysOf(items, key)
    ensures forall i: nat :: IsLast(items, i, key) ==> m[key(items[i])] == items[i]
  {
    m := map[];
    for i := 0 to |items|
      invariant m == KeyGen(items[..i], key)
    {
      assert items[..i + 1] == items[..i] + [items[i]];
      KeyGenSnoc(items[..i], items[i], key);
      m := m[key(items[i]) := items[i]];
    }
    assert items[..|items|] == items;
    KeyGenMeaning(items, key);
  }

  method CompareArrays<T, K(==)>(oldSet: seq<T>, newSet: seq<T>, key: T -> K, equal: (T, T) -> bool)
    returns (d: Diff<T>)
    ensures IsDiff(KeyGen(oldSet, key), KeyGen(newSet, key), key, equal, d)
  {
    var o := FillKeys(oldSet, key);
    var n := FillKeys(newSet, key);
    d := SortOld(o, n, key, equal);
    var added := CollectAdded(o, n, key);
    d := d.(added := added);
    assert o.Keys - n.Keys - {} == o.Keys - n.Keys;
    assert ChangedKeys(o, n, equal) - {} == ChangedKeys(o, n, equal);
    assert SameKeys(o, n, equal) - {} == SameKeys(o, n, equal);
  }

  method SortOld<T, K(==)>(o: map<K, T>, n: map<K, T>, ghost key: T -> K, equal: (T, T) -> bool) returns (d: Diff<T>)
    requires forall k <- o :: key(o[k]) == k
    requires forall k <- n :: key(n[k]) == k
    ensures IsPartial(o, n, key, equal, d, {})
  {
    d := Diff([], [], [], []);
    var todo := o.Keys;
    assert IsPartial(o, n, key, equal, d, todo);
    while todo != {}
      invariant todo <= o.Keys
      invariant IsPartial(o, n, key, equal, d, todo)
    {
      var k :| k in todo;
      ClassifyStep(o, n, key, equal, d, todo, k);
      d := Classify(o, n, equal, d, k);
      todo := todo - {k};
    }
  }

  method CollectAdded<T, K(==)>(o: map<K, T>, n: map<K, T>, ghost key: T -> K) returns (added: seq<T>)
    requires forall k <- n :: key(n[k]) == k
    ensures Lists(added, n, n.Keys - o.Keys, key)
  {
    added := [];
    var rest := n.Keys;
    while rest != {}
      invariant rest <= n.Keys
      invariant Lists(added, n, n.Keys - o.Keys - rest, key)
    {
      var k :| k in rest;
      if k !in o {
        ListsStep(added, n, n.Keys - o.Keys - rest, k, key);
        added := added + [n[k]];
        assert n.Keys - o.Keys - rest + {k} == n.Keys - o.Keys - (rest - {k});
      } else {
        assert n.Keys - o.Keys - rest == n.Keys - o.Keys - (rest - {k});
      }
      rest := rest - {k};
    }
    assert n.Keys - o.Keys - {} == n.Keys - o.Keys;
  }

  ghost function KeysOf<T, K>(items: seq<T>, key: T -> K): set<K> {
    set x | x in items :: key(x)
  }

  lemma KeysSnoc<T, K>(items: seq<T>, x: T, key: T -> K)
    ensures KeysOf(items + [x], key) == KeysOf(items, key) + {key(x)}
  {
    assert forall y :: y in items + [x] <==> y in items || y == x;
  }

  lemma KeysEmpty<T, K>(items: seq<T>, key: T -> K)
    ensures items == [] <==> KeysOf(items, key) == {}
  {
    if items != [] {
      assert items[0] in items && key(items[0]) in KeysOf(items, key);
    }
  }

  lemma DistinctGet<T, K>(items: seq<T>, x: T, key: T -> K)
    requires DistinctKeys(items, key) && x in items
    ensures KeyGen(items, key)[key(x)] == x
  {
    var i :| 0 <= i < |items| && items[i] == x;
    var y := KeyGen(items, key)[key(x)];
    var j :| 0 <= j < |items| && items[j] == y;
    assert key(y) == key(x);
  }

  lemma ListsKeys<T, K>(items: seq<T>, m: map<K, T>, ks: set<K>, key: T -> K)
    requires Lists(items, m, ks, key)
    ensures KeysOf(items, key) == ks
    ensures KeyGen(items, key).Keys == ks
    ensures forall k <- ks :: KeyGen(items, key)[k] == m[k]
    ensures items == [] <==> ks == {}
  {
    if items != [] {
      assert items[0] in items;
    }
  }

  lemma DiffKeys<T, K>(o: map<K, T>, n: map<K, T>, key: T -> K, equal: (T, T) -> bool, d: Diff<T>)
    requires IsDiff(o, n, key, equal, d)
    ensures KeysOf(d.added, key) == n.Keys - o.Keys
    ensures KeysOf(d.deleted, key) == o.Keys - n.Keys
    ensures KeysOf(NewItems(d.changed), key) == ChangedKeys(o, n, equal)
    ensures KeysOf(d.same, key) == SameKeys(o, n, equal)
    ensures d.IsChanged() <==> n.Keys != o.Keys || ChangedKeys(o, n, equal) != {}
  {
    assert KeysOf(d.added, key) == n.Keys - o.Keys && (d.added == [] <==> n.Keys - o.Keys == {}) by {
      ListsKeys(d.added, n, n.Keys - o.Keys, key);
    }
    assert KeysOf(d.deleted, key) == o.Keys - n.Keys && (d.deleted == [] <==> o.Keys - n.Keys == {}) by {
      ListsKeys(d.deleted, o, o.Keys - n.Keys, key);
    }
    assert KeysOf(NewItems(d.changed), key) == ChangedKeys(o, n, equal)
        && (NewItems(d.changed) == [] <==> ChangedKeys(o, n, equal) == {}) by {
      ListsKeys(NewItems(d.changed), n, ChangedKeys(o, n, equal), key);
    }
    assert KeysOf(d.same, key) == SameKeys(o, n, equal) by {
      ListsKeys(d.same, o, SameKeys(o, n, equal), key);
    }
    assert n.Keys == o.Keys <==> n.Keys - o.Keys == {} && o.Keys - n.Keys == {};
  }

  /** The four lists of a diff split the keys of both arrays. */
  lemma DiffPartitions<T, K>(o: map<K, T>, n: map<K, T>, key: T -> K, equal: (T, T) -> bool, d: Diff<T>)
    requires IsDiff(o, n, key, equal, d)
    ensures KeysOf(d.added, key) !! KeysOf(d.deleted, key) !! KeysOf(NewItems(d.changed), key) !! KeysOf(d.same, key)
    ensures KeysOf(d.added, key) + KeysOf(d.deleted, key) + KeysOf(NewItems(d.changed), key) + KeysOf(d.same, key)
         == o.Keys + n.Keys
  {
    DiffKeys(o, n, key, equal, d);
    var a, x, c, u := KeysOf(d.added, key), KeysOf(d.deleted, key), KeysOf(NewItems(d.changed), key), KeysOf(d.same, key);
    assert c + u == o.Keys * n.Keys && c !! u;
    assert a !! x && (a + x) !! o.Keys * n.Keys;
  }

  /** Replays a diff: drop the deleted keys, then write the changed and the added items. */
  ghost function Patch<T, K>(o: map<K, T>, d: Diff<T>, key: T -> K): map<K, T> {
    (o - KeysOf(d.deleted, key)) + KeyGen(NewItems(d.changed), key) + KeyGen(d.added, key)
  }

  ghost predicate SameMaps<T, K>(o: map<K, T>, n: map<K, T>, equal: (T, T) -> bool) {
    o.Keys == n.Keys && forall k <- o :: k in n && equal(o[k], n[k])
  }

  /** A diff, whatever order its lists came out in, turns the old map into the new one:
      exactly where something was reported, up to equal where nothing was. */
  lemma DiffIsPatch<T, K>(o: map<K, T>, n: map<K, T>, key: T -> K, equal: (T, T) -> bool, d: Diff<T>)
    requires IsDiff(o, n, key, equal, d)
    ensures Patch(o, d, key).Keys == n.Keys
    ensures forall k <- n :: Patch(o, d, key)[k] ==
                             if k in o && equal(o[k], n[k]) then o[k] else n[k]
  {
    var added, changed := KeyGen(d.added, key), KeyGen(NewItems(d.changed), key);
    assert added.Keys == n.Keys - o.Keys && forall k <- added :: added[k] == n[k] by {
      ListsKeys(d.added, n, n.Keys - o.Keys, key);
    }
    assert changed.Keys == ChangedKeys(o, n, equal) && forall k <- changed :: changed[k] == n[k] by {
      ListsKeys(NewItems(d.changed), n, ChangedKeys(o, n, equal), key);
    }
    DiffKeys(o, n, key, equal, d);
    PatchMaps(o, n, equal, KeysOf(d.deleted, key), changed, added);
  }

  lemma PatchMaps<T, K>(o: map<K, T>, n: map<K, T>, equal: (T, T) -> bool, gone: set<K>, changed: map<K, T>, added: map<K, T>)
    requires gone == o.Keys - n.Keys
    requires changed.Keys == ChangedKeys(o, n, equal) && forall k <- changed :: changed[k] == n[k]
    requires added.Keys == n.Keys - o.Keys && forall k <- added :: added[k] == n[k]
    ensures ((o - gone) + changed + added).Keys == n.Keys
    ensures forall k <- n :: ((o - gone) + changed + added)[k] ==
                             if k in o && equal(o[k], n[k]) then o[k] else n[k]
  {
  }

  /** A diff reports no change exactly when both arrays have the same keys and equal items. */
  lemma NoChangeIffSame<T, K>(o: map<K, T>, n: map<K, T>, key: T -> K, equal: (T, T) -> bool, d: Diff<T>)
    requires IsDiff(o, n, key, equal, d)
    ensures !d.IsChanged() <==> SameMaps(o, n, equal)
  {
    DiffKeys(o, n, key, equal, d);
    if o.Keys == n.Keys && !SameMaps(o, n, equal) {
      var k :| k in o && !equal(o[k], n[k]);
      assert k in ChangedKeys(o, n, equal);
    }
  }

  // ----- Keys that tell the same items apart --------------------------------------------

  /** Two keys agree on which items are the same. */
  ghost predicate SameKeying<T, K, L>(items: seq<T>, key: T -> K, other: T -> L) {
    forall x, y :: x in items && y in items ==> (key(x) == key(y) <==> other(x) == other(y))
  }

  /** An item of either array is in the one or the other under both keys or under neither,
      and stands for the same item there. */
  ghost predicate Stands<T, K, L>(o: seq<T>, n: seq<T>, key: T -> K, other: T -> L, x: T) {
    && (key(x) in KeyGen(o, key) <==> other(x) in KeyGen(o, other))
    && (key(x) in KeyGen(n, key) <==> other(x) in KeyGen(n, other))
    && (key(x) in KeyGen(o, key) ==> KeyGen(o, key)[key(x)] == KeyGen(o, other)[other(x)])
    && (key(x) in KeyGen(n, key) ==> KeyGen(n, key)[key(x)] == KeyGen(n, other)[other(x)])
  }

  lemma {:induction false} SameEntry<T, K, L>(items: seq<T>, x: T, key: T -> K, other: T -> L)
    requires forall y <- items :: key(x) == key(y) <==> other(x) == other(y)
    ensures key(x) in KeyGen(items, key) <==> other(x) in KeyGen(items, other)
    ensures key(x) in KeyGen(items, key) ==> KeyGen(items, key)[key(x)] == KeyGen(items, other)[other(x)]
  {
    if items != [] {
      assert items[|items| - 1] in items && forall y <- items[..|items| - 1] :: y in items;
      SameEntry(items[..|items| - 1], x, key, other);
    }
  }

  /** ks are the keys of the items that satisfy p. */
  ghost predicate KeysWhere<T, K>(items: seq<T>, p: T -> bool, ks: set<K>, key: T -> K) {
    (forall x <- items :: key(x) in ks <==> p(x)) && forall k <- ks :: exists x <- items :: key(x) == k
  }

  lemma SameLists<T, K, L>(listed: seq<T>, items: seq<T>, p: T -> bool, q: T -> bool, ks: set<K>, ls: set<L>, key: T -> K, other: T -> L)
    requires Lists(listed, KeyGen(items, key), ks, key)
    requires KeysWhere(items, p, ks, key) && KeysWhere(items, q, ls, other) && forall x <- items :: p(x) <==> q(x)
    requires SameKeying(items, key, other)
    ensures Lists(listed, KeyGen(items, other), ls, other)
  {
    var m, r := KeyGen(items, key), KeyGen(items, other);
    forall x | x in items ensures key(x) in m && other(x) in r && m[key(x)] == r[other(x)] {
      SameEntry(items, x, key, other);
    }
    assert forall x <- listed :: key(x) in m && m[key(x)] == x && x in items;
    assert DistinctKeys(listed, other) by {
      forall i, j | 0 <= i < j < |listed| ensures other(listed[i]) != other(listed[j]) {
        assert listed[i] in listed && listed[j] in listed && key(listed[i]) != key(listed[j]);
      }
    }
    forall l | l in ls ensures l in r && r[l] in listed && other(r[l]) == l {
      var x :| x in items && other(x) == l;
      assert key(x) in ks && m[key(x)] in listed;
    }
  }

  ghost function OutsideOf<T, K>(items: seq<T>, key: T -> K): T -> bool {
    x => key(x) !in KeyGen(items, key)
  }

  lemma WhereOnly<T, K>(a: seq<T>, b: seq<T>, key: T -> K)
    ensures KeysWhere(a, OutsideOf(b, key), KeyGen(a, key).Keys - KeyGen(b, key).Keys, key)
  {
    forall k | k in KeyGen(a, key).Keys - KeyGen(b, key).Keys ensures exists x <- a :: key(x) == k {
      assert KeyGen(a, key)[k] in a;
    }
  }

  /** The common keys whose items compare as told. */
  ghost function CommonKeys<T, K>(o: map<K, T>, n: map<K, T>, equal: (T, T) -> bool, want: bool): set<K> {
    set k | k in o && k in n && equal(o[k], n[k]) == want
  }

  ghost function AmongCommon<T, K>(o: seq<T>, n: seq<T>, key: T -> K, equal: (T, T) -> bool, want: bool): T -> bool {
    x => key(x) in CommonKeys(KeyGen(o, key), KeyGen(n, key), equal, want)
  }

  lemma WhereCommon<T, K>(o: seq<T>, n: seq<T>, items: seq<T>, key: T -> K, equal: (T, T) -> bool, want: bool)
    requires items == o || items == n
    ensures KeysWhere(items, AmongCommon(o, n, key, equal, want), CommonKeys(KeyGen(o, key), KeyGen(n, key), equal, want), key)
  {
    var ks := CommonKeys(KeyGen(o, key), KeyGen(n, key), equal, want);
    forall k | k in ks ensures exists x <- items :: key(x) == k {
      assert KeyGen(items, key)[k] in items;
    }
  }

  lemma SameStanding<T, K, L>(o: seq<T>, n: seq<T>, key: T -> K, other: T -> L)
    requires SameKeying(o + n, key, other)
    ensures SameKeying(o, key, other) && SameKeying(n, key, other)
    ensures forall x <- o :: Stands(o, n, key, other, x)
    ensures forall x <- n :: Stands(o, n, key, other, x)
  {
    assert forall y <- o :: y in o + n;
    assert forall y <- n :: y in o + n;
    forall x | x in o + n ensures Stands(o, n, key, other, x) {
      SameEntry(o, x, key, other);
      SameEntry(n, x, key, other);
    }
  }

  lemma OnlyInNew<T, K, L>(o: seq<T>, n: seq<T>, key: T -> K, other: T -> L, listed: seq<T>)
    requires SameKeying(n, key, other) && forall x <- n :: Stands(o, n, key, other, x)
    requires Lists(listed, KeyGen(n, key), KeyGen(n, key).Keys - KeyGen(o, key).Keys, key)
    ensures Lists(listed, KeyGen(n, other), KeyGen(n, other).Keys - KeyGen(o, other).Keys, other)
  {
    WhereOnly(n, o, key);
    WhereOnly(n, o, other);
    SameLists(listed, n, OutsideOf(o, key), OutsideOf(o, other),
              KeyGen(n, key).Keys - KeyGen(o, key).Keys, KeyGen(n, other).Keys - KeyGen(o, other).Keys, key, other);
  }

  lemma OnlyInOld<T, K, L>(o: seq<T>, n: seq<T>, key: T -> K, other: T -> L, listed: seq<T>)
    requires SameKeying(o, key, other) && forall x <- o :: Stands(o, n, key, other, x)
    requires Lists(listed, KeyGen(o, key), KeyGen(o, key).Keys - KeyGen(n, key).Keys, key)
    ensures Lists(listed, KeyGen(o, other), KeyGen(o, other).Keys - KeyGen(n, other).Keys, other)
  {
    WhereOnly(o, n, key);
    WhereOnly(o, n, other);
    SameLists(listed, o, OutsideOf(n, key), OutsideOf(n, other),
              KeyGen(o, key).Keys - KeyGen(n, key).Keys, KeyGen(o, other).Keys - KeyGen(n, other).Keys, key, other);
  }

  lemma CommonAlike<T, K, L>(o: seq<T>, n: seq<T>, key: T -> K, other: T -> L, equal: (T, T) -> bool, want: bool, x: T)
    requires Stands(o, n, key, other, x)
    ensures AmongCommon(o, n, key, equal, want)(x) <==> AmongCommon(o, n, other, equal, want)(x)
  {
  }

  lemma InBoth<T, K, L>(o: seq<T>, n: seq<T>, items: seq<T>, key: T -> K, other: T -> L, equal: (T, T) -> bool, want: bool, listed: seq<T>)
    requires items == o || items == n
    requires SameKeying(items, key, other) && forall x <- items :: Stands(o, n, key, other, x)
    requires Lists(listed, KeyGen(items, key), CommonKeys(KeyGen(o, key), KeyGen(n, key), equal, want), key)
    ensures Lists(listed, KeyGen(items, other), CommonKeys(KeyGen(o, other), KeyGen(n, other), equal, want), other)
  {
    var ks, ls := CommonKeys(KeyGen(o, key), KeyGen(n, key), equal, want), CommonKeys(KeyGen(o, other), KeyGen(n, other), equal, want);
    var p, q := AmongCommon(o, n, key, equal, want), AmongCommon(o, n, other, equal, want);
    assert forall x <- items :: p(x) <==> q(x) by {
      forall x | x in items ensures p(x) <==> q(x) {
        CommonAlike(o, n, key, other, equal, want, x);
      }
    }
    WhereCommon(o, n, items, key, equal, want);
    WhereCommon(o, n, items, other, equal, want);
    SameLists(listed, items, p, q, ks, ls, key, other);
  }

  /** A changed pair is the old and the new item of one key. */
  lemma PairKeyed<T, K>(o: seq<T>, n: seq<T>, key: T -> K, equal: (T, T) -> bool, d: Diff<T>, p: ChangedPair<T>)
    requires IsDiff(KeyGen(o, key), KeyGen(n, key), key, equal, d) && p in d.changed
    ensures p.oldItem in o && p.newItem in n && key(p.oldItem) == key(p.newItem)
    ensures key(p.newItem) in KeyGen(n, key) && KeyGen(n, key)[key(p.newItem)] == p.newItem
  {
    var i :| 0 <= i < |d.changed| && d.changed[i] == p;
    assert OldItems(d.changed)[i] == p.oldItem && NewItems(d.changed)[i] == p.newItem;
    assert p.oldItem in OldItems(d.changed) && p.newItem in NewItems(d.changed);
  }

  lemma DiffCarries<T, K, L>(o: seq<T>, n: seq<T>, key: T -> K, other: T -> L, equal: (T, T) -> bool, d: Diff<T>)
    requires SameKeying(o + n, key, other)
    requires IsDiff(KeyGen(o, key), KeyGen(n, key), key, equal, d)
    ensures IsDiff(KeyGen(o, other), KeyGen(n, other), other, equal, d)
  {
    var ok, nk, ol, nl := KeyGen(o, key), KeyGen(n, key), KeyGen(o, other), KeyGen(n, other);
    SameStanding(o, n, key, other);
    assert Lists(d.added, nl, nl.Keys - ol.Keys, other) by {
      OnlyInNew(o, n, key, other, d.added);
    }
    assert Lists(d.deleted, ol, ol.Keys - nl.Keys, other) by {
      OnlyInOld(o, n, key, other, d.deleted);
    }
    CommonAre(ok, nk, equal);
    CommonAre(ol, nl, equal);
    assert Lists(OldItems(d.changed), ol, ChangedKeys(ol, nl, equal), other) by {
      InBoth(o, n, o, key, other, equal, false, OldItems(d.changed));
    }
    assert Lists(NewItems(d.changed), nl, ChangedKeys(ol, nl, equal), other) by {
      InBoth(o, n, n, key, other, equal, false, NewItems(d.changed));
    }
    assert Lists(d.same, ol, SameKeys(ol, nl, equal), other) by {
      InBoth(o, n, o, key, other, equal, true, d.same);
    }
    forall p | p in d.changed ensures other(p.oldItem) == other(p.newItem) {
      PairKeyed(o, n, key, equal, d, p);
      assert p.oldItem in o + n && p.newItem in o + n;
    }
  }

  lemma CommonAre<T, K>(o: map<K, T>, n: map<K, T>, equal: (T, T) -> bool)
    ensures ChangedKeys(o, n, equal) == CommonKeys(o, n, equal, false)
    ensures SameKeys(o, n, equal) == CommonKeys(o, n, equal, true)
  {
  }

  /** Two keys that tell the same items apart give the same diffs. */
  lemma SameDiffs<T, K, L>(o: seq<T>, n: seq<T>, key: T -> K, other: T -> L, equal: (T, T) -> bool, d: Diff<T>)
    requires SameKeying(o + n, key, other)
    ensures IsDiff(KeyGen(o, key), KeyGen(n, key), key, equal, d) <==>
            IsDiff(KeyGen(o, other), KeyGen(n, other), other, equal, d)
  {
    if IsDiff(KeyGen(o, key), KeyGen(n, key), key, equal, d) {
      DiffCarries(o, n, key, other, equal, d);
    } else if IsDiff(KeyGen(o, other), KeyGen(n, other), other, equal, d) {
      DiffCarries(o, n, other, key, equal, d);
    }
  }
}
