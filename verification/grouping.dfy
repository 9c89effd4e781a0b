/** The `reduce` that groups capsules under a day key: an object filled in
    insertion order, read back with `Object.keys`. The key function is a
    parameter, so the model holds for any day key the locale produces. */
module Grouping {
  /** One branch of the tree: a key and the items filed under it. */
  datatype Group<K, T> = Group(key: K, items: seq<T>)

  function Keys<K, T>(gs: seq<Group<K, T>>): (ks: seq<K>)
    ensures |ks| == |gs|
    ensures forall i :: 0 <= i < |gs| ==> ks[i] == gs[i].key
  {
    if |gs| == 0 then [] else [gs[0].key] + Keys(gs[1..])
  }

  /** The groups' items laid end to end, in key order. */
  function Flatten<K, T>(gs: seq<Group<K, T>>): seq<T> {
    if |gs| == 0 then [] else gs[0].items + Flatten(gs[1..])
  }

  predicate Distinct<K(==)>(ks: seq<K>) {
    forall i, j :: 0 <= i < j < |ks| ==> ks[i] != ks[j]
  }

  /** `Array.prototype.filter`: the items that pass, in their original order. */
  function Filter<T>(xs: seq<T>, p: T -> bool): (r: seq<T>)
    ensures |r| <= |xs|
  {
    if |xs| == 0 then []
    else Filter(xs[..|xs| - 1], p) + (if p(xs[|xs| - 1]) then [xs[|xs| - 1]] else [])
  }

  /** What `Filter` keeps: each passing item as often as it occurs in the
      input, and nothing else. */
  lemma {:induction false} FilterCounts<T>(xs: seq<T>, p: T -> bool)
    ensures forall x :: x in Filter(xs, p) ==> x in xs && p(x)
    ensures forall x :: x in xs ==> multiset(Filter(xs, p))[x] == if p(x) then multiset(xs)[x] else 0
  {
    if |xs| > 0 {
      var init, last := xs[..|xs| - 1], xs[|xs| - 1];
      assert xs == init + [last];
      FilterCounts(init, p);
    }
  }

  /** Filtering an input with one more item in front puts that item in
      front of the result when it passes. */
  lemma {:induction false} FilterCons<T>(x: T, xs: seq<T>, p: T -> bool)
    ensures Filter([x] + xs, p) == (if p(x) then [x] else []) + Filter(xs, p)
    decreases |xs|
  {
    if |xs| > 0 {
      var ys := [x] + xs;
      assert ys[..|ys| - 1] == [x] + xs[..|xs| - 1];
      assert ys[|ys| - 1] == xs[|xs| - 1];
      FilterCons(x, xs[..|xs| - 1], p);
    }
  }

  /** Filtering one more item extends the result by that item when it passes. */
  lemma FilterPrefix<T>(xs: seq<T>, i: nat, p: T -> bool)
    requires i < |xs|
    ensures Filter(xs[..i + 1], p) == Filter(xs[..i], p) + (if p(xs[i]) then [xs[i]] else [])
  {
    assert xs[..i + 1][..i] == xs[..i];
  }

  /** The items of the first group carrying `k`, or none. */
  function ItemsOf<K(==), T>(gs: seq<Group<K, T>>, k: K): seq<T> {
    if |gs| == 0 then []
    else if gs[0].key == k then gs[0].items
    else ItemsOf(gs[1..], k)
  }

  /** One step of the reduce: `acc[k]` is created on first sight of `k`
      (which places it after every key seen so far) and `x` is pushed onto it. */
  function Add<K(==), T>(gs: seq<Group<K, T>>, k: K, x: T): (r: seq<Group<K, T>>)
    ensures Keys(r) == if k in Keys(gs) then Keys(gs) else Keys(gs) + [k]
    ensures (forall i :: 0 <= i < |gs| ==> |gs[i].items| > 0) ==>
              forall i :: 0 <= i < |r| ==> |r[i].items| > 0
  {
    if |gs| == 0 then [Group(k, [x])]
    else if gs[0].key == k then
      var r := [Group(k, gs[0].items + [x])] + gs[1..];
      assert r[1..] == gs[1..];
      assert Keys(r) == Keys(gs);
      r
    else
      var rest := Add(gs[1..], k, x);
      var r := [gs[0]] + rest;
      assert r[1..] == rest;
      assert Keys(gs) == [gs[0].key] + Keys(gs[1..]);
      assert Keys(r) == [gs[0].key] + Keys(rest);
      r
  }

  /** `x` lands at the end of the group for `k` and nowhere else. */
  lemma {:induction false} AddItems<K, T>(gs: seq<Group<K, T>>, k: K, x: T, j: K)
    ensures ItemsOf(Add(gs, k, x), j) == ItemsOf(gs, j) + (if j == k then [x] else [])
  {
    if |gs| > 0 && gs[0].key != k {
      AddItems(gs[1..], k, x, j);
      assert Add(gs, k, x)[1..] == Add(gs[1..], k, x);
    }
  }

  /** Adding one item adds exactly that item to the flattened groups. */
  lemma {:induction false} AddFlatten<K, T>(gs: seq<Group<K, T>>, k: K, x: T)
    ensures multiset(Flatten(Add(gs, k, x))) == multiset(Flatten(gs)) + multiset{x}
  {
    if |gs| > 0 {
      var r := Add(gs, k, x);
      assert r[1..] == if gs[0].key == k then gs[1..] else Add(gs[1..], k, x);
      if gs[0].key != k {
        AddFlatten(gs[1..], k, x);
      }
    }
  }

  /** The whole `reduce` over the capsule list, starting from `{}`. */
  function GroupBy<K(==), T>(xs: seq<T>, key: T -> K): (gs: seq<Group<K, T>>)
    ensures Distinct(Keys(gs))
    ensures forall i :: 0 <= i < |gs| ==> |gs[i].items| > 0
  {
    if |xs| == 0 then []
    else Add(GroupBy(xs[..|xs| - 1], key), key(xs[|xs| - 1]), xs[|xs| - 1])
  }

  /** The keys of `xs` in order, each kept at its first occurrence only. */
  function FirstOccurrences<K(==), T(==)>(xs: seq<T>, key: T -> K): (ks: seq<K>)
    ensures forall x :: x in xs ==> key(x) in ks
    ensures forall k :: k in ks ==> exists x :: x in xs && key(x) == k
  {
    if |xs| == 0 then []
    else
      var init, last := xs[..|xs| - 1], xs[|xs| - 1];
      assert xs == init + [last];
      var ks := FirstOccurrences(init, key);
      if key(last) in ks then ks else ks + [key(last)]
  }

  /** The groups come in first-occurrence order of their keys. */
  lemma {:induction false} GroupByKeyOrder<K, T>(xs: seq<T>, key: T -> K)
    ensures Keys(GroupBy(xs, key)) == FirstOccurrences(xs, key)
  {
    if |xs| > 0 {
      GroupByKeyOrder(xs[..|xs| - 1], key);
    }
  }

  /** The items filed under `k` are exactly the items with that key, in
      input order. */
  lemma {:induction false} GroupByItems<K, T>(xs: seq<T>, key: T -> K, k: K)
    ensures ItemsOf(GroupBy(xs, key), k) == Filter(xs, x => key(x) == k)
  {
    if |xs| > 0 {
      var init, last := xs[..|xs| - 1], xs[|xs| - 1];
      GroupByItems(init, key, k);
      AddItems(GroupBy(init, key), key(last), last, k);
    }
  }

  /** Under distinct keys a group's items are what `ItemsOf` finds for its key. */
  lemma {:induction false} ItemsOfDistinct<K, T>(gs: seq<Group<K, T>>, i: nat)
    requires i < |gs| && Distinct(Keys(gs))
    ensures ItemsOf(gs, gs[i].key) == gs[i].items
  {
    if i > 0 {
      assert Keys(gs)[0] != Keys(gs)[i];
      assert Keys(gs[1..]) == Keys(gs)[1..];
      ItemsOfDistinct(gs[1..], i - 1);
    }
  }

  /** Every group is the filter of the input by its key: each capsule sits in
      exactly the group for its key, in input order. */
  lemma GroupIsFilter<K, T>(xs: seq<T>, key: T -> K, i: nat)
    requires i < |GroupBy(xs, key)|
    ensures GroupBy(xs, key)[i].items == Filter(xs, x => key(x) == GroupBy(xs, key)[i].key)
  {
    ItemsOfDistinct(GroupBy(xs, key), i);
    GroupByItems(xs, key, GroupBy(xs, key)[i].key);
  }

  /** Concatenating the groups gives back the input, up to order. */
  lemma {:induction false} GroupByPermutes<K, T>(xs: seq<T>, key: T -> K)
    ensures multiset(Flatten(GroupBy(xs, key))) == multiset(xs)
  {
    if |xs| > 0 {
      GroupByPermutes(xs[..|xs| - 1], key);
      GroupByStep(xs, key);
      MultisetSnoc(xs);
    }
  }

  /** Grouping one more item adds exactly that item to the groups. */
  lemma GroupByStep<K, T>(xs: seq<T>, key: T -> K)
    requires |xs| > 0
    ensures multiset(Flatten(GroupBy(xs, key)))
            == multiset(Flatten(GroupBy(xs[..|xs| - 1], key))) + multiset{xs[|xs| - 1]}
  {
    AddFlatten(GroupBy(xs[..|xs| - 1], key), key(xs[|xs| - 1]), xs[|xs| - 1]);
  }

  lemma MultisetSnoc<T>(xs: seq<T>)
    requires |xs| > 0
    ensures multiset(xs) == multiset(xs[..|xs| - 1]) + multiset{xs[|xs| - 1]}
  {
    assert xs == xs[..|xs| - 1] + [xs[|xs| - 1]];
  }
}
