/** Python dictionaries as the scripts under tools/ fill them: keys keep their
    insertion order, setting an existing key keeps its place and replaces its
    value, and `setdefault(k, []).append(x)` groups values under a key. */
module PyDict {
  import opened Common
  import opened Seqs

  /** A dictionary: its keys in insertion order, and what each key holds. */
  datatype Dict<K, V> = Dict(keys: seq<K>, entries: map<K, V>)
  {
    /** Every key is listed once, and the listed keys are the stored ones. */
    ghost predicate Valid() {
      && (forall i, j :: 0 <= i < j < |keys| ==> keys[i] != keys[j])
      && entries.Keys == set i | 0 <= i < |keys| :: keys[i]
    }
  }

  /** `{}`. */
  function Empty<K, V>(): (d: Dict<K, V>)
    ensures d.Valid() && d.keys == [] && d.entries == map[]
  {
    Dict([], map[])
  }

  /** `d[k] = v`: a new key goes last, an existing key keeps its place. */
  function Put<K, V>(d: Dict<K, V>, k: K, v: V): Dict<K, V> {
    Dict(if k in d.entries then d.keys else d.keys + [k], d.entries[k := v])
  }

  /** Setting a key keeps the dictionary well formed, stores the value under the
      key, changes no other key, and never reorders the keys already there. */
  lemma PutValid<K, V>(d: Dict<K, V>, k: K, v: V)
    requires d.Valid()
    ensures var r := Put(d, k, v);
      && r.Valid()
      && k in r.entries && r.entries[k] == v
      && (forall j :: j in d.entries && j != k ==> j in r.entries && r.entries[j] == d.entries[j])
      && (forall j :: j in r.entries ==> j == k || j in d.entries)
      && |d.keys| <= |r.keys| && r.keys[..|d.keys|] == d.keys
  {
    var r := Put(d, k, v);
    if k !in d.entries {
      assert k !in d.keys;
      forall j | j in r.entries ensures j in r.keys {
        if j != k {
          assert j in d.keys;
        }
      }
      assert r.keys[..|d.keys|] == d.keys;
    }
  }

  /** The dictionary after setting every item in order: the loop
      `for k, v in items: d[k] = v`. */
  function PutAll<K, V>(d: Dict<K, V>, items: seq<(K, V)>): Dict<K, V> {
    if items == [] then d
    else
      var last := items[|items| - 1];
      Put(PutAll(d, items[..|items| - 1]), last.0, last.1)
  }

  /** The position of the last item with key `k`, or -1. */
  function LastIndex<K(==), V>(items: seq<(K, V)>, k: K): (r: int)
    ensures -1 <= r < |items|
    ensures r >= 0 ==> items[r].0 == k
    ensures forall j :: r < j < |items| ==> items[j].0 != k
  {
    if items == [] then -1
    else if items[|items| - 1].0 == k then |items| - 1
    else LastIndex(items[..|items| - 1], k)
  }

  /** Last write wins: a key set by some item holds the value of the last item
      with that key; every other key keeps what it held. The result is well
      formed and lists the original keys first, in their order. */
  lemma {:induction false} PutAllAt<K, V>(d: Dict<K, V>, items: seq<(K, V)>, k: K)
    requires d.Valid()
    ensures var r := PutAll(d, items);
      var i := LastIndex(items, k);
      && r.Valid()
      && |d.keys| <= |r.keys| && r.keys[..|d.keys|] == d.keys
      && (i >= 0 ==> k in r.entries && r.entries[k] == items[i].1)
      && (i < 0 ==> (k in r.entries <==> k in d.entries) && (k in d.entries ==> r.entries[k] == d.entries[k]))
  {
    if items != [] {
      var init := items[..|items| - 1];
      var last := items[|items| - 1];
      PutAllAt(d, init, k);
      var before := PutAll(d, init);
      PutValid(before, last.0, last.1);
      assert before.keys[..|d.keys|] == d.keys;
      assert PutAll(d, items).keys[..|before.keys|] == before.keys;
      assert PutAll(d, items).keys[..|d.keys|] == before.keys[..|d.keys|];
    }
  }

  /** Setting the items into an empty dictionary gives exactly their keys, the
      last item's value winning. */
  lemma PutAllKeys<K, V>(items: seq<(K, V)>, k: K)
    ensures var r := PutAll(Empty(), items);
      && r.Valid()
      && (k in r.entries <==> exists j :: 0 <= j < |items| && items[j].0 == k)
      && (k in r.entries ==> 0 <= LastIndex(items, k) && r.entries[k] == items[LastIndex(items, k)].1)
  {
    PutAllAt(Empty(), items, k);
    assert Empty<K, V>().entries == map[];
  }

  /** The items a loop collects hold a key exactly when some record is kept with
      that key. */
  lemma CollectedKeys<A, K, V>(items: seq<A>, entry: A -> Outcome<(K, V)>, k: K)
    requires Collect([], items, entry).Ok?
    ensures var kept := Collect([], items, entry).value;
      (exists j :: 0 <= j < |kept| && kept[j].0 == k) <==>
      (exists i :: 0 <= i < |items| && entry(items[i]).Kept? && entry(items[i]).value.0 == k)
  {
    var kept := Collect([], items, entry).value;
    CollectSpec([], items, entry);
    assert kept == KeptValues(items, entry);
    if exists j :: 0 <= j < |kept| && kept[j].0 == k {
      var j :| 0 <= j < |kept| && kept[j].0 == k;
      KeptValuesMembers(items, entry, kept[j]);
    }
    if exists i :: 0 <= i < |items| && entry(items[i]).Kept? && entry(items[i]).value.0 == k {
      var i :| 0 <= i < |items| && entry(items[i]).Kept? && entry(items[i]).value.0 == k;
      KeptValuesMembers(items, entry, entry(items[i]).value);
    }
  }

  /** `d.setdefault(k, []).append(x)`. */
  function Append<K, X>(d: Dict<K, seq<X>>, k: K, x: X): Dict<K, seq<X>> {
    Put(d, k, (if k in d.entries then d.entries[k] else []) + [x])
  }

  /** The values grouped under their keys, in their order: the loop
      `for x in xs: d.setdefault(key(x), []).append(val(x))` from an empty
      dictionary. */
  function GroupBy<X, K, V>(xs: seq<X>, key: X -> K, val: X -> V): Dict<K, seq<V>> {
    if xs == [] then Empty()
    else Append(GroupBy(xs[..|xs| - 1], key, val), key(xs[|xs| - 1]), val(xs[|xs| - 1]))
  }

  /** Grouping one more element: the loop step of grouping loops. */
  lemma GroupByStep<X, K, V>(xs: seq<X>, key: X -> K, val: X -> V, i: nat)
    requires i < |xs|
    ensures GroupBy(xs[..i + 1], key, val) == Append(GroupBy(xs[..i], key, val), key(xs[i]), val(xs[i]))
  {
    assert xs[..i + 1][..i] == xs[..i];
  }

  /** The elements whose key is `k`. */
  function KeyIs<X, K(==)>(key: X -> K, k: K): X -> bool {
    x => key(x) == k
  }

  /** A key is present exactly when some element has it, and it holds the values
      of exactly the elements with that key, in their original order. */
  lemma GroupByAt<X, K, V>(xs: seq<X>, key: X -> K, val: X -> V, k: K)
    ensures var r := GroupBy(xs, key, val);
      && r.Valid()
      && (k in r.entries <==> exists i :: 0 <= i < |xs| && key(xs[i]) == k)
      && (k in r.entries ==> r.entries[k] == Map(Filter(xs, KeyIs(key, k)), val))
  {
    GroupByKeys(xs, key, val, k);
    GroupByValues(xs, key, val, k);
  }

  /** The grouping is a valid dictionary whose keys are the elements' keys. */
  lemma {:induction false} GroupByKeys<X, K, V>(xs: seq<X>, key: X -> K, val: X -> V, k: K)
    ensures var r := GroupBy(xs, key, val);
      && r.Valid()
      && (k in r.entries <==> exists i :: 0 <= i < |xs| && key(xs[i]) == k)
  {
    if xs != [] {
      var init := xs[..|xs| - 1];
      var last := xs[|xs| - 1];
      GroupByKeys(init, key, val, k);
      var before := GroupBy(init, key, val);
      PutValid(before, key(last), (if key(last) in before.entries then before.entries[key(last)] else []) + [val(last)]);
      if key(last) != k {
        if k in before.entries {
          var i :| 0 <= i < |init| && key(init[i]) == k;
          assert key(xs[i]) == k;
        }
        if exists i :: 0 <= i < |xs| && key(xs[i]) == k {
          var i :| 0 <= i < |xs| && key(xs[i]) == k;
          assert i < |init| && key(init[i]) == k;
        }
      }
    }
  }

  /** The list under a key holds the values of the elements with that key, in
      their order. */
  lemma {:induction false} GroupByValues<X, K, V>(xs: seq<X>, key: X -> K, val: X -> V, k: K)
    ensures var r := GroupBy(xs, key, val);
      k in r.entries ==> r.entries[k] == Map(Filter(xs, KeyIs(key, k)), val)
  {
    var p := KeyIs(key, k);
    if xs != [] {
      var init := xs[..|xs| - 1];
      var last := xs[|xs| - 1];
      var before := GroupBy(init, key, val);
      var held := if key(last) in before.entries then before.entries[key(last)] else [];
      assert GroupBy(xs, key, val).entries == before.entries[key(last) := held + [val(last)]];
      assert xs == init + [last];
      FilterSnoc(init, last, p);
      GroupByValues(init, key, val, k);
      if key(last) == k {
        if k !in before.entries {
          GroupByKeys(init, key, val, k);
          FilterNone(init, p);
        }
        MapSnoc(Filter(init, p), last, val);
      } else {
        assert Filter(xs, p) == Filter(init, p);
      }
    }
  }

  /** The loop `for x in items: k, v = entry(x); d[k] = v` from an empty
      dictionary, where `entry` may also skip an item or raise: an item that raises
      aborts the loop. */
  method FillDict<A, K, V>(items: seq<A>, entry: A -> Outcome<(K, V)>) returns (result: Result<Dict<K, V>>)
    ensures Collect([], items, entry).Failed? ==> result == Failed(Collect([], items, entry).error)
    ensures Collect([], items, entry).Ok? ==> result == Ok(PutAll(Empty(), Collect([], items, entry).value))
  {
    var d: Dict<K, V> := Empty();
    ghost var acc: seq<(K, V)> := [];
    var i := 0;
    while i < |items|
      invariant 0 <= i <= |items|
      invariant d == PutAll(Empty(), acc)
      invariant Collect([], items, entry) == Collect(acc, items[i..], entry)
    {
      CollectStep(acc, items, entry, i);
      match entry(items[i]) {
        case Raised(e) => return Failed(e);
        case Kept(item) =>
          assert (acc + [item])[..|acc|] == acc;
          d := Put(d, item.0, item.1);
          acc := acc + [item];
        case Skipped =>
      }
      i := i + 1;
    }
    return Ok(d);
  }
}
