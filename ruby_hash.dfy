/**
 * Ruby's insertion-ordered Hash, as the list of its entries in insertion
 * order. Only the operations the key transformer relies on are modelled:
 * `Hash#[]` (Lookup), `Hash#[]=` (Store), `Hash[pairs]` (FromPairs) and
 * `Hash#merge` (Merge).
 */
module RubyHash {

  datatype Option<T> = None | Some(value: T)

  /** The keys of the entries, in order. */
  function KeysOf<K, V>(h: seq<(K, V)>): (ks: seq<K>)
    ensures |ks| == |h|
    ensures forall i :: 0 <= i < |h| ==> ks[i] == h[i].0
  {
    seq(|h|, i requires 0 <= i < |h| => h[i].0)
  }

  /** No key occurs twice: the shape of every Ruby Hash. */
  ghost predicate UniqueKeys<K, V>(h: seq<(K, V)>)
  {
    forall i, j :: 0 <= i < j < |h| ==> h[i].0 != h[j].0
  }

  /** The position of the first occurrence of `k` in `ks`, or `|ks|` when it does not occur. */
  function FirstIndex<K(==)>(ks: seq<K>, k: K): (i: nat)
    ensures i <= |ks|
    ensures i < |ks| <==> k in ks
    ensures i < |ks| ==> ks[i] == k
    ensures forall j :: 0 <= j < i ==> ks[j] != k
  {
    if ks == [] then 0
    else if ks[0] == k then 0
    else 1 + FirstIndex(ks[1..], k)
  }

  /** `h[k]`: the value stored under `k`; None stands for the nil default. */
  function Lookup<K(==), V>(h: seq<(K, V)>, k: K): (r: Option<V>)
    ensures r.Some? <==> k in KeysOf(h)
    ensures UniqueKeys(h) ==> forall i :: 0 <= i < |h| && h[i].0 == k ==> r == Some(h[i].1)
  {
    var i := FirstIndex(KeysOf(h), k);
    if i < |h| then Some(h[i].1) else None
  }

  /**
   * `h[k] = v`: an existing key keeps its position and gets the new value;
   * a new key is appended at the end.
   */
  function Store<K(==), V>(h: seq<(K, V)>, k: K, v: V): (r: seq<(K, V)>)
    ensures k !in KeysOf(h) ==> r == h + [(k, v)]
    ensures k in KeysOf(h) ==> |r| == |h|
    ensures k in KeysOf(h) ==> forall i :: 0 <= i < |h| ==>
              r[i] == if i == FirstIndex(KeysOf(h), k) then (k, v) else h[i]
  {
    if h == [] then [(k, v)]
    else if h[0].0 == k then [(k, v)] + h[1..]
    else
      assert KeysOf(h) == [h[0].0] + KeysOf(h[1..]);
      [h[0]] + Store(h[1..], k, v)
  }

  /** After `h[k] = v`, `h[k]` is `v` and every other key reads as before. */
  lemma {:induction false} StoreLookup<K, V>(h: seq<(K, V)>, k: K, v: V, k': K)
    requires UniqueKeys(h)
    ensures Lookup(Store(h, k, v), k') == if k' == k then Some(v) else Lookup(h, k')
  {
    var r := Store(h, k, v);
    StoreKeys(h, k, v);
    if k' in KeysOf(r) {
      var i := FirstIndex(KeysOf(r), k');
      assert r[i].0 == k';
      if k in KeysOf(h) && k' != k {
        assert h[i] == r[i];
      }
    }
  }

  /** `h[k] = v` adds `k` to the keys, and keeps them distinct. */
  lemma {:induction false} StoreKeys<K, V>(h: seq<(K, V)>, k: K, v: V)
    ensures forall k' :: k' in KeysOf(Store(h, k, v)) <==> k' == k || k' in KeysOf(h)
    ensures UniqueKeys(h) ==> UniqueKeys(Store(h, k, v))
  {
    var r := Store(h, k, v);
    if k in KeysOf(h) {
      assert KeysOf(r) == KeysOf(h);
    } else {
      assert KeysOf(r) == KeysOf(h) + [k];
    }
  }

  /** Stores every pair of `ps` into `h`, from left to right. */
  function StoreAll<K(==), V>(h: seq<(K, V)>, ps: seq<(K, V)>): (r: seq<(K, V)>)
    ensures |h| <= |r| <= |h| + |ps|
  {
    if ps == [] then h
    else
      var n := |ps| - 1;
      Store(StoreAll(h, ps[..n]), ps[n].0, ps[n].1)
  }

  /** The keys after storing `ps` are those of `h` and of `ps`, still distinct. */
  lemma {:induction false} StoreAllKeys<K, V>(h: seq<(K, V)>, ps: seq<(K, V)>)
    ensures forall k :: k in KeysOf(StoreAll(h, ps)) <==> k in KeysOf(h) || k in KeysOf(ps)
    ensures UniqueKeys(h) ==> UniqueKeys(StoreAll(h, ps))
  {
    if ps != [] {
      var n := |ps| - 1;
      assert KeysOf(ps) == KeysOf(ps[..n]) + [ps[n].0];
      StoreAllKeys(h, ps[..n]);
      StoreKeys(StoreAll(h, ps[..n]), ps[n].0, ps[n].1);
    }
  }

  /** `Hash[pairs]`: a fresh Hash built from a list of key/value pairs. */
  function FromPairs<K(==,!new), V>(ps: seq<(K, V)>): (h: seq<(K, V)>)
    ensures UniqueKeys(h)
    ensures |h| <= |ps|
    ensures forall k :: k in KeysOf(h) <==> k in KeysOf(ps)
  {
    StoreAllKeys([], ps);
    StoreAll([], ps)
  }

  /** `a.merge(b)`: the entries of `b` stored over a copy of `a`. */
  function Merge<K(==,!new), V>(a: seq<(K, V)>, b: seq<(K, V)>): (m: seq<(K, V)>)
    ensures UniqueKeys(a) ==> UniqueKeys(m)
    ensures forall k :: k in KeysOf(m) <==> k in KeysOf(a) || k in KeysOf(b)
  {
    StoreAllKeys(a, b);
    StoreAll(a, b)
  }

  /** The pair at index `i` is the last one of `ps` with its key. */
  ghost predicate LastWithKey<K, V>(ps: seq<(K, V)>, i: int)
    requires 0 <= i < |ps|
  {
    forall j :: i < j < |ps| ==> ps[j].0 != ps[i].0
  }

  /** Storing a list of pairs leaves every key the list does not mention as it was. */
  lemma {:induction false} StoreAllOther<K, V>(h: seq<(K, V)>, ps: seq<(K, V)>, k: K)
    requires UniqueKeys(h) && k !in KeysOf(ps)
    ensures Lookup(StoreAll(h, ps), k) == Lookup(h, k)
  {
    if ps != [] {
      var n := |ps| - 1;
      assert KeysOf(ps) == KeysOf(ps[..n]) + [ps[n].0];
      StoreAllOther(h, ps[..n], k);
      StoreAllKeys(h, ps[..n]);
      StoreLookup(StoreAll(h, ps[..n]), ps[n].0, ps[n].1, k);
    }
  }

  /** Storing a list of pairs: the value of the LAST pair with a key wins. */
  lemma {:induction false} StoreAllLast<K, V>(h: seq<(K, V)>, ps: seq<(K, V)>, i: nat)
    requires UniqueKeys(h) && i < |ps| && LastWithKey(ps, i)
    ensures Lookup(StoreAll(h, ps), ps[i].0) == Some(ps[i].1)
  {
    var n := |ps| - 1;
    var k, v := ps[i].0, ps[i].1;
    var init := ps[..n];
    var d := StoreAll(h, init);
    var r := Store(d, ps[n].0, ps[n].1);
    assert StoreAll(h, ps) == r;
    StoreAllKeys(h, init);
    StoreLookup(d, ps[n].0, ps[n].1, k);
    if i < n {
      assert ps[n].0 != k;
      assert Lookup(r, k) == Lookup(d, k);
      assert init[i] == ps[i];
      assert LastWithKey(init, i) by {
        forall j | i < j < |init| ensures init[j].0 != init[i].0 { assert init[j] == ps[j]; }
      }
      StoreAllLast(h, init, i);
    } else {
      assert i == n;
    }
  }

  /**
   * Storing a list of pairs: for every key of the list, the value of its
   * LAST pair wins; keys not in the list keep what `h` had.
   */
  lemma StoreAllLookup<K, V>(h: seq<(K, V)>, ps: seq<(K, V)>, k: K)
    requires UniqueKeys(h)
    ensures k !in KeysOf(ps) ==> Lookup(StoreAll(h, ps), k) == Lookup(h, k)
    ensures forall i :: 0 <= i < |ps| && ps[i].0 == k && LastWithKey(ps, i) ==>
              Lookup(StoreAll(h, ps), k) == Some(ps[i].1)
  {
    if k !in KeysOf(ps) {
      StoreAllOther(h, ps, k);
    }
    forall i | 0 <= i < |ps| && ps[i].0 == k && LastWithKey(ps, i)
      ensures Lookup(StoreAll(h, ps), k) == Some(ps[i].1)
    {
      StoreAllLast(h, ps, i);
    }
  }

  /** `Hash[pairs]`: the last value given for a key wins. */
  lemma {:induction false} FromPairsLastWins<K(!new), V>(ps: seq<(K, V)>, i: nat)
    requires i < |ps| && LastWithKey(ps, i)
    ensures Lookup(FromPairs(ps), ps[i].0) == Some(ps[i].1)
  {
    StoreAllLookup([], ps, ps[i].0);
  }

  /**
   * `Hash[pairs]`: each key sits where its FIRST pair was, so the keys of the
   * result come in the order of their first occurrence in `ps`.
   */
  lemma {:induction false} FromPairsOrder<K(!new), V>(ps: seq<(K, V)>)
    ensures OrderedBy(FromPairs(ps), KeysOf(ps))
  {
    if ps != [] {
      var n := |ps| - 1;
      var ks, ks' := KeysOf(ps), KeysOf(ps[..n]);
      assert ks == ks' + [ps[n].0];
      FromPairsOrder(ps[..n]);
      var d := FromPairs(ps[..n]);
      assert FromPairs(ps) == Store(d, ps[n].0, ps[n].1);
      StoreOrdered(d, ks', ps[n].0, ps[n].1);
    }
  }

  /** The keys of `h` come in the order of their first occurrence in `ks`. */
  ghost predicate OrderedBy<K, V>(h: seq<(K, V)>, ks: seq<K>)
  {
    forall i, j :: 0 <= i < j < |h| ==> FirstIndex(ks, h[i].0) < FirstIndex(ks, h[j].0)
  }

  /** Storing `k` keeps the keys in first-occurrence order once `k` is recorded last. */
  lemma {:induction false} StoreOrdered<K, V>(d: seq<(K, V)>, ks: seq<K>, k: K, v: V)
    requires OrderedBy(d, ks)
    requires forall key :: key in KeysOf(d) <==> key in ks
    ensures OrderedBy(Store(d, k, v), ks + [k])
  {
    var r := Store(d, k, v);
    var ks2 := ks + [k];
    forall key | key in ks
      ensures FirstIndex(ks2, key) == FirstIndex(ks, key)
    {
      FirstIndexPrefix(ks, [k], key);
    }
    forall i, j | 0 <= i < j < |r|
      ensures FirstIndex(ks2, r[i].0) < FirstIndex(ks2, r[j].0)
    {
      assert r[i].0 == d[i].0 && d[i].0 in KeysOf(d);
      if j < |d| {
        assert r[j].0 == d[j].0 && d[j].0 in KeysOf(d);
      } else {
        assert k !in ks;
        FirstIndexPrefix(ks, [k], k);
      }
    }
  }

  lemma {:induction false} FirstIndexPrefix<K>(a: seq<K>, b: seq<K>, k: K)
    ensures k in a ==> FirstIndex(a + b, k) == FirstIndex(a, k)
    ensures k !in a ==> FirstIndex(a + b, k) == |a| + FirstIndex(b, k)
  {
    if a != [] {
      assert (a + b)[1..] == a[1..] + b;
      FirstIndexPrefix(a[1..], b, k);
    } else {
      assert a + b == b;
    }
  }

  /** `Hash[pairs]` over pairs with distinct keys keeps every pair, in order. */
  lemma {:induction false} FromPairsDistinct<K(!new), V>(ps: seq<(K, V)>)
    requires UniqueKeys(ps)
    ensures FromPairs(ps) == ps
  {
    if ps != [] {
      var n := |ps| - 1;
      assert ps[..n] + [ps[n]] == ps;
      FromPairsDistinct(ps[..n]);
      assert ps[n].0 !in KeysOf(ps[..n]);
    }
  }

  /**
   * `a.merge(b)` with `b` a Hash: a key of `b` takes `b`'s value, any other
   * key keeps `a`'s.
   */
  lemma {:induction false} MergeLookup<K(!new), V>(a: seq<(K, V)>, b: seq<(K, V)>, k: K)
    requires UniqueKeys(a) && UniqueKeys(b)
    ensures Lookup(Merge(a, b), k) == if k in KeysOf(b) then Lookup(b, k) else Lookup(a, k)
  {
    StoreAllLookup(a, b, k);
    if k in KeysOf(b) {
      var i := FirstIndex(KeysOf(b), k);
      assert LastWithKey(b, i);
    }
  }
}
