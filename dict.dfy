/** A Python `dict` as the list of its entries in insertion order.

    Assigning to a key already present replaces its value where it stands;
    assigning to a new key appends it. `dict(pairs)` and the JSON decoder's
    objects are built this way, so a repeated key keeps its first position and
    its last value.
 */
module PyDict {
  import opened Wrappers

  predicate HasKey<K(==), V>(d: seq<(K, V)>, k: K) {
    exists i :: 0 <= i < |d| && d[i].0 == k
  }

  /** No key occurs twice: what every real `dict` satisfies. */
  predicate UniqueKeys<K(==), V>(d: seq<(K, V)>) {
    forall i, j :: 0 <= i < j < |d| ==> d[i].0 != d[j].0
  }

  /** The keys, in iteration order. */
  function Keys<K, V>(d: seq<(K, V)>): (r: seq<K>)
    ensures |r| == |d| && forall i :: 0 <= i < |d| ==> r[i] == d[i].0
  {
    if d == [] then [] else [d[0].0] + Keys(d[1..])
  }

  /** The value of the last entry with key `k`. On a dict this is `d.get(k)`;
      on a list of pairs it is what `dict(pairs).get(k)` answers. */
  function Lookup<K(==), V>(d: seq<(K, V)>, k: K): (r: Option<V>)
    ensures r.Some? ==> (k, r.value) in d
    decreases |d|
  {
    if d == [] then None
    else if d[|d| - 1].0 == k then Some(d[|d| - 1].1)
    else Lookup(d[..|d| - 1], k)
  }

  /** `Lookup` finds exactly the keys present. */
  lemma {:induction false} LookupHasKey<K, V>(d: seq<(K, V)>, k: K)
    ensures Lookup(d, k).Some? <==> HasKey(d, k)
    decreases |d|
  {
    if d != [] {
      var n := |d| - 1;
      var init := d[..n];
      LookupHasKey(init, k);
      if d[n].0 != k {
        if HasKey(d, k) {
          var i :| 0 <= i < |d| && d[i].0 == k;
          assert init[i] == d[i];
        }
        if HasKey(init, k) {
          var i :| 0 <= i < n && init[i].0 == k;
          assert d[i] == init[i];
        }
      }
    }
  }

  /** The value found is that of the last entry carrying the key. */
  lemma {:induction false} LookupIsLast<K, V>(d: seq<(K, V)>, k: K, i: nat)
    requires i < |d| && d[i].0 == k
    requires forall j :: i < j < |d| ==> d[j].0 != k
    ensures Lookup(d, k) == Some(d[i].1)
    decreases |d|
  {
    var n := |d| - 1;
    if i < n {
      var init := d[..n];
      assert init[i] == d[i];
      LookupIsLast(init, k, i);
    }
  }

  /** In a dict, the entry at position `i` is what a lookup of its key finds. */
  lemma LookupAt<K, V>(d: seq<(K, V)>, i: nat)
    requires UniqueKeys(d) && i < |d|
    ensures Lookup(d, d[i].0) == Some(d[i].1)
  {
    LookupIsLast(d, d[i].0, i);
  }

  /** Replacing an entry that has nothing to do with `k` does not change what
      a lookup of `k` finds. */
  lemma {:induction false} LookupUpdateOther<K, V>(d: seq<(K, V)>, i: nat, p: (K, V), k: K)
    requires i < |d| && d[i].0 != k && p.0 != k
    ensures Lookup(d[i := p], k) == Lookup(d, k)
    decreases |d|
  {
    var n := |d| - 1;
    var r := d[i := p];
    if i < n {
      assert r[..n] == d[..n][i := p];
      LookupUpdateOther(d[..n], i, p, k);
    } else {
      assert r[..n] == d[..n];
    }
  }

  function IndexOf<K(==), V>(d: seq<(K, V)>, k: K): (i: nat)
    requires HasKey(d, k)
    ensures i < |d| && d[i].0 == k && forall j :: 0 <= j < i ==> d[j].0 != k
  {
    if d[0].0 == k then 0
    else
      assert HasKey(d[1..], k) by {
        var i :| 0 <= i < |d| && d[i].0 == k;
        assert d[1..][i - 1] == d[i];
      }
      1 + IndexOf(d[1..], k)
  }

  /** `d[k] = v`. */
  function Put<K(==), V>(d: seq<(K, V)>, k: K, v: V): (r: seq<(K, V)>)
    ensures HasKey(d, k) ==> |r| == |d| && forall i :: 0 <= i < |r| ==> r[i].0 == d[i].0
    ensures !HasKey(d, k) ==> r == d + [(k, v)]
  {
    if HasKey(d, k) then d[IndexOf(d, k) := (k, v)] else d + [(k, v)]
  }

  /** After `d[k] = v`, `d[k]` is `v` and every other key answers as before;
      keys stay unique, a present key keeps its place and a new key goes last. */
  lemma PutLookup<K, V>(d: seq<(K, V)>, k: K, v: V, k': K)
    requires UniqueKeys(d)
    ensures UniqueKeys(Put(d, k, v))
    ensures Lookup(Put(d, k, v), k') == if k' == k then Some(v) else Lookup(d, k')
    ensures Keys(Put(d, k, v)) == if HasKey(d, k) then Keys(d) else Keys(d) + [k]
  {
    var r := Put(d, k, v);
    if HasKey(d, k) {
      var i := IndexOf(d, k);
      assert forall j :: 0 <= j < |r| ==> r[j].0 == d[j].0;
      assert UniqueKeys(r);
      if k' == k {
        LookupAt(r, i);
      } else {
        LookupUpdateOther(d, i, (k, v), k');
      }
      assert Keys(r) == Keys(d);
    } else {
      PutAbsent(d, k, v, k');
    }
  }

  lemma PutAbsent<K, V>(d: seq<(K, V)>, k: K, v: V, k': K)
    requires UniqueKeys(d) && !HasKey(d, k)
    ensures UniqueKeys(d + [(k, v)])
    ensures Lookup(d + [(k, v)], k') == if k' == k then Some(v) else Lookup(d, k')
    ensures Keys(d + [(k, v)]) == Keys(d) + [k]
  {
    var r := d + [(k, v)];
    assert r[..|r| - 1] == d;
    assert forall j :: 0 <= j < |d| ==> r[j] == d[j];
  }

  /** `dict(pairs)`: each pair is assigned in turn. */
  function FromPairs<K(==), V>(ps: seq<(K, V)>): (r: seq<(K, V)>)
    ensures |r| <= |ps|
    ensures forall i :: 0 <= i < |r| ==> HasKey(ps, r[i].0)
    decreases |ps|
  {
    if ps == [] then []
    else
      var init := ps[..|ps| - 1];
      var d := FromPairs(init);
      var r := Put(d, ps[|ps| - 1].0, ps[|ps| - 1].1);
      assert forall i :: 0 <= i < |r| ==> HasKey(ps, r[i].0) by {
        forall i | 0 <= i < |r|
          ensures HasKey(ps, r[i].0)
        {
          if r[i].0 != ps[|ps| - 1].0 {
            assert i < |d| && r[i].0 == d[i].0;
            var j :| 0 <= j < |init| && init[j].0 == d[i].0;
            assert ps[j] == init[j];
          }
        }
      }
      r
  }

  /** `dict(pairs)` has unique keys, and answers every lookup with the value of
      the last pair carrying the key. */
  lemma {:induction false} FromPairsLookup<K, V>(ps: seq<(K, V)>, k: K)
    ensures UniqueKeys(FromPairs(ps))
    ensures Lookup(FromPairs(ps), k) == Lookup(ps, k)
    decreases |ps|
  {
    if ps != [] {
      var init := ps[..|ps| - 1];
      FromPairsLookup(init, k);
      PutLookup(FromPairs(init), ps[|ps| - 1].0, ps[|ps| - 1].1, k);
    }
  }
}
