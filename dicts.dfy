/**
 * Python dictionaries as the model sees them: entries in insertion order,
 * each key at most once. Assigning to an existing key keeps its position;
 * a new key goes to the end; `pop` removes the entry.
 */
module Dicts {
  import opened Wrappers

  predicate UniqueKeys<K(==, !new), V>(d: seq<(K, V)>) {
    forall i, j :: 0 <= i < j < |d| ==> d[i].0 != d[j].0
  }

  /** Python's `k in d`. */
  predicate HasKey<K(==, !new), V>(d: seq<(K, V)>, k: K) {
    exists i :: 0 <= i < |d| && d[i].0 == k
  }

  function Keys<K, V>(d: seq<(K, V)>): (r: seq<K>)
    ensures |r| == |d| && forall i :: 0 <= i < |d| ==> r[i] == d[i].0
  {
    seq(|d|, i requires 0 <= i < |d| => d[i].0)
  }

  function IndexFrom<K(==, !new), V>(d: seq<(K, V)>, k: K, i: nat): (r: int)
    requires i <= |d|
    ensures r == -1 || (i <= r < |d| && d[r].0 == k)
    ensures r == -1 ==> forall j :: i <= j < |d| ==> d[j].0 != k
    ensures r != -1 ==> forall j :: i <= j < r ==> d[j].0 != k
    decreases |d| - i
  {
    if i == |d| then -1 else if d[i].0 == k then i else IndexFrom(d, k, i + 1)
  }

  /** Position of the entry for `k`, or -1 when `k` is not a key. */
  function IndexOf<K(==, !new), V>(d: seq<(K, V)>, k: K): (r: int)
    ensures r == -1 <==> !HasKey(d, k)
    ensures r != -1 ==> 0 <= r < |d| && d[r].0 == k
  {
    IndexFrom(d, k, 0)
  }

  /** Python's `d.get(k)`. */
  function Get<K(==, !new), V>(d: seq<(K, V)>, k: K): (r: Option<V>)
    ensures r.Some? <==> HasKey(d, k)
    ensures UniqueKeys(d) ==> forall i :: 0 <= i < |d| && d[i].0 == k ==> r == Some(d[i].1)
  {
    var i := IndexOf(d, k);
    if i == -1 then None else Some(d[i].1)
  }

  /** Python's `d[k] = v`. */
  function Put<K(==, !new), V>(d: seq<(K, V)>, k: K, v: V): (r: seq<(K, V)>)
    requires UniqueKeys(d)
    ensures UniqueKeys(r)
    ensures Get(r, k) == Some(v)
    ensures forall k' :: k' != k ==> Get(r, k') == Get(d, k')
    ensures HasKey(d, k) ==> Keys(r) == Keys(d)
    ensures !HasKey(d, k) ==> Keys(r) == Keys(d) + [k]
  {
    var i := IndexOf(d, k);
    if i == -1 then
      var r := d + [(k, v)];
      assert Keys(r) == Keys(d) + [k];
      assert UniqueKeys(r);
      assert r[|d|] == (k, v);
      assert forall k' :: k' != k ==> (HasKey(r, k') <==> HasKey(d, k')) by {
        forall k' | k' != k ensures HasKey(r, k') <==> HasKey(d, k') {
          if HasKey(d, k') {
            var j :| 0 <= j < |d| && d[j].0 == k';
            assert r[j] == d[j];
          }
        }
      }
      r
    else
      var r := d[i := (k, v)];
      assert Keys(r) == Keys(d);
      r
  }

  /** Python's `d.pop(k)`: the entry for `k` is removed, the others keep their order. */
  function Pop<K(==, !new), V>(d: seq<(K, V)>, k: K): (r: seq<(K, V)>)
    requires UniqueKeys(d)
    ensures UniqueKeys(r)
    ensures !HasKey(r, k)
    ensures forall k' :: k' != k ==> Get(r, k') == Get(d, k')
    ensures HasKey(d, k) ==> |r| == |d| - 1
    ensures !HasKey(d, k) ==> r == d
  {
    var i := IndexOf(d, k);
    if i == -1 then d
    else
      var r := d[..i] + d[i + 1..];
      assert forall j :: 0 <= j < |r| ==> r[j] == (if j < i then d[j] else d[j + 1]);
      assert forall k' :: k' != k ==> (HasKey(r, k') <==> HasKey(d, k')) by {
        forall k' | k' != k ensures HasKey(r, k') <==> HasKey(d, k') {
          if HasKey(d, k') {
            var j :| 0 <= j < |d| && d[j].0 == k';
            if j < i { assert r[j] == d[j]; } else { assert j != i; assert r[j - 1] == d[j]; }
          }
        }
      }
      r
  }

  /** After `d[k] = v`, the keys are those of `d` and `k`. */
  lemma PutKeys<K(!new), V>(d: seq<(K, V)>, k: K, v: V)
    requires UniqueKeys(d)
    ensures forall k' :: HasKey(Put(d, k, v), k') <==> k' == k || HasKey(d, k')
  {
    forall k' ensures HasKey(Put(d, k, v), k') <==> k' == k || HasKey(d, k') {
      assert Get(Put(d, k, v), k').Some? <==> HasKey(Put(d, k, v), k');
    }
  }

  /** After `d.pop(k)`, the keys are those of `d` but `k`. */
  lemma PopKeys<K(!new), V>(d: seq<(K, V)>, k: K)
    requires UniqueKeys(d)
    ensures forall k' :: HasKey(Pop(d, k), k') <==> k' != k && HasKey(d, k')
  {
    forall k' ensures HasKey(Pop(d, k), k') <==> k' != k && HasKey(d, k') {
      assert Get(Pop(d, k), k').Some? <==> HasKey(Pop(d, k), k');
    }
  }

  /** The same dictionary without its order. */
  function ToMap<K(==, !new), V>(d: seq<(K, V)>): (m: map<K, V>)
    requires UniqueKeys(d)
    ensures forall k :: k in m <==> HasKey(d, k)
    ensures forall k :: k in m ==> Get(d, k) == Some(m[k])
    decreases |d|
  {
    if |d| == 0 then map[]
    else
      var last := d[|d| - 1];
      var init := d[..|d| - 1];
      assert forall i :: 0 <= i < |init| ==> init[i] == d[i];
      var m := ToMap(init);
      assert forall k :: HasKey(d, k) <==> HasKey(init, k) || k == last.0 by {
        forall k | HasKey(d, k) ensures HasKey(init, k) || k == last.0 {
          var i :| 0 <= i < |d| && d[i].0 == k;
          if i < |init| {
            assert init[i].0 == k;
          }
        }
      }
      assert forall k :: k in m && k != last.0 ==> Get(d, k) == Some(m[k]) by {
        forall k | k in m && k != last.0 ensures Get(d, k) == Some(m[k]) {
          var i :| 0 <= i < |init| && init[i].0 == k;
          assert d[i].0 == k;
        }
      }
      m[last.0 := last.1]
  }
}
