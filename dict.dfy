/** A Python dict as a list of (key, value) entries in insertion order.
    Assigning to a key that is already present replaces its value in place;
    assigning to a new key appends an entry at the end. */
module Dict {
  import opened Results

  type Dict<K, V> = seq<(K, V)>

  /** k in d */
  predicate HasKey<K(==), V>(d: Dict<K, V>, k: K) {
    exists i :: 0 <= i < |d| && d[i].0 == k
  }

  predicate DistinctKeys<K(==), V>(d: Dict<K, V>) {
    forall i, j :: 0 <= i < j < |d| ==> d[i].0 != d[j].0
  }

  /** d.get(k): the value of the entry with key k, if any */
  function Get<K(==), V>(d: Dict<K, V>, k: K): (r: Option<V>)
    ensures r.None? <==> !HasKey(d, k)
    ensures r.Some? ==> exists i :: 0 <= i < |d| && d[i] == (k, r.value)
  {
    if d == [] then None
    else if d[0].0 == k then Some(d[0].1)
    else
      assert forall i :: 0 < i < |d| ==> d[i] == d[1..][i - 1];
      Get(d[1..], k)
  }

  /** d.get(k, default) */
  function GetOr<K(==), V>(d: Dict<K, V>, k: K, default: V): V {
    Get(d, k).GetOr(default)
  }

  /** Lookups in a dict with one entry in front. */
  lemma ConsFacts<K, V>(x: (K, V), d: Dict<K, V>)
    ensures forall y :: Get([x] + d, y) == if x.0 == y then Some(x.1) else Get(d, y)
    ensures forall y :: HasKey([x] + d, y) <==> x.0 == y || HasKey(d, y)
  {
    assert ([x] + d)[1..] == d;
    forall y | HasKey([x] + d, y) && x.0 != y ensures HasKey(d, y) {
      var i :| 0 <= i < |[x] + d| && ([x] + d)[i].0 == y;
      assert d[i - 1] == ([x] + d)[i];
    }
    forall y | HasKey(d, y) ensures HasKey([x] + d, y) {
      var i :| 0 <= i < |d| && d[i].0 == y;
      assert ([x] + d)[i + 1] == d[i];
    }
    assert ([x] + d)[0] == x;
  }

  /** d[k] = v */
  function Put<K(==, !new), V>(d: Dict<K, V>, k: K, v: V): (r: Dict<K, V>)
    ensures HasKey(d, k) ==> |r| == |d| && forall i :: 0 <= i < |d| ==> r[i].0 == d[i].0
    ensures !HasKey(d, k) ==> r == d + [(k, v)]
    ensures Get(r, k) == Some(v)
    ensures forall k' :: k' != k ==> Get(r, k') == Get(d, k')
  {
    if d == [] then [(k, v)]
    else
      assert d == [d[0]] + d[1..];
      ConsFacts(d[0], d[1..]);
      if d[0].0 == k then
        ConsFacts((k, v), d[1..]);
        [(k, v)] + d[1..]
      else
        var rest := Put(d[1..], k, v);
        ConsFacts(d[0], rest);
        assert !HasKey(d, k) ==> [d[0]] + rest == d + [(k, v)] by {
          if !HasKey(d, k) {
            assert rest == d[1..] + [(k, v)];
          }
        }
        [d[0]] + rest
  }

  /** Re-assigning the key of the last entry replaces that entry only. */
  lemma {:induction false} PutLast<K(!new), V>(d: Dict<K, V>, k: K, v: V, v': V)
    requires !HasKey(d, k)
    ensures Put(d + [(k, v)], k, v') == d + [(k, v')]
  {
    if d != [] {
      assert (d + [(k, v)])[1..] == d[1..] + [(k, v)];
      PutLast(d[1..], k, v, v');
    }
  }

  /** new_pred[k].append(x) on a defaultdict(list). */
  function Append<K(==, !new), V>(d: Dict<K, seq<V>>, k: K, x: V): Dict<K, seq<V>> {
    Put(d, k, GetOr(d, k, []) + [x])
  }

  lemma HasKeyAppend<K, V>(d: Dict<K, V>, k: K, v: V, y: K)
    ensures HasKey(d + [(k, v)], y) <==> HasKey(d, y) || y == k
  {
    var r := d + [(k, v)];
    if HasKey(r, y) && y != k {
      var i :| 0 <= i < |r| && r[i].0 == y;
      assert d[i] == r[i];
    }
    if HasKey(d, y) {
      var i :| 0 <= i < |d| && d[i].0 == y;
      assert r[i] == d[i];
    }
    if y == k {
      assert r[|d|] == (k, v);
    }
  }

  lemma {:induction false} GetAppend<K, V>(d: Dict<K, V>, k: K, v: V, y: K)
    ensures Get(d + [(k, v)], y) == if HasKey(d, y) then Get(d, y) else if y == k then Some(v) else None
  {
    if d != [] {
      assert (d + [(k, v)])[1..] == d[1..] + [(k, v)];
      GetAppend(d[1..], k, v, y);
    }
  }

  /** Appending under a key that is absent creates its entry at the end. */
  lemma AppendNew<K(!new), V>(d: Dict<K, seq<V>>, k: K, x: V)
    requires !HasKey(d, k)
    ensures Append(d, k, x) == d + [(k, [x])]
  {
    assert GetOr(d, k, []) + [x] == [x];
  }

  /** Appending under the key of the last entry extends that entry. */
  lemma AppendLast<K(!new), V>(d: Dict<K, seq<V>>, k: K, s: seq<V>, x: V)
    requires !HasKey(d, k)
    ensures Append(d + [(k, s)], k, x) == d + [(k, s + [x])]
  {
    GetAppend(d, k, s, k);
    assert GetOr(d + [(k, s)], k, []) == s;
    PutLast(d, k, s, s + [x]);
  }

  /** d[k][k2] = v on a defaultdict(dict): creates d[k] = {} first if absent. */
  function SetIn<K(==, !new), K2(==, !new), V>(d: Dict<K, Dict<K2, V>>, k: K, k2: K2, v: V): Dict<K, Dict<K2, V>> {
    Put(d, k, Put(GetOr(d, k, []), k2, v))
  }

  lemma SetInNew<K(!new), K2(!new), V>(d: Dict<K, Dict<K2, V>>, k: K, k2: K2, v: V)
    requires !HasKey(d, k)
    ensures SetIn(d, k, k2, v) == d + [(k, Put([], k2, v))]
  {
    assert GetOr(d, k, []) == [];
  }

  lemma SetInLast<K(!new), K2(!new), V>(d: Dict<K, Dict<K2, V>>, k: K, t: Dict<K2, V>, k2: K2, v: V)
    requires !HasKey(d, k)
    ensures SetIn(d + [(k, t)], k, k2, v) == d + [(k, Put(t, k2, v))]
  {
    GetAppend(d, k, t, k);
    assert GetOr(d + [(k, t)], k, []) == t;
    PutLast(d, k, t, Put(t, k2, v));
  }

  /** set(d.keys()) */
  function KeySet<K, V>(d: Dict<K, V>): set<K> {
    set i | 0 <= i < |d| :: d[i].0
  }

  /** Assignment keeps the keys distinct. */
  lemma PutDistinct<K(!new), V>(d: Dict<K, V>, k: K, v: V)
    requires DistinctKeys(d)
    ensures DistinctKeys(Put(d, k, v))
  {
    if HasKey(d, k) {
      SameKeys(d, Put(d, k, v));
    } else {
      DistinctSnoc(d, k, v);
    }
  }

  lemma SameKeys<K, V>(d: Dict<K, V>, r: Dict<K, V>)
    requires DistinctKeys(d) && |r| == |d| && forall i :: 0 <= i < |d| ==> r[i].0 == d[i].0
    ensures DistinctKeys(r)
  {
  }

  lemma DistinctSnoc<K, V>(d: Dict<K, V>, k: K, v: V)
    requires DistinctKeys(d) && !HasKey(d, k)
    ensures DistinctKeys(d + [(k, v)])
  {
    var r := d + [(k, v)];
    forall i, j | 0 <= i < j < |r| ensures r[i].0 != r[j].0 {
      assert r[i] == d[i];
      if j < |d| { assert r[j] == d[j]; }
    }
  }

  /** With distinct keys, every entry is what Get finds for its key. */
  lemma {:induction false} GetAt<K, V>(d: Dict<K, V>, i: nat)
    requires DistinctKeys(d) && i < |d|
    ensures Get(d, d[i].0) == Some(d[i].1)
  {
    if i > 0 {
      assert d[1..][i - 1] == d[i];
      GetAt(d[1..], i - 1);
    }
  }

  /** The keys of d plus one entry. */
  lemma KeySetSnoc<K, V>(d: Dict<K, V>)
    requires d != []
    ensures KeySet(d) == KeySet(d[..|d| - 1]) + {d[|d| - 1].0}
  {
    var n := |d| - 1;
    var front := d[..n];
    forall x | x in KeySet(d) ensures x in KeySet(front) + {d[n].0} {
      var i :| 0 <= i < |d| && d[i].0 == x;
      if i < n { assert front[i] == d[i]; }
    }
    assert forall i :: 0 <= i < |front| ==> front[i] == d[i];
  }

  /** The keys of a dict with distinct keys, as a set, have one element per entry. */
  lemma {:induction false} KeySetSize<K, V>(d: Dict<K, V>)
    requires DistinctKeys(d)
    ensures |KeySet(d)| == |d|
  {
    if d != [] {
      var n := |d| - 1;
      DropLast(d);
      KeySetSize(d[..n]);
      KeySetSnoc(d);
      KeySetHasKey(d[..n]);
    }
  }

  /** KeySet and HasKey agree. */
  lemma KeySetHasKey<K, V>(d: Dict<K, V>)
    ensures forall y :: y in KeySet(d) <==> HasKey(d, y)
  {
    forall y | HasKey(d, y) ensures y in KeySet(d) {
      var i :| 0 <= i < |d| && d[i].0 == y;
    }
  }

  /** Assignment adds its key and keeps all others. */
  lemma PutKeys<K(!new), V>(d: Dict<K, V>, k: K, v: V)
    ensures forall y :: HasKey(Put(d, k, v), y) <==> HasKey(d, y) || y == k
  {
    forall y ensures HasKey(Put(d, k, v), y) <==> HasKey(d, y) || y == k {
      if y != k {
        assert Get(Put(d, k, v), y) == Get(d, y);
      }
    }
  }

  /** A prefix one longer is the shorter prefix and the next element. */
  lemma PrefixSnoc<T>(s: seq<T>, k: nat)
    requires k < |s|
    ensures s[..k + 1] == s[..k] + [s[k]]
  {
  }

  /** A non-empty dict is its front followed by its last entry. */
  lemma SplitLast<K, V>(d: Dict<K, V>)
    requires d != []
    ensures d == d[..|d| - 1] + [(d[|d| - 1].0, d[|d| - 1].1)]
  {
  }

  /** Splitting off the last entry of a dict with distinct keys. */
  lemma DropLast<K, V>(d: Dict<K, V>)
    requires DistinctKeys(d) && d != []
    ensures DistinctKeys(d[..|d| - 1])
    ensures !HasKey(d[..|d| - 1], d[|d| - 1].0)
    ensures forall y :: HasKey(d, y) <==> HasKey(d[..|d| - 1], y) || y == d[|d| - 1].0
  {
    var n := |d| - 1;
    var front := d[..n];
    assert forall k :: 0 <= k < n ==> front[k] == d[k];
    forall y | HasKey(d, y) ensures HasKey(front, y) || y == d[n].0 {
      var i :| 0 <= i < |d| && d[i].0 == y;
      if i < n { assert front[i] == d[i]; }
    }
  }

  /** d[k] += 1 on a defaultdict(int): the entry for k, created with 0 if
      absent, goes up by one. */
  function Increment<K(==)>(d: Dict<K, int>, k: K): Dict<K, int> {
    if d == [] then [(k, 1)]
    else if d[0].0 == k then [(k, d[0].1 + 1)] + d[1..]
    else [d[0]] + Increment(d[1..], k)
  }

  /** Increment raises the count of k by one and leaves every other count. */
  lemma {:induction false} IncrementGet<K>(d: Dict<K, int>, k: K, y: K)
    ensures Get(Increment(d, k), y) == if y == k then Some(GetOr(d, k, 0) + 1) else Get(d, y)
  {
    if d != [] {
      assert d == [d[0]] + d[1..];
      ConsFacts(d[0], d[1..]);
      if d[0].0 == k {
        ConsFacts((k, d[0].1 + 1), d[1..]);
      } else {
        IncrementGet(d[1..], k, y);
        ConsFacts(d[0], Increment(d[1..], k));
      }
    }
  }

  /** sum(d.values()) */
  function SumValues<K>(d: Dict<K, int>): int {
    if d == [] then 0 else d[0].1 + SumValues(d[1..])
  }

  /** Summing the values left to right. */
  lemma {:induction false} SumValuesSnoc<K>(d: Dict<K, int>, k: K, v: int)
    ensures SumValues(d + [(k, v)]) == SumValues(d) + v
  {
    if d != [] {
      assert (d + [(k, v)])[1..] == d[1..] + [(k, v)];
      SumValuesSnoc(d[1..], k, v);
    }
  }

  /** Incrementing one count raises the sum of the counts by one. */
  lemma {:induction false} SumValuesIncrement<K>(d: Dict<K, int>, k: K)
    ensures SumValues(Increment(d, k)) == SumValues(d) + 1
  {
    if d != [] && d[0].0 != k {
      SumValuesIncrement(d[1..], k);
      assert Increment(d, k)[1..] == Increment(d[1..], k);
    } else if d != [] {
      assert Increment(d, k)[1..] == d[1..];
    }
  }
}
