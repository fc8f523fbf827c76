/** std::map as the sequence of its entries in ascending key order. The key order is a parameter:
    any transitive and irreflexive comparison, so that keys which are equivalent without being equal
    (the two zeros of floating point) are allowed. */
module OrderedMap {
  import opened Wrappers

  type Less<!K> = (K, K) -> bool

  ghost predicate StrictOrder<K(!new)>(less: Less<K>)
  {
    && (forall a :: !less(a, a))
    && (forall a, b, c :: less(a, b) && less(b, c) ==> less(a, c))
  }

  /** Keys that are not ordered are equal. */
  ghost predicate TotalOrder<K(!new)>(less: Less<K>)
  {
    StrictOrder(less) && forall a, b :: a == b || less(a, b) || less(b, a)
  }

  ghost predicate Sorted<K, V>(less: Less<K>, m: seq<(K, V)>) {
    forall i, j :: 0 <= i < j < |m| ==> less(m[i].0, m[j].0)
  }

  /** std::map::insert: nothing happens if an equivalent key is present. */
  function Insert<K, V>(less: Less<K>, m: seq<(K, V)>, key: K, value: V): seq<(K, V)>
  {
    if m == [] || less(key, m[0].0) then [(key, value)] + m
    else if less(m[0].0, key) then [m[0]] + Insert(less, m[1..], key, value)
    else m
  }

  /** Assignment through operator[]. */
  function Put<K, V>(less: Less<K>, m: seq<(K, V)>, key: K, value: V): seq<(K, V)>
  {
    if m == [] || less(key, m[0].0) then [(key, value)] + m
    else if less(m[0].0, key) then [m[0]] + Put(less, m[1..], key, value)
    else [(m[0].0, value)] + m[1..]
  }

  function Remove<K, V>(less: Less<K>, m: seq<(K, V)>, key: K): seq<(K, V)>
  {
    if m == [] || less(key, m[0].0) then m
    else if less(m[0].0, key) then [m[0]] + Remove(less, m[1..], key)
    else m[1..]
  }

  function Find<K, V>(less: Less<K>, m: seq<(K, V)>, key: K): Option<V>
  {
    if m == [] || less(key, m[0].0) then None
    else if less(m[0].0, key) then Find(less, m[1..], key)
    else Some(m[0].1)
  }

  /** Inserting a key above all others appends it: that is how decoding rebuilds a map. */
  lemma {:induction false} InsertAtEnd<K(!new), V>(less: Less<K>, m: seq<(K, V)>, key: K, value: V)
    requires StrictOrder(less) && Sorted(less, m + [(key, value)])
    ensures Insert(less, m, key, value) == m + [(key, value)]
  {
    if m != [] {
      var all := m + [(key, value)];
      assert less(all[0].0, all[|m|].0);
      assert m[1..] + [(key, value)] == all[1..];
      InsertAtEnd(less, m[1..], key, value);
      assert m == [m[0]] + m[1..];
    }
  }

  /** One round of rebuilding: the next entry goes to the end of those already inserted. */
  lemma InsertNext<K(!new), V>(less: Less<K>, done: seq<(K, V)>, todo: seq<(K, V)>)
    requires StrictOrder(less) && todo != [] && Sorted(less, done + todo)
    ensures done + todo == (done + [todo[0]]) + todo[1..]
    ensures Insert(less, done, todo[0].0, todo[0].1) == done + [todo[0]]
  {
    assert done + todo == (done + [todo[0]]) + todo[1..];
    assert done + [todo[0]] == (done + todo)[..|done| + 1];
    InsertAtEnd(less, done, todo[0].0, todo[0].1);
  }

  // ---------- the plain map behind the entries ----------

  function ToMap<K, V>(m: seq<(K, V)>): map<K, V>
  {
    if m == [] then map[] else ToMap(m[1..])[m[0].0 := m[0].1]
  }

  lemma {:induction false} KeysOf<K(!new), V>(m: seq<(K, V)>, key: K)
    ensures key in ToMap(m) <==> exists i :: 0 <= i < |m| && m[i].0 == key
  {
    if m != [] {
      KeysOf(m[1..], key);
      if key in ToMap(m[1..]) {
        var i :| 0 <= i < |m[1..]| && m[1..][i].0 == key;
        assert m[i + 1].0 == key;
      }
      if i :| 1 <= i < |m| && m[i].0 == key {
        assert m[1..][i - 1].0 == key;
      }
    }
  }

  /** A key below the first one of sorted entries is not among them. */
  lemma BelowFirst<K(!new), V>(less: Less<K>, m: seq<(K, V)>, key: K)
    requires StrictOrder(less) && Sorted(less, m) && (m != [] ==> less(key, m[0].0))
    ensures key !in ToMap(m)
  {
    KeysOf(m, key);
    forall i | 0 <= i < |m|
      ensures m[i].0 != key
    {
      assert i > 0 ==> less(m[0].0, m[i].0);
    }
  }

  lemma SortedTail<K, V>(less: Less<K>, m: seq<(K, V)>)
    requires m != [] && Sorted(less, m)
    ensures Sorted(less, m[1..])
  {
  }

  lemma TailAbove<K(!new), V>(less: Less<K>, m: seq<(K, V)>)
    requires StrictOrder(less) && m != [] && Sorted(less, m)
    ensures m[0].0 !in ToMap(m[1..])
  {
    SortedTail(less, m);
    BelowFirst(less, m[1..], m[0].0);
  }

  /** Looking up, counting, assigning and erasing are those of the plain map. */
  lemma {:induction false} FindIsLookup<K(!new), V>(less: Less<K>, m: seq<(K, V)>, key: K)
    requires TotalOrder(less) && Sorted(less, m)
    ensures Find(less, m, key) == if key in ToMap(m) then Some(ToMap(m)[key]) else None
  {
    if m == [] {
    } else if less(key, m[0].0) {
      BelowFirst(less, m, key);
    } else if less(m[0].0, key) {
      FindIsLookup(less, m[1..], key);
    }
  }

  lemma {:induction false} SizeIsCardinality<K(!new), V>(less: Less<K>, m: seq<(K, V)>)
    requires StrictOrder(less) && Sorted(less, m)
    ensures |ToMap(m)| == |m|
  {
    if m != [] {
      SizeIsCardinality(less, m[1..]);
      TailAbove(less, m);
      assert ToMap(m).Keys == ToMap(m[1..]).Keys + {m[0].0};
    }
  }

  ghost predicate KeyAmong<K, V>(k: K, m: seq<(K, V)>, key: K) {
    k == key || exists i :: 0 <= i < |m| && m[i].0 == k
  }

  lemma {:induction false} PutIsSorted<K(!new), V>(less: Less<K>, m: seq<(K, V)>, key: K, value: V)
    requires StrictOrder(less) && Sorted(less, m)
    ensures Sorted(less, Put(less, m, key, value))
    ensures forall i :: 0 <= i < |Put(less, m, key, value)| ==> KeyAmong(Put(less, m, key, value)[i].0, m, key)
  {
    var r := Put(less, m, key, value);
    if m == [] {
    } else if less(key, m[0].0) {
      assert r[1..] == m;
      forall i, j | 0 <= i < j < |r| ensures less(r[i].0, r[j].0) {
        assert less(m[0].0, m[j - 1].0) || j == 1;
        assert i > 0 ==> less(m[i - 1].0, m[j - 1].0);
      }
      forall i | 0 <= i < |r| ensures KeyAmong(r[i].0, m, key) {
        assert i > 0 ==> r[i] == m[i - 1];
      }
    } else if less(m[0].0, key) {
      var tail := Put(less, m[1..], key, value);
      PutIsSorted(less, m[1..], key, value);
      assert r[1..] == tail;
      forall i | 0 <= i < |tail| ensures less(m[0].0, tail[i].0) && KeyAmong(tail[i].0, m, key) {
        if tail[i].0 != key {
          var k :| 0 <= k < |m[1..]| && m[1..][k].0 == tail[i].0;
          assert m[k + 1].0 == tail[i].0;
        }
      }
    } else {
      assert r[1..] == m[1..];
      forall i | 0 <= i < |r| ensures KeyAmong(r[i].0, m, key) {
        assert i > 0 ==> r[i] == m[i];
      }
    }
  }

  /** Writing adds an entry exactly when no equivalent key is there; removing never adds one. */
  lemma {:induction false} PutLength<K, V>(less: Less<K>, m: seq<(K, V)>, key: K, value: V)
    ensures |Put(less, m, key, value)| == |m| + if Find(less, m, key).None? then 1 else 0
    ensures |Remove(less, m, key)| <= |m|
  {
    if m != [] && !less(key, m[0].0) && less(m[0].0, key) {
      PutLength(less, m[1..], key, value);
    }
  }

  lemma {:induction false} PutIsUpdate<K(!new), V>(less: Less<K>, m: seq<(K, V)>, key: K, value: V)
    requires TotalOrder(less) && Sorted(less, m)
    ensures ToMap(Put(less, m, key, value)) == ToMap(m)[key := value]
    ensures |Put(less, m, key, value)| == if key in ToMap(m) then |m| else |m| + 1
  {
    var r := Put(less, m, key, value);
    if m == [] {
    } else if less(key, m[0].0) {
      assert r[1..] == m;
      BelowFirst(less, m, key);
    } else if less(m[0].0, key) {
      SortedTail(less, m);
      PutIsUpdate(less, m[1..], key, value);
      assert r[1..] == Put(less, m[1..], key, value);
    } else {
      assert r[1..] == m[1..];
    }
  }

  /** insert adds a new key, and leaves the map alone if the key is there: the first one wins. */
  lemma {:induction false} InsertIsUpdateIfNew<K(!new), V>(less: Less<K>, m: seq<(K, V)>, key: K, value: V)
    requires TotalOrder(less) && Sorted(less, m)
    ensures ToMap(Insert(less, m, key, value)) == if key in ToMap(m) then ToMap(m) else ToMap(m)[key := value]
  {
    var r := Insert(less, m, key, value);
    if m == [] {
    } else if less(key, m[0].0) {
      assert r[1..] == m;
      BelowFirst(less, m, key);
    } else if less(m[0].0, key) {
      SortedTail(less, m);
      InsertIsUpdateIfNew(less, m[1..], key, value);
      assert r[1..] == Insert(less, m[1..], key, value);
    }
  }

  lemma {:induction false} RemoveIsSorted<K(!new), V>(less: Less<K>, m: seq<(K, V)>, key: K)
    requires Sorted(less, m)
    ensures Sorted(less, Remove(less, m, key))
    ensures forall i :: 0 <= i < |Remove(less, m, key)| ==> Remove(less, m, key)[i] in m
  {
    if m != [] && !less(key, m[0].0) && less(m[0].0, key) {
      RemoveIsSorted(less, m[1..], key);
      var r := Remove(less, m, key);
      assert r[1..] == Remove(less, m[1..], key);
      forall i | 1 <= i < |r| ensures less(m[0].0, r[i].0) {
        assert r[i] == Remove(less, m[1..], key)[i - 1] && r[i] in m[1..];
      }
    }
  }

  lemma {:induction false} RemoveIsErase<K(!new), V>(less: Less<K>, m: seq<(K, V)>, key: K)
    requires TotalOrder(less) && Sorted(less, m)
    ensures ToMap(Remove(less, m, key)) == ToMap(m) - {key}
    ensures |Remove(less, m, key)| <= |m|
  {
    if m == [] {
    } else if less(key, m[0].0) {
      BelowFirst(less, m, key);
    } else if less(m[0].0, key) {
      SortedTail(less, m);
      RemoveIsErase(less, m[1..], key);
      var r := Remove(less, m, key);
      assert r[1..] == Remove(less, m[1..], key);
    } else {
      TailAbove(less, m);
    }
  }
}
