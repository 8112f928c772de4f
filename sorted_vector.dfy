/** The function table both dispatchers keep: a `std::vector` of `KeyValuePair`s sorted by key,
    with at most one entry per key, searched with `BinarySearch` and extended by inserting a new
    entry where it keeps the order. */
module SortedVector {
  import opened AssociativeHelpers

  /** The entry order `operator<` of `KeyValuePair`. */
  function EntryOrder<K, V>(keyLess: (K, K) -> bool): (T: (KeyValuePair<K, V>, KeyValuePair<K, V>) -> bool)
  {
    (a: KeyValuePair<K, V>, b: KeyValuePair<K, V>) => PairLess(keyLess, a, b)
  }

  /** The entries of a strictly increasing key order are sorted by the entry order. */
  lemma EntryOrderIsStrictWeak<K(!new), V(!new)>(keyLess: (K, K) -> bool)
    requires StrictTotalOrder(keyLess)
    ensures StrictWeakOrder(EntryOrder<K, V>(keyLess))
  {
    var less := EntryOrder<K, V>(keyLess);
    forall a, b, c | less(a, c)
      ensures less(a, b) || less(b, c)
    {
      assert keyLess(a.key, c.key);
      if b.key != a.key && b.key != c.key {
        assert keyLess(a.key, b.key) || keyLess(b.key, a.key);
      }
    }
  }

  /** Keys strictly increase along the table. */
  ghost predicate Increasing<K, V>(keyLess: (K, K) -> bool, s: seq<KeyValuePair<K, V>>)
  {
    forall i, j :: 0 <= i < j < |s| ==> keyLess(s[i].key, s[j].key)
  }

  /** The keys present in the table. */
  function Keys<K, V>(s: seq<KeyValuePair<K, V>>): set<K>
  {
    set i | 0 <= i < |s| :: s[i].key
  }

  /** No key is less than itself. */
  ghost predicate Irreflexive<K(!new)>(keyLess: (K, K) -> bool)
  {
    forall a :: !keyLess(a, a)
  }

  /** The table as a map from key to function; defined because increasing keys are distinct. */
  ghost function ToMap<K(!new), V>(keyLess: (K, K) -> bool, s: seq<KeyValuePair<K, V>>): (m: map<K, V>)
    requires Irreflexive(keyLess) && Increasing(keyLess, s)
    ensures m.Keys == Keys(s)
    ensures forall i :: 0 <= i < |s| ==> m[s[i].key] == s[i].value
  {
    map i | 0 <= i < |s| :: s[i].key := s[i].value
  }

  /** The position of `key`'s entry, or `|s|` (the end iterator) when the key is absent:
      `BinarySearch` with a pair holding the key. */
  function FindKey<K, V>(keyLess: (K, K) -> bool, s: seq<KeyValuePair<K, V>>, key: K, blank: V): (i: nat)
    ensures i <= |s|
  {
    BinarySearch(EntryOrder(keyLess), s, KeyValuePair(key, blank))
  }

  /** On an increasing table, `FindKey` finds the key's entry when the key is present and returns
      the end position exactly when it is absent. */
  lemma {:induction false} FindKeyCorrect<K(!new), V(!new)>(keyLess: (K, K) -> bool, s: seq<KeyValuePair<K, V>>, key: K, blank: V)
    requires StrictTotalOrder(keyLess) && Increasing(keyLess, s)
    ensures FindKey(keyLess, s, key, blank) < |s| <==> key in Keys(s)
    ensures FindKey(keyLess, s, key, blank) < |s| ==> s[FindKey(keyLess, s, key, blank)].key == key
  {
    var less := EntryOrder<K, V>(keyLess);
    var probe := KeyValuePair(key, blank);
    EntryOrderIsStrictWeak<K, V>(keyLess);
    assert Sorted(less, s);
    BinarySearchCorrect(less, s, probe);
    var r := FindKey(keyLess, s, key, blank);
    if r < |s| {
      assert Equivalent(less, s[r], probe);
      assert s[r].key == key;
    } else if key in Keys(s) {
      var i :| 0 <= i < |s| && s[i].key == key;
      assert Equivalent(less, s[i], probe);
    }
  }

  /** `InternalRegister`: the new entry goes where `std::lower_bound` puts it. */
  function Insert<K, V>(keyLess: (K, K) -> bool, s: seq<KeyValuePair<K, V>>, entry: KeyValuePair<K, V>): (r: seq<KeyValuePair<K, V>>)
    ensures |r| == |s| + 1
    ensures Keys(r) == Keys(s) + {entry.key}
  {
    var i := LowerBound(EntryOrder(keyLess), s, entry);
    InsertAtKeys(s, i, entry);
    s[..i] + [entry] + s[i..]
  }

  lemma InsertAtKeys<K, V>(s: seq<KeyValuePair<K, V>>, i: nat, entry: KeyValuePair<K, V>)
    requires i <= |s|
    ensures Keys(s[..i] + [entry] + s[i..]) == Keys(s) + {entry.key}
  {
    var r := s[..i] + [entry] + s[i..];
    forall k | k in Keys(s) + {entry.key}
      ensures k in Keys(r)
    {
      if k == entry.key {
        assert r[i] == entry;
      } else {
        var j :| 0 <= j < |s| && s[j].key == k;
        if j < i {
          assert r[j] == s[j];
        } else {
          assert r[j + 1] == s[j];
        }
      }
    }
    forall k | k in Keys(r)
      ensures k in Keys(s) + {entry.key}
    {
      var j :| 0 <= j < |r| && r[j].key == k;
      if j < i {
        assert r[j] == s[j];
      } else if j > i {
        assert r[j] == s[j - 1];
      }
    }
  }

  /** Inserting an absent key into an increasing table keeps it increasing, and the table now
      maps the new key to its function and every other key as before. */
  lemma InsertCorrect<K(!new), V(!new)>(keyLess: (K, K) -> bool, s: seq<KeyValuePair<K, V>>, entry: KeyValuePair<K, V>)
    requires StrictTotalOrder(keyLess) && Increasing(keyLess, s) && entry.key !in Keys(s)
    ensures Increasing(keyLess, Insert(keyLess, s, entry))
    ensures ToMap(keyLess, Insert(keyLess, s, entry)) == ToMap(keyLess, s)[entry.key := entry.value]
  {
    var less := EntryOrder<K, V>(keyLess);
    EntryOrderIsStrictWeak<K, V>(keyLess);
    assert Sorted(less, s);
    var i := LowerBound(less, s, entry);
    LowerBoundSplits(less, s, entry);
    forall j | 0 <= j < i
      ensures keyLess(s[j].key, entry.key)
    {
      assert less(s[j], entry);
    }
    forall j | i <= j < |s|
      ensures keyLess(entry.key, s[j].key)
    {
      assert !less(s[j], entry);
      assert s[j].key != entry.key;
    }
    InsertIncreasing(keyLess, s, i, entry);
    InsertedAt(s, i, entry);
    InsertAtKeys(s, i, entry);
    InsertMap(keyLess, s, s[..i] + [entry] + s[i..], i, entry);
  }

  /** The entries of `s` with `entry` inserted at position `i`, position by position. */
  lemma InsertedAt<E>(s: seq<E>, i: nat, entry: E)
    requires i <= |s|
    ensures |s[..i] + [entry] + s[i..]| == |s| + 1
    ensures forall j :: 0 <= j < |s| + 1 ==>
      (s[..i] + [entry] + s[i..])[j] == (if j < i then s[j] else if j == i then entry else s[j - 1])
  {
  }

  /** An entry whose key lies between those before position `i` and those after it keeps the
      table increasing. */
  lemma InsertIncreasing<K(!new), V>(keyLess: (K, K) -> bool, s: seq<KeyValuePair<K, V>>, i: nat, entry: KeyValuePair<K, V>)
    requires StrictTotalOrder(keyLess) && Increasing(keyLess, s) && i <= |s|
    requires forall j :: 0 <= j < i ==> keyLess(s[j].key, entry.key)
    requires forall j :: i <= j < |s| ==> keyLess(entry.key, s[j].key)
    ensures Increasing(keyLess, s[..i] + [entry] + s[i..])
  {
    InsertedAt(s, i, entry);
  }

  /** A table `r` that is `s` with `entry` inserted at position `i` maps the new key to its
      function and every other key as `s` does. */
  lemma InsertMap<K(!new), V>(keyLess: (K, K) -> bool, s: seq<KeyValuePair<K, V>>, r: seq<KeyValuePair<K, V>>, i: nat, entry: KeyValuePair<K, V>)
    requires Irreflexive(keyLess) && Increasing(keyLess, s) && Increasing(keyLess, r)
    requires i <= |s| && |r| == |s| + 1 && r[i] == entry
    requires forall j :: 0 <= j < i ==> r[j] == s[j]
    requires forall j :: i < j < |r| ==> r[j] == s[j - 1]
    requires Keys(r) == Keys(s) + {entry.key}
    ensures ToMap(keyLess, r) == ToMap(keyLess, s)[entry.key := entry.value]
  {
    var m, m0 := ToMap(keyLess, r), ToMap(keyLess, s);
    forall k | k in m0 && k != entry.key
      ensures k in m && m[k] == m0[k]
    {
      var j :| 0 <= j < |s| && s[j].key == k;
      if j < i {
        assert r[j] == s[j];
      } else {
        assert r[j + 1] == s[j];
      }
    }
    MapUpdate(m, m0, entry.key, entry.value);
  }

  /** A map with one more key, and the old keys' values kept, is the old map updated. */
  lemma MapUpdate<K, V>(m: map<K, V>, m0: map<K, V>, key: K, value: V)
    requires m.Keys == m0.Keys + {key} && m[key] == value
    requires forall k :: k in m0 && k != key ==> m[k] == m0[k]
    ensures m == m0[key := value]
  {
  }
}
