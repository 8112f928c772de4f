/** `thor::detail`'s helpers for sorted-vector maps: `KeyValuePair`, ordered by key alone,
    `Equivalent`, and `BinarySearch` on a sorted range. A range is a sequence, an iterator an
    index into it, and the end iterator `last` the index `|s|`. */
module AssociativeHelpers {

  /** A structure like `std::pair` whose order looks at `key` only. */
  datatype KeyValuePair<K, V> = KeyValuePair(key: K, value: V)

  /** `less` is a strict weak order: irreflexive, transitive, and incomparability is transitive
      (stated as: `a < c` implies `a < b` or `b < c`). */
  ghost predicate StrictWeakOrder<T(!new)>(less: (T, T) -> bool)
  {
    (forall a :: !less(a, a)) &&
    (forall a, b, c :: less(a, b) && less(b, c) ==> less(a, c)) &&
    (forall a, b, c :: less(a, c) ==> less(a, b) || less(b, c))
  }

  /** `less` is a strict total order: a strict weak order in which being equivalent means being
      equal (the order of type ids, of pairs of them, and of key info). */
  ghost predicate StrictTotalOrder<K(!new)>(less: (K, K) -> bool)
  {
    (forall a :: !less(a, a)) &&
    (forall a, b, c :: less(a, b) && less(b, c) ==> less(a, c)) &&
    (forall a, b :: a != b ==> less(a, b) || less(b, a))
  }

  /** `operator<` on pairs: the keys' order. */
  predicate PairLess<K, V>(keyLess: (K, K) -> bool, lhs: KeyValuePair<K, V>, rhs: KeyValuePair<K, V>)
  {
    keyLess(lhs.key, rhs.key)
  }

  /** The pair order ignores the values: changing them never changes a comparison. */
  lemma PairLessIgnoresValues<K, V>(keyLess: (K, K) -> bool, k1: K, v1: V, w1: V, k2: K, v2: V, w2: V)
    ensures PairLess(keyLess, KeyValuePair(k1, v1), KeyValuePair(k2, v2))
        == PairLess(keyLess, KeyValuePair(k1, w1), KeyValuePair(k2, w2))
    ensures PairLess(keyLess, KeyValuePair(k1, v1), KeyValuePair(k2, v2)) <==> keyLess(k1, k2)
  {
  }

  /** Neither is less than the other (equivalent, not necessarily equal). */
  predicate Equivalent<T>(less: (T, T) -> bool, lhs: T, rhs: T)
  {
    !less(lhs, rhs) && !less(rhs, lhs)
  }

  /** Equivalence is symmetric, and for a strict weak order also reflexive and transitive. */
  lemma EquivalenceIsEquivalence<T(!new)>(less: (T, T) -> bool, a: T, b: T, c: T)
    ensures Equivalent(less, a, b) <==> Equivalent(less, b, a)
    ensures StrictWeakOrder(less) ==> Equivalent(less, a, a)
    ensures StrictWeakOrder(less) && Equivalent(less, a, b) && Equivalent(less, b, c) ==> Equivalent(less, a, c)
  {
  }

  /** Sorted by `less`: no element is less than one before it. */
  ghost predicate Sorted<T>(less: (T, T) -> bool, s: seq<T>)
  {
    forall i, j :: 0 <= i < j < |s| ==> !less(s[j], s[i])
  }

  /** `std::lower_bound` from position `from`: the first position, at or after `from`, whose
      element is not less than `value`; `|s|` when there is none. */
  function LowerBoundFrom<T>(less: (T, T) -> bool, s: seq<T>, value: T, from: nat): (i: nat)
    requires from <= |s|
    ensures from <= i <= |s|
    ensures forall j :: from <= j < i ==> less(s[j], value)
    ensures i < |s| ==> !less(s[i], value)
    decreases |s| - from
  {
    if from == |s| || !less(s[from], value) then from else LowerBoundFrom(less, s, value, from + 1)
  }

  /** `std::lower_bound(first, last, value)`. */
  function LowerBound<T>(less: (T, T) -> bool, s: seq<T>, value: T): (i: nat)
    ensures i <= |s|
    ensures forall j :: 0 <= j < i ==> less(s[j], value)
    ensures i < |s| ==> !less(s[i], value)
  {
    LowerBoundFrom(less, s, value, 0)
  }

  /** On a sorted range every element from the lower bound on is not less than the value, so the
      lower bound splits the range into "less" and "not less". */
  lemma LowerBoundSplits<T(!new)>(less: (T, T) -> bool, s: seq<T>, value: T)
    requires StrictWeakOrder(less) && Sorted(less, s)
    ensures forall j :: LowerBound(less, s, value) <= j < |s| ==> !less(s[j], value)
  {
  }

  /** Where `BinarySearch`, as written, ends up: a position (`|s|` is `last`), or the
      dereference of `last` that happens when the value is greater than every element. */
  datatype SearchOutcome = Position(index: nat) | DereferencedEnd

  /** `BinarySearch` as the header writes it: `*result` is read without comparing `result` with
      `last` first. */
  function BinarySearchAsWritten<T>(less: (T, T) -> bool, s: seq<T>, value: T): (r: SearchOutcome)
    ensures r.DereferencedEnd? <==> LowerBound(less, s, value) == |s|
    ensures r.Position? ==> r.index <= |s|
  {
    var result := LowerBound(less, s, value);
    if result == |s| then DereferencedEnd
    else if Equivalent(less, s[result], value) then Position(result)
    else Position(|s|)
  }

  /** The as-written search reads past the end on every range whose elements are all less than the
      value, for instance the empty range or `[1]` searched for `2`. */
  lemma BinarySearchReadsPastEnd()
    ensures BinarySearchAsWritten((a: int, b: int) => a < b, [], 2).DereferencedEnd?
    ensures BinarySearchAsWritten((a: int, b: int) => a < b, [1], 2).DereferencedEnd?
  {
    var lt := (a: int, b: int) => a < b;
    assert LowerBound(lt, [1], 2) == 1 by {
      assert lt(1, 2);
      assert LowerBoundFrom(lt, [1], 2, 0) == LowerBoundFrom(lt, [1], 2, 1);
    }
  }

  /** `BinarySearch` with the end check the comment promises: the first element equivalent to
      `value`, or `last` (`|s|`) when there is none. */
  function BinarySearch<T>(less: (T, T) -> bool, s: seq<T>, value: T): (r: nat)
    ensures r <= |s|
    ensures r < |s| ==> Equivalent(less, s[r], value)
  {
    var result := LowerBound(less, s, value);
    if result < |s| && Equivalent(less, s[result], value) then result else |s|
  }

  /** Wherever the as-written search does not read past the end, it agrees with the corrected one. */
  lemma BinarySearchAgrees<T>(less: (T, T) -> bool, s: seq<T>, value: T)
    requires LowerBound(less, s, value) < |s|
    ensures BinarySearchAsWritten(less, s, value) == Position(BinarySearch(less, s, value))
  {
  }

  /** On a sorted range, `BinarySearch` finds the FIRST element equivalent to the value, and
      returns `last` only when no element is equivalent to it. */
  lemma BinarySearchCorrect<T(!new)>(less: (T, T) -> bool, s: seq<T>, value: T)
    requires StrictWeakOrder(less) && Sorted(less, s)
    ensures var r := BinarySearch(less, s, value);
      (forall j :: 0 <= j < r ==> !Equivalent(less, s[j], value)) &&
      (r == |s| ==> forall j :: 0 <= j < |s| ==> !Equivalent(less, s[j], value))
  {
    var i := LowerBound(less, s, value);
    LowerBoundSplits(less, s, value);
    if i < |s| && !Equivalent(less, s[i], value) {
      // s[i] is not less than the value, so the value is less than s[i] and than everything after.
      assert less(value, s[i]);
    }
  }
}
