/** `thor::DoubleDispatcher<B, R>`: dynamic dispatch on the exact dynamic types of two arguments.
    A symmetric dispatcher treats `fn(a, b)` and `fn(b, a)` alike by storing every type pair in
    sorted order. */
module DoubleDispatch {
  import opened AssociativeHelpers
  import opened SortedVector
  import opened SingleDispatch

  /** `std::pair<TypeInfo, TypeInfo>`. */
  datatype TypePair = TypePair(first: TypeId, second: TypeId)

  /** `std::pair`'s `operator<`: lexicographic. */
  function TypePairLess(a: TypePair, b: TypePair): bool
  {
    a.first < b.first || (a.first == b.first && a.second < b.second)
  }

  lemma TypePairOrderIsStrictTotal()
    ensures StrictTotalOrder(TypePairLess)
  {
  }

  /** `MakeArgumentPair(key1, key2)`: in symmetric mode the smaller type id goes first; otherwise
      the pair is kept as given. */
  function MakeArgumentPair(symmetric: bool, key1: TypeId, key2: TypeId): (k: TypePair)
    ensures symmetric ==> k.first <= k.second
    ensures multiset{k.first, k.second} == multiset{key1, key2}
    ensures !symmetric ==> k == TypePair(key1, key2)
  {
    if symmetric && key2 < key1 then TypePair(key2, key1) else TypePair(key1, key2)
  }

  /** In symmetric mode the argument order does not matter; in asymmetric mode two different
      types in swapped order make two different keys. */
  lemma ArgumentPairSymmetry(symmetric: bool, a: TypeId, b: TypeId)
    ensures symmetric ==> MakeArgumentPair(symmetric, a, b) == MakeArgumentPair(symmetric, b, a)
    ensures !symmetric && a != b ==> MakeArgumentPair(symmetric, a, b) != MakeArgumentPair(symmetric, b, a)
  {
  }

  class DoubleDispatcher {
    /** `mMap`, the sorted vector of (type pair, function) entries. */
    var entries: seq<KeyValuePair<TypePair, FunctionId>>
    /** `mSymmetric`. */
    const symmetric: bool

    /** Sorted by type pair, at most one function per pair, and in symmetric mode every stored
        pair is in canonical order. */
    ghost predicate Valid()
      reads this
    {
      Increasing(TypePairLess, entries) &&
      (symmetric ==> forall i :: 0 <= i < |entries| ==> entries[i].key.first <= entries[i].key.second)
    }

    ghost function Table(): map<TypePair, FunctionId>
      requires Valid()
      reads this
    {
      TypePairOrderIsStrictTotal();
      ToMap(TypePairLess, entries)
    }

    /** The key under which the pair (D1, D2) is registered and looked up. */
    function KeyOf(d1: TypeId, d2: TypeId): TypePair
      reads this
    {
      MakeArgumentPair(symmetric, d1, d2)
    }

    /** `DoubleDispatcher(symmetric = true)`: empty, and symmetric unless told otherwise. */
    constructor (symmetric: bool := true)
      ensures Valid() && entries == [] && this.symmetric == symmetric
    {
      this.symmetric := symmetric;
      entries := [];
    }

    /** `Register<D1, D2>(f)`. Precondition: nothing is registered for the pair yet. */
    method Register(d1: TypeId, d2: TypeId, f: FunctionId)
      requires Valid() && KeyOf(d1, d2) !in Table()
      modifies this
      ensures Valid() && Table() == old(Table())[KeyOf(d1, d2) := f]
    {
      TypePairOrderIsStrictTotal();
      var key := MakeArgumentPair(symmetric, d1, d2);
      InsertCorrect(TypePairLess, entries, KeyValuePair(key, f));
      ghost var before := entries;
      entries := Insert(TypePairLess, entries, KeyValuePair(key, f));
      if symmetric {
        forall i | 0 <= i < |entries|
          ensures entries[i].key.first <= entries[i].key.second
        {
          assert entries[i].key in Keys(entries);
          assert entries[i].key in Keys(before) + {key};
          if entries[i].key != key {
            var j :| 0 <= j < |before| && before[j].key == entries[i].key;
          }
        }
      }
    }

    /** `Find(key1, key2)`: the position of the entry for the argument pair, or the end position. */
    method Find(key1: TypeId, key2: TypeId) returns (i: nat)
      requires Valid()
      ensures i <= |entries|
      ensures i < |entries| <==> KeyOf(key1, key2) in Table()
      ensures i < |entries| ==> entries[i].key == KeyOf(key1, key2) && entries[i].value == Table()[KeyOf(key1, key2)]
    {
      TypePairOrderIsStrictTotal();
      var key := MakeArgumentPair(symmetric, key1, key2);
      FindKeyCorrect(TypePairLess, entries, key, 0);
      i := FindKey(TypePairLess, entries, key, 0);
    }

    /** `Call(arg1, arg2)`: the function registered for exactly these dynamic types (in either order
        when symmetric), or `FunctionCallException`. */
    method Call(type1: TypeId, type2: TypeId) returns (r: CallResult)
      requires Valid()
      ensures KeyOf(type1, type2) in Table() ==> r == Invoked(Table()[KeyOf(type1, type2)])
      ensures KeyOf(type1, type2) !in Table() ==> r == FunctionCallException
    {
      var i := Find(type1, type2);
      if i == |entries| {
        r := FunctionCallException;
      } else {
        r := Invoked(entries[i].value);
      }
    }
  }

  /** In a symmetric dispatcher, registering (D1, D2) also serves calls with (D2, D1). */
  method SymmetricRegistration(dispatcher: DoubleDispatcher, d1: TypeId, d2: TypeId, f: FunctionId)
    returns (forward: CallResult, backward: CallResult)
    requires dispatcher.Valid() && dispatcher.symmetric && dispatcher.KeyOf(d1, d2) !in dispatcher.Table()
    modifies dispatcher
    ensures forward == Invoked(f) && backward == Invoked(f)
  {
    dispatcher.Register(d1, d2, f);
    forward := dispatcher.Call(d1, d2);
    ArgumentPairSymmetry(true, d1, d2);
    backward := dispatcher.Call(d2, d1);
  }

  /** A dispatcher constructed without arguments is symmetric: one registration of (D1, D2)
      serves a call with the arguments the other way round. */
  method DefaultIsSymmetric(d1: TypeId, d2: TypeId, f: FunctionId) returns (backward: CallResult)
    ensures backward == Invoked(f)
  {
    var dispatcher := new DoubleDispatcher();
    assert dispatcher.Table() == map[];
    var forward;
    forward, backward := SymmetricRegistration(dispatcher, d1, d2, f);
  }
}
