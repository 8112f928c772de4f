/** `thor::SingleDispatcher<B, R>`: dynamic dispatch on the exact dynamic type of one argument,
    through a sorted vector of (type id, function) pairs. */
module SingleDispatch {
  import opened AssociativeHelpers
  import opened SortedVector

  /** `detail::TypeInfo`: a dynamic type, ordered as `std::type_info::before` orders it. */
  type TypeId = nat

  /** A registered function (global function, member function with its object, or functor). */
  type FunctionId = nat

  /** What `Call` does: invoke one registered function, or throw `FunctionCallException`. */
  datatype CallResult = Invoked(fn: FunctionId) | FunctionCallException

  function TypeLess(a: TypeId, b: TypeId): bool { a < b }

  lemma TypeOrderIsStrictTotal()
    ensures StrictTotalOrder(TypeLess)
  {
  }

  class SingleDispatcher {
    /** `mMap`, the sorted vector of (type id, function) pairs. */
    var entries: seq<KeyValuePair<TypeId, FunctionId>>

    /** Sorted by type id, at most one function per type id. */
    ghost predicate Valid()
      reads this
    {
      Increasing(TypeLess, entries)
    }

    /** The registrations: which function each dynamic type dispatches to. */
    ghost function Table(): map<TypeId, FunctionId>
      requires Valid()
      reads this
    {
      TypeOrderIsStrictTotal();
      ToMap(TypeLess, entries)
    }

    /** The default constructor: nothing is registered. */
    constructor ()
      ensures Valid() && entries == []
    {
      entries := [];
    }

    /** `Register<D>(f)`. Precondition: nothing is registered for D yet. Afterwards D dispatches to
        `f` and every other type as before. */
    method Register(d: TypeId, f: FunctionId)
      requires Valid() && d !in Table()
      modifies this
      ensures Valid() && Table() == old(Table())[d := f]
    {
      TypeOrderIsStrictTotal();
      InsertCorrect(TypeLess, entries, KeyValuePair(d, f));
      entries := Insert(TypeLess, entries, KeyValuePair(d, f));
    }

    /** `Find(key)`: the position of the entry for `key`, or the end position when there is none. */
    method Find(key: TypeId) returns (i: nat)
      requires Valid()
      ensures i <= |entries|
      ensures i < |entries| <==> key in Table()
      ensures i < |entries| ==> entries[i].key == key && entries[i].value == Table()[key]
    {
      TypeOrderIsStrictTotal();
      FindKeyCorrect(TypeLess, entries, key, 0);
      i := FindKey(TypeLess, entries, key, 0);
    }

    /** `Call(arg)`: the function registered for exactly the argument's dynamic type; no fallback
        to a base class; `FunctionCallException` when there is none. */
    method Call(dynamicType: TypeId) returns (r: CallResult)
      requires Valid()
      ensures dynamicType in Table() ==> r == Invoked(Table()[dynamicType])
      ensures dynamicType !in Table() ==> r == FunctionCallException
    {
      var i := Find(dynamicType);
      if i == |entries| {
        r := FunctionCallException;
      } else {
        r := Invoked(entries[i].value);
      }
    }
  }

  /** After `Register<D>(f)`, a call whose argument has dynamic type exactly D invokes `f`, while
      a call with a type that was never registered (a derived class of D, say) still throws. */
  method RegisterThenCall(dispatcher: SingleDispatcher, d: TypeId, f: FunctionId, other: TypeId)
    returns (hit: CallResult, miss: CallResult)
    requires dispatcher.Valid() && d !in dispatcher.Table() && other != d && other !in dispatcher.Table()
    modifies dispatcher
    ensures hit == Invoked(f) && miss == FunctionCallException
  {
    dispatcher.Register(d, f);
    hit := dispatcher.Call(d);
    miss := dispatcher.Call(other);
  }
}
