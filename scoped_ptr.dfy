/** `thor::ScopedPtr<T>`: a noncopyable owner that destroys its object when it goes out of
    scope. There is no copy constructor, no assignment and no comparison in this class, just as
    the C++ class declares them unusable. */
module ScopedPointer {
  import opened Ownership

  class ScopedPtr {
    /** The embedded `mImpl`. */
    const impl: SmartPtrImpl

    ghost predicate Valid()
      reads impl
    {
      impl.alive
    }

    /** Default constructor: the empty pointer. */
    constructor ()
      ensures Valid() && fresh(impl)
      ensures impl.pointer == Null && impl.destroyFn == DoNothing
    {
      impl := new SmartPtrImpl.Empty();
    }

    /** Constructor from a raw pointer: owns `p`, to be deleted by StaticDestroy. */
    constructor FromPointer(p: Pointer)
      ensures Valid() && fresh(impl)
      ensures impl.pointer == p && impl.destroyFn == StaticDestroy
    {
      impl := new SmartPtrImpl.FromPointer(p);
    }

    /** The destructor: destroys the owned object (a no-op destroy call when empty). */
    method Destroy(heap: Heap)
      requires Valid()
      modifies impl, heap
      ensures !impl.alive
      ensures heap.calls == old(heap.calls) + [DestroyCall(old(impl.destroyFn), old(impl.pointer))]
      ensures Deleted(heap.calls) == Deleted(old(heap.calls)) + old(impl.Owned())
      ensures old(impl.pointer) == Null ==> Deleted(heap.calls) == Deleted(old(heap.calls))
      ensures heap.issued == old(heap.issued) && heap.next == old(heap.next) && heap.values == old(heap.values)
    {
      impl.Destroy(heap);
    }

    /** Exchanges the owned pointers; the pointees are not touched. */
    method Swap(other: ScopedPtr)
      requires Valid() && other.Valid()
      requires other == this || other.impl != impl
      modifies impl, other.impl
      ensures Valid() && other.Valid()
      ensures impl.pointer == old(other.impl.pointer) && impl.destroyFn == old(other.impl.destroyFn)
      ensures other.impl.pointer == old(impl.pointer) && other.impl.destroyFn == old(impl.destroyFn)
    {
      impl.Swap(other.impl);
    }

    /** `Reset()`: swaps with an empty temporary whose destruction destroys the old object once. */
    method Reset(heap: Heap)
      requires Valid()
      modifies impl, heap
      ensures Valid()
      ensures impl.pointer == Null && impl.destroyFn == DoNothing
      ensures heap.calls == old(heap.calls) + [DestroyCall(old(impl.destroyFn), old(impl.pointer))]
      ensures Deleted(heap.calls) == Deleted(old(heap.calls)) + old(impl.Owned())
      ensures heap.issued == old(heap.issued) && heap.next == old(heap.next) && heap.values == old(heap.values)
    {
      var tmp := new ScopedPtr();
      Swap(tmp);
      tmp.Destroy(heap);
      DeletedAppend(old(heap.calls), DestroyCall(old(impl.destroyFn), old(impl.pointer)));
    }

    /** `Reset(p)`: owns `p` afterwards; the old object is destroyed exactly once. */
    method ResetTo(p: Pointer, heap: Heap)
      requires Valid()
      modifies impl, heap
      ensures Valid()
      ensures impl.pointer == p && impl.destroyFn == StaticDestroy
      ensures heap.calls == old(heap.calls) + [DestroyCall(old(impl.destroyFn), old(impl.pointer))]
      ensures Deleted(heap.calls) == Deleted(old(heap.calls)) + old(impl.Owned())
      ensures heap.issued == old(heap.issued) && heap.next == old(heap.next) && heap.values == old(heap.values)
    {
      var tmp := new ScopedPtr.FromPointer(p);
      Swap(tmp);
      tmp.Destroy(heap);
      DeletedAppend(old(heap.calls), DestroyCall(old(impl.destroyFn), old(impl.pointer)));
    }

    /** Hands the pointer to the caller; nothing is destroyed and this pointer is empty. */
    method Release() returns (p: Pointer)
      requires Valid()
      modifies impl
      ensures Valid() && p == old(impl.pointer)
      ensures impl.pointer == Null && impl.destroyFn == DoNothing
    {
      p := impl.Release();
    }

    /** The safe-bool conversion. */
    method IsValid() returns (r: bool)
      ensures r <==> impl.pointer != Null
    {
      var isNull := impl.IsNull();
      r := !isNull;
    }

    /** `operator*` and `operator->`: only on a non-empty pointer. */
    method Dereference() returns (p: Pointer)
      requires impl.pointer != Null
      ensures p == impl.pointer && p.Object?
    {
      p := impl.Dereference();
    }

    method Get() returns (p: Pointer)
      ensures p == impl.pointer
    {
      p := impl.Get();
    }
  }

  /** The free function `swap(lhs, rhs)`. */
  method SwapScoped(lhs: ScopedPtr, rhs: ScopedPtr)
    requires lhs.Valid() && rhs.Valid()
    requires lhs == rhs || lhs.impl != rhs.impl
    modifies lhs.impl, rhs.impl
    ensures lhs.Valid() && rhs.Valid()
    ensures lhs.impl.pointer == old(rhs.impl.pointer) && rhs.impl.pointer == old(lhs.impl.pointer)
    ensures lhs.impl.destroyFn == old(rhs.impl.destroyFn) && rhs.impl.destroyFn == old(lhs.impl.destroyFn)
  {
    lhs.Swap(rhs);
  }

  /** A client that resets a scoped pointer and then allocates with `new T`: the reset leaves the
      heap's bookkeeping intact, so the allocation yields an object distinct from every earlier one,
      and the old object has been deleted once. */
  method ResetThenAllocate(sp: ScopedPtr, heap: Heap) returns (p: Pointer)
    requires sp.Valid() && heap.Valid()
    modifies sp.impl, heap
    ensures sp.Valid() && sp.impl.pointer == Null
    ensures heap.Valid() && p.Object? && p !in old(heap.issued)
    ensures Deleted(heap.calls) == Deleted(old(heap.calls)) + old(sp.impl.Owned())
  {
    sp.Reset(heap);
    p := heap.New();
  }
}
