/** `thor::MovedPtr<T>`, the smart pointer whose copy and assignment transfer ownership, and its
    carrier `detail::MovedPtrRef<T>` for function arguments and return values. */
module MovedPointer {
  import opened Ownership

  /** The carrier: a pointer and a destroy function, immutable, without a destructor. Being a
      plain value, passing it around never destroys anything. */
  datatype MovedPtrRef = MovedPtrRef(pointer: Pointer, destroyFn: DestroyFn)

  /** The carrier constructor stores both arguments unchanged. */
  function MakeRef(p: Pointer, fn: DestroyFn): (r: MovedPtrRef)
    ensures r.pointer == p && r.destroyFn == fn
  {
    MovedPtrRef(p, fn)
  }

  class MovedPtr {
    /** The embedded `mImpl`. */
    const impl: SmartPtrImpl

    ghost predicate Valid()
      reads impl
    {
      impl.alive
    }

    constructor ()
      ensures Valid() && fresh(impl)
      ensures impl.pointer == Null && impl.destroyFn == DoNothing
    {
      impl := new SmartPtrImpl.Empty();
    }

    constructor FromPointer(p: Pointer)
      ensures Valid() && fresh(impl)
      ensures impl.pointer == p && impl.destroyFn == StaticDestroy
    {
      impl := new SmartPtrImpl.FromPointer(p);
    }

    /** The "copy" constructor `MovedPtr(MovedPtr& origin)`: takes the origin's pointer and destroy
        function and leaves the origin empty, so the object never has two owners. */
    constructor Move(origin: MovedPtr)
      requires origin.Valid()
      modifies origin.impl
      ensures Valid() && fresh(impl) && origin.Valid()
      ensures impl.pointer == old(origin.impl.pointer) && impl.destroyFn == old(origin.impl.destroyFn)
      ensures origin.impl.pointer == Null && origin.impl.destroyFn == DoNothing
    {
      var cell := new SmartPtrImpl.Empty();
      cell.Swap(origin.impl);
      impl := cell;
    }

    /** Construction from a carrier adopts its pointer with the carried destroy function. */
    constructor FromRef(ref: MovedPtrRef)
      ensures Valid() && fresh(impl)
      ensures impl.pointer == ref.pointer && impl.destroyFn == ref.destroyFn
    {
      impl := new SmartPtrImpl.FromPointerAndFn(ref.pointer, ref.destroyFn);
    }

    /** The destructor; for NULL nothing is deleted. */
    method Destroy(heap: Heap)
      requires Valid()
      modifies impl, heap
      ensures !impl.alive
      ensures heap.calls == old(heap.calls) + [DestroyCall(old(impl.destroyFn), old(impl.pointer))]
      ensures Deleted(heap.calls) == Deleted(old(heap.calls)) + old(impl.Owned())
      ensures old(impl.pointer) == Null ==> Deleted(heap.calls) == Deleted(old(heap.calls))
      ensures heap.issued == old(heap.issued) && heap.next == old(heap.next) && heap.values == old(heap.values)
    {
      impl.Destroy(heap);
    }

    method Swap(other: MovedPtr)
      requires Valid() && other.Valid()
      requires other == this || other.impl != impl
      modifies impl, other.impl
      ensures Valid() && other.Valid()
      ensures impl.pointer == old(other.impl.pointer) && impl.destroyFn == old(other.impl.destroyFn)
      ensures other.impl.pointer == old(impl.pointer) && other.impl.destroyFn == old(impl.destroyFn)
    {
      impl.Swap(other.impl);
    }

    /** Move assignment `*this = origin`, as copy-to-temporary and swap: the origin ends up empty,
        this pointer holds what the origin held, and this pointer's former object is destroyed once.
        For `a = a` the temporary takes the object and the swap hands it back: nothing changes and
        nothing is deleted. */
    method Assign(origin: MovedPtr, heap: Heap)
      requires Valid() && origin.Valid()
      requires origin == this || origin.impl != impl
      modifies impl, origin.impl, heap
      ensures Valid() && origin.Valid()
      ensures impl.pointer == old(origin.impl.pointer) && impl.destroyFn == old(origin.impl.destroyFn)
      ensures origin != this ==> origin.impl.pointer == Null && origin.impl.destroyFn == DoNothing
      ensures origin != this ==>
        heap.calls == old(heap.calls) + [DestroyCall(old(impl.destroyFn), old(impl.pointer))]
      ensures origin == this ==> heap.calls == old(heap.calls) + [DestroyCall(DoNothing, Null)]
      ensures Deleted(heap.calls) == Deleted(old(heap.calls)) + (if origin == this then multiset{} else old(impl.Owned()))
      ensures heap.issued == old(heap.issued) && heap.next == old(heap.next) && heap.values == old(heap.values)
    {
      ghost var call := if origin == this then DestroyCall(DoNothing, Null) else DestroyCall(impl.destroyFn, impl.pointer);
      ghost var owned := if origin == this then multiset{} else impl.Owned();
      assert Deletes(call) == owned;
      var temp := new MovedPtr.Move(origin);
      Swap(temp);
      temp.Destroy(heap);
      assert heap.calls == old(heap.calls) + [call];
      DeletedAppend(old(heap.calls), call);
    }

    /** Assignment from a carrier: adopts the carried pointer and destroy function; the former
        object is destroyed once. */
    method AssignRef(ref: MovedPtrRef, heap: Heap)
      requires Valid()
      modifies impl, heap
      ensures Valid()
      ensures impl.pointer == ref.pointer && impl.destroyFn == ref.destroyFn
      ensures heap.calls == old(heap.calls) + [DestroyCall(old(impl.destroyFn), old(impl.pointer))]
      ensures Deleted(heap.calls) == Deleted(old(heap.calls)) + old(impl.Owned())
      ensures heap.issued == old(heap.issued) && heap.next == old(heap.next) && heap.values == old(heap.values)
    {
      var tmp := new MovedPtr.FromRef(ref);
      Swap(tmp);
      tmp.Destroy(heap);
      DeletedAppend(old(heap.calls), DestroyCall(old(impl.destroyFn), old(impl.pointer)));
    }

    /** Conversion to the carrier: pointer and destroy function go out, this pointer is emptied and
        nothing is destroyed. */
    method ToRef() returns (ref: MovedPtrRef)
      requires Valid()
      modifies impl
      ensures Valid()
      ensures ref.pointer == old(impl.pointer) && ref.destroyFn == old(impl.destroyFn)
      ensures impl.pointer == Null && impl.destroyFn == DoNothing
    {
      var p := impl.Get();
      var fn := impl.GetDestroyFn();
      ref := MakeRef(p, fn);
      var _ := impl.Release();
    }

    method Reset(heap: Heap)
      requires Valid()
      modifies impl, heap
      ensures Valid()
      ensures impl.pointer == Null && impl.destroyFn == DoNothing
      ensures heap.calls == old(heap.calls) + [DestroyCall(old(impl.destroyFn), old(impl.pointer))]
      ensures Deleted(heap.calls) == Deleted(old(heap.calls)) + old(impl.Owned())
      ensures heap.issued == old(heap.issued) && heap.next == old(heap.next) && heap.values == old(heap.values)
    {
      var tmp := new MovedPtr();
      Swap(tmp);
      tmp.Destroy(heap);
      DeletedAppend(old(heap.calls), DestroyCall(old(impl.destroyFn), old(impl.pointer)));
    }

    method ResetTo(p: Pointer, heap: Heap)
      requires Valid()
      modifies impl, heap
      ensures Valid()
      ensures impl.pointer == p && impl.destroyFn == StaticDestroy
      ensures heap.calls == old(heap.calls) + [DestroyCall(old(impl.destroyFn), old(impl.pointer))]
      ensures Deleted(heap.calls) == Deleted(old(heap.calls)) + old(impl.Owned())
      ensures heap.issued == old(heap.issued) && heap.next == old(heap.next) && heap.values == old(heap.values)
    {
      var tmp := new MovedPtr.FromPointer(p);
      Swap(tmp);
      tmp.Destroy(heap);
      DeletedAppend(old(heap.calls), DestroyCall(old(impl.destroyFn), old(impl.pointer)));
    }

    /** The caller becomes the owner; this pointer is NULL afterwards. */
    method Release() returns (p: Pointer)
      requires Valid()
      modifies impl
      ensures Valid() && p == old(impl.pointer)
      ensures impl.pointer == Null && impl.destroyFn == DoNothing
    {
      p := impl.Release();
    }

    method IsValid() returns (r: bool)
      ensures r <==> impl.pointer != Null
    {
      var isNull := impl.IsNull();
      r := !isNull;
    }

    method Dereference() returns (p: Pointer)
      requires impl.pointer != Null
      ensures p == impl.pointer && p.Object?
    {
      p := impl.Dereference();
    }

    method Get() returns (p: Pointer)
      ensures p == impl.pointer
    {
      p := impl.Get();
    }
  }

  /** A value passed through a function boundary, `MovedPtr<T> f(MovedPtr<T> arg) { return arg; }`:
      out of the caller's pointer into the carrier, into the parameter, back into a carrier and
      into the receiving pointer. The object arrives with its destroy function, the source is empty,
      and no destroy call deletes anything on the way. */
  method PassThroughFunction(source: MovedPtr, heap: Heap) returns (received: MovedPtr)
    requires source.Valid()
    modifies source.impl, heap
    ensures source.Valid() && received.Valid() && fresh(received.impl)
    ensures received.impl.pointer == old(source.impl.pointer)
    ensures received.impl.destroyFn == old(source.impl.destroyFn)
    ensures source.impl.pointer == Null
    ensures Deleted(heap.calls) == Deleted(old(heap.calls))
    ensures heap.issued == old(heap.issued) && heap.next == old(heap.next) && heap.values == old(heap.values)
  {
    var argument := source.ToRef();
    var parameter := new MovedPtr.FromRef(argument);
    var result := parameter.ToRef();
    parameter.Destroy(heap);
    received := new MovedPtr.FromRef(result);
    DeletedAppend(old(heap.calls), DestroyCall(DoNothing, Null));
  }
}
