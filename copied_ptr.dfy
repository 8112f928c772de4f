/** `thor::CopiedPtr<T, OwnershipPolicy>`: a smart pointer whose copies are deep copies, made and
    destroyed through an ownership policy. */
module CopiedPointer {
  import opened Ownership

  /** The ownership policy template argument: the three shipped ones, or a user policy given by
      the identities of its Copy and Destroy functions. */
  datatype OwnershipPolicy = StaticCopy | DynamicCopy | VirtualClone | CustomPolicy(copyId: nat, destroyId: nat)

  /** `OwnershipPolicy::Destroy` as a destroy function: the shipped policies use `delete`, a user
      policy its own Destroy. It is never the do-nothing function. */
  function PolicyDestroy(policy: OwnershipPolicy): (fn: DestroyFn)
    ensures !fn.DoNothing?
    ensures !policy.CustomPolicy? <==> fn == StaticDestroy
  {
    match policy
    case CustomPolicy(_, destroyId) => Custom(destroyId)
    case _ => StaticDestroy
  }

  class CopiedPtr {
    /** The template argument, fixed for the lifetime of the object. */
    const policy: OwnershipPolicy
    /** The embedded `mImpl`. */
    const impl: SmartPtrImpl

    /** A live cell, and a non-empty pointer is destroyed by the policy. */
    ghost predicate Valid()
      reads impl
    {
      impl.alive && (impl.pointer != Null ==> impl.destroyFn == PolicyDestroy(policy))
    }

    /** Default constructor: the empty pointer. */
    constructor (policy: OwnershipPolicy)
      ensures Valid() && fresh(impl) && this.policy == policy
      ensures impl.pointer == Null && impl.destroyFn == DoNothing
    {
      this.policy := policy;
      impl := new SmartPtrImpl.Empty();
    }

    /** Constructor from a raw pointer: owns `p`, destroyed through the policy. */
    constructor FromPointer(policy: OwnershipPolicy, p: Pointer)
      ensures Valid() && fresh(impl) && this.policy == policy
      ensures impl.pointer == p && impl.destroyFn == PolicyDestroy(policy)
    {
      this.policy := policy;
      impl := new SmartPtrImpl.FromPointerAndFn(p, PolicyDestroy(policy));
    }

    /** The copy constructor: an empty origin gives an empty copy and the policy's Copy is not
        called; otherwise Copy makes a new object, equal to the origin's and owned by nobody else. */
    constructor Copy(origin: CopiedPtr, heap: Heap)
      requires origin.Valid() && heap.Valid()
      modifies heap
      ensures Valid() && fresh(impl) && policy == origin.policy
      ensures heap.Valid() && heap.calls == old(heap.calls)
      ensures origin.impl.pointer == Null ==>
        impl.pointer == Null && impl.destroyFn == DoNothing &&
        heap.issued == old(heap.issued) && heap.next == old(heap.next) && heap.values == old(heap.values)
      ensures origin.impl.pointer != Null ==>
        impl.pointer.Object? && impl.pointer !in old(heap.issued) &&
        heap.issued == old(heap.issued) + {impl.pointer} &&
        heap.values == old(heap.values)[impl.pointer := old(heap.Value(origin.impl.pointer))] &&
        impl.destroyFn == PolicyDestroy(policy)
    {
      policy := origin.policy;
      if origin.impl.pointer == Null {
        impl := new SmartPtrImpl.Empty();
      } else {
        var q := heap.Copy(origin.impl.pointer);
        impl := new SmartPtrImpl.FromPointerAndFn(q, PolicyDestroy(origin.policy));
      }
    }

    /** The destructor: the policy's Destroy on the held pointer (nothing for NULL). */
    method Destroy(heap: Heap)
      requires Valid()
      modifies impl, heap
      ensures !impl.alive
      ensures heap.calls == old(heap.calls) + [DestroyCall(old(impl.destroyFn), old(impl.pointer))]
      ensures Deleted(heap.calls) == Deleted(old(heap.calls)) + old(impl.Owned())
      ensures old(impl.pointer) != Null ==> old(impl.destroyFn) == PolicyDestroy(policy)
      ensures old(impl.pointer) == Null ==> Deleted(heap.calls) == Deleted(old(heap.calls))
      ensures heap.issued == old(heap.issued) && heap.next == old(heap.next) && heap.values == old(heap.values)
    {
      impl.Destroy(heap);
    }

    /** Exchanges the pointers only; the objects are not touched. */
    method Swap(other: CopiedPtr)
      requires Valid() && other.Valid() && other.policy == policy
      requires other == this || other.impl != impl
      modifies impl, other.impl
      ensures Valid() && other.Valid()
      ensures impl.pointer == old(other.impl.pointer) && impl.destroyFn == old(other.impl.destroyFn)
      ensures other.impl.pointer == old(impl.pointer) && other.impl.destroyFn == old(impl.destroyFn)
    {
      impl.Swap(other.impl);
    }

    /** Copy assignment as copy-and-swap: this pointer ends up empty when the origin is, and
        otherwise with a new object equal to the origin's; the origin is unchanged and this pointer's
        former object is destroyed exactly once. Self-assignment therefore replaces the object by
        a fresh copy of itself. */
    method Assign(origin: CopiedPtr, heap: Heap)
      requires Valid() && origin.Valid() && origin.policy == policy && heap.Valid()
      requires origin == this || origin.impl != impl
      modifies impl, heap
      ensures Valid() && origin.Valid() && heap.Valid()
      ensures origin != this ==>
        origin.impl.pointer == old(origin.impl.pointer) && origin.impl.destroyFn == old(origin.impl.destroyFn)
      ensures old(origin.impl.pointer) == Null ==>
        impl.pointer == Null && impl.destroyFn == DoNothing &&
        heap.issued == old(heap.issued) && heap.next == old(heap.next) && heap.values == old(heap.values)
      ensures old(origin.impl.pointer) != Null ==>
        impl.pointer.Object? && impl.pointer !in old(heap.issued) &&
        heap.issued == old(heap.issued) + {impl.pointer} &&
        heap.values == old(heap.values)[impl.pointer := old(heap.Value(origin.impl.pointer))] &&
        heap.Value(impl.pointer) == old(heap.Value(origin.impl.pointer)) &&
        impl.destroyFn == PolicyDestroy(policy)
      ensures heap.calls == old(heap.calls) + [DestroyCall(old(impl.destroyFn), old(impl.pointer))]
      ensures Deleted(heap.calls) == Deleted(old(heap.calls)) + old(impl.Owned())
    {
      var temp := new CopiedPtr.Copy(origin, heap);
      Swap(temp);
      temp.Destroy(heap);
    }

    /** `Reset()`: destroys the current object and holds NULL. */
    method Reset(heap: Heap)
      requires Valid()
      modifies impl, heap
      ensures Valid()
      ensures impl.pointer == Null && impl.destroyFn == DoNothing
      ensures heap.calls == old(heap.calls) + [DestroyCall(old(impl.destroyFn), old(impl.pointer))]
      ensures Deleted(heap.calls) == Deleted(old(heap.calls)) + old(impl.Owned())
      ensures heap.issued == old(heap.issued) && heap.next == old(heap.next) && heap.values == old(heap.values)
    {
      var tmp := new CopiedPtr(policy);
      Swap(tmp);
      tmp.Destroy(heap);
    }

    /** `Reset(p)`: destroys the current object and holds `p`. */
    method ResetTo(p: Pointer, heap: Heap)
      requires Valid()
      modifies impl, heap
      ensures Valid()
      ensures impl.pointer == p && impl.destroyFn == PolicyDestroy(policy)
      ensures heap.calls == old(heap.calls) + [DestroyCall(old(impl.destroyFn), old(impl.pointer))]
      ensures Deleted(heap.calls) == Deleted(old(heap.calls)) + old(impl.Owned())
      ensures heap.issued == old(heap.issued) && heap.next == old(heap.next) && heap.values == old(heap.values)
    {
      var tmp := new CopiedPtr.FromPointer(policy, p);
      Swap(tmp);
      tmp.Destroy(heap);
    }

    /** The caller becomes responsible for the object; this pointer is NULL afterwards. */
    method Release() returns (p: Pointer)
      requires Valid()
      modifies impl
      ensures Valid() && p == old(impl.pointer)
      ensures impl.pointer == Null && impl.destroyFn == DoNothing
    {
      p := impl.Release();
    }

    method IsValid() returns (r: bool)
      ensures r <==> impl.pointer != Null
    {
      var isNull := impl.IsNull();
      r := !isNull;
    }

    method Dereference() returns (p: Pointer)
      requires impl.pointer != Null
      ensures p == impl.pointer && p.Object?
    {
      p := impl.Dereference();
    }

    method Get() returns (p: Pointer)
      ensures p == impl.pointer
    {
      p := impl.Get();
    }
  }

  /** Copying twice: the two copies and the original are three different objects with one value,
      and none of the copying deletes anything. */
  method CopyTwice(origin: CopiedPtr, heap: Heap) returns (first: CopiedPtr, second: CopiedPtr)
    requires origin.Valid() && heap.Valid() && origin.impl.pointer in heap.issued
    modifies heap
    ensures first.Valid() && second.Valid() && fresh(first.impl) && fresh(second.impl)
    ensures first.impl.pointer != origin.impl.pointer && second.impl.pointer != origin.impl.pointer
    ensures first.impl.pointer != second.impl.pointer
    ensures heap.Value(first.impl.pointer) == heap.Value(origin.impl.pointer)
    ensures heap.Value(second.impl.pointer) == heap.Value(origin.impl.pointer)
    ensures heap.calls == old(heap.calls)
  {
    first := new CopiedPtr.Copy(origin, heap);
    second := new CopiedPtr.Copy(first, heap);
  }

  /** Copy assignment leaves the origin's object and its value as they were. */
  method AssignKeepsOrigin(target: CopiedPtr, origin: CopiedPtr, heap: Heap)
    requires target.Valid() && origin.Valid() && origin.policy == target.policy && heap.Valid()
    requires origin != target && origin.impl != target.impl && origin.impl.pointer.Object?
    modifies target.impl, heap
    ensures origin.impl.pointer == old(origin.impl.pointer)
    ensures heap.Value(origin.impl.pointer) == old(heap.Value(origin.impl.pointer))
  {
    target.Assign(origin, heap);
  }
}
