/** The type-erased owning cell behind every Thor smart pointer (`detail::SmartPtrImpl<T>`),
    together with the part of the C++ heap the smart pointers talk to: allocation by `new`
    and the calls of destroy functions. */
module Ownership {

  /** A raw `T*`: NULL or the address of a heap object. */
  datatype Pointer = Null | Object(address: nat)

  /** The destroy function a cell carries: `DoNothing<T>`, `StaticDestroy<T>` (which runs
      `delete`), or one carried in from outside (a copy policy's Destroy, a user function). */
  datatype DestroyFn = DoNothing | StaticDestroy | Custom(id: nat)

  /** One call `destroyFn(pointer)`. */
  datatype DestroyCall = DestroyCall(fn: DestroyFn, pointer: Pointer)

  /** The objects one destroy call deletes: none for DoNothing, none for NULL (`delete NULL`
      is a no-op), otherwise the pointee. */
  function Deletes(call: DestroyCall): (d: multiset<Pointer>)
    ensures |d| <= 1
    ensures d == multiset{} <==> call.fn.DoNothing? || call.pointer.Null?
    ensures Pointer.Null !in d
  {
    if call.fn.DoNothing? || call.pointer.Null? then multiset{} else multiset{call.pointer}
  }

  /** All objects deleted by a sequence of destroy calls, with multiplicity. */
  function Deleted(calls: seq<DestroyCall>): multiset<Pointer>
  {
    if calls == [] then multiset{} else Deleted(calls[..|calls| - 1]) + Deletes(calls[|calls| - 1])
  }

  /** Appending one call deletes exactly what that call deletes, on top of the earlier calls. */
  lemma DeletedAppend(calls: seq<DestroyCall>, call: DestroyCall)
    ensures Deleted(calls + [call]) == Deleted(calls) + Deletes(call)
  {
    assert (calls + [call])[..|calls|] == calls;
  }

  /** The heap: `new` hands out addresses never handed out before; every destroy-function call
      is recorded, in order. `values` is the abstract value of the objects whose value matters
      (the ones deep copies are made of). */
  class Heap {
    var next: nat
    ghost var issued: set<Pointer>
    ghost var calls: seq<DestroyCall>
    ghost var values: map<Pointer, int>

    /** The value of the object at `p`; 0 for one whose value was never recorded. */
    ghost function Value(p: Pointer): int
      reads this
    {
      if p in values then values[p] else 0
    }

    ghost predicate Valid()
      reads this
    {
      forall p :: p in issued ==> p.Object? && p.address < next
    }

    constructor ()
      ensures Valid() && issued == {} && calls == []
    {
      next, issued, calls, values := 0, {}, [], map[];
    }

    /** `new T`: a non-NULL pointer to an object that did not exist before. */
    method New() returns (p: Pointer)
      requires Valid()
      modifies this
      ensures Valid()
      ensures p.Object? && p !in old(issued)
      ensures issued == old(issued) + {p} && calls == old(calls) && values == old(values)
    {
      p := Object(next);
      issued := issued + {p};
      next := next + 1;
    }

    /** A deep copy `new T(*p)`: a new object, different from every earlier one, with the value
        of `*p`. Copying NULL is not possible. */
    method Copy(p: Pointer) returns (q: Pointer)
      requires Valid() && p.Object?
      modifies this
      ensures Valid()
      ensures q.Object? && q !in old(issued)
      ensures issued == old(issued) + {q} && calls == old(calls)
      ensures values == old(values)[q := old(Value(p))] && Value(q) == Value(p)
    {
      var v := Value(p);
      q := New();
      values := values[q := v];
    }

    /** Invokes `fn(p)` and records the call. */
    method Invoke(fn: DestroyFn, p: Pointer)
      modifies this
      ensures calls == old(calls) + [DestroyCall(fn, p)]
      ensures issued == old(issued) && next == old(next) && values == old(values)
    {
      calls := calls + [DestroyCall(fn, p)];
    }
  }

  /** `detail::SmartPtrImpl<T>`: a raw pointer and the destroy function bound to it. The ghost
      flag `alive` is cleared by the destructor; a destroyed cell is never used again. */
  class SmartPtrImpl {
    var pointer: Pointer
    var destroyFn: DestroyFn
    ghost var alive: bool

    /** The objects this cell's destructor would delete. */
    ghost function Owned(): multiset<Pointer>
      reads this
    {
      if alive then Deletes(DestroyCall(destroyFn, pointer)) else multiset{}
    }

    /** Default constructor: NULL, bound to DoNothing so that T need not be defined. */
    constructor Empty()
      ensures alive && pointer == Null && destroyFn == DoNothing
      ensures Owned() == multiset{}
    {
      pointer, destroyFn, alive := Null, DoNothing, true;
    }

    /** Construction from a raw pointer binds StaticDestroy. */
    constructor FromPointer(p: Pointer)
      ensures alive && pointer == p && destroyFn == StaticDestroy
    {
      pointer, destroyFn, alive := p, StaticDestroy, true;
    }

    /** Construction from a pointer and a destroy function stores exactly that function. */
    constructor FromPointerAndFn(p: Pointer, fn: DestroyFn)
      ensures alive && pointer == p && destroyFn == fn
    {
      pointer, destroyFn, alive := p, fn, true;
    }

    /** The destructor: one call of the bound destroy function on the held pointer. */
    method Destroy(heap: Heap)
      requires alive
      modifies this, heap
      ensures !alive && pointer == old(pointer) && destroyFn == old(destroyFn)
      ensures heap.calls == old(heap.calls) + [DestroyCall(old(destroyFn), old(pointer))]
      ensures heap.issued == old(heap.issued) && heap.next == old(heap.next) && heap.values == old(heap.values)
      ensures Deleted(heap.calls) == Deleted(old(heap.calls)) + old(Owned())
    {
      heap.Invoke(destroyFn, pointer);
      alive := false;
      DeletedAppend(old(heap.calls), DestroyCall(destroyFn, pointer));
    }

    /** Exchanges pointer and destroy function, as a pair, with `other` (which may be this cell). */
    method Swap(other: SmartPtrImpl)
      requires alive && other.alive
      modifies this, other
      ensures alive && other.alive
      ensures pointer == old(other.pointer) && destroyFn == old(other.destroyFn)
      ensures other.pointer == old(pointer) && other.destroyFn == old(destroyFn)
    {
      var p, fn := pointer, destroyFn;
      pointer, destroyFn := other.pointer, other.destroyFn;
      other.pointer, other.destroyFn := p, fn;
    }

    /** Hands the pointer to the caller and leaves the cell empty, bound to DoNothing, so that its
        destruction deletes nothing. */
    method Release() returns (p: Pointer)
      requires alive
      modifies this
      ensures alive && p == old(pointer)
      ensures pointer == Null && destroyFn == DoNothing && Owned() == multiset{}
    {
      p := pointer;
      pointer := Null;
      destroyFn := DoNothing;
    }

    method IsNull() returns (r: bool)
      ensures r <==> pointer == Null
    {
      r := pointer == Null;
    }

    /** `operator*` and `operator->`: the pointee, which must exist. */
    method Dereference() returns (p: Pointer)
      requires pointer != Null
      ensures p == pointer && p.Object?
    {
      p := pointer;
    }

    method Get() returns (p: Pointer)
      ensures p == pointer
    {
      p := pointer;
    }

    method GetDestroyFn() returns (fn: DestroyFn)
      ensures fn == destroyFn
    {
      fn := destroyFn;
    }
  }
}
