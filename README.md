# Thor 1.0 core, modelled in Dafny

This project models the core of Thor 1.0, a C++ extension library for SFML. It covers:

- **Smart pointers.** `SmartPtrImpl` is the shared owner cell. It is used by `ScopedPtr`, by `MovedPtr` with its carrier `MovedPtrRef`, and by `CopiedPtr` with its ownership policies. `ResourcePtr` is a shared handle on a resource manager's slot.
- **Resource keys.** `ImageKey`, `ShaderKey` and `FontKey`, each with its factories and its order.
- **Dispatch.** The helpers for sorted-vector maps (`KeyValuePair`, `Equivalent`, `BinarySearch`), and the `SingleDispatcher` and `DoubleDispatcher` built on them.
- **Event listeners.** The listener containers `ListenerSequence` (a vector with swap-and-pop removal) and `ListenerMap` (a multimap from triggers to listeners).
- **Drawing-side core.** `ParticleSystem`, `ConcaveShape` with its cached triangulation and outline, the 2D and 3D vector algebra, and the 2D attributes `Positionable`, `Rotatable` and `Scalable`.

Each C++ object whose methods update its members in place is modelled as a Dafny `class`. Pure helpers are modelled as functions and lemmas. The ownership model works as follows:

- `Ownership.Heap` hands out fresh addresses for `new`.
- It keeps a ghost log of every destroy-function call.
- The multiset `Deleted(calls)` says which objects have been deleted, and how often.

A destructor becomes an explicit `Destroy(heap)` method. "Deleted exactly once" is stated as the log growing by that one call.

Files, one module each:

| file | module | models |
|---|---|---|
| `ownership.dfy` | `Ownership` | addresses, destroy functions, the heap log, `SmartPtrImpl` |
| `scoped_ptr.dfy` | `ScopedPointer` | `ScopedPtr` |
| `moved_ptr.dfy` | `MovedPointer` | `MovedPtrRef`, `MovedPtr` |
| `copied_ptr.dfy` | `CopiedPointer` | ownership policies, `CopiedPtr` |
| `resource_ptr.dfy` | `ResourcePointer` | the resource slot as a handle sees it, `ResourcePtr` |
| `graphics_keys.dfy` | `GraphicsKeys` | key info and its order, `ImageKey`/`ShaderKey`/`FontKey` |
| `associative_helpers.dfy` | `AssociativeHelpers` | `KeyValuePair`, `Equivalent`, `BinarySearch` |
| `sorted_vector.dfy` | `SortedVector` | the dispatchers' sorted function table |
| `single_dispatcher.dfy` | `SingleDispatch` | `SingleDispatcher` |
| `double_dispatcher.dfy` | `DoubleDispatch` | `DoubleDispatcher` |
| `event_listener.dfy` | `EventListener` | `Listener`, `ListenerSequence`, `ListenerMap` |
| `particle_system.dfy` | `Particles` | `Particle`, `ParticleSystem` |
| `concave_shape.dfy` | `Concave` | `ConcaveShape` and its outline |
| `vector_algebra.dfy` | `VectorAlgebra` | `VectorAlgebra2D`, `VectorAlgebra3D` |
| `attributes2d.dfy` | `Attributes2D` | `Positionable`, `Rotatable`, `Scalable` |

## Model

| member | source | states |
|---|---|---|
| Ownership.Deletes | thor-v1.0-sdk/include/Thor/Detail/SmartPtrImpl.inl:32-44 | a destroy call deletes at most one object; it deletes nothing exactly when the function is `DoNothing` or the pointer is NULL; NULL is never deleted |
| Ownership.DeletedAppend | thor-v1.0-sdk/include/Thor/Detail/SmartPtrImpl.inl:32-44 | the objects deleted by a log extended by one call are those deleted before, plus that call's object |
| Ownership.SmartPtrImpl.Empty | thor-v1.0-sdk/include/Thor/Detail/SmartPtrImpl.inl:56-62 | the default cell holds NULL with the do-nothing destroy function and owns nothing |
| Ownership.SmartPtrImpl.FromPointer | thor-v1.0-sdk/include/Thor/Detail/SmartPtrImpl.inl:64-69 | a cell built from `p` holds `p` and destroys it with `delete` |
| Ownership.SmartPtrImpl.FromPointerAndFn | thor-v1.0-sdk/include/Thor/Detail/SmartPtrImpl.inl:71-76 | a cell built from `p` and a destroy function holds both |
| Ownership.SmartPtrImpl.Destroy | thor-v1.0-sdk/include/Thor/Detail/SmartPtrImpl.inl:78-83 | the destructor calls the stored destroy function on the stored pointer exactly once; the deleted multiset grows by exactly what the cell owned; the cell is dead afterwards |
| Ownership.SmartPtrImpl.Swap | thor-v1.0-sdk/include/Thor/Detail/SmartPtrImpl.inl:85-90 | both pointer and destroy function are exchanged |
| Ownership.SmartPtrImpl.Release | thor-v1.0-sdk/include/Thor/Detail/SmartPtrImpl.inl:92-104 | returns the held pointer; the cell is left NULL with `DoNothing` and owns nothing, so nothing is deleted later |
| Ownership.SmartPtrImpl.IsNull | thor-v1.0-sdk/include/Thor/Detail/SmartPtrImpl.inl:106-110 | true exactly for the NULL pointer |
| Ownership.SmartPtrImpl.Dereference | thor-v1.0-sdk/include/Thor/Detail/SmartPtrImpl.inl:112-124 | needs a non-NULL pointer, as the assertion demands, and yields that object |
| Ownership.SmartPtrImpl.Get | thor-v1.0-sdk/include/Thor/Detail/SmartPtrImpl.inl:126-130 | yields the held pointer, NULL included |
| Ownership.SmartPtrImpl.GetDestroyFn | thor-v1.0-sdk/include/Thor/Detail/SmartPtrImpl.inl:132-136 | yields the stored destroy function |
| ScopedPointer.ScopedPtr.constructor | thor-v1.0-sdk/include/Thor/Detail/ScopedPtr.inl:30 | the default scoped pointer is NULL |
| ScopedPointer.ScopedPtr.FromPointer | thor-v1.0-sdk/include/Thor/Detail/ScopedPtr.inl:36 | owns `p`, to be deleted with `delete` |
| ScopedPointer.ScopedPtr.Destroy | thor-v1.0-sdk/include/Thor/Detail/ScopedPtr.inl:42 | one destroy call on the owned object; a NULL scoped pointer deletes nothing; no object is allocated and every object's value is unchanged |
| ScopedPointer.ScopedPtr.Swap | thor-v1.0-sdk/include/Thor/Detail/ScopedPtr.inl:48 | exchanges the owned objects and their destroy functions |
| ScopedPointer.ScopedPtr.Reset | thor-v1.0-sdk/include/Thor/Detail/ScopedPtr.inl:54 | deletes the former object exactly once and holds NULL; no object is allocated and every object's value is unchanged |
| ScopedPointer.ScopedPtr.ResetTo | thor-v1.0-sdk/include/Thor/Detail/ScopedPtr.inl:61 | deletes the former object exactly once and owns the new one; no object is allocated and every object's value is unchanged |
| ScopedPointer.ScopedPtr.Release | thor-v1.0-sdk/include/Thor/Detail/ScopedPtr.inl:68 | hands out the object without deleting it; the pointer becomes NULL |
| ScopedPointer.ScopedPtr.IsValid | thor-v1.0-sdk/include/Thor/Detail/ScopedPtr.inl:74 | the safe-bool conversion is true exactly when not NULL |
| ScopedPointer.ScopedPtr.Dereference | thor-v1.0-sdk/include/Thor/Detail/ScopedPtr.inl:80-86 | `*` and `->` need a non-NULL pointer and yield the owned object |
| ScopedPointer.ScopedPtr.Get | thor-v1.0-sdk/include/Thor/Detail/ScopedPtr.inl:92 | yields the owned pointer, NULL included |
| ScopedPointer.SwapScoped | thor-v1.0-sdk/include/Thor/Detail/ScopedPtr.inl:101 | the free `swap` exchanges both pointers' objects and destroy functions |
| ScopedPointer.ResetThenAllocate | thor-v1.0-sdk/include/Thor/Detail/ScopedPtr.inl:54-58 | after `Reset` the heap is still consistent: a following `new T` yields an object distinct from every earlier one, and the old object was deleted once |
| MovedPointer.MakeRef | thor-v1.0-sdk/include/Thor/Detail/MovedPtrRef.hpp:50-54 | the carrier holds exactly the pointer and destroy function it is given |
| MovedPointer.MovedPtr.constructor | thor-v1.0-sdk/include/Thor/Detail/MovedPtr.inl:30 | the default moved pointer is NULL |
| MovedPointer.MovedPtr.FromPointer | thor-v1.0-sdk/include/Thor/Detail/MovedPtr.inl:36 | owns `p`, to be deleted with `delete` |
| MovedPointer.MovedPtr.Move | thor-v1.0-sdk/include/Thor/Detail/MovedPtr.inl:42-48 | the "copy" constructor takes over the origin's object and destroy function; the origin is left NULL, so the object never has two owners |
| MovedPointer.MovedPtr.FromRef | thor-v1.0-sdk/include/Thor/Detail/MovedPtr.inl:114 | takes over the carrier's pointer and destroy function |
| MovedPointer.MovedPtr.Destroy | thor-v1.0-sdk/include/Thor/Detail/MovedPtr.inl:50 | one destroy call on the owned object; NULL deletes nothing; no object is allocated and every object's value is unchanged |
| MovedPointer.MovedPtr.Swap | thor-v1.0-sdk/include/Thor/Detail/MovedPtr.inl:64 | exchanges objects and destroy functions |
| MovedPointer.MovedPtr.Assign | thor-v1.0-sdk/include/Thor/Detail/MovedPtr.inl:56-62 | move assignment: this pointer takes the origin's object, the origin becomes NULL and the former object is deleted exactly once; self-assignment deletes nothing and keeps the object; no object is allocated and every object's value is unchanged |
| MovedPointer.MovedPtr.AssignRef | thor-v1.0-sdk/include/Thor/Detail/MovedPtr.inl:120-125 | assignment from a carrier: takes the carrier's object and deletes the former one exactly once; no object is allocated and every object's value is unchanged |
| MovedPointer.MovedPtr.ToRef | thor-v1.0-sdk/include/Thor/Detail/MovedPtr.inl:128-137 | the conversion to a carrier hands over pointer and destroy function; this pointer becomes NULL without deleting anything |
| MovedPointer.MovedPtr.Reset | thor-v1.0-sdk/include/Thor/Detail/MovedPtr.inl:70 | deletes the former object exactly once and holds NULL; no object is allocated and every object's value is unchanged |
| MovedPointer.MovedPtr.ResetTo | thor-v1.0-sdk/include/Thor/Detail/MovedPtr.inl:77 | deletes the former object exactly once and owns the new one; no object is allocated and every object's value is unchanged |
| MovedPointer.MovedPtr.Release | thor-v1.0-sdk/include/Thor/Detail/MovedPtr.inl:84 | hands out the object without deleting it; the pointer becomes NULL |
| MovedPointer.MovedPtr.IsValid | thor-v1.0-sdk/include/Thor/Detail/MovedPtr.inl:90 | true exactly when not NULL |
| MovedPointer.MovedPtr.Dereference | thor-v1.0-sdk/include/Thor/Detail/MovedPtr.inl:96-102 | needs a non-NULL pointer and yields the owned object |
| MovedPointer.MovedPtr.Get | thor-v1.0-sdk/include/Thor/Detail/MovedPtr.inl:108 | yields the owned pointer, NULL included |
| MovedPointer.PassThroughFunction | thor-v1.0-sdk/include/Thor/Detail/MovedPtr.inl:128-137 | passing a moved pointer by value through a carrier moves the object to the receiver, leaves the source NULL and deletes nothing; no object is allocated and every object's value is unchanged |
| CopiedPointer.PolicyDestroy | thor-v1.0-sdk/include/Thor/SmartPtr/CopiedPtr.hpp:70-76 | a policy's destroy function is never the do-nothing function; it is `delete` exactly for the shipped policies |
| CopiedPointer.CopiedPtr.constructor | thor-v1.0-sdk/include/Thor/SmartPtr/CopiedPtr.hpp:66-68 | the default copied pointer is NULL |
| CopiedPointer.CopiedPtr.FromPointer | thor-v1.0-sdk/include/Thor/SmartPtr/CopiedPtr.hpp:70-76 | owns `p`, destroyed through the policy |
| CopiedPointer.CopiedPtr.Copy | thor-v1.0-sdk/include/Thor/SmartPtr/CopiedPtr.hpp:78-82 | the copy constructor of a NULL pointer is NULL and allocates nothing; otherwise it owns a freshly allocated object with the origin's value, and deletes nothing |
| CopiedPointer.CopiedPtr.Destroy | thor-v1.0-sdk/include/Thor/SmartPtr/CopiedPtr.hpp:84-87 | the policy's destroy function is called on the owned object exactly once; NULL deletes nothing |
| CopiedPointer.CopiedPtr.Swap | thor-v1.0-sdk/include/Thor/SmartPtr/CopiedPtr.hpp:94-96 | exchanges the objects only; nothing is copied or deleted |
| CopiedPointer.CopiedPtr.Assign | thor-v1.0-sdk/include/Thor/SmartPtr/CopiedPtr.hpp:89-92 | copy-and-swap: this pointer holds a fresh copy of the origin's value, or NULL when the origin is NULL; the origin is unchanged; the former object is deleted exactly once; the only value that changes in the heap is the new copy's, and copying NULL allocates nothing |
| CopiedPointer.AssignKeepsOrigin | thor-v1.0-sdk/include/Thor/SmartPtr/CopiedPtr.hpp:89-92 | copy assignment keeps the origin's pointer and the value of its object |
| CopiedPointer.CopiedPtr.Reset | thor-v1.0-sdk/include/Thor/SmartPtr/CopiedPtr.hpp:98-101 | deletes the former object exactly once and holds NULL; no object is allocated and every object's value is unchanged |
| CopiedPointer.CopiedPtr.ResetTo | thor-v1.0-sdk/include/Thor/SmartPtr/CopiedPtr.hpp:103-110 | deletes the former object exactly once and owns `p` through the policy; no object is allocated and every object's value is unchanged |
| CopiedPointer.CopiedPtr.Release | thor-v1.0-sdk/include/Thor/SmartPtr/CopiedPtr.hpp:112-115 | hands out the object without deleting it; the pointer becomes NULL |
| CopiedPointer.CopiedPtr.IsValid | thor-v1.0-sdk/include/Thor/SmartPtr/CopiedPtr.hpp:117-122 | true exactly when not NULL |
| CopiedPointer.CopiedPtr.Dereference | thor-v1.0-sdk/include/Thor/SmartPtr/CopiedPtr.hpp:124-130 | needs a non-NULL pointer and yields the owned object |
| CopiedPointer.CopiedPtr.Get | thor-v1.0-sdk/include/Thor/SmartPtr/CopiedPtr.hpp:132-134 | yields the owned pointer, NULL included |
| CopiedPointer.CopyTwice | thor-v1.0-sdk/include/Thor/SmartPtr/CopiedPtr.hpp:78-82 | copies are deep: a copy of a copy, the copy and the original are three distinct objects with one value, and copying deletes nothing |
| ResourcePointer.ResourceSlot.RefCount | thor-v1.0-sdk/include/Thor/Detail/ResourcePtr.inl:150-162 | the reference count is zero exactly when no handle is registered, the condition on which `DecRef` releases the slot; `ResourcePtr.Swap` states with it that swapping keeps each slot's count |
| ResourcePointer.ResourceSlot.IncRef | thor-v1.0-sdk/include/Thor/Detail/ResourcePtr.inl:150-155 | registers the handle with a slot whose resource is still there |
| ResourcePointer.ResourceSlot.DecRef | thor-v1.0-sdk/include/Thor/Detail/ResourcePtr.inl:157-162 | deregisters the handle; the slot is released exactly when no handle is left, and stays released |
| ResourcePointer.ResourcePtr.constructor | thor-v1.0-sdk/include/Thor/Detail/ResourcePtr.inl:29-33 | the default handle has no slot |
| ResourcePointer.ResourcePtr.Copy | thor-v1.0-sdk/include/Thor/Detail/ResourcePtr.inl:35-48 | a copy refers to the origin's slot and is registered there, one referrer more |
| ResourcePointer.ResourcePtr.FromSlot | thor-v1.0-sdk/include/Thor/Detail/ResourcePtr.inl:143-148 | a handle made from a slot is registered with it |
| ResourcePointer.ResourcePtr.Destroy | thor-v1.0-sdk/include/Thor/Detail/ResourcePtr.inl:89-93 | the destructor deregisters from its slot; the slot is released exactly when it has no handle left |
| ResourcePointer.ResourcePtr.Reset | thor-v1.0-sdk/include/Thor/Detail/ResourcePtr.inl:116-121 | deregisters and becomes empty |
| ResourcePointer.ResourcePtr.Assign | thor-v1.0-sdk/include/Thor/Detail/ResourcePtr.inl:50-87 | assignment on the same slot changes nothing; otherwise the handle is registered with the new slot, which cannot be released, and leaves the old one, which is released exactly when it is left empty |
| ResourcePointer.ResourcePtr.Swap | thor-v1.0-sdk/include/Thor/Detail/ResourcePtr.inl:95-114 | slots are exchanged; each slot trades one referrer for the other, keeps its reference count and is never released on the way |
| ResourcePointer.ResourcePtr.IsValid | thor-v1.0-sdk/include/Thor/Detail/ResourcePtr.inl:123-127 | true exactly when the handle has a slot |
| ResourcePointer.ResourcePtr.Dereference | thor-v1.0-sdk/include/Thor/Detail/ResourcePtr.inl:129-141 | needs a slot, and yields its resource |
| ResourcePointer.ResourcePtr.Invalidate | thor-v1.0-sdk/include/Thor/Detail/ResourcePtr.inl:164-168 | the handle forgets its slot |
| ResourcePointer.ResourcePtr.Equals | thor-v1.0-sdk/include/Thor/Detail/ResourcePtr.inl:179-185 | handles are equal exactly when they refer to the same slot |
| ResourcePointer.ResourcePtr.NotEquals | thor-v1.0-sdk/include/Thor/Detail/ResourcePtr.inl:187-191 | the exact negation of `==` |
| GraphicsKeys.ComponentOrderIsStrictTotal | thor-v1.0-sdk/src/GraphicsKeys.cpp:86-89 | the order on the values streamed into key info is a strict total order |
| GraphicsKeys.InfoOrder | thor-v1.0-sdk/src/GraphicsKeys.cpp:86-89 | the key-info order is irreflexive and transitive, and two key infos are equivalent exactly when they are equal |
| GraphicsKeys.Tagged | thor-v1.0-sdk/src/GraphicsKeys.cpp:43-73 | key info is the kind tag, then the parameters, then the user tag |
| GraphicsKeys.TaggedInjective | thor-v1.0-sdk/src/GraphicsKeys.cpp:43-73 | key info determines kind, parameters and user tag |
| GraphicsKeys.KindsNeverCollide | thor-v1.0-sdk/src/GraphicsKeys.cpp:43-73 | size, file, memory and pixel keys never share key info, whatever their parameters and tags |
| GraphicsKeys.FileKeysEquivalence | thor-v1.0-sdk/src/GraphicsKeys.cpp:51-57 | two file keys are equivalent exactly when file name and tag agree |
| GraphicsKeys.MemoryKeysEquivalence | thor-v1.0-sdk/src/GraphicsKeys.cpp:59-65 | two memory keys are equivalent exactly when address, size and tag agree |
| GraphicsKeys.Key.constructor | thor-v1.0-sdk/src/GraphicsKeys.cpp:43-49 | a key holds the loader and key info its factory gives it |
| GraphicsKeys.Key.Load | thor-v1.0-sdk/src/GraphicsKeys.cpp:75-78 | loading runs the key's own loader and reports its result, failure included |
| GraphicsKeys.Key.Swap | thor-v1.0-sdk/src/GraphicsKeys.cpp:80-84 | exchanges loader and key info |
| GraphicsKeys.KeyEquivalenceIsInfoEquality | thor-v1.0-sdk/src/GraphicsKeys.cpp:86-89 | keys are equivalent under `operator<` exactly when their key infos are equal; loaders play no part |
| GraphicsKeys.ImageFromSize | thor-v1.0-sdk/src/GraphicsKeys.cpp:43-49 | loader creates an image of that size and colour; key info is ("Size", width, height, colour, tag) |
| GraphicsKeys.ImageFromFileKey | thor-v1.0-sdk/src/GraphicsKeys.cpp:51-57 | loader loads the file; key info is ("File", name, tag) |
| GraphicsKeys.ImageFromMemoryKey | thor-v1.0-sdk/src/GraphicsKeys.cpp:59-65 | loader loads from memory; key info is ("Memory", address, size, tag) |
| GraphicsKeys.ImageFromPixelsKey | thor-v1.0-sdk/src/GraphicsKeys.cpp:67-73 | loader loads from pixels; key info is ("Pixels", width, height, address, tag) |
| GraphicsKeys.ShaderFromFileKey | thor-v1.0-sdk/src/GraphicsKeys.cpp:98-104 | loader loads the shader file; key info is ("File", name, tag) |
| GraphicsKeys.ShaderFromMemoryKey | thor-v1.0-sdk/src/GraphicsKeys.cpp:106-112 | loader loads the shader code; key info is ("Memory", code, tag) |
| GraphicsKeys.FontFromFileKey | thor-v1.0-sdk/src/GraphicsKeys.cpp:137-143 | loader loads the font file; key info is ("File", name, tag) |
| GraphicsKeys.FontFromMemoryKey | thor-v1.0-sdk/src/GraphicsKeys.cpp:145-151 | loader loads the font from memory; key info is ("Memory", address, size, tag) |
| AssociativeHelpers.PairLessIgnoresValues | thor-v1.0-sdk/include/Thor/Detail/AssociativeHelpers.hpp:51-56 | pairs compare by key alone; values never change a comparison |
| AssociativeHelpers.PairLess | thor-v1.0-sdk/include/Thor/Detail/AssociativeHelpers.hpp:51-56 | `operator<` on key-value pairs compares the keys; `PairLessIgnoresValues` states it |
| AssociativeHelpers.Equivalent | thor-v1.0-sdk/include/Thor/Detail/AssociativeHelpers.hpp:59-64 | neither value is less than the other; `BinarySearch` and `FindKeyCorrect` rely on it |
| AssociativeHelpers.EquivalenceIsEquivalence | thor-v1.0-sdk/include/Thor/Detail/AssociativeHelpers.hpp:59-64 | `Equivalent` is symmetric, and for a strict weak order also reflexive and transitive |
| AssociativeHelpers.LowerBound | thor-v1.0-sdk/include/Thor/Detail/AssociativeHelpers.hpp:72 | `std::lower_bound`: every element before the result is less than the value, the one at it is not |
| AssociativeHelpers.LowerBoundFrom | thor-v1.0-sdk/include/Thor/Detail/AssociativeHelpers.hpp:72 | the first position at or after the start whose element is not less than the value: everything skipped is less, the one found is not |
| AssociativeHelpers.LowerBoundSplits | thor-v1.0-sdk/include/Thor/Detail/AssociativeHelpers.hpp:72 | on a sorted range, nothing from the lower bound on is less than the value |
| AssociativeHelpers.BinarySearchAsWritten | thor-v1.0-sdk/include/Thor/Detail/AssociativeHelpers.hpp:66-79 | the search as written dereferences the end iterator exactly when the lower bound is the end |
| AssociativeHelpers.BinarySearchReadsPastEnd | thor-v1.0-sdk/include/Thor/Detail/AssociativeHelpers.hpp:72-75 | the as-written search reads past the end on the empty range, and on `[1]` searched for `2` |
| AssociativeHelpers.BinarySearch | thor-v1.0-sdk/include/Thor/Detail/AssociativeHelpers.hpp:66-79 | the result is the end, or a position whose element is equivalent to the value |
| AssociativeHelpers.BinarySearchAgrees | thor-v1.0-sdk/include/Thor/Detail/AssociativeHelpers.hpp:66-79 | wherever the as-written search does not read past the end, it returns what the corrected one returns |
| AssociativeHelpers.BinarySearchCorrect | thor-v1.0-sdk/include/Thor/Detail/AssociativeHelpers.hpp:66-79 | on a sorted range the result is the first equivalent element, and the end only when no element is equivalent |
| SortedVector.EntryOrderIsStrictWeak | thor-v1.0-sdk/include/Thor/Detail/AssociativeHelpers.hpp:51-56 | pairs ordered by a strict total order on keys form a strict weak order |
| SortedVector.ToMap | thor-v1.0-sdk/include/Thor/Tools/SingleDispatcher.hpp:178 | a table with increasing keys is a map with exactly the table's keys and values |
| SortedVector.FindKeyCorrect | thor-v1.0-sdk/include/Thor/Tools/SingleDispatcher.hpp:171-172 | on an increasing table the search finds the key's entry exactly when the key is present, and returns the end otherwise |
| SortedVector.FindKey | thor-v1.0-sdk/include/Thor/Tools/SingleDispatcher.hpp:171-172 | `Find`: a position within the table or its end; `FindKeyCorrect` states which |
| SortedVector.Insert | thor-v1.0-sdk/include/Thor/Tools/SingleDispatcher.hpp:168-169 | inserting an entry at its lower bound adds one entry and exactly its key |
| SortedVector.InsertCorrect | thor-v1.0-sdk/include/Thor/Tools/SingleDispatcher.hpp:168-169 | inserting an absent key keeps the table increasing, and the table as a map becomes the old map updated at that key |
| SingleDispatch.TypeOrderIsStrictTotal | thor-v1.0-sdk/include/Thor/Tools/SingleDispatcher.hpp:159-162 | the order on type ids is a strict total order |
| SingleDispatch.SingleDispatcher.constructor | thor-v1.0-sdk/include/Thor/Tools/SingleDispatcher.hpp:78 | a new dispatcher has no registered function |
| SingleDispatch.SingleDispatcher.Register | thor-v1.0-sdk/include/Thor/Tools/SingleDispatcher.hpp:99-146 | needs a type with no function yet, as the precondition demands; afterwards the table maps that type to the function, and every other type as before |
| SingleDispatch.SingleDispatcher.Find | thor-v1.0-sdk/include/Thor/Tools/SingleDispatcher.hpp:171-172 | the position of the type's entry exactly when the type is registered, otherwise the end |
| SingleDispatch.SingleDispatcher.Call | thor-v1.0-sdk/include/Thor/Tools/SingleDispatcher.hpp:148-153 | invokes the function registered for the dynamic type, or throws `FunctionCallException` when there is none |
| SingleDispatch.RegisterThenCall | thor-v1.0-sdk/include/Thor/Tools/SingleDispatcher.hpp:99-153 | after registering a type, calling with it invokes that function, while an unregistered type still throws |
| DoubleDispatch.TypePairOrderIsStrictTotal | thor-v1.0-sdk/include/Thor/Tools/DoubleDispatcher.hpp:173 | the lexicographic order on pairs of type ids is a strict total order |
| DoubleDispatch.MakeArgumentPair | thor-v1.0-sdk/include/Thor/Tools/DoubleDispatcher.hpp:188-189 | a symmetric dispatcher orders the pair, a non-symmetric one keeps it; both keep the two types |
| DoubleDispatch.DoubleDispatcher.KeyOf | thor-v1.0-sdk/include/Thor/Tools/DoubleDispatcher.hpp:188-189 | the table key for a pair of argument types under this dispatcher's symmetry; `MakeArgumentPair` states it |
| DoubleDispatch.ArgumentPairSymmetry | thor-v1.0-sdk/include/Thor/Tools/DoubleDispatcher.hpp:188-189 | in symmetric mode the argument order does not matter; otherwise two different types in swapped order give different keys |
| DoubleDispatch.DoubleDispatcher.constructor | thor-v1.0-sdk/include/Thor/Tools/DoubleDispatcher.hpp:77-81 | a new dispatcher is empty and remembers whether it is symmetric; without an argument it is symmetric |
| DoubleDispatch.DoubleDispatcher.Register | thor-v1.0-sdk/include/Thor/Tools/DoubleDispatcher.hpp:105-158 | needs a pair with no function yet; afterwards the table maps the pair's key to the function, and every other key as before |
| DoubleDispatch.DoubleDispatcher.Find | thor-v1.0-sdk/include/Thor/Tools/DoubleDispatcher.hpp:185-186 | the position of the pair's entry exactly when its key is registered, otherwise the end |
| DoubleDispatch.DoubleDispatcher.Call | thor-v1.0-sdk/include/Thor/Tools/DoubleDispatcher.hpp:160-167 | invokes the function registered for the two dynamic types, or throws `FunctionCallException` |
| DoubleDispatch.SymmetricRegistration | thor-v1.0-sdk/include/Thor/Tools/DoubleDispatcher.hpp:188-196 | in a symmetric dispatcher one registration serves both argument orders |
| DoubleDispatch.DefaultIsSymmetric | thor-v1.0-sdk/include/Thor/Tools/DoubleDispatcher.hpp:77-81 | a dispatcher built with the default argument is symmetric: a function registered for (D1, D2) is invoked for a call with (D2, D1) |
| EventListener.SwapAt | thor-v1.0-sdk/include/Thor/Detail/EventListener.hpp:70-74 | `Listener::Swap` exchanges two listeners and nothing else, keeping the same listeners |
| EventListener.ListenerSequence.constructor | thor-v1.0-sdk/include/Thor/Detail/EventListener.hpp:101-153 | a new sequence is empty |
| EventListener.ListenerSequence.Add | thor-v1.0-sdk/include/Thor/Detail/EventListener.hpp:116-128 | the listener goes to the back, and its connection is returned |
| EventListener.ListenerSequence.Remove | thor-v1.0-sdk/include/Thor/Detail/EventListener.hpp:130-136 | removal in O(1): exactly one listener fewer, the removed slot takes the last listener, every other slot is unchanged |
| EventListener.ListenerSequence.Clear | thor-v1.0-sdk/include/Thor/Detail/EventListener.hpp:138-142 | no listener is left |
| EventListener.ListenerSequence.Call | thor-v1.0-sdk/include/Thor/Detail/EventListener.hpp:144-149 | every listener's callback is invoked once with the argument, in container order |
| EventListener.AddThenRemove | thor-v1.0-sdk/include/Thor/Detail/EventListener.hpp:116-136 | adding a listener and removing it through its position restores the sequence |
| EventListener.Select | thor-v1.0-sdk/include/Thor/Detail/EventListener.hpp:213 | the entries under a trigger are a subsequence of the multimap |
| EventListener.Without | thor-v1.0-sdk/include/Thor/Detail/EventListener.hpp:201 | erasing a key leaves only entries from the multimap whose trigger is not equivalent to it |
| EventListener.SelectAppend | thor-v1.0-sdk/include/Thor/Detail/EventListener.hpp:213 | selecting from a concatenation selects from each part, in order |
| EventListener.WithoutSorted | thor-v1.0-sdk/include/Thor/Detail/EventListener.hpp:199-202 | erasing a key keeps the multimap sorted and keeps every entry under other triggers |
| EventListener.KeyLowerBound | thor-v1.0-sdk/include/Thor/Detail/EventListener.hpp:213 | the first entry whose trigger is not less than the key |
| EventListener.KeyUpperBound | thor-v1.0-sdk/include/Thor/Detail/EventListener.hpp:213 | the first entry whose trigger is greater than the key |
| EventListener.BoundsSplit | thor-v1.0-sdk/include/Thor/Detail/EventListener.hpp:213 | on a sorted multimap the lower bound does not pass the upper one, and each bound splits the range |
| EventListener.SelectNone | thor-v1.0-sdk/include/Thor/Detail/EventListener.hpp:213 | with no equivalent trigger, nothing is selected |
| EventListener.SelectAll | thor-v1.0-sdk/include/Thor/Detail/EventListener.hpp:213 | with every trigger equivalent, everything is selected |
| EventListener.SelectMiddle | thor-v1.0-sdk/include/Thor/Detail/EventListener.hpp:213 | a block of equivalent triggers between smaller and greater ones is exactly the selection |
| EventListener.EqualRangeIsSelect | thor-v1.0-sdk/include/Thor/Detail/EventListener.hpp:211-217 | `equal_range(event)` is exactly the entries whose trigger is equivalent to the event, in multimap order |
| EventListener.SelectInserted | thor-v1.0-sdk/include/Thor/Detail/EventListener.hpp:183 | inserting one entry adds it to the selection of equivalent triggers only |
| EventListener.SelectSingle | thor-v1.0-sdk/include/Thor/Detail/EventListener.hpp:213 | a single entry is selected exactly when its trigger is equivalent |
| EventListener.InsertKeepsSorted | thor-v1.0-sdk/include/Thor/Detail/EventListener.hpp:183 | inserting between smaller-or-equivalent and greater triggers keeps the multimap sorted |
| EventListener.InsertAtUpperBound | thor-v1.0-sdk/include/Thor/Detail/EventListener.hpp:183 | `multimap::insert` at the upper bound keeps the order, adds the entry once and puts it last among its equivalent triggers |
| EventListener.ListenerMap.constructor | thor-v1.0-sdk/include/Thor/Detail/EventListener.hpp:158-221 | a new map is empty |
| EventListener.ListenerMap.Add | thor-v1.0-sdk/include/Thor/Detail/EventListener.hpp:179-190 | one entry more; under the trigger the new listener comes after those already there; nothing changes under other triggers |
| EventListener.ListenerMap.Remove | thor-v1.0-sdk/include/Thor/Detail/EventListener.hpp:192-196 | exactly the entry at the iterator is erased; the rest keep their order |
| EventListener.ListenerMap.Clear | thor-v1.0-sdk/include/Thor/Detail/EventListener.hpp:198-202 | exactly the entries whose trigger is equivalent to the key are erased |
| EventListener.ListenerMap.ClearAll | thor-v1.0-sdk/include/Thor/Detail/EventListener.hpp:204-208 | no entry is left |
| EventListener.ListenerMap.Call | thor-v1.0-sdk/include/Thor/Detail/EventListener.hpp:210-217 | exactly the listeners whose trigger is equivalent to the event are invoked, in multimap order, once each |
| Particles.UpdateParticle | thor-v1.0-sdk/src/ParticleSystem.cpp:293-299 | aging adds `dt` to the passed lifetime and keeps total lifetime, velocity, rotation speed, scale and colour |
| Particles.UpdateParticleComposes | thor-v1.0-sdk/src/ParticleSystem.cpp:293-299 | updating by `a` and then `b` is updating by `a + b`; updating by zero changes nothing |
| Particles.Alive | thor-v1.0-sdk/src/ParticleSystem.cpp:207 | a particle lives while its passed lifetime is below its total lifetime |
| Particles.Affected | thor-v1.0-sdk/src/ParticleSystem.cpp:210-211 | every affector acts on a living particle once, in list order |
| Particles.Survivors | thor-v1.0-sdk/src/ParticleSystem.cpp:193-220 | an update never adds particles |
| Particles.SurvivorsAppend | thor-v1.0-sdk/src/ParticleSystem.cpp:193-220 | the survivors of a concatenation are each part's survivors, in order, so an update keeps the particles' relative order |
| Particles.SurvivorsWithoutAffectors | thor-v1.0-sdk/src/ParticleSystem.cpp:193-220 | without affectors, every survivor is alive and every aged particle that is alive survives |
| Particles.SurvivorsExtremes | thor-v1.0-sdk/src/ParticleSystem.cpp:193-220 | when every particle expires nothing survives; when none does, all of them survive |
| Particles.Find | thor-v1.0-sdk/src/ParticleSystem.cpp:144-150 | `std::find`: the first position holding the pointer, or the end when it is absent |
| Particles.ParticleSystem.constructor | thor-v1.0-sdk/src/ParticleSystem.cpp:106-122 | no particles, affectors or emitters, no glow |
| Particles.ParticleSystem.Swap | thor-v1.0-sdk/src/ParticleSystem.cpp:124-134 | exchanges particles, affectors, emitters, texture and glow flag |
| Particles.ParticleSystem.ContainsAffector | thor-v1.0-sdk/src/ParticleSystem.cpp:157-160 | true exactly when the affector is in the list |
| Particles.ParticleSystem.AddAffector | thor-v1.0-sdk/src/ParticleSystem.cpp:136-142 | a non-NULL affector not in the list yet, as asserted, goes to the back; no duplicates ever; the other lists, the texture and the glow flag are unchanged |
| Particles.ParticleSystem.RemoveAffector | thor-v1.0-sdk/src/ParticleSystem.cpp:144-150 | the affector, which must be present, is erased from its position; the others keep their order; the other lists, the texture and the glow flag are unchanged |
| Particles.ParticleSystem.ClearAffectors | thor-v1.0-sdk/src/ParticleSystem.cpp:152-155 | no affector is left; particles, emitters, the texture and the glow flag are unchanged |
| Particles.ParticleSystem.ContainsEmitter | thor-v1.0-sdk/src/ParticleSystem.cpp:183-186 | true exactly when the emitter is in the list |
| Particles.ParticleSystem.AddEmitter | thor-v1.0-sdk/src/ParticleSystem.cpp:162-168 | a non-NULL emitter not in the list yet goes to the back; the other lists, the texture and the glow flag are unchanged |
| Particles.ParticleSystem.RemoveEmitter | thor-v1.0-sdk/src/ParticleSystem.cpp:170-176 | the emitter, which must be present, is erased from its position; the others keep their order; the other lists, the texture and the glow flag are unchanged |
| Particles.ParticleSystem.ClearEmitters | thor-v1.0-sdk/src/ParticleSystem.cpp:178-181 | no emitter is left; particles, affectors, the texture and the glow flag are unchanged |
| Particles.ParticleSystem.AddParticle | thor-v1.0-sdk/src/ParticleSystem.cpp:188-191 | the particle goes to the back; the other lists, the texture and the glow flag are unchanged |
| Particles.ParticleSystem.Update | thor-v1.0-sdk/src/ParticleSystem.cpp:193-220 | the particle list becomes the survivors of the old particles plus the emitted ones: aged, expired ones dropped, affectors applied in order, relative order kept |
| Particles.ParticleSystem.ClearParticles | thor-v1.0-sdk/src/ParticleSystem.cpp:232-235 | no particle is left; the other lists, the texture and the glow flag are unchanged |
| Particles.ParticleSystem.SetGlowing | thor-v1.0-sdk/src/ParticleSystem.cpp:237-240 | sets the glow flag; particles, affectors, emitters and texture are unchanged |
| Particles.ParticleSystem.IsGlowing | thor-v1.0-sdk/src/ParticleSystem.cpp:242-245 | yields the glow flag |
| Concave.TriangleShape | thor-v1.0-sdk/src/ConcaveShape.cpp:97-106 | each triangle becomes a polygon of three vertices |
| Concave.TriangleShapes | thor-v1.0-sdk/src/ConcaveShape.cpp:71-106 | the triangle shapes are rebuilt from scratch, one per triangle, in order |
| Concave.Outline | thor-v1.0-sdk/src/ConcaveShape.cpp:223-233 | two shapes per edge, a circle at its first point and a line along it, in edge order |
| Concave.EdgeOutline | thor-v1.0-sdk/src/ConcaveShape.cpp:223-233 | one edge's outline: a circle of half the thickness at its first point, and a line of half thickness to its second point, in the points' outline colours |
| Concave.OutlineAsWritten | thor-v1.0-sdk/src/ConcaveShape.cpp:216-234 | as written, a zero thickness keeps the previous outline shapes, and any other thickness appends a new outline after them |
| Concave.IntendedOutline | thor-v1.0-sdk/src/ConcaveShape.cpp:216-234 | no outline shape exactly when the thickness is zero or there is no edge; otherwise two per edge |
| Concave.StaleOutline | thor-v1.0-sdk/src/ConcaveShape.cpp:216-234 | once an outline exists, re-forming it as written never gives the outline for the new thickness |
| Concave.OutlineAsWrittenFromEmpty | thor-v1.0-sdk/src/ConcaveShape.cpp:216-234 | from an empty cache the as-written and intended outlines agree |
| Concave.ConcaveShape.constructor | thor-v1.0-sdk/src/ConcaveShape.cpp:115-125 | no points, zero thickness, empty caches, nothing to update |
| Concave.ConcaveShape.FromShape | thor-v1.0-sdk/src/ConcaveShape.cpp:127-141 | takes the shape's points in order and its thickness; the shape itself is the only triangle shape until the first update; both updates pending |
| Concave.ConcaveShape.AddPoint | thor-v1.0-sdk/src/ConcaveShape.cpp:143-154 | the point goes to the back and both caches are marked stale |
| Concave.ConcaveShape.SetOutlineThickness | thor-v1.0-sdk/src/ConcaveShape.cpp:156-162 | needs a non-negative thickness; stores it and marks only the outline stale |
| Concave.ConcaveShape.GetOutlineThickness | thor-v1.0-sdk/src/ConcaveShape.cpp:164-167 | yields the stored thickness |
| Concave.ConcaveShape.Swap | thor-v1.0-sdk/src/ConcaveShape.cpp:169-178 | exchanges all seven members; both shapes keep honest caches |
| Concave.ConcaveShape.Decompose | thor-v1.0-sdk/src/ConcaveShape.cpp:208-214 | triangle shapes and edges become exactly the triangulation of the current points |
| Concave.ConcaveShape.FormOutlineAsWritten | thor-v1.0-sdk/src/ConcaveShape.cpp:216-234 | the outline shapes become `OutlineAsWritten` of the old ones |
| Concave.ConcaveShape.FormOutline | thor-v1.0-sdk/src/ConcaveShape.cpp:216-234 | the outline shapes become exactly the outline of the current edges at the current thickness |
| Concave.ConcaveShape.AppendOutline | thor-v1.0-sdk/src/ConcaveShape.cpp:223-233 | the loop appends two shapes per edge to the outline shapes |
| Concave.ConcaveShape.Render | thor-v1.0-sdk/src/ConcaveShape.cpp:180-206 | with at most one point nothing is drawn or changed; otherwise exactly the triangles, then the outline, of the current points are drawn, caches that were up to date are reused, and both flags are cleared (with `FormOutline` corrected; see ## Findings, ConcaveShape.cpp:216-234) |
| VectorAlgebra.CrossProduct | thor-v1.0-sdk/include/Thor/Detail/VectorAlgebra2D.inl:119-126 | the 2D cross product lies on the z axis |
| VectorAlgebra.DotProduct | thor-v1.0-sdk/include/Thor/Detail/VectorAlgebra2D.inl:113-117 | the sum of the componentwise products; its symmetry and linearity are `ProductSymmetry` and `DotProductLinear` |
| VectorAlgebra.PerpendicularVector | thor-v1.0-sdk/include/Thor/Detail/VectorAlgebra2D.inl:97-101 | the vector turned a quarter counter-clockwise, (-y, x); `PerpendicularProperties` and `PerpendicularTwice` state what that means |
| VectorAlgebra.ComponentwiseProduct | thor-v1.0-sdk/include/Thor/Detail/VectorAlgebra2D.inl:128-132 | the product of each pair of components; `QuotientUndoesProduct` relates it to the quotient |
| VectorAlgebra.SquaredLength | thor-v1.0-sdk/include/Thor/Detail/VectorAlgebra2D.inl:36 | never negative |
| VectorAlgebra.SquaredLengthZero | thor-v1.0-sdk/include/Thor/Detail/VectorAlgebra2D.inl:36 | zero exactly for the zero vector |
| VectorAlgebra.PerpendicularProperties | thor-v1.0-sdk/include/Thor/Detail/VectorAlgebra2D.inl:97-101 | the perpendicular vector is orthogonal to the vector, equally long, and turned counter-clockwise |
| VectorAlgebra.PerpendicularTwice | thor-v1.0-sdk/include/Thor/Detail/VectorAlgebra2D.inl:97-101 | two quarter turns negate the vector, four restore it |
| VectorAlgebra.ProductSymmetry | thor-v1.0-sdk/include/Thor/Detail/VectorAlgebra2D.inl:113-126 | the dot product is symmetric and the cross product antisymmetric |
| VectorAlgebra.DotProductLinear | thor-v1.0-sdk/include/Thor/Detail/VectorAlgebra2D.inl:113-117 | the dot product is linear in its first argument |
| VectorAlgebra.CrossProductSelf | thor-v1.0-sdk/include/Thor/Detail/VectorAlgebra2D.inl:119-126 | a vector's cross product with itself is zero |
| VectorAlgebra.ComponentwiseQuotient | thor-v1.0-sdk/include/Thor/Detail/VectorAlgebra2D.inl:134-139 | needs non-zero components, as asserted; multiplying the quotient back gives the dividend |
| VectorAlgebra.QuotientUndoesProduct | thor-v1.0-sdk/include/Thor/Detail/VectorAlgebra2D.inl:128-139 | the componentwise product is commutative, and dividing by a factor undoes multiplying by it |
| VectorAlgebra.IsTruncatedQuotient | thor-v1.0-sdk/include/Thor/Detail/VectorAlgebra2D.inl:134-139 | C++ integer division: the remainder has the sign of the dividend and is smaller in size than the divisor |
| VectorAlgebra.TruncatedDivision | thor-v1.0-sdk/include/Thor/Detail/VectorAlgebra2D.inl:134-139 | integer `/` rounds toward zero: the result is a truncated quotient of the operands |
| VectorAlgebra.TruncatedDivisionUnique | thor-v1.0-sdk/include/Thor/Detail/VectorAlgebra2D.inl:134-139 | there is exactly one truncated quotient, so it determines integer `/` |
| VectorAlgebra.TruncatedDivisionExamples | thor-v1.0-sdk/include/Thor/Detail/VectorAlgebra2D.inl:134-139 | dividing a multiple gives the factor back; 1/2 is 0 and -7/2 is -3 |
| VectorAlgebra.ComponentwiseProductInt | thor-v1.0-sdk/include/Thor/Detail/VectorAlgebra2D.inl:128-132 | the integer componentwise product (no ensures; used by `IntQuotientRoundTrips`) |
| VectorAlgebra.ComponentwiseQuotientInt | thor-v1.0-sdk/include/Thor/Detail/VectorAlgebra2D.inl:134-139 | needs non-zero components; each component of an integer vector is divided with truncation toward zero |
| VectorAlgebra.IntQuotientRoundTrips | thor-v1.0-sdk/include/Thor/Detail/VectorAlgebra2D.inl:128-139 | for integer vectors, dividing a product by its factor gives the other factor back, but (1,1)/(2,2) is (0,0), so multiplying a quotient back need not give the dividend |
| VectorAlgebra.Truncate | thor-v1.0-sdk/include/Thor/Detail/VectorAlgebra2D.inl:144-150 | the float-to-int cast rounds toward zero: within one of the value, never farther from zero |
| VectorAlgebra.ConvertToInt | thor-v1.0-sdk/include/Thor/Detail/VectorAlgebra2D.inl:144-150 | `ConvertVector` to int truncates each component |
| VectorAlgebra.ConvertToReal | thor-v1.0-sdk/include/Thor/Detail/VectorAlgebra2D.inl:144-150 | `ConvertVector` to float keeps each component's value |
| VectorAlgebra.TruncateWhole | thor-v1.0-sdk/include/Thor/Detail/VectorAlgebra2D.inl:144-150 | truncating a whole number gives it back |
| VectorAlgebra.ConvertRoundTrip | thor-v1.0-sdk/include/Thor/Detail/VectorAlgebra2D.inl:144-150 | int to float to int is the identity |
| VectorAlgebra.ProductSymmetry3 | thor-v1.0-sdk/include/Thor/Vectors/VectorAlgebra3D.hpp:85-99 | 3D dot and componentwise products are symmetric; the cross product is antisymmetric |
| VectorAlgebra.DotProduct3 | thor-v1.0-sdk/include/Thor/Vectors/VectorAlgebra3D.hpp:85-88 | the sum of the componentwise products; `ProductSymmetry3` shows it symmetric |
| VectorAlgebra.CrossProduct3 | thor-v1.0-sdk/include/Thor/Vectors/VectorAlgebra3D.hpp:90-93 | the textbook cross product; `CrossProductOrthogonal` and `ProductSymmetry3` show it orthogonal to both factors and antisymmetric |
| VectorAlgebra.ComponentwiseProduct3 | thor-v1.0-sdk/include/Thor/Vectors/VectorAlgebra3D.hpp:95-99 | the product of each pair of components; `ProductSymmetry3` shows it symmetric |
| VectorAlgebra.CrossProductOrthogonal | thor-v1.0-sdk/include/Thor/Vectors/VectorAlgebra3D.hpp:90-93 | the cross product is orthogonal to both factors |
| VectorAlgebra.SquaredLength3 | thor-v1.0-sdk/include/Thor/Vectors/VectorAlgebra3D.hpp:58-61 | never negative |
| VectorAlgebra.SquaredLengthZero3 | thor-v1.0-sdk/include/Thor/Vectors/VectorAlgebra3D.hpp:58-61 | zero exactly for the zero vector |
| VectorAlgebra.ComponentwiseQuotient3 | thor-v1.0-sdk/include/Thor/Vectors/VectorAlgebra3D.hpp:101-106 | needs non-zero components; multiplying the quotient back gives the dividend |
| VectorAlgebra.ComponentwiseProduct3i | thor-v1.0-sdk/include/Thor/Vectors/VectorAlgebra3D.hpp:95-99 | the integer 3D componentwise product (no ensures; used by `IntQuotientRoundTrips3`) |
| VectorAlgebra.ComponentwiseQuotient3i | thor-v1.0-sdk/include/Thor/Vectors/VectorAlgebra3D.hpp:101-106 | needs non-zero components; each component of an integer vector is divided with truncation toward zero |
| VectorAlgebra.IntQuotientRoundTrips3 | thor-v1.0-sdk/include/Thor/Vectors/VectorAlgebra3D.hpp:95-106 | for integer 3D vectors, dividing a product by its factor gives the other factor back |
| VectorAlgebra.ToVector3 | thor-v1.0-sdk/include/Thor/Vectors/VectorAlgebra3D.hpp:116-119 | keeps x and y and sets z to zero |
| VectorAlgebra.EmbeddingKeepsProducts | thor-v1.0-sdk/include/Thor/Vectors/VectorAlgebra3D.hpp:116-119 | embedding into 3D keeps dot product, cross product and squared length |
| VectorAlgebra.ConvertToInt3 | thor-v1.0-sdk/include/Thor/Vectors/VectorAlgebra3D.hpp:111-114 | truncates each component |
| VectorAlgebra.ConvertToReal3 | thor-v1.0-sdk/include/Thor/Vectors/VectorAlgebra3D.hpp:111-114 | keeps each component's value |
| VectorAlgebra.ConvertRoundTrip3 | thor-v1.0-sdk/include/Thor/Vectors/VectorAlgebra3D.hpp:111-114 | int to float to int is the identity |
| Attributes2D.Positionable.constructor | thor-v1.0-sdk/src/Attributes2D.cpp:32-35 | starts at the given position |
| Attributes2D.Positionable.SetPosition | thor-v1.0-sdk/src/Attributes2D.cpp:42-46 | the position becomes (x, y) |
| Attributes2D.Positionable.SetPositionVector | thor-v1.0-sdk/src/Attributes2D.cpp:37-40 | the position becomes the vector |
| Attributes2D.Positionable.Move | thor-v1.0-sdk/src/Attributes2D.cpp:53-57 | the offsets are added to the position |
| Attributes2D.Positionable.MoveVector | thor-v1.0-sdk/src/Attributes2D.cpp:48-51 | the offset vector is added to the position |
| Attributes2D.Positionable.GetPosition | thor-v1.0-sdk/src/Attributes2D.cpp:59-62 | yields the position |
| Attributes2D.MoveTwice | thor-v1.0-sdk/src/Attributes2D.cpp:48-51 | two moves add up, in either order |
| Attributes2D.Rotatable.constructor | thor-v1.0-sdk/src/Attributes2D.cpp:67-70 | starts at the given rotation |
| Attributes2D.Rotatable.SetRotation | thor-v1.0-sdk/src/Attributes2D.cpp:72-75 | the rotation becomes the angle |
| Attributes2D.Rotatable.Rotate | thor-v1.0-sdk/src/Attributes2D.cpp:77-80 | the angle is added to the rotation |
| Attributes2D.Rotatable.GetRotation | thor-v1.0-sdk/src/Attributes2D.cpp:82-85 | yields the rotation |
| Attributes2D.Scalable.constructor | thor-v1.0-sdk/src/Attributes2D.cpp:90-93 | starts at the given scale |
| Attributes2D.Scalable.SetScale | thor-v1.0-sdk/src/Attributes2D.cpp:100-104 | the scale becomes (x, y) |
| Attributes2D.Scalable.SetScaleVector | thor-v1.0-sdk/src/Attributes2D.cpp:95-98 | the scale becomes the vector |
| Attributes2D.Scalable.Scale | thor-v1.0-sdk/src/Attributes2D.cpp:111-115 | each scale component is multiplied by its factor |
| Attributes2D.Scalable.ScaleVector | thor-v1.0-sdk/src/Attributes2D.cpp:106-109 | the scale is multiplied componentwise by the factor |
| Attributes2D.Scalable.GetScale | thor-v1.0-sdk/src/Attributes2D.cpp:117-120 | yields the scale |
| Attributes2D.ScaleAndUndo | thor-v1.0-sdk/src/Attributes2D.cpp:106-109 | scaling by a factor with non-zero components and then by its reciprocal restores the scale |

## Left out

- **Floating point.** `float` is modelled as an exact real, so there is no rounding, overflow or NaN. Integer vectors have unbounded components, so overflow is not modelled. Their division is C++ integer division, which truncates toward zero (`TruncatedDivision`), so (1,1)/(2,2) is (0,0).
- **Trigonometry and square roots.** These are not modelled:
  - `Length`, `SetLength`, `UnitVector`, `PolarAngle`, `SetPolarAngle`, `Rotate`, `RotatedVector` and `Angle` in `VectorAlgebra2D.inl`.
  - `Length`, `UnitVector`, `PolarAngle` and `ElevationAngle` in `VectorAlgebra3D.hpp`.
- **3D products.** The bodies of the 3D dot, cross and componentwise products (`VectorAlgebra3D.inl`) are not part of this model. They are assumed to be the textbook formulas.
- **`SmartPtrImpl`.** The objects' own destructors are not modelled. A destroy call is recorded in the heap log, not executed. Custom destroy functions are opaque identities, and `Deletes` assumes each of them deletes its non-NULL pointee, as the default `delete` does.
- **`CopiedPtr`.**
  - `CopiedPtr.inl` is not part of this model.
  - The policy's Copy is modelled as an allocation holding the origin's value (`Heap.Copy`). The separate `mCopyFn` member is folded into the policy.
  - Converting constructors between `CopiedPtr` types with different template arguments are not modelled.
- **Resource manager.** The manager and its slot (`ResourceManager`, `ResourceSlot`) are not part of this model. The slot is seen only through `IncRef`/`DecRef`/`Invalidate`, as a set of registered handles with a release flag. What the manager does on release (freeing the resource, its release strategies) is left out.
- **Key info.** `detail::Tagger`, `GetKeyInfo` and `LoadResource` are not part of this model:
  - Key info is modelled as the streamed tuple, and assumed to compare lexicographically.
  - The SFML loading calls are opaque loader values. Their outcome is a parameter of `GraphicsKeys.Key.Load`.
- **Dispatcher internals.** The dispatchers' `.inl` files are not part of this model:
  - `Find` uses the corrected `BinarySearch`. `Register` inserts at the lower bound.
  - The function objects are opaque identities.
  - Type identity is a natural number, and a call is matched to a registration only by exact type, as in the source: the dispatchers do not support derived-to-base conversions.
- **`Listener` connections.** The strong reference, `SetEnvironment`, `ShareConnection` and `ConnectionImpl` are not part of this model. A listener carries only a connection identity, so this is not captured: after `ListenerSequence::Remove` swaps with the back, the moved listener's connection still holds its old position.
- **`ListenerMap` ordering.** `std::multimap` is modelled as a sequence sorted by trigger. Insertion goes at the upper bound of equivalent triggers, as C++11 specifies. Iterators are positions.
- **`ParticleSystem`.**
  - What the emitters emit during one `Update` is given as the `emitted` parameter.
  - What each affector does is the `affect` function parameter.
  - Drawing (`Draw`, `DrawParticle`, `PushOpenGLStates`, `PopOpenGLStates`) and the texture are left out. The texture is an opaque identity.
- **`ConcaveShape`.**
  - `TriangulatePolygon` is the `triangulate` function, fixed per shape.
  - `ColoredLine` geometry is kept symbolic: endpoints, colours and half thickness.
  - Drawing to a render target is modelled as the returned sequence of shapes.
- **Preconditions.** Assertions in the source (`assert(outlineThickness >= 0.f)`, non-NULL dereference, no duplicate registration, non-zero divisors) are modelled as preconditions.

## Findings

| source | as written | input that shows it | evidently intended | confidence | as-written member | corrected member |
|---|---|---|---|---|---|---|
| thor-v1.0-sdk/include/Thor/Detail/AssociativeHelpers.hpp:72-75 | `*result` is read without first checking `result != last` | an empty range, or `[1]` searched for `2` | return `last` when the lower bound is `last` | not executed | AssociativeHelpers.BinarySearchReadsPastEnd | AssociativeHelpers.BinarySearchCorrect |
| thor-v1.0-sdk/src/ConcaveShape.cpp:216-234 | `FormOutline` never clears `mEdgeShapes`, so each re-formed outline is appended to the stale one, and thickness 0 keeps the old outline visible | a shape with at least one edge, rendered with thickness 1, then `SetOutlineThickness(0)` (or 2) and rendered again | the outline drawn is exactly the one for the current edges and thickness, and none at thickness 0 | not executed | Concave.StaleOutline | Concave.ConcaveShape.Render |
