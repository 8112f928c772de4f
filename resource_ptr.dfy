/** `thor::ResourcePtr<Resource>`: a shared handle to a resource held by a resource manager. The
    handle refers to the manager's slot for that resource and registers itself there; the slot
    keeps the set of registered handles, and the resource may be released once that set becomes
    empty. */
module ResourcePointer {
  import opened Ownership

  /** The manager's per-resource slot, seen through the calls a handle makes on it. `referrers`
      is the set of registered handle addresses; `released` becomes true, for good, when the last
      handle deregisters. */
  class ResourceSlot {
    const resource: Pointer
    var referrers: set<ResourcePtr>
    var released: bool

    /** A released slot has no referrers, and every referrer points back to this slot. */
    ghost predicate Valid()
      reads this, referrers
    {
      (released ==> referrers == {}) &&
      forall h :: h in referrers ==> h.slot == this
    }

    /** A slot as the manager creates it for a freshly loaded resource. */
    constructor (resource: Pointer)
      ensures Valid() && this.resource == resource && referrers == {} && !released
    {
      this.resource := resource;
      referrers, released := {}, false;
    }

    /** The number of handles on the resource. */
    function RefCount(): (n: nat)
      reads this
      ensures n == 0 <==> referrers == {}
    {
      |referrers|
    }

    /** `IncRef(handle)`: registers a handle; only a slot whose resource is still there. */
    method IncRef(h: ResourcePtr)
      requires !released
      modifies this
      ensures referrers == old(referrers) + {h} && !released
    {
      referrers := referrers + {h};
    }

    /** `DecRef(handle)`: deregisters a handle; the slot is released when no handle is left. */
    method DecRef(h: ResourcePtr)
      modifies this
      ensures referrers == old(referrers) - {h}
      ensures released <==> old(released) || referrers == {}
    {
      referrers := referrers - {h};
      if referrers == {} {
        released := true;
      }
    }
  }

  /** Trading a member of a set for a non-member keeps its size. */
  lemma TradeKeepsSize<T>(s: set<T>, out: T, into: T)
    requires out in s && into !in s
    ensures |s + {into} - {out}| == |s|
  {
    assert |s + {into}| == |s| + 1;
  }

  /** A slot whose referrer `gone` was traded for `came`, now pointing at it, stays valid as long
      as the remaining referrers still point at it. */
  lemma TradedSlotValid(s: ResourceSlot, before: set<ResourcePtr>, gone: ResourcePtr, came: ResourcePtr)
    requires s.referrers == before + {came} - {gone} && !s.released && came.slot == s
    requires forall h :: h in before && h != gone ==> h.slot == s
    ensures s.Valid()
  {
  }

  class ResourcePtr {
    /** `mSlot`, NULL for an empty handle. */
    var slot: ResourceSlot?

    /** An empty handle, or one registered with a valid slot. */
    ghost predicate Valid()
      reads this, slot, if slot == null then {} else slot.referrers
    {
      slot != null ==> this in slot.referrers && slot.Valid()
    }

    /** Default constructor: no slot. */
    constructor ()
      ensures Valid() && slot == null
    {
      slot := null;
    }

    /** Copy (and converting) constructor: the same slot, with the new handle registered. */
    constructor Copy(origin: ResourcePtr)
      requires origin.Valid()
      modifies origin.slot
      ensures Valid() && slot == origin.slot && origin.Valid()
      ensures slot != null ==> slot.referrers == old(origin.slot.referrers) + {this} && !slot.released
    {
      slot := origin.slot;
      new;
      if slot != null {
        slot.IncRef(this);
      }
    }

    /** Constructor from a slot, used by the manager's `Acquire`: registers the new handle. */
    constructor FromSlot(s: ResourceSlot)
      requires s.Valid() && !s.released
      modifies s
      ensures Valid() && slot == s
      ensures s.referrers == old(s.referrers) + {this} && !s.released
    {
      slot := s;
      new;
      s.IncRef(this);
    }

    /** The destructor: deregisters from the slot, if any. */
    method Destroy()
      requires Valid()
      modifies slot
      ensures slot == old(slot)
      ensures slot != null ==> slot.Valid() && slot.referrers == old(slot.referrers) - {this}
      ensures slot != null ==> (slot.released <==> slot.referrers == {})
    {
      if slot != null {
        slot.DecRef(this);
      }
    }

    /** `Reset()`: deregisters and becomes empty. */
    method Reset()
      requires Valid()
      modifies this, slot
      ensures Valid() && slot == null
      ensures old(slot) != null ==> old(slot).Valid() && old(slot).referrers == old(slot.referrers) - {this}
      ensures old(slot) != null ==> (old(slot).released <==> old(slot).referrers == {})
    {
      if slot != null {
        slot.DecRef(this);
      }
      slot := null;
    }

    /** Assignment. A handle on the same slot, this one included, changes nothing. Otherwise the
        handle is registered with the new slot before it leaves the old one. */
    method Assign(origin: ResourcePtr)
      requires Valid() && origin.Valid()
      modifies this, slot, origin.slot
      ensures slot == origin.slot && Valid() && origin.Valid()
      ensures old(slot) == old(origin.slot) && old(slot) != null ==>
        old(slot).referrers == old(slot.referrers) && old(slot).released == old(slot.released)
      ensures old(slot) != old(origin.slot) && slot != null ==>
        slot.referrers == old(origin.slot.referrers) + {this} && !slot.released
      ensures old(slot) != old(origin.slot) && old(slot) != null ==>
        old(slot).Valid() && old(slot).referrers == old(slot.referrers) - {this} &&
        (old(slot).released <==> old(slot).referrers == {})
    {
      if slot == origin.slot {
        return;
      }
      var oldSlot := slot;
      slot := origin.slot;
      if slot != null {
        slot.IncRef(this);
      }
      if oldSlot != null {
        oldSlot.DecRef(this);
      }
    }

    /** Exchanges slots. Handles on the same slot are left alone. Otherwise every `IncRef` comes
        before any `DecRef`, so each slot trades one referrer for the other, keeps its size and is
        never released on the way. */
    method Swap(other: ResourcePtr)
      requires Valid() && other.Valid()
      modifies this, other, slot, other.slot
      ensures Valid() && other.Valid()
      ensures slot == old(other.slot) && other.slot == old(slot)
      ensures old(slot) == old(other.slot) && old(slot) != null ==>
        old(slot).referrers == old(slot.referrers) && old(slot).released == old(slot.released)
      ensures old(slot) != old(other.slot) && old(slot) != null ==>
        old(slot).referrers == old(slot.referrers) + {other} - {this} &&
        old(slot).RefCount() == old(slot.RefCount()) && !old(slot).released
      ensures old(slot) != old(other.slot) && old(other.slot) != null ==>
        old(other.slot).referrers == old(other.slot.referrers) + {this} - {other} &&
        old(other.slot).RefCount() == old(other.slot.RefCount()) && !old(other.slot).released
    {
      if slot == other.slot {
        return;
      }
      ghost var mine, theirs := slot, other.slot;
      // Register the new referrers first, so that neither slot runs empty.
      if slot != null {
        slot.IncRef(other);
      }
      if other.slot != null {
        other.slot.IncRef(this);
      }
      if slot != null {
        slot.DecRef(this);
      }
      if other.slot != null {
        other.slot.DecRef(other);
      }
      slot, other.slot := other.slot, slot;
      if mine != null {
        TradedSlotValid(mine, old(mine.referrers), this, other);
        TradeKeepsSize(old(mine.referrers), this, other);
      }
      if theirs != null {
        TradedSlotValid(theirs, old(theirs.referrers), other, this);
        TradeKeepsSize(old(theirs.referrers), other, this);
      }
    }

    /** Safe-bool conversion: true when the handle has a slot. */
    method IsValid() returns (r: bool)
      ensures r <==> slot != null
    {
      r := slot != null;
    }

    /** `operator*`/`operator->`: the slot's resource, which needs a slot. */
    method Dereference() returns (p: Pointer)
      requires slot != null
      ensures p == slot.resource
    {
      p := slot.resource;
    }

    /** Called by the manager when the resource goes away: forgets the slot without deregistering. */
    method Invalidate()
      modifies this
      ensures slot == null
    {
      slot := null;
    }

    /** `operator==`: slot identity, nothing else. */
    method Equals(other: ResourcePtr) returns (r: bool)
      ensures r <==> slot == other.slot
    {
      r := slot == other.slot;
    }

    /** `operator!=`: the negation of `operator==`. */
    method NotEquals(other: ResourcePtr) returns (r: bool)
      ensures r <==> slot != other.slot
    {
      var equal := Equals(other);
      r := !equal;
    }
  }
}
