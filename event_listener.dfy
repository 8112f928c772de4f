/** `thor::detail`'s listener containers: `ListenerSequence`, a vector of listeners with O(1)
    swap-and-pop removal, and `ListenerMap`, a multimap from triggers to listeners. A listener's
    callback and its connection are opaque identities; calling the listeners is recorded as the
    sequence of invocations it makes. */
module EventListener {
  import opened AssociativeHelpers

  type CallbackId = nat
  type ConnectionId = nat

  /** `Listener<Parameter>`: the callback `mFunction` and the strong reference `mStrongRef` that
      the listener's connections observe. */
  datatype Listener = Listener(callback: CallbackId, connection: ConnectionId)

  /** One call of a listener's callback with an argument. */
  datatype Invocation<P> = Invocation(callback: CallbackId, arg: P)

  /** `Listener::Swap` applied to positions `i` and `j` of a container: the two listeners trade
      places, callback and connection together, and nothing else moves. */
  function SwapAt(s: seq<Listener>, i: nat, j: nat): (r: seq<Listener>)
    requires i < |s| && j < |s|
    ensures |r| == |s| && r[i] == s[j] && r[j] == s[i]
    ensures forall k :: 0 <= k < |s| && k != i && k != j ==> r[k] == s[k]
    ensures multiset(r) == multiset(s)
  {
    s[i := s[j]][j := s[i]]
  }

  /** `ListenerSequence<Parameter>`. */
  class ListenerSequence {
    /** `mListeners`. */
    var listeners: seq<Listener>

    constructor ()
      ensures listeners == []
    {
      listeners := [];
    }

    /** `Add(listener)`: appends the listener and hands out its connection. */
    method Add(listener: Listener) returns (connection: ConnectionId)
      modifies this
      ensures listeners == old(listeners) + [listener]
      ensures connection == listener.connection
    {
      listeners := listeners + [listener];
      connection := listeners[|listeners| - 1].connection;
    }

    /** `Remove(iterator)`: swaps the listener at `i` with the last one and pops the back. One
        listener fewer, the former last one now at `i`, every other position unchanged, and
        exactly the removed listener gone from the multiset. */
    method Remove(i: nat)
      requires i < |listeners|
      modifies this
      ensures |listeners| == |old(listeners)| - 1
      ensures i < |listeners| ==> listeners[i] == old(listeners)[|old(listeners)| - 1]
      ensures forall k :: 0 <= k < |listeners| && k != i ==> listeners[k] == old(listeners)[k]
      ensures multiset(listeners) == multiset(old(listeners)) - multiset{old(listeners)[i]}
    {
      var last := |listeners| - 1;
      listeners := SwapAt(listeners, i, last);
      assert listeners == listeners[..last] + [old(listeners)[i]];
      listeners := listeners[..last];
    }

    /** `Clear()`. */
    method Clear()
      modifies this
      ensures listeners == []
    {
      listeners := [];
    }

    /** `Call(arg)`: every listener's callback once, in sequence order. */
    method Call<P>(arg: P) returns (trace: seq<Invocation<P>>)
      ensures |trace| == |listeners|
      ensures forall k :: 0 <= k < |trace| ==> trace[k] == Invocation(listeners[k].callback, arg)
    {
      trace := [];
      var i := 0;
      while i < |listeners|
        invariant i <= |listeners| && |trace| == i
        invariant forall k :: 0 <= k < i ==> trace[k] == Invocation(listeners[k].callback, arg)
      {
        trace := trace + [Invocation(listeners[i].callback, arg)];
        i := i + 1;
      }
    }
  }

  /** Adding a listener and removing it through its position gives the sequence back. */
  method AddThenRemove(container: ListenerSequence, listener: Listener)
    modifies container
    ensures container.listeners == old(container.listeners)
  {
    var position := |container.listeners|;
    var _ := container.Add(listener);
    container.Remove(position);
  }

  /** A multimap's entries: `(trigger, listener)` pairs, ordered by trigger. */
  type Entries<T> = seq<KeyValuePair<T, Listener>>

  /** No entry's trigger is less than that of an entry before it. */
  ghost predicate KeySorted<T>(less: (T, T) -> bool, s: Entries<T>)
  {
    forall i, j :: 0 <= i < j < |s| ==> !less(s[j].key, s[i].key)
  }

  /** The entries whose trigger is equivalent to `key`, in container order. */
  function Select<T>(less: (T, T) -> bool, s: Entries<T>, key: T): (r: Entries<T>)
    ensures |r| <= |s|
  {
    if s == [] then []
    else (if Equivalent(less, s[0].key, key) then [s[0]] else []) + Select(less, s[1..], key)
  }

  /** The entries whose trigger is not equivalent to `key`, in container order. */
  function Without<T>(less: (T, T) -> bool, s: Entries<T>, key: T): (r: Entries<T>)
    ensures |r| <= |s|
    ensures forall e :: e in r ==> e in s && !Equivalent(less, e.key, key)
  {
    if s == [] then []
    else (if Equivalent(less, s[0].key, key) then [] else [s[0]]) + Without(less, s[1..], key)
  }

  /** `Select` distributes over concatenation. */
  lemma {:induction false} SelectAppend<T>(less: (T, T) -> bool, a: Entries<T>, b: Entries<T>, key: T)
    ensures Select(less, a + b, key) == Select(less, a, key) + Select(less, b, key)
  {
    if a == [] {
      assert a + b == b;
    } else {
      assert (a + b)[0] == a[0] && (a + b)[1..] == a[1..] + b;
      SelectAppend(less, a[1..], b, key);
      var head := if Equivalent(less, a[0].key, key) then [a[0]] else [];
      calc {
        Select(less, a + b, key);
        head + Select(less, a[1..] + b, key);
        head + (Select(less, a[1..], key) + Select(less, b, key));
        (head + Select(less, a[1..], key)) + Select(less, b, key);
      }
    }
  }

  /** `Without` keeps a sorted range sorted: it only leaves entries out. */
  lemma {:induction false} WithoutSorted<T>(less: (T, T) -> bool, s: Entries<T>, key: T)
    requires KeySorted(less, s)
    ensures KeySorted(less, Without(less, s, key))
    ensures forall e :: e in s && !Equivalent(less, e.key, key) ==> e in Without(less, s, key)
  {
    if s != [] {
      WithoutSorted(less, s[1..], key);
      var rest := Without(less, s[1..], key);
      forall e | e in rest
        ensures !less(e.key, s[0].key)
      {
        var j :| 1 <= j < |s| && s[j] == e by {
          assert e in s[1..];
          var k :| 0 <= k < |s[1..]| && s[1..][k] == e;
          assert s[k + 1] == e;
        }
      }
    }
  }

  /** `std::multimap`'s `lower_bound` on triggers. */
  function KeyLowerBound<T>(less: (T, T) -> bool, s: Entries<T>, key: T, from: nat): (i: nat)
    requires from <= |s|
    ensures from <= i <= |s|
    ensures forall j :: from <= j < i ==> less(s[j].key, key)
    ensures i < |s| ==> !less(s[i].key, key)
    decreases |s| - from
  {
    if from == |s| || !less(s[from].key, key) then from else KeyLowerBound(less, s, key, from + 1)
  }

  /** `std::multimap`'s `upper_bound` on triggers: the first entry whose trigger is greater. */
  function KeyUpperBound<T>(less: (T, T) -> bool, s: Entries<T>, key: T, from: nat): (i: nat)
    requires from <= |s|
    ensures from <= i <= |s|
    ensures forall j :: from <= j < i ==> !less(key, s[j].key)
    ensures i < |s| ==> less(key, s[i].key)
    decreases |s| - from
  {
    if from == |s| || less(key, s[from].key) then from else KeyUpperBound(less, s, key, from + 1)
  }

  /** On a sorted range the two bounds split it into entries below the key, the equal range, and
      entries above it. */
  lemma BoundsSplit<T(!new)>(less: (T, T) -> bool, s: Entries<T>, key: T)
    requires StrictWeakOrder(less) && KeySorted(less, s)
    ensures KeyLowerBound(less, s, key, 0) <= KeyUpperBound(less, s, key, 0)
    ensures forall j :: KeyLowerBound(less, s, key, 0) <= j < |s| ==> !less(s[j].key, key)
    ensures forall j :: KeyUpperBound(less, s, key, 0) <= j < |s| ==> less(key, s[j].key)
  {
    var lo, hi := KeyLowerBound(less, s, key, 0), KeyUpperBound(less, s, key, 0);
    forall j | lo <= j < |s|
      ensures !less(s[j].key, key)
    {
      if j > lo {
        assert !less(s[j].key, s[lo].key);
      }
    }
    forall j | hi <= j < |s|
      ensures less(key, s[j].key)
    {
      if j > hi {
        assert !less(s[j].key, s[hi].key);
      }
    }
  }

  /** `Select` picks nothing from a range without an equivalent trigger. */
  lemma {:induction false} SelectNone<T>(less: (T, T) -> bool, s: Entries<T>, key: T)
    requires forall j :: 0 <= j < |s| ==> !Equivalent(less, s[j].key, key)
    ensures Select(less, s, key) == []
  {
    if s != [] {
      SelectNone(less, s[1..], key);
    }
  }

  /** `Select` keeps all of a range whose triggers are all equivalent. */
  lemma {:induction false} SelectAll<T>(less: (T, T) -> bool, s: Entries<T>, key: T)
    requires forall j :: 0 <= j < |s| ==> Equivalent(less, s[j].key, key)
    ensures Select(less, s, key) == s
  {
    if s != [] {
      SelectAll(less, s[1..], key);
    }
  }

  /** A range cut into entries below the key, entries equivalent to it and entries above it: the
      middle part is what `Select` picks. */
  lemma SelectMiddle<T>(less: (T, T) -> bool, s: Entries<T>, key: T, lo: nat, hi: nat)
    requires lo <= hi <= |s|
    requires forall j :: 0 <= j < lo ==> less(s[j].key, key)
    requires forall j :: lo <= j < hi ==> Equivalent(less, s[j].key, key)
    requires forall j :: hi <= j < |s| ==> less(key, s[j].key)
    ensures Select(less, s, key) == s[lo..hi]
  {
    SliceParts(less, s, key, lo, hi);
    SelectParts(less, s[..lo], s[lo..hi], s[hi..], key);
    Reassemble(s, lo, hi);
  }

  /** A range is the concatenation of its three parts. */
  lemma Reassemble<E>(s: seq<E>, lo: nat, hi: nat)
    requires lo <= hi <= |s|
    ensures s[..lo] + s[lo..hi] + s[hi..] == s
  {
  }

  /** The three parts of a range cut at `lo` and `hi`, seen by trigger. */
  lemma SliceParts<T>(less: (T, T) -> bool, s: Entries<T>, key: T, lo: nat, hi: nat)
    requires lo <= hi <= |s|
    requires forall j :: 0 <= j < lo ==> less(s[j].key, key)
    requires forall j :: lo <= j < hi ==> Equivalent(less, s[j].key, key)
    requires forall j :: hi <= j < |s| ==> less(key, s[j].key)
    ensures forall j :: 0 <= j < |s[..lo]| ==> !Equivalent(less, s[..lo][j].key, key)
    ensures forall j :: 0 <= j < |s[lo..hi]| ==> Equivalent(less, s[lo..hi][j].key, key)
    ensures forall j :: 0 <= j < |s[hi..]| ==> !Equivalent(less, s[hi..][j].key, key)
  {
    forall j | 0 <= j < |s[lo..hi]|
      ensures Equivalent(less, s[lo..hi][j].key, key)
    {
      assert s[lo..hi][j] == s[lo + j];
    }
    forall j | 0 <= j < |s[hi..]|
      ensures !Equivalent(less, s[hi..][j].key, key)
    {
      assert s[hi..][j] == s[hi + j];
    }
  }

  /** `Select` of three parts, of which only the middle one has equivalent triggers. */
  lemma SelectParts<T>(less: (T, T) -> bool, below: Entries<T>, middle: Entries<T>, above: Entries<T>, key: T)
    requires forall j :: 0 <= j < |below| ==> !Equivalent(less, below[j].key, key)
    requires forall j :: 0 <= j < |middle| ==> Equivalent(less, middle[j].key, key)
    requires forall j :: 0 <= j < |above| ==> !Equivalent(less, above[j].key, key)
    ensures Select(less, below + middle + above, key) == middle
  {
    SelectNone(less, below, key);
    SelectAll(less, middle, key);
    SelectNone(less, above, key);
    SelectAppend(less, below + middle, above, key);
    SelectAppend(less, below, middle, key);
    assert [] + middle + [] == middle;
  }

  /** On a sorted range the equal range is exactly the entries `Select` picks. */
  lemma EqualRangeIsSelect<T(!new)>(less: (T, T) -> bool, s: Entries<T>, key: T)
    requires StrictWeakOrder(less) && KeySorted(less, s)
    ensures KeyLowerBound(less, s, key, 0) <= KeyUpperBound(less, s, key, 0)
    ensures Select(less, s, key) == s[KeyLowerBound(less, s, key, 0)..KeyUpperBound(less, s, key, 0)]
  {
    BoundsSplit(less, s, key);
    SelectMiddle(less, s, key, KeyLowerBound(less, s, key, 0), KeyUpperBound(less, s, key, 0));
  }

  /** `Select` of a range with one entry inserted between `front` and `back`, when `back` has no
      entry equivalent to the new one's trigger. */
  lemma SelectInserted<T>(less: (T, T) -> bool, front: Entries<T>, back: Entries<T>, entry: KeyValuePair<T, Listener>, k: T)
    requires Equivalent(less, k, entry.key) ==> Select(less, back, k) == []
    ensures Select(less, front + [entry] + back, k) ==
      Select(less, front + back, k) + (if Equivalent(less, k, entry.key) then [entry] else [])
  {
    var a, b := Select(less, front, k), Select(less, back, k);
    var e := Select(less, [entry], k);
    SelectAppend(less, front, back, k);
    SelectAppend(less, front + [entry], back, k);
    SelectAppend(less, front, [entry], k);
    SelectSingle(less, entry, k);
    if Equivalent(less, k, entry.key) {
      assert a + b == a;
    } else {
      assert a + e + b == a + b;
    }
  }

  lemma SelectSingle<T>(less: (T, T) -> bool, entry: KeyValuePair<T, Listener>, k: T)
    ensures Select(less, [entry], k) == if Equivalent(less, k, entry.key) then [entry] else []
  {
    assert [entry][1..] == [];
  }

  /** An entry inserted after every trigger it is not less than and before every trigger greater
      than it keeps the range sorted. */
  lemma InsertKeepsSorted<T(!new)>(less: (T, T) -> bool, s: Entries<T>, i: nat, entry: KeyValuePair<T, Listener>)
    requires StrictWeakOrder(less) && KeySorted(less, s) && i <= |s|
    requires forall j :: 0 <= j < i ==> !less(entry.key, s[j].key)
    requires forall j :: i <= j < |s| ==> less(entry.key, s[j].key)
    ensures KeySorted(less, s[..i] + [entry] + s[i..])
  {
    var r := s[..i] + [entry] + s[i..];
    assert forall j :: 0 <= j < |r| ==> r[j] == (if j < i then s[j] else if j == i then entry else s[j - 1]);
  }

  /** Inserting at the upper bound of the new trigger keeps the range sorted and puts the new entry
      last among the entries with an equivalent trigger. */
  lemma InsertAtUpperBound<T(!new)>(less: (T, T) -> bool, s: Entries<T>, entry: KeyValuePair<T, Listener>)
    requires StrictWeakOrder(less) && KeySorted(less, s)
    ensures var i := KeyUpperBound(less, s, entry.key, 0);
      var r := s[..i] + [entry] + s[i..];
      KeySorted(less, r) && multiset(r) == multiset(s) + multiset{entry} &&
      forall k :: Select(less, r, k) == (Select(less, s, k) + if Equivalent(less, k, entry.key) then [entry] else [])
  {
    var i := KeyUpperBound(less, s, entry.key, 0);
    BoundsSplit(less, s, entry.key);
    InsertKeepsSorted(less, s, i, entry);
    assert s == s[..i] + s[i..];
    forall k
      ensures Select(less, s[..i] + [entry] + s[i..], k) == (Select(less, s, k) + if Equivalent(less, k, entry.key) then [entry] else [])
    {
      if Equivalent(less, k, entry.key) {
        forall j | 0 <= j < |s[i..]|
          ensures !Equivalent(less, s[i..][j].key, k)
        {
          assert less(entry.key, s[i + j].key);
        }
        SelectNone(less, s[i..], k);
      }
      SelectInserted(less, s[..i], s[i..], entry, k);
    }
  }

  /** `ListenerMap<Trigger, Parameter>`, with the trigger order `less` of the multimap. */
  class ListenerMap<T(!new)> {
    const less: (T, T) -> bool
    /** `mListeners`, in the multimap's iteration order. */
    var entries: Entries<T>

    ghost predicate Valid()
      reads this
    {
      StrictWeakOrder(less) && KeySorted(less, entries)
    }

    constructor (less: (T, T) -> bool)
      requires StrictWeakOrder(less)
      ensures Valid() && this.less == less && entries == []
    {
      this.less := less;
      entries := [];
    }

    /** `Add(trigger, listener)`: one entry more. Under the trigger, the new listener comes after
        the ones already there; under every other trigger nothing changes. */
    method Add(trigger: T, listener: Listener) returns (connection: ConnectionId)
      requires Valid()
      modifies this
      ensures Valid() && connection == listener.connection
      ensures multiset(entries) == multiset(old(entries)) + multiset{KeyValuePair(trigger, listener)}
      ensures forall k :: (Select(less, entries, k) ==
        Select(less, old(entries), k) + if Equivalent(less, k, trigger) then [KeyValuePair(trigger, listener)] else [])
    {
      var entry := KeyValuePair(trigger, listener);
      var i := KeyUpperBound(less, entries, trigger, 0);
      InsertAtUpperBound(less, entries, entry);
      entries := entries[..i] + [entry] + entries[i..];
      connection := listener.connection;
    }

    /** `Remove(iterator)`: erases exactly the entry at position `i`. */
    method Remove(i: nat)
      requires Valid() && i < |entries|
      modifies this
      ensures Valid()
      ensures entries == old(entries)[..i] + old(entries)[i + 1..]
      ensures multiset(entries) == multiset(old(entries)) - multiset{old(entries)[i]}
    {
      ghost var before := entries;
      assert before == before[..i] + [before[i]] + before[i + 1..];
      entries := entries[..i] + entries[i + 1..];
      assert forall j :: 0 <= j < |entries| ==> entries[j] == before[if j < i then j else j + 1];
    }

    /** `Clear(key)`: erases every entry whose trigger is equivalent to `key`, and no other. */
    method Clear(key: T)
      requires Valid()
      modifies this
      ensures Valid()
      ensures entries == Without(less, old(entries), key)
      ensures forall e :: e in entries <==> e in old(entries) && !Equivalent(less, e.key, key)
    {
      WithoutSorted(less, entries, key);
      entries := Without(less, entries, key);
    }

    /** `ClearAll()`. */
    method ClearAll()
      requires Valid()
      modifies this
      ensures Valid() && entries == []
    {
      entries := [];
    }

    /** `Call(event, arg)`: the callbacks of the entries in `equal_range(event)`, in order, which
        are exactly the entries whose trigger is equivalent to the event. */
    method Call<P>(event: T, arg: P) returns (trace: seq<Invocation<P>>)
      requires Valid()
      ensures |trace| == |Select(less, entries, event)|
      ensures forall k :: 0 <= k < |trace| ==> trace[k] == Invocation(Select(less, entries, event)[k].value.callback, arg)
    {
      EqualRangeIsSelect(less, entries, event);
      var first := KeyLowerBound(less, entries, event, 0);
      var last := KeyUpperBound(less, entries, event, 0);
      trace := [];
      var itr := first;
      while itr != last
        invariant first <= itr <= last && |trace| == itr - first
        invariant forall k :: 0 <= k < |trace| ==> trace[k] == Invocation(entries[first + k].value.callback, arg)
      {
        trace := trace + [Invocation(entries[itr].value.callback, arg)];
        itr := itr + 1;
      }
    }
  }
}
