/**
 The table that turns client handles into SDK objects.  Pointers are numbers, 0 being the
 null pointer, and what an item answers to `uniqueId` is a parameter: the identity of every
 item the SDK knows, 0 once it has been destroyed.
 */
module HandleRegistry {
  import opened Basics
  import opened TtlStore

  type Pointer = nat

  const NULL: Pointer := 0

  /** Array handles start at 2^52, above any realistic item identity. */
  const FIRST_ARRAY_HANDLE: nat := 0x0010_0000_0000_0000

  /** First integer that a JavaScript number cannot tell from its neighbour: 2^53. */
  const JS_UNSAFE: nat := 0x0020_0000_0000_0000

  const ARRAY_TTL: nat := 60 * TICKS_PER_SECOND

  type Identities = map<Pointer, nat>

  function UniqueId(ids: Identities, item: Pointer): nat {
    if item in ids then ids[item] else 0
  }

  /** What the registry remembers. */
  datatype Table = Table(
    handles: map<nat, Pointer>,
    arrays: Store<Pointer>,
    nextArray: nat,
    staleEvictions: nat
  )

  const NEW_TABLE := Table(map[], map[], FIRST_ARRAY_HANDLE, 0)

  /** The locked part of `Register`. */
  function Inserted(t: Table, item: Pointer, handle: nat): Table {
    t.(handles := t.handles[handle := item])
  }

  /** `Register` when nothing intervenes between its two parts. */
  function Registered(t: Table, ids: Identities, item: Pointer): Table {
    if item == NULL || UniqueId(ids, item) == 0 then t else Inserted(t, item, UniqueId(ids, item))
  }

  /** The entry for `handle` is there but its item is dead. */
  predicate IsStale(t: Table, ids: Identities, handle: nat) {
    handle in t.handles && (t.handles[handle] == NULL || UniqueId(ids, t.handles[handle]) == 0)
  }

  /** The item a lookup answers. */
  function Found(t: Table, ids: Identities, handle: nat): Pointer {
    if handle in t.handles && !IsStale(t, ids, handle) then t.handles[handle] else NULL
  }

  /** The table after a lookup: a stale entry is evicted on the spot. */
  function LookedUp(t: Table, ids: Identities, handle: nat): Table {
    if IsStale(t, ids, handle)
    then t.(handles := t.handles - {handle}, staleEvictions := (t.staleEvictions + 1) % U64)
    else t
  }

  function Unregistered(t: Table, handle: nat): Table {
    t.(handles := t.handles - {handle})
  }

  function ArrayRegistered(t: Table, arr: Pointer, purgeNow: int, created: int): Table {
    t.(arrays := Apply(t.arrays, Put(t.nextArray, arr, purgeNow, created), ARRAY_TTL),
       nextArray := (t.nextArray + 1) % U64)
  }

  function ArrayUnregistered(t: Table, handle: nat): Table {
    t.(arrays := Apply(t.arrays, Del(handle), ARRAY_TTL))
  }

  function Cleared(t: Table): Table {
    t.(handles := map[], arrays := map[], nextArray := FIRST_ARRAY_HANDLE)
  }

  class HandleRegistry {
    var handles: map<nat, Pointer>
    var arrays: Store<Pointer>
    var nextArray: nat
    var staleEvictions: nat

    function View(): Table
      reads this
    {
      Table(handles, arrays, nextArray, staleEvictions)
    }

    constructor ()
      ensures View() == NEW_TABLE
    {
      handles, arrays := map[], map[];
      nextArray, staleEvictions := FIRST_ARRAY_HANDLE, 0;
    }

    method Register(item: Pointer, ids: Identities) returns (handle: nat)
      modifies this
      ensures handle == if item == NULL then 0 else UniqueId(ids, item)
      ensures View() == Registered(old(View()), ids, item)
    {
      if item == NULL {
        return 0;
      }
      handle := UniqueId(ids, item);
      if handle == 0 {
        return 0;
      }
      handles := handles[handle := item];
    }

    method Lookup(handle: nat, ids: Identities) returns (item: Pointer)
      modifies this
      ensures item == Found(old(View()), ids, handle)
      ensures View() == LookedUp(old(View()), ids, handle)
      ensures item != NULL ==> UniqueId(ids, item) != 0 && View() == old(View())
      ensures item == NULL ==> handle !in handles
    {
      if handle !in handles {
        return NULL;
      }
      item := handles[handle];
      if item == NULL || UniqueId(ids, item) == 0 {
        handles := handles - {handle};
        staleEvictions := (staleEvictions + 1) % U64;
        return NULL;
      }
    }

    method Unregister(handle: nat)
      modifies this
      ensures View() == Unregistered(old(View()), handle)
    {
      handles := handles - {handle};
    }

    method RegisterArray(arr: Pointer, purgeNow: int, created: int) returns (handle: nat)
      modifies this
      ensures arr == NULL ==> handle == 0 && View() == old(View())
      ensures arr != NULL ==> handle == old(nextArray) && View() == ArrayRegistered(old(View()), arr, purgeNow, created)
    {
      if arr == NULL {
        return 0;
      }
      PurgeStaleArrays(purgeNow);
      handle := nextArray;
      nextArray := (nextArray + 1) % U64;
      arrays := arrays[handle := Entry(arr, created)];
    }

    method LookupArray(handle: nat) returns (arr: Pointer)
      ensures arr == if handle in arrays then arrays[handle].value else NULL
    {
      arr := if handle in arrays then arrays[handle].value else NULL;
    }

    method UnregisterArray(handle: nat)
      modifies this
      ensures View() == ArrayUnregistered(old(View()), handle)
    {
      arrays := arrays - {handle};
    }

    method Clear()
      modifies this
      ensures View() == Cleared(old(View()))
    {
      handles := map[];
      arrays := map[];
      nextArray := FIRST_ARRAY_HANDLE;
    }

    /** Erases while it walks the table, in whatever order the table yields its keys. */
    method PurgeStaleArrays(now: int)
      modifies this`arrays
      ensures arrays == Keep(old(arrays), now, ARRAY_TTL)
    {
      var ahead := arrays.Keys;
      while ahead != {}
        invariant ahead <= arrays.Keys <= old(arrays).Keys
        invariant forall k :: k in arrays ==> arrays[k] == old(arrays)[k]
        invariant forall k :: k in old(arrays) && k !in ahead ==>
                    (k in arrays <==> now - old(arrays)[k].created <= ARRAY_TTL)
        decreases ahead
      {
        var k :| k in ahead;
        if now - arrays[k].created > ARRAY_TTL {
          arrays := arrays - {k};
        }
        ahead := ahead - {k};
      }
    }
  }
}
