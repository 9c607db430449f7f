/**
 The RPCs that drive the registry.  Each has a function saying what it does to the
 registry's table and to the SDK, and a method that does it.  What the SDK decides (which
 items die with a destroyed one, what a new node looks like, what the scene is after a
 load) is a parameter.
 */
module HandleRpcs {
  import opened Basics
  import opened Traces
  import opened HandleRegistry
  import opened PinTree
  import P = RegistryProtocol

  datatype Kind = NodeItem | GraphItem | OtherItem

  /** The SDK's scene: identities, kinds, pins, what a graph owns, and the contents of item arrays. */
  datatype Sdk = Sdk(
    ids: Identities,
    kinds: map<Pointer, Kind>,
    pins: PinGraph,
    owned: map<Pointer, seq<Pointer>>,
    arrays: map<Pointer, seq<Pointer>>
  )

  function KindOf(sdk: Sdk, item: Pointer): Kind {
    if item in sdk.kinds then sdk.kinds[item] else OtherItem
  }

  // ---------------------------------------------------------------- validated lookups

  /** What `requireItem` answers on a handle. */
  function ItemStatus(t: Table, ids: Identities, handle: nat): Status {
    if handle == 0 then InvalidArgument
    else if Found(t, ids, handle) == NULL then NotFound
    else Ok
  }

  /** The table after `requireItem`. */
  function AfterRequire(t: Table, ids: Identities, handle: nat): Table {
    if handle == 0 then t else LookedUp(t, ids, handle)
  }

  /** What `requireNode` or `requireGraph` answers. */
  function KindStatus(t: Table, sdk: Sdk, handle: nat, kind: Kind): Status {
    if ItemStatus(t, sdk.ids, handle) != Ok then ItemStatus(t, sdk.ids, handle)
    else if KindOf(sdk, Found(t, sdk.ids, handle)) != kind then InvalidArgument
    else Ok
  }

  method RequireItem(registry: HandleRegistry?, sdk: Sdk, handle: nat) returns (status: Status, item: Pointer)
    modifies registry
    ensures status == if registry == null then FailedPrecondition else ItemStatus(old(registry.View()), sdk.ids, handle)
    ensures registry != null && handle == 0 ==> status == InvalidArgument
    ensures registry != null && handle != 0 ==>
              status == if Found(old(registry.View()), sdk.ids, handle) == NULL then NotFound else Ok
    ensures status == Ok <==> item != NULL
    ensures status == Ok ==> item == Found(old(registry.View()), sdk.ids, handle)
    ensures registry != null ==> registry.View() == AfterRequire(old(registry.View()), sdk.ids, handle)
  {
    if registry == null {
      return FailedPrecondition, NULL;
    }
    if handle == 0 {
      return InvalidArgument, NULL;
    }
    item := registry.Lookup(handle, sdk.ids);
    status := if item == NULL then NotFound else Ok;
  }

  /** `requireNode` and `requireGraph`. */
  method RequireKind(registry: HandleRegistry?, sdk: Sdk, handle: nat, kind: Kind)
    returns (status: Status, item: Pointer)
    modifies registry
    ensures status == if registry == null then FailedPrecondition
                      else KindStatus(old(registry.View()), sdk, handle, kind)
    ensures registry != null ==>
              var found := Found(old(registry.View()), sdk.ids, handle);
              var isKind := if kind == OtherItem then found !in sdk.kinds || sdk.kinds[found] == OtherItem
                            else found in sdk.kinds && sdk.kinds[found] == kind;
              status == if handle == 0 then InvalidArgument
                        else if found == NULL then NotFound
                        else if !isKind then InvalidArgument
                        else Ok
    ensures status == Ok <==> item != NULL
    ensures status == Ok ==> item == Found(old(registry.View()), sdk.ids, handle)
    ensures registry != null ==> registry.View() == AfterRequire(old(registry.View()), sdk.ids, handle)
  {
    status, item := RequireItem(registry, sdk, handle);
    if status == Ok && KindOf(sdk, item) != kind {
      status, item := InvalidArgument, NULL;
    }
  }

  /** A required lookup evicts the entry it finds dead; it changes no answer and no other entry. */
  lemma RequireEvictsIffDead(t: Table, ids: Identities, handle: nat, h: nat)
    ensures var t' := AfterRequire(t, ids, handle);
      && Found(t', ids, h) == Found(t, ids, h)
      && (h in t'.handles <==> h in t.handles && !(h == handle && handle != 0 && Found(t, ids, h) == NULL))
      && t'.arrays == t.arrays && t'.nextArray == t.nextArray
  {
  }

  method RequireArray(registry: HandleRegistry?, handle: nat) returns (status: Status, arr: Pointer)
    ensures registry == null ==> status == FailedPrecondition
    ensures registry != null && handle == 0 ==> status == InvalidArgument
    ensures registry != null && handle != 0 ==>
              (status == Ok <==> handle in registry.arrays && registry.arrays[handle].value != NULL)
    ensures registry != null && handle != 0 && status != Ok ==> status == NotFound
    ensures status == Ok ==> arr == registry.arrays[handle].value
    ensures status == Ok <==> arr != NULL
  {
    if registry == null {
      return FailedPrecondition, NULL;
    }
    if handle == 0 {
      return InvalidArgument, NULL;
    }
    arr := registry.LookupArray(handle);
    status := if arr == NULL then NotFound else Ok;
  }

  // ---------------------------------------------------------------- destroy

  /** The identities once `items` are dead. */
  function Killed(ids: Identities, items: set<Pointer>): Identities {
    map a | a in ids :: if a in items then 0 else ids[a]
  }

  /**
   `victims` are the items that die with the destroyed one.  If the SDK throws, they are all
   that died by then, the item itself among them or not, and the handle stays registered.
   */
  method Destroy(registry: HandleRegistry?, sdk: Sdk, handle: nat, victims: set<Pointer>, throws: bool)
    returns (status: Status, sdk': Sdk)
    modifies registry
    ensures registry == null ==> status == FailedPrecondition && sdk' == sdk
    ensures registry != null ==>
              var required := ItemStatus(old(registry.View()), sdk.ids, handle);
              && status == (if required == Ok && throws then Internal else required)
              && (required != Ok ==>
                    sdk' == sdk && registry.View() == AfterRequire(old(registry.View()), sdk.ids, handle))
    ensures status == Ok ==>
              && sdk' == sdk.(ids := Killed(sdk.ids, victims + {Found(old(registry.View()), sdk.ids, handle)}))
              && registry.View() == Unregistered(old(registry.View()), handle)
    ensures status == Internal ==>
              && sdk' == sdk.(ids := Killed(sdk.ids, victims))
              && registry.View() == old(registry.View())
              && ((ItemStatus(registry.View(), sdk'.ids, handle) == NotFound) <==>
                  (Found(old(registry.View()), sdk.ids, handle) in victims))
  {
    var item;
    status, item := RequireItem(registry, sdk, handle);
    sdk' := sdk;
    if status != Ok {
      return;
    }
    if throws {
      sdk' := sdk.(ids := Killed(sdk.ids, victims));
      status := Internal;
      return;
    }
    sdk' := sdk.(ids := Killed(sdk.ids, victims + {item}));
    registry.Unregister(handle);
  }

  /**
   After a successful `destroy` the handle is gone, the handles of the other items that died
   no longer resolve although their entries are still there, and all others resolve as before.
   */
  lemma DestroyLeavesTheLiving(t: Table, sdk: Sdk, handle: nat, victims: set<Pointer>, h: nat)
    requires ItemStatus(t, sdk.ids, handle) == Ok
    ensures var dead := victims + {Found(t, sdk.ids, handle)};
      var before, after := Found(t, sdk.ids, h), Found(Unregistered(t, handle), Killed(sdk.ids, dead), h);
      && after == (if h == handle || before in dead then NULL else before)
      && (h != handle && h in t.handles ==> h in Unregistered(t, handle).handles)
  {
  }

  /**
   A destroyed handle answers NOT_FOUND, to a second `destroy` as to anything else, whatever
   other clients did before, between and after, as long as nothing else is registered under it.
   */
  lemma DestroyedHandleIsNotFound(before: Trace<P.Step>, kill: Identities, between: Trace<P.Step>, later: Trace<P.Step>,
                                  item: Pointer, h: nat)
    requires h != 0 && item in kill && kill[item] == 0
    requires P.Exec(After(After(before, P.Sdk(kill)).Then(between), P.Unregister(h)).Then(later)).Some?
    requires P.RegistersOnly(later, h, item)
    ensures var s := P.Exec(After(After(before, P.Sdk(kill)).Then(between), P.Unregister(h)).Then(later)).value;
            ItemStatus(s.table, s.ids, h) == NotFound
  {
    P.DestroyedHandleStaysGone(before, kill, between, later, item, h);
  }

  // ---------------------------------------------------------------- resetProject, loadProject

  /** No handle of any kind resolves. */
  ghost predicate ResolvesNothing(t: Table, ids: Identities) {
    && (forall h :: ItemStatus(t, ids, h) == if h == 0 then InvalidArgument else NotFound)
    && t.arrays == map[]
  }

  /** The table after the SDK was asked for another scene: cleared, but not if the SDK threw. */
  function Replaced(t: Table, throws: bool): Table {
    if throws then t else Cleared(t)
  }

  /** After a call that throws, handles resolve exactly if they did before, among the items still alive. */
  lemma NothingResolvesIff(t: Table, ids: Identities, throws: bool)
    ensures ResolvesNothing(Replaced(t, throws), ids) <==> !throws || ResolvesNothing(t, ids)
    ensures forall h :: h != 0 && ItemStatus(Replaced(t, throws), ids, h) == Ok <==>
              h != 0 && throws && h in t.handles && t.handles[h] != NULL && UniqueId(ids, t.handles[h]) != 0
  {
  }

  /** The item 9 outlives the `resetProject` that throws, and its handle still leads to it. */
  lemma HandleOutlivesThrowingReset()
    ensures var t, ids := NEW_TABLE.(handles := map[5 := 9]), map[9 := 5];
      Found(Replaced(t, true), ids, 5) == 9 && !ResolvesNothing(Replaced(t, true), ids)
  {
    var t, ids := NEW_TABLE.(handles := map[5 := 9]), map[9 := 5];
    assert ItemStatus(Replaced(t, true), ids, 5) == Ok;
  }

  /** `scene` is what the SDK has made of the scene when it returns or throws. */
  method ResetProject(registry: HandleRegistry, scene: Sdk, result: bool, throws: bool)
    returns (status: Status, answer: bool, sdk': Sdk)
    modifies registry
    ensures status == (if throws then Internal else Ok) && answer == (result && !throws) && sdk' == scene
    ensures registry.View() == Replaced(old(registry.View()), throws)
    ensures ResolvesNothing(registry.View(), sdk'.ids) <==> !throws || ResolvesNothing(old(registry.View()), sdk'.ids)
  {
    sdk' := scene;
    NothingResolvesIff(registry.View(), scene.ids, throws);
    if throws {
      return Internal, false, sdk';
    }
    registry.Clear();
    status, answer := Ok, result;
  }

  /** The registry is cleared even if the load failed, but not if it threw or was not tried. */
  method LoadProject(registry: HandleRegistry, sdk: Sdk, path: string, scene: Sdk, result: bool, throws: bool)
    returns (status: Status, answer: bool, sdk': Sdk)
    modifies registry
    ensures path == "" ==> status == InvalidArgument && !answer && sdk' == sdk
    ensures path != "" ==> status == (if throws then Internal else Ok) && answer == (result && !throws) && sdk' == scene
    ensures registry.View() == Replaced(old(registry.View()), path == "" || throws)
    ensures ResolvesNothing(registry.View(), sdk'.ids)
       <==> (path != "" && !throws) || ResolvesNothing(old(registry.View()), sdk'.ids)
  {
    sdk' := if path == "" then sdk else scene;
    NothingResolvesIff(registry.View(), sdk'.ids, path == "" || throws);
    if path == "" {
      return InvalidArgument, false, sdk';
    }
    if throws {
      return Internal, false, sdk';
    }
    registry.Clear();
    status, answer := Ok, result;
  }

  /** After a clear among other clients' steps, NOT_FOUND until the handle is registered again. */
  lemma ClearedHandleIsNotFound(before: Trace<P.Step>, later: Trace<P.Step>, h: nat)
    requires h != 0
    requires P.Exec(After(before, P.Clear).Then(later)).Some?
    requires P.RegistersNothing(later, h)
    ensures var s := P.Exec(After(before, P.Clear).Then(later)).value; ItemStatus(s.table, s.ids, h) == NotFound
  {
    P.ClearForgetsEverything(before, later, h);
  }

  // ---------------------------------------------------------------- create

  /** The table after a `create` that made `node` in `scene`, and that threw instead of registration `stop` below it. */
  function CreatedTable(t: Table, scene: Sdk, node: Pointer, configurePins: bool, stop: Option<nat>): Table {
    var registered := Registered(t, scene.ids, node);
    if configurePins then RegisterAll(registered, scene.ids, Interrupted(Walk(scene.pins, node, REACH), stop))
    else registered
  }

  /**
   Where in a `create` an exception is thrown, if anywhere: while the SDK makes the node, or later,
   when `made` of the nodes below it are registered, or at the end if there are not so many.
   */
  datatype CreateFault = NoFault | Creating | Later(made: nat) {

    function Stop(): Option<nat> {
      if Later? then Some(made) else None
    }
  }

  /** `node` is what the SDK creates (null if it refuses) and `scene` the scene after that. */
  method Create(registry: HandleRegistry?, sdk: Sdk, graphHandle: nat, nodeType: int, validTypes: set<int>,
                configurePins: bool, node: Pointer, scene: Sdk, fault: CreateFault)
    returns (status: Status, handle: nat, sdk': Sdk)
    modifies registry
    ensures registry == null ==> status == FailedPrecondition
    ensures registry != null ==>
              var found := KindStatus(old(registry.View()), sdk, graphHandle, GraphItem);
              var asked := found == Ok && nodeType in validTypes && nodeType != 0;
              && status == (if found != Ok then found
                            else if !asked then InvalidArgument
                            else if fault == Creating then Internal
                            else if node == NULL then FailedPrecondition
                            else if fault.Later? then Internal
                            else Ok)
              && sdk' == (if asked then scene else sdk)
              && registry.View() == if asked && fault != Creating && node != NULL
                                    then CreatedTable(old(registry.View()), scene, node, configurePins, fault.Stop())
                                    else AfterRequire(old(registry.View()), sdk.ids, graphHandle)
    ensures status == Ok ==> handle == UniqueId(scene.ids, node)
    ensures status == Ok && handle != 0 && DistinctIds(scene.ids) ==>
              Found(registry.View(), scene.ids, handle) == node
    ensures status == Ok && !configurePins ==>
              forall h :: h != handle ==>
                Found(registry.View(), scene.ids, h) == Found(old(registry.View()), scene.ids, h)
  {
    var graph;
    handle, sdk' := 0, sdk;
    status, graph := RequireKind(registry, sdk, graphHandle, GraphItem);
    if status != Ok {
      return;
    }
    if nodeType !in validTypes || nodeType == 0 {
      status := InvalidArgument;
      return;
    }
    sdk' := scene;
    if fault == Creating {
      status := Internal;
      return;
    }
    if node == NULL {
      status := FailedPrecondition;
      return;
    }
    handle := registry.Register(node, scene.ids);
    if configurePins {
      ghost var start, walk := registry.View(), Walk(scene.pins, node, REACH);
      assert [] + walk == walk;
      var _, threw := RegisterPinChildren(registry, scene.ids, scene.pins, node, 0, fault.Stop(), 0, start, []);
      if threw {
        return Internal, 0, sdk';
      }
    }
    if fault.Later? {
      return Internal, 0, sdk';
    }
    if handle != 0 && DistinctIds(scene.ids) {
      NewNodeResolves(old(registry.View()), scene, node, configurePins, None);
    }
  }

  /** The new node resolves under its identity, whether its pins are walked or not; if not, nothing else changes. */
  lemma NewNodeResolves(t: Table, scene: Sdk, node: Pointer, configurePins: bool, stop: Option<nat>)
    requires DistinctIds(scene.ids) && node != NULL && UniqueId(scene.ids, node) != 0
    ensures var t' := CreatedTable(t, scene, node, configurePins, stop);
      && Found(t', scene.ids, UniqueId(scene.ids, node)) == node
      && (!configurePins ==>
            forall h :: h != UniqueId(scene.ids, node) ==> Found(t', scene.ids, h) == Found(t, scene.ids, h))
  {
    if configurePins {
      InterruptedTreeResolvesIff(t, scene, node, stop, node);
    }
  }

  /**
   What an interrupted `create` leaves behind: a living node resolves under its identity if and
   only if it is the new one, was registered before the exception, or resolved already.
   */
  lemma InterruptedTreeResolvesIff(t: Table, scene: Sdk, node: Pointer, stop: Option<nat>, target: Pointer)
    requires DistinctIds(scene.ids) && node != NULL
    requires target != NULL && UniqueId(scene.ids, target) != 0
    ensures var h, t' := UniqueId(scene.ids, target), CreatedTable(t, scene, node, true, stop);
      (Found(t', scene.ids, h) == target) <==>
      (|| target == node || target in Interrupted(Walk(scene.pins, node, REACH), stop)
       || Found(t, scene.ids, h) == target)
  {
    var h, items := UniqueId(scene.ids, target), Interrupted(Walk(scene.pins, node, REACH), stop);
    RegisterAllAdds(Registered(t, scene.ids, node), scene.ids, items, h);
    assert forall item :: UniqueId(scene.ids, item) == h ==> item == target;
  }

  /**
   Right after a `create` that configures pins, every living node within 23 connections of
   the new one resolves under its identity; in a shallow graph that is every living node below it.
   */
  lemma CreatedTreeResolves(t: Table, scene: Sdk, node: Pointer, target: Pointer)
    requires DistinctIds(scene.ids)
    requires target != NULL && UniqueId(scene.ids, target) != 0
    requires target == node || DescendsWithin(scene.pins, node, target, REACH)
             || (Shallow(scene.pins, node) && Descends(scene.pins, node, target))
    ensures var t' := CreatedTable(t, scene, node, true, None);
            Found(t', scene.ids, UniqueId(scene.ids, target)) == target
  {
    var h := UniqueId(scene.ids, target);
    var registered := Registered(t, scene.ids, node);
    WalkMakesResolvable(registered, scene.ids, scene.pins, node, h);
    if target == node && !DescendsWithin(scene.pins, node, target, REACH) {
      forall other | DescendsWithin(scene.pins, node, other, REACH)
        ensures UniqueId(scene.ids, other) != h
      {
      }
    }
  }

  // ---------------------------------------------------------------- owned items

  /** The registry has the array and will free it. */
  ghost predicate Owns(t: Table, arr: Pointer) {
    exists h :: h in t.arrays && t.arrays[h].value == arr
  }

  /**
   The list of a graph's items is put in the new array `arr`, which the registry owns from then
   on.  If the SDK throws while it lists them, the array is there but nobody owns it.
   */
  method GetOwnedItems(registry: HandleRegistry?, sdk: Sdk, graphHandle: nat, arr: Pointer,
                       purgeNow: int, created: int, throws: bool)
    returns (status: Status, handle: nat, sdk': Sdk)
    requires arr != NULL
    modifies registry
    ensures registry == null ==> status == FailedPrecondition
    ensures registry != null ==>
              var found := KindStatus(old(registry.View()), sdk, graphHandle, GraphItem);
              && status == (if found == Ok && throws then Internal else found)
              && (!Owns(old(registry.View()), arr) ==> (Owns(registry.View(), arr) <==> status == Ok))
    ensures status == Ok ==>
              var graph := Found(old(registry.View()), sdk.ids, graphHandle);
              && handle == old(registry.nextArray)
              && sdk' == sdk.(arrays := sdk.arrays[arr := if graph in sdk.owned then sdk.owned[graph] else []])
              && registry.View() == ArrayRegistered(old(registry.View()), arr, purgeNow, created)
              && handle in registry.arrays && registry.arrays[handle].value == arr
    ensures status == Internal ==>
              sdk' == sdk.(arrays := sdk.arrays[arr := []]) && registry.View() == old(registry.View())
    ensures status != Ok && status != Internal ==> sdk' == sdk
  {
    var graph;
    handle, sdk' := 0, sdk;
    status, graph := RequireKind(registry, sdk, graphHandle, GraphItem);
    if status != Ok {
      return;
    }
    sdk' := sdk.(arrays := sdk.arrays[arr := []]);
    if throws {
      status := Internal;
      return;
    }
    sdk' := sdk.(arrays := sdk.arrays[arr := if graph in sdk.owned then sdk.owned[graph] else []]);
    handle := registry.RegisterArray(arr, purgeNow, created);
  }

  /** What `get` answers on an array handle. */
  datatype Got = Got(status: Status, handle: nat)

  /** The contents of the array a handle stands for. */
  function ArrayItems(t: Table, sdk: Sdk, arrayHandle: nat): Option<seq<Pointer>> {
    if arrayHandle == 0 || arrayHandle !in t.arrays || t.arrays[arrayHandle].value == NULL then None
    else Some(if t.arrays[arrayHandle].value in sdk.arrays then sdk.arrays[t.arrays[arrayHandle].value] else [])
  }

  function GotItem(t: Table, sdk: Sdk, arrayHandle: nat, index: nat, throws: bool): Got {
    var items := ArrayItems(t, sdk, arrayHandle);
    if items.None? then Got(if arrayHandle == 0 then InvalidArgument else NotFound, 0)
    else if throws then Got(Internal, 0)
    else if index >= |items.value| % U32 then Got(InvalidArgument, 0)
    else Got(Ok, if items.value[index] == NULL then 0 else UniqueId(sdk.ids, items.value[index]))
  }

  /**
   The item at `index` of the array, registered so that its handle can be answered; 0 for a
   null item.  `throws` is whether reading the array throws.
   */
  method ArrayGet(registry: HandleRegistry?, sdk: Sdk, arrayHandle: nat, index: nat, throws: bool)
    returns (status: Status, handle: nat)
    modifies registry
    ensures registry == null ==> status == FailedPrecondition
    ensures registry != null ==> Got(status, handle) == GotItem(old(registry.View()), sdk, arrayHandle, index, throws)
    ensures registry != null ==>
              var items := ArrayItems(old(registry.View()), sdk, arrayHandle);
              && (status == Ok <==> items.Some? && !throws && index < |items.value| % U32)
              && (status == Internal <==> items.Some? && throws)
              && (items.None? ==> status == if arrayHandle == 0 then InvalidArgument else NotFound)
              && (items.Some? && !throws && index >= |items.value| % U32 ==> status == InvalidArgument)
    ensures status == Ok ==>
              var item := ArrayItems(old(registry.View()), sdk, arrayHandle).value[index];
              && handle == (if item == NULL then 0 else UniqueId(sdk.ids, item))
              && registry.View() == Registered(old(registry.View()), sdk.ids, item)
              && (handle != 0 ==> Found(registry.View(), sdk.ids, handle) == item)
    ensures status != Ok && registry != null ==> registry.View() == old(registry.View())
  {
    var arr;
    handle := 0;
    status, arr := RequireArray(registry, arrayHandle);
    if status != Ok {
      return;
    }
    if throws {
      status := Internal;
      return;
    }
    var items := if arr in sdk.arrays then sdk.arrays[arr] else [];
    if index >= |items| % U32 {
      status := InvalidArgument;
      return;
    }
    var item := items[index];
    if item != NULL {
      handle := registry.Register(item, sdk.ids);
    }
  }

  /**
   `getOwnedItems` listed the items of the graph it found under `graphHandle` in the array `arr`,
   and answered the handle `h`.  Over any run `later`, as long as nothing takes the array out and
   the SDK leaves its contents alone, `get` on `h` answers the identity of the graph's item at
   that very index, or 0 if it is null or dead; out of bounds it answers INVALID_ARGUMENT.
   Once the array is taken out, no handle leads to it.
   */
  lemma OwnedItemsAreGot(before: Trace<P.Step>, graphHandle: nat, arr: Pointer, purgeNow: int, created: int,
                         later: Trace<P.Step>, sdk: Sdk, sdk': Sdk, index: nat)
    requires P.Exec(After(before, P.RegisterArray(arr, purgeNow, created)).Then(later)).Some?
    requires P.EpochsFit(P.Exec(After(before, P.RegisterArray(arr, purgeNow, created)).Then(later)).value.log)
    requires P.Exec(before).Some? && sdk.ids == P.Exec(before).value.ids
    requires KindStatus(P.Exec(before).value.table, sdk, graphHandle, GraphItem) == Ok
    requires var graph := Found(P.Exec(before).value.table, sdk.ids, graphHandle);
      arr in sdk'.arrays && sdk'.arrays[arr] == if graph in sdk.owned then sdk.owned[graph] else []
    ensures var graph := Found(P.Exec(before).value.table, sdk.ids, graphHandle);
      var owned := if graph in sdk.owned then sdk.owned[graph] else [];
      var s := P.Exec(After(before, P.RegisterArray(arr, purgeNow, created)).Then(later)).value;
      var h := P.Exec(before).value.table.nextArray;
      var got := GotItem(s.table, sdk', h, index, false);
      if P.Spares(later, h, created) then
        && (got.status == Ok <==> index < |owned| % U32)
        && (got.status != Ok ==> got.status == InvalidArgument)
        && (got.status == Ok && owned[index] in sdk'.ids && owned[index] != NULL ==>
              got.handle == sdk'.ids[owned[index]])
        && (got.status == Ok && (owned[index] !in sdk'.ids || owned[index] == NULL) ==> got.handle == 0)
      else !Owns(s.table, arr)
  {
    P.ArrayHandleLeadsToItsArray(before, arr, purgeNow, created, later);
    P.ArrayHandlesAreAboveZero(before, arr, purgeNow, created, later);
  }
}
