/**
 The registry under concurrent RPCs.  `Register` reads an item's identity before it takes
 the lock, so everything may happen in between; the other operations are one locked step.
 The SDK is an environment: an item keeps its identity while it lives and has identity 0
 ever after, and one call may destroy any number of items.
 */
module RegistryProtocol {
  import opened Basics
  import opened Traces
  import opened TtlStore
  import opened HandleRegistry

  /** A `Register` call between its two parts: the item and the identity it read. */
  datatype InFlight = InFlight(item: Pointer, id: nat)

  /**
   `log` is what happened to the owned arrays, `handed` the arrays the registry was given,
   `now` the latest reading of the clock.
   */
  datatype State = State(
    table: Table,
    ids: Identities,
    pending: map<nat, InFlight>,
    now: int,
    log: Trace<Op<Pointer>>,
    handed: set<Pointer>
  )

  datatype Step =
    | ReadId(thread: nat, item: Pointer)
    | Insert(thread: nat, item: Pointer, id: nat)
    | Lookup(handle: nat)
    | Unregister(handle: nat)
    | RegisterArray(arr: Pointer, purgeNow: int, created: int)
    | LookupArray(handle: nat)
    | UnregisterArray(handle: nat)
    | Clear
    | Sdk(after: Identities)

  const INIT := State(NEW_TABLE, map[], map[], 0, Start, {})

  /** Items come into being with any identity, keep it while they live, and never return from the dead. */
  ghost predicate LegalChange(ids: Identities, after: Identities) {
    && NULL !in after
    && forall a :: a in ids ==> a in after && (after[a] == ids[a] || after[a] == 0)
  }

  ghost predicate Enabled(s: State, step: Step) {
    match step
    case ReadId(thread, item) => thread !in s.pending && item != NULL
    case Insert(thread, item, id) => thread in s.pending && s.pending[thread] == InFlight(item, id)
    case RegisterArray(arr, purgeNow, created) => arr != NULL && arr !in s.handed && s.now <= purgeNow <= created
    case Sdk(after) => LegalChange(s.ids, after)
    case _ => true
  }

  function Next(s: State, step: Step): State {
    match step
    case ReadId(thread, item) =>
      var id := UniqueId(s.ids, item);
      if id == 0 then s else s.(pending := s.pending[thread := InFlight(item, id)])
    case Insert(thread, item, id) =>
      s.(table := Inserted(s.table, item, id), pending := s.pending - {thread})
    case Lookup(handle) => s.(table := LookedUp(s.table, s.ids, handle))
    case Unregister(handle) => s.(table := Unregistered(s.table, handle))
    case RegisterArray(arr, purgeNow, created) =>
      s.(table := ArrayRegistered(s.table, arr, purgeNow, created),
         now := created,
         log := After(s.log, Put(s.table.nextArray, arr, purgeNow, created)),
         handed := s.handed + {arr})
    case LookupArray(_) => s
    case UnregisterArray(handle) =>
      s.(table := ArrayUnregistered(s.table, handle), log := After(s.log, Del(handle)))
    case Clear => s.(table := Cleared(s.table), log := After(s.log, Wipe))
    case Sdk(after) => s.(ids := after)
  }

  ghost function Exec(run: Trace<Step>): Option<State> {
    match run
    case Start => Some(INIT)
    case After(prev, step) =>
      var before := Exec(prev);
      if before.Some? && Enabled(before.value, step) then Some(Next(before.value, step)) else None
  }

  // ---------------------------------------------------------------- items

  /** The item is known to the SDK, and its identity is `id` or, once dead, 0. */
  ghost predicate Named(ids: Identities, item: Pointer, id: nat) {
    item != NULL && id != 0 && item in ids && (ids[item] == id || ids[item] == 0)
  }

  ghost predicate ItemInv(s: State) {
    && NULL !in s.ids
    && (forall t :: t in s.pending ==> Named(s.ids, s.pending[t].item, s.pending[t].id))
    && (forall h :: h in s.table.handles ==> Named(s.ids, s.table.handles[h], h))
  }

  lemma {:induction false} ItemsAreNamed(run: Trace<Step>)
    requires Exec(run).Some?
    ensures ItemInv(Exec(run).value)
  {
    match run
    case Start =>
    case After(prev, step) => ItemsAreNamed(prev);
  }

  /** The item last registered under `h` since the last `Clear` or `Unregister` of `h`, by the run alone. */
  function LastRegistered(run: Trace<Step>, h: nat): Option<Pointer> {
    match run
    case Start => None
    case After(prev, step) => LastAfter(LastRegistered(prev, h), step, h)
  }

  function LastAfter(last: Option<Pointer>, step: Step, h: nat): Option<Pointer> {
    match step
    case Insert(_, item, id) => if id == h then Some(item) else last
    case Unregister(handle) => if handle == h then None else last
    case Clear => None
    case _ => last
  }

  /** The entry under `h` is the last registration, unless that item died and was evicted. */
  ghost predicate EntryIs(s: State, h: nat, last: Option<Pointer>) {
    match last
    case None => h !in s.table.handles
    case Some(item) =>
      && Named(s.ids, item, h)
      && (if h in s.table.handles then s.table.handles[h] == item else UniqueId(s.ids, item) == 0)
  }

  lemma EntryStays(s: State, step: Step, h: nat, last: Option<Pointer>)
    requires ItemInv(s) && Enabled(s, step) && EntryIs(s, h, last)
    ensures EntryIs(Next(s, step), h, LastAfter(last, step, h))
  {
  }

  lemma {:induction false} EntryIsLastRegistered(run: Trace<Step>, h: nat)
    requires Exec(run).Some?
    ensures EntryIs(Exec(run).value, h, LastRegistered(run, h))
  {
    match run
    case Start =>
    case After(prev, step) =>
      EntryIsLastRegistered(prev, h);
      ItemsAreNamed(prev);
      EntryStays(Exec(prev).value, step, h, LastRegistered(prev, h));
  }

  /**
   A lookup answers what a history keeper would: the item last registered under the handle
   if it is still alive, else nothing; and an item it answers has that handle for identity.
   */
  lemma LookupAnswersHistory(run: Trace<Step>, h: nat)
    requires Exec(run).Some?
    ensures var s, last := Exec(run).value, LastRegistered(run, h);
      && Found(s.table, s.ids, h)
           == (if last.Some? && UniqueId(s.ids, last.value) != 0 then last.value else NULL)
      && (Found(s.table, s.ids, h) != NULL ==> UniqueId(s.ids, Found(s.table, s.ids, h)) == h)
  {
    EntryIsLastRegistered(run, h);
  }

  /** Every registration under `h` in the run is of the item `item`. */
  ghost predicate RegistersOnly(run: Trace<Step>, h: nat, item: Pointer) {
    match run
    case Start => true
    case After(prev, step) => RegistersOnly(prev, h, item) && (step.Insert? && step.id == h ==> step.item == item)
  }

  ghost predicate RegistersNothing(run: Trace<Step>, h: nat) {
    match run
    case Start => true
    case After(prev, step) => RegistersNothing(prev, h) && !(step.Insert? && step.id == h)
  }

  lemma {:induction false} PrefixRuns(before: Trace<Step>, later: Trace<Step>)
    requires Exec(before.Then(later)).Some?
    ensures Exec(before).Some?
  {
    match later
    case Start =>
    case After(prev, _) => PrefixRuns(before, prev);
  }

  lemma {:induction false} LastRegisteredAfter(before: Trace<Step>, later: Trace<Step>, h: nat, item: Pointer)
    requires LastRegistered(before, h).None?
    ensures RegistersOnly(later, h, item) ==> LastRegistered(before.Then(later), h) in {None, Some(item)}
    ensures RegistersNothing(later, h) ==> LastRegistered(before.Then(later), h) == None
  {
    match later
    case Start =>
    case After(prev, _) => LastRegisteredAfter(before, prev, h, item);
  }

  lemma {:induction false} DeadStaysDead(before: Trace<Step>, later: Trace<Step>, item: Pointer)
    requires Exec(before.Then(later)).Some?
    requires Exec(before).Some? && item in Exec(before).value.ids && UniqueId(Exec(before).value.ids, item) == 0
    ensures item in Exec(before.Then(later)).value.ids && UniqueId(Exec(before.Then(later)).value.ids, item) == 0
  {
    match later
    case Start =>
    case After(prev, step) => DeadStaysDead(before, prev, item);
  }

  /** A living item keeps its identity until it dies. */
  lemma {:induction false} IdentityIsKept(before: Trace<Step>, later: Trace<Step>, item: Pointer)
    requires Exec(before.Then(later)).Some?
    requires Exec(before).Some? && UniqueId(Exec(before).value.ids, item) != 0
    ensures UniqueId(Exec(before.Then(later)).value.ids, item) in {UniqueId(Exec(before).value.ids, item), 0}
    ensures item in Exec(before.Then(later)).value.ids
  {
    match later
    case Start =>
    case After(prev, step) => IdentityIsKept(before, prev, item);
  }

  /** Once an item is dead no lookup answers it again, whatever happens and under any handle. */
  lemma DeadItemsAreNeverAnswered(before: Trace<Step>, later: Trace<Step>, item: Pointer, h: nat)
    requires Exec(before.Then(later)).Some?
    requires Exec(before).Some? && item in Exec(before).value.ids && UniqueId(Exec(before).value.ids, item) == 0
    ensures var s := Exec(before.Then(later)).value; Found(s.table, s.ids, h) != item
  {
    DeadStaysDead(before, later, item);
    ItemsAreNamed(before.Then(later));
  }

  /** After a `Clear`, with anything before and between, no handle resolves until it is registered again. */
  lemma ClearForgetsEverything(before: Trace<Step>, later: Trace<Step>, h: nat)
    requires Exec(After(before, Clear).Then(later)).Some?
    requires RegistersNothing(later, h)
    ensures var s := Exec(After(before, Clear).Then(later)).value; Found(s.table, s.ids, h) == NULL
  {
    LastRegisteredAfter(After(before, Clear), later, h, NULL);
    LookupAnswersHistory(After(before, Clear).Then(later), h);
  }

  /**
   `destroy` among other clients' steps: the SDK destroys the item, then the handle is
   unregistered.  From then on the handle stays unresolved, even if a `Register` of the
   very same item that had read its identity in time completes afterwards.
   */
  lemma DestroyedHandleStaysGone(before: Trace<Step>, kill: Identities, between: Trace<Step>, later: Trace<Step>,
                                 item: Pointer, h: nat)
    requires item in kill && kill[item] == 0
    requires Exec(After(After(before, Sdk(kill)).Then(between), Unregister(h)).Then(later)).Some?
    requires RegistersOnly(later, h, item)
    ensures var s := Exec(After(After(before, Sdk(kill)).Then(between), Unregister(h)).Then(later)).value;
            Found(s.table, s.ids, h) == NULL
  {
    var killed := After(before, Sdk(kill));
    var unregistered := After(killed.Then(between), Unregister(h));
    var run := unregistered.Then(later);
    PrefixRuns(unregistered, later);
    PrefixRuns(killed, between);
    DeadStaysDead(killed, between, item);
    DeadStaysDead(unregistered, later, item);
    LastRegisteredAfter(unregistered, later, h, item);
    LookupAnswersHistory(run, h);
  }

  /** With nothing in between, the two parts of `Register` do what the whole call does. */
  lemma UninterruptedRegister(run: Trace<Step>, thread: nat, item: Pointer)
    requires Exec(run).Some? && thread !in Exec(run).value.pending && item != NULL
    ensures var s := Exec(run).value;
      var id := UniqueId(s.ids, item);
      var read := After(run, ReadId(thread, item));
      var done := if id == 0 then read else After(read, Insert(thread, item, id));
      Exec(done) == Some(s.(table := Registered(s.table, s.ids, item)))
  {
    var s := Exec(run).value;
    var id := UniqueId(s.ids, item);
    var read := After(run, ReadId(thread, item));
    if id == 0 {
      assert Exec(read) == Some(s);
    } else {
      assert Exec(read) == Some(s.(pending := s.pending[thread := InFlight(item, id)]));
      assert s.pending[thread := InFlight(item, id)] - {thread} == s.pending;
    }
  }

  // ---------------------------------------------------------------- counting entries

  /** The step makes a new entry. */
  ghost predicate MakesEntry(s: State, step: Step) {
    step.Insert? && step.id !in s.table.handles
  }

  /** The step evicts a stale entry. */
  ghost predicate Evicts(s: State, step: Step) {
    step.Lookup? && IsStale(s.table, s.ids, step.handle)
  }

  /** The step unregisters an entry that is there. */
  ghost predicate Unregisters(s: State, step: Step) {
    step.Unregister? && step.handle in s.table.handles
  }

  /** What became of all entries made during a run. */
  datatype Census = Census(made: nat, evicted: nat, unregistered: nat, dropped: nat)

  ghost function CensusOf(run: Trace<Step>): Census
    requires Exec(run).Some?
  {
    match run
    case Start => Census(0, 0, 0, 0)
    case After(prev, step) => Counted(CensusOf(prev), Exec(prev).value, step)
  }

  ghost function Counted(c: Census, s: State, step: Step): Census {
    Census(c.made + if MakesEntry(s, step) then 1 else 0,
           c.evicted + if Evicts(s, step) then 1 else 0,
           c.unregistered + if Unregisters(s, step) then 1 else 0,
           c.dropped + if step.Clear? then |s.table.handles| else 0)
  }

  /** Every entry made is in the table or counted as gone; the diagnostic counter is the evictions modulo 2^64. */
  ghost predicate Balanced(s: State, c: Census) {
    && c.made == |s.table.handles| + c.evicted + c.unregistered + c.dropped
    && s.table.staleEvictions == c.evicted % U64
  }

  lemma MapSizes(m: map<nat, Pointer>, k: nat, item: Pointer)
    ensures |m - {k}| == |m| - (if k in m then 1 else 0)
    ensures |m[k := item]| == |m| + (if k in m then 0 else 1)
  {
    assert (m - {k}).Keys == m.Keys - {k};
    assert m[k := item].Keys == m.Keys + {k};
    assert |m.Keys| == |m| && |(m - {k}).Keys| == |m - {k}| && |m[k := item].Keys| == |m[k := item]|;
  }

  lemma EntryStep(s: State, step: Step)
    ensures |Next(s, step).table.handles|
         == |s.table.handles|
            + (if MakesEntry(s, step) then 1 else 0)
            - (if Evicts(s, step) then 1 else 0)
            - (if Unregisters(s, step) then 1 else 0)
            - (if step.Clear? then |s.table.handles| else 0)
  {
    match step
    case Insert(_, item, id) =>
      MapSizes(s.table.handles, id, item);
      assert Next(s, step).table.handles == s.table.handles[id := item];
    case Lookup(handle) =>
      MapSizes(s.table.handles, handle, NULL);
    case Unregister(handle) =>
      MapSizes(s.table.handles, handle, NULL);
      assert Next(s, step).table.handles == s.table.handles - {handle};
    case Clear => assert Next(s, step).table.handles == map[];
    case _ => assert Next(s, step).table.handles == s.table.handles;
  }

  lemma EvictionStep(s: State, step: Step)
    ensures Next(s, step).table.staleEvictions
         == if Evicts(s, step) then (s.table.staleEvictions + 1) % U64 else s.table.staleEvictions
  {
  }

  lemma StaysBalanced(s: State, c: Census, step: Step)
    requires Balanced(s, c)
    ensures Balanced(Next(s, step), Counted(c, s, step))
  {
    var s', c' := Next(s, step), Counted(c, s, step);
    assert c'.made == |s'.table.handles| + c'.evicted + c'.unregistered + c'.dropped by {
      EntryStep(s, step);
    }
    assert s'.table.staleEvictions == c'.evicted % U64 by {
      EvictionStep(s, step);
      WrapOne(c.evicted);
    }
  }

  lemma WrapOne(n: nat)
    ensures (n % U64 + 1) % U64 == (n + 1) % U64
  {
  }

  /**
   Conservation: every entry ever made is still there, was evicted, was unregistered or was
   dropped by a `Clear`; and the diagnostic counter counts the evictions across clears.
   */
  lemma {:induction false} EntriesAreConserved(run: Trace<Step>)
    requires Exec(run).Some?
    ensures Balanced(Exec(run).value, CensusOf(run))
  {
    match run
    case Start =>
    case After(prev, step) =>
      EntriesAreConserved(prev);
      StaysBalanced(Exec(prev).value, CensusOf(prev), step);
  }

  // ---------------------------------------------------------------- arrays

  /** Arrays registered since the last `Clear`. */
  function EpochCount(log: Trace<Op<Pointer>>): nat {
    match log
    case Start => 0
    case After(_, Wipe) => 0
    case After(prev, Put(_, _, _, _)) => EpochCount(prev) + 1
    case After(prev, _) => EpochCount(prev)
  }

  /** The counter did not run over between any two `Clear`s. */
  ghost predicate EpochsFit(log: Trace<Op<Pointer>>) {
    EpochCount(log) <= U64 - FIRST_ARRAY_HANDLE && (log.After? ==> EpochsFit(log.prev))
  }

  /** The n-th array of an epoch was put under the n-th handle. */
  ghost predicate Numbered(log: Trace<Op<Pointer>>) {
    match log
    case Start => true
    case After(prev, op) => Numbered(prev) && (op.Put? ==> op.key == (FIRST_ARRAY_HANDLE + EpochCount(prev)) % U64)
  }

  ghost predicate ArrayInv(s: State) {
    && s.table.arrays == Replay(s.log, ARRAY_TTL)
    && s.table.nextArray == (FIRST_ARRAY_HANDLE + EpochCount(s.log)) % U64
    && Numbered(s.log) && Monotone(s.log) && LastTime(s.log) <= s.now
    && (forall arr :: Puts(s.log, arr) == if arr in s.handed then 1 else 0)
  }

  lemma ArrayStep(s: State, step: Step)
    requires ArrayInv(s) && Enabled(s, step)
    ensures ArrayInv(Next(s, step))
  {
    var s' := Next(s, step);
    if step.RegisterArray? {
      WrapOne(FIRST_ARRAY_HANDLE + EpochCount(s.log));
      assert s'.table.nextArray == (FIRST_ARRAY_HANDLE + EpochCount(s'.log)) % U64;
    }
  }

  lemma {:induction false} ArraysAreLogged(run: Trace<Step>)
    requires Exec(run).Some?
    ensures ArrayInv(Exec(run).value)
  {
    match run
    case Start =>
    case After(prev, step) =>
      ArraysAreLogged(prev);
      ArrayStep(Exec(prev).value, step);
  }

  /** As long as the counter does not run over, the keys of an epoch are below the counter and none is used twice. */
  lemma {:induction false} KeysAreBelowCounter(log: Trace<Op<Pointer>>)
    requires Numbered(log) && EpochsFit(log)
    ensures forall k :: k in Unpurged(log, ARRAY_TTL) ==> FIRST_ARRAY_HANDLE <= k < FIRST_ARRAY_HANDLE + EpochCount(log)
    ensures KeysFresh(log, ARRAY_TTL)
  {
    match log
    case Start =>
    case After(prev, _) =>
      KeysAreBelowCounter(prev);
      PurgesOnlyTakeAway(prev, ARRAY_TTL);
  }

  /** Before it runs over, the counter tells how many arrays the epoch has seen. */
  lemma CounterCountsEpoch(run: Trace<Step>)
    requires Exec(run).Some? && EpochCount(Exec(run).value.log) < U64 - FIRST_ARRAY_HANDLE
    ensures Exec(run).value.table.nextArray == FIRST_ARRAY_HANDLE + EpochCount(Exec(run).value.log)
  {
    ArraysAreLogged(run);
  }

  /** Every live array handle lies between 2^52 and the counter, so no registration writes over one. */
  lemma ArrayHandlesAreFresh(run: Trace<Step>)
    requires Exec(run).Some? && EpochsFit(Exec(run).value.log)
    ensures var s := Exec(run).value;
      && (forall k :: k in s.table.arrays ==> FIRST_ARRAY_HANDLE <= k < FIRST_ARRAY_HANDLE + EpochCount(s.log))
      && (EpochCount(s.log) < U64 - FIRST_ARRAY_HANDLE ==> s.table.nextArray !in s.table.arrays)
  {
    var s := Exec(run).value;
    assert s.table.arrays == Replay(s.log, ARRAY_TTL) && Numbered(s.log) by {
      ArraysAreLogged(run);
    }
    KeysAreBelowCounter(s.log);
    PurgesOnlyTakeAway(s.log, ARRAY_TTL);
    if EpochCount(s.log) < U64 - FIRST_ARRAY_HANDLE {
      CounterCountsEpoch(run);
    }
  }

  /** The ledger: an array handed over is owned by exactly one entry, or was freed exactly once. */
  lemma ArraysAreOwnedOrFreedOnce(run: Trace<Step>, arr: Pointer)
    requires Exec(run).Some? && EpochsFit(Exec(run).value.log)
    ensures var s := Exec(run).value;
      Copies(s.table.arrays, arr) + Removals(s.log, ARRAY_TTL, arr) == if arr in s.handed then 1 else 0
  {
    var s := Exec(run).value;
    ArraysAreLogged(run);
    KeysAreBelowCounter(s.log);
    FreshKeysOverwriteNothing(s.log, ARRAY_TTL, arr);
    PutsAreAccountedFor(s.log, ARRAY_TTL, arr);
  }

  ghost predicate NoClear(run: Trace<Step>) {
    match run
    case Start => true
    case After(prev, step) => !step.Clear? && NoClear(prev)
  }

  lemma {:induction false} CounterGrows(before: Trace<Step>, later: Trace<Step>)
    requires Exec(before).Some? && Exec(before.Then(later)).Some? && NoClear(later)
    ensures EpochCount(Exec(before.Then(later)).value.log) >= EpochCount(Exec(before).value.log)
  {
    match later
    case Start =>
    case After(prev, _) => CounterGrows(before, prev);
  }

  /** Between two `Clear`s a handle given out is not given out again. */
  lemma ArrayHandlesAreNotReused(before: Trace<Step>, arr: Pointer, purgeNow: int, created: int, later: Trace<Step>)
    requires Exec(After(before, RegisterArray(arr, purgeNow, created)).Then(later)).Some? && NoClear(later)
    requires EpochCount(Exec(After(before, RegisterArray(arr, purgeNow, created)).Then(later)).value.log)
           < U64 - FIRST_ARRAY_HANDLE
    ensures Exec(before).Some?
    ensures Exec(before).value.table.nextArray
          < Exec(After(before, RegisterArray(arr, purgeNow, created)).Then(later)).value.table.nextArray
  {
    var registered := After(before, RegisterArray(arr, purgeNow, created));
    PrefixRuns(registered, later);
    CounterGrows(registered, later);
    assert EpochCount(Exec(registered).value.log) == EpochCount(Exec(before).value.log) + 1;
    CounterCountsEpoch(before);
    CounterCountsEpoch(registered.Then(later));
  }

  /** Nothing in the run takes the array registered under `h` at time `created` out of the table. */
  ghost predicate Spares(run: Trace<Step>, h: nat, created: int) {
    match run
    case Start => true
    case After(prev, step) =>
      && Spares(prev, h, created)
      && !step.Clear? && step != UnregisterArray(h)
      && (step.RegisterArray? ==> step.purgeNow - created <= 60 * TICKS_PER_SECOND)
  }

  lemma {:induction false} SparesMeansNoClear(run: Trace<Step>, h: nat, created: int)
    requires Spares(run, h, created)
    ensures NoClear(run)
  {
    match run
    case Start =>
    case After(prev, _) => SparesMeansNoClear(prev, h, created);
  }

  /** The array is under `h` as it was put there, if `there`, and otherwise under no handle. */
  ghost predicate ArrayIsThere(s: State, h: nat, arr: Pointer, created: int, there: bool) {
    if there then h in s.table.arrays && s.table.arrays[h] == Entry(arr, created)
    else forall k :: k in s.table.arrays ==> s.table.arrays[k].value != arr
  }

  lemma ArrayAfterStep(s: State, step: Step, h: nat, arr: Pointer, created: int, there: bool)
    requires Enabled(s, step) && ArrayIsThere(s, h, arr, created, there)
    requires arr in s.handed && Copies(s.table.arrays, arr) <= 1
    requires step.RegisterArray? && there ==> s.table.nextArray != h
    ensures var stays := there && Spares(After(Start, step), h, created);
      ArrayIsThere(Next(s, step), h, arr, created, stays)
  {
    if there {
      forall k | k in s.table.arrays && s.table.arrays[k].value == arr
        ensures k == h
      {
        OnlyHolder(s.table.arrays, arr, h, k);
      }
    }
  }

  /**
   An array handle leads to the array it was given out for, as long as no `Clear`, no
   `UnregisterArray` of it and no registration more than 60 seconds later has come; after
   that no handle leads to that array.
   */
  lemma {:induction false} ArrayHandleLeadsToItsArray(before: Trace<Step>, arr: Pointer, purgeNow: int, created: int,
                                                      later: Trace<Step>)
    requires Exec(After(before, RegisterArray(arr, purgeNow, created)).Then(later)).Some?
    requires EpochsFit(Exec(After(before, RegisterArray(arr, purgeNow, created)).Then(later)).value.log)
    ensures Exec(before).Some?
    ensures var h := Exec(before).value.table.nextArray;
      var s := Exec(After(before, RegisterArray(arr, purgeNow, created)).Then(later)).value;
      arr in s.handed && ArrayIsThere(s, h, arr, created, Spares(later, h, created))
  {
    match later
    case Start =>
    case After(prev, step) =>
      var registered := After(before, RegisterArray(arr, purgeNow, created));
      ArrayHandleLeadsToItsArray(before, arr, purgeNow, created, prev);
      var s, h := Exec(registered.Then(prev)).value, Exec(before).value.table.nextArray;
      ArraysAreOwnedOrFreedOnce(registered.Then(prev), arr);
      if Spares(prev, h, created) && step.RegisterArray? {
        SparesMeansNoClear(prev, h, created);
        ArrayHandlesAreNotReused(before, arr, purgeNow, created, prev);
      }
      ArrayAfterStep(s, step, h, arr, created, Spares(prev, h, created));
  }

  /** As long as the counter has not run over, no array is given the handle 0. */
  lemma ArrayHandlesAreAboveZero(before: Trace<Step>, arr: Pointer, purgeNow: int, created: int, later: Trace<Step>)
    requires Exec(After(before, RegisterArray(arr, purgeNow, created)).Then(later)).Some?
    requires EpochsFit(Exec(After(before, RegisterArray(arr, purgeNow, created)).Then(later)).value.log)
    ensures Exec(before).Some? && Exec(before).value.table.nextArray >= FIRST_ARRAY_HANDLE
    ensures arr != NULL
  {
    var registered := After(before, RegisterArray(arr, purgeNow, created));
    PrefixRuns(registered, later);
    PrefixFits(registered, later);
    CounterCountsEpoch(before);
  }

  lemma {:induction false} PrefixFits(before: Trace<Step>, later: Trace<Step>)
    requires Exec(before).Some? && Exec(before.Then(later)).Some? && EpochsFit(Exec(before.Then(later)).value.log)
    ensures EpochsFit(Exec(before).value.log)
  {
    match later
    case Start =>
    case After(prev, _) => PrefixFits(before, prev);
  }

  /** After a `Clear` a handle may lead to another array than the one it was given out for. */
  lemma ClearGivesHandlesOutAgain() returns (run: Trace<Step>)
    ensures run == After(After(After(Start, RegisterArray(7, 0, 0)), Clear), RegisterArray(8, 0, 0))
    ensures Exec(run).Some?
    ensures Exec(After(Start, RegisterArray(7, 0, 0))).value.table.arrays == map[FIRST_ARRAY_HANDLE := Entry(7, 0)]
    ensures Exec(run).value.table.arrays == map[FIRST_ARRAY_HANDLE := Entry(8, 0)]
  {
    var first := After(Start, RegisterArray(7, 0, 0));
    assert Exec(first).value.table.arrays == map[FIRST_ARRAY_HANDLE := Entry(7, 0)];
    run := After(After(first, Clear), RegisterArray(8, 0, 0));
    assert Exec(After(first, Clear)).value.table == Cleared(Exec(first).value.table);
  }

  lemma WrappedRange(n: nat)
    ensures (FIRST_ARRAY_HANDLE <= (FIRST_ARRAY_HANDLE + n) % U64 < JS_UNSAFE) <==>
            (n % U64 < JS_UNSAFE - FIRST_ARRAY_HANDLE)
  {
    var q, r := n / U64, n % U64;
    assert n == q * U64 + r;
    var m := if FIRST_ARRAY_HANDLE + r < U64 then FIRST_ARRAY_HANDLE + r else FIRST_ARRAY_HANDLE + r - U64;
    assert (FIRST_ARRAY_HANDLE + n) % U64 == m;
  }

  /** The next array handle is safe for JavaScript exactly while fewer than 2^52 arrays, modulo a turn, came in. */
  lemma NextHandleIsSafeIff(run: Trace<Step>)
    requires Exec(run).Some?
    ensures var s := Exec(run).value;
      (0x10_0000_0000_0000 <= s.table.nextArray < 0x20_0000_0000_0000) <==>
      (EpochCount(s.log) % U64 < 0x10_0000_0000_0000)
  {
    ArraysAreLogged(run);
    WrappedRange(EpochCount(Exec(run).value.log));
  }

  /** Without `Clear` the counter in the end reaches 0, the handle every RPC refuses: where it fits no more. */
  lemma CounterRunsOver(run: Trace<Step>)
    requires Exec(run).Some? && EpochCount(Exec(run).value.log) == U64 - FIRST_ARRAY_HANDLE
    ensures Exec(run).value.table.nextArray == 0
  {
    ArraysAreLogged(run);
  }

  /**
   At any time the live arrays are exactly those registered since the last `Clear`, not
   unregistered, and no older than 60 seconds at the latest registration.
   */
  lemma ArraysExpireExactly(run: Trace<Step>)
    requires Exec(run).Some?
    ensures var s := Exec(run).value;
      && s.table.arrays == Keep(Unpurged(s.log, ARRAY_TTL), LastPurge(s.log), ARRAY_TTL)
      && LastPurge(s.log) <= s.now
  {
    ArraysAreLogged(run);
    ExpiryIsExact(Exec(run).value.log, ARRAY_TTL);
  }
}
