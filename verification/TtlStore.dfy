/**
 The bookkeeping shared by the registry's owned arrays and the cloned render surfaces:
 a table of entries stamped with their creation time.  Entries older than a time-to-live
 are thrown out when a new entry is added, and at no other time.
 */
module TtlStore {
  import opened Traces

  datatype Entry<V> = Entry(value: V, created: int)

  type Store<V> = map<nat, Entry<V>>

  /**
   What happens to a table, in the order in which the mutex serialises it.  `Put` reads
   the clock twice: `purgeNow` for the purge, then `created` for the stamp.  `Cut` is a purge
   that an exception ends after it has dealt with the keys in `reached`; nothing is put.
   */
  datatype Op<V> =
    | Put(key: nat, value: V, purgeNow: int, created: int)
    | Cut(now: int, reached: set<nat>)
    | Del(key: nat)
    | Wipe

  /** The entries that a purge at time `now` keeps. */
  function Keep<V>(m: Store<V>, now: int, ttl: int): Store<V> {
    map k | k in m && now - m[k].created <= ttl :: m[k]
  }

  /** The keys a purge at time `now` takes out if it gets no further than `reached`. */
  function Expired<V>(m: Store<V>, now: int, ttl: int, reached: set<nat>): set<nat> {
    set k | k in m && k in reached && now - m[k].created > ttl
  }

  function Apply<V>(m: Store<V>, op: Op<V>, ttl: int): Store<V> {
    match op
    case Put(key, value, purgeNow, created) => Keep(m, purgeNow, ttl)[key := Entry(value, created)]
    case Cut(now, reached) => m - Expired(m, now, ttl, reached)
    case Del(key) => m - {key}
    case Wipe => map[]
  }

  function Replay<V>(log: Trace<Op<V>>, ttl: int): Store<V> {
    match log
    case Start => map[]
    case After(prev, op) => Apply(Replay(prev, ttl), op, ttl)
  }

  // ---------------------------------------------------------------- expiry

  /** What is left when no purge runs to its end: removals and cut-short purges take entries out, nothing else. */
  function Unpurged<V>(log: Trace<Op<V>>, ttl: int): Store<V> {
    match log
    case Start => map[]
    case After(prev, Put(key, value, _, created)) => Unpurged(prev, ttl)[key := Entry(value, created)]
    case After(prev, Cut(now, reached)) => Unpurged(prev, ttl) - Expired(Unpurged(prev, ttl), now, ttl, reached)
    case After(prev, Del(key)) => Unpurged(prev, ttl) - {key}
    case After(_, Wipe) => map[]
  }

  /** The time of the latest purge that ran to its end. */
  function LastPurge<V>(log: Trace<Op<V>>): int {
    match log
    case Start => 0
    case After(_, Put(_, _, purgeNow, _)) => purgeNow
    case After(prev, _) => LastPurge(prev)
  }

  /** The latest clock reading made by an operation of the log. */
  function LastTime<V>(log: Trace<Op<V>>): int {
    match log
    case Start => 0
    case After(_, Put(_, _, _, created)) => created
    case After(prev, _) => LastTime(prev)
  }

  /** The clock never goes back between one reading and the next. */
  ghost predicate Monotone<V>(log: Trace<Op<V>>) {
    match log
    case Start => true
    case After(prev, Put(_, _, purgeNow, created)) => Monotone(prev) && LastTime(prev) <= purgeNow <= created
    case After(prev, _) => Monotone(prev)
  }

  /**
   The purge loop in both directions: an entry that was not taken out otherwise is in the
   table exactly when it was no older than the time-to-live at the latest complete purge,
   and it is unaltered.
   */
  lemma {:induction false} ExpiryIsExact<V>(log: Trace<Op<V>>, ttl: nat)
    requires Monotone(log)
    ensures LastPurge(log) <= LastTime(log)
    ensures Replay(log, ttl) == Keep(Unpurged(log, ttl), LastPurge(log), ttl)
  {
    match log
    case Start =>
    case After(prev, op) =>
      ExpiryIsExact(prev, ttl);
      if op.Put? {
        var m := Unpurged(prev, ttl);
        assert Keep(Keep(m, LastPurge(prev), ttl), op.purgeNow, ttl) == Keep(m, op.purgeNow, ttl);
      }
  }

  /** Purges take entries out and never alter one. */
  lemma {:induction false} PurgesOnlyTakeAway<V>(log: Trace<Op<V>>, ttl: int)
    ensures forall k :: k in Replay(log, ttl) ==>
              k in Unpurged(log, ttl) && Replay(log, ttl)[k] == Unpurged(log, ttl)[k]
  {
    match log
    case Start =>
    case After(prev, _) => PurgesOnlyTakeAway(prev, ttl);
  }

  // ---------------------------------------------------------------- ownership

  /** The keys under which the value `v` is held. */
  function Holders<V(==)>(m: Store<V>, v: V): set<nat> {
    set k | k in m && m[k].value == v
  }

  /** How many entries hold the value `v`. */
  function Copies<V(==)>(m: Store<V>, v: V): nat {
    |Holders(m, v)|
  }

  /** How often one operation takes an entry holding `v` out of the table `m`. */
  function RemovedBy<V(==)>(m: Store<V>, op: Op<V>, ttl: int, v: V): nat {
    match op
    case Put(_, _, purgeNow, _) => Copies(m - Keep(m, purgeNow, ttl).Keys, v)
    case Cut(now, reached) => Copies(m - (m.Keys - Expired(m, now, ttl, reached)), v)
    case Del(key) => if key in m && m[key].value == v then 1 else 0
    case Wipe => Copies(m, v)
  }

  /** How often one operation writes over an entry that holds `v` and that the purge kept. */
  function OverwrittenBy<V(==)>(m: Store<V>, op: Op<V>, ttl: int, v: V): nat {
    match op
    case Put(key, _, purgeNow, _) =>
      var kept := Keep(m, purgeNow, ttl);
      if key in kept && kept[key].value == v then 1 else 0
    case _ => 0
  }

  function Puts<V(==)>(log: Trace<Op<V>>, v: V): nat {
    match log
    case Start => 0
    case After(prev, op) => Puts(prev, v) + if op.Put? && op.value == v then 1 else 0
  }

  function Removals<V(==)>(log: Trace<Op<V>>, ttl: int, v: V): nat {
    match log
    case Start => 0
    case After(prev, op) => Removals(prev, ttl, v) + RemovedBy(Replay(prev, ttl), op, ttl, v)
  }

  function Overwrites<V(==)>(log: Trace<Op<V>>, ttl: int, v: V): nat {
    match log
    case Start => 0
    case After(prev, op) => Overwrites(prev, ttl, v) + OverwrittenBy(Replay(prev, ttl), op, ttl, v)
  }

  lemma CopiesSplit<V>(m: Store<V>, kept: set<nat>, v: V)
    ensures Copies(m, v) == Copies(m - kept, v) + Copies(m - (m.Keys - kept), v)
  {
    var outside, inside := Holders(m - kept, v), Holders(m - (m.Keys - kept), v);
    assert outside !! inside;
    assert Holders(m, v) == outside + inside;
  }

  lemma CopiesWithout<V>(m: Store<V>, key: nat, v: V)
    ensures Copies(m, v) == Copies(m - {key}, v) + if key in m && m[key].value == v then 1 else 0
  {
    var rest := Holders(m - {key}, v);
    assert Holders(m, v) == if key in m && m[key].value == v then rest + {key} else rest;
  }

  lemma CopiesUpdated<V>(m: Store<V>, key: nat, e: Entry<V>, v: V)
    ensures Copies(m[key := e], v)
         == Copies(m, v) - (if key in m && m[key].value == v then 1 else 0) + (if e.value == v then 1 else 0)
  {
    CopiesWithout(m, key, v);
    CopiesWithout(m[key := e], key, v);
    assert m[key := e] - {key} == m - {key};
  }

  /** A value held once is held under one key. */
  lemma OnlyHolder<V>(m: Store<V>, v: V, h: nat, k: nat)
    requires Copies(m, v) <= 1 && h in m && m[h].value == v && k in m && m[k].value == v
    ensures k == h
  {
    var rest := Holders(m, v) - {h};
    assert Holders(m, v) == {h} + rest;
    assert rest == {};
    assert k in Holders(m, v);
  }

  /** Conservation: every value put in is in the table, was taken out, or was written over. */
  lemma {:induction false} PutsAreAccountedFor<V>(log: Trace<Op<V>>, ttl: int, v: V)
    ensures Puts(log, v) == Copies(Replay(log, ttl), v) + Removals(log, ttl, v) + Overwrites(log, ttl, v)
  {
    match log
    case Start =>
      assert Holders<V>(map[], v) == {};
    case After(prev, op) =>
      PutsAreAccountedFor(prev, ttl, v);
      var m := Replay(prev, ttl);
      match op {
        case Put(key, value, purgeNow, created) =>
          var kept := Keep(m, purgeNow, ttl);
          CopiesSplit(m, kept.Keys, v);
          assert m - (m.Keys - kept.Keys) == kept;
          CopiesUpdated(kept, key, Entry(value, created), v);
        case Cut(now, reached) =>
          CopiesSplit(m, Expired(m, now, ttl, reached), v);
        case Del(key) =>
          CopiesWithout(m, key, v);
        case Wipe =>
          assert Holders<V>(map[], v) == {};
      }
  }

  /** Every key put in is absent from the table left by the operations before. */
  ghost predicate KeysFresh<V>(log: Trace<Op<V>>, ttl: int) {
    match log
    case Start => true
    case After(prev, op) => KeysFresh(prev, ttl) && (op.Put? ==> op.key !in Replay(prev, ttl))
  }

  /** With fresh keys nothing is ever written over. */
  lemma {:induction false} FreshKeysOverwriteNothing<V>(log: Trace<Op<V>>, ttl: int, v: V)
    requires KeysFresh(log, ttl)
    ensures Overwrites(log, ttl, v) == 0
  {
    match log
    case Start =>
    case After(prev, _) => FreshKeysOverwriteNothing(prev, ttl, v);
  }
}
