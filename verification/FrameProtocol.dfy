/**
 Any number of `grabSharedFrame` and `releaseSharedFrame` calls at once.  A grab takes its
 frame number with an atomic increment before it takes the lock under which the clone is
 recorded, so other calls run in between.  At any point a grab may be ended by an exception,
 which is caught around its whole body and answered with INTERNAL.
 */
module FrameProtocol {
  import opened Basics
  import opened Traces
  import opened TtlStore
  import opened SharedFrames

  /** Where a grab stands.  A phase with a surface is one in which the call owns that clone. */
  datatype Phase =
    | Begun
    | HasResult(images: seq<Surface>)
    | Cloned(image: nat, surface: Surface)
    | ResultReturned(image: nat, surface: Surface)
    | Opened(image: nat, surface: Surface)
    | Duplicated(image: nat, surface: Surface)
    | Numbered(image: nat, surface: Surface, id: nat)
    | Tracked(frame: Frame)
    | Returned(status: Status, answer: Option<Frame>)

  /** `successes` counts grabs the SDK answered with true, `yielded` those with at least one image. */
  datatype Call = Call(phase: Phase, successes: nat, yielded: nat, releases: nat)

  /**
   `early` are the clones released by calls that failed, `abandoned` those that were owned by a
   call when an exception ended it, `issued` all clones the SDK made, `fetches` how often the
   frame counter was incremented, `log` what happened to the table.
   */
  datatype State = State(
    calls: map<nat, Call>,
    clones: Store<Surface>,
    nextFrameId: nat,
    now: int,
    early: multiset<Surface>,
    abandoned: multiset<Surface>,
    issued: set<Surface>,
    fetches: nat,
    log: Trace<Op<Surface>>
  )

  /** `ThrowTracking` is an exception under the lock, when the purge has dealt with the keys in `reached`. */
  datatype Step =
    | Begin(c: nat)
    | NoClient(c: nat)
    | Grab(c: nat, grabbed: bool, images: seq<Surface>)
    | NoSharedSurface(c: nat)
    | CloneSurface(c: nat, image: nat, clone: Surface)
    | ReturnResult(c: nat)
    | OpenProcess(c: nat, ok: bool)
    | DuplicateHandle(c: nat, ok: bool)
    | TakeNumber(c: nat)
    | Track(c: nat, purgeNow: int, created: int)
    | Answer(c: nat)
    | Throw(c: nat)
    | ThrowTracking(c: nat, purgeNow: int, reached: set<nat>)
    | ReleaseFrame(frameId: nat)

  const INIT := State(map[], map[], 1, 0, multiset{}, multiset{}, {}, 0, Start)

  ghost predicate Enabled(s: State, step: Step) {
    match step
    case Begin(c) => c !in s.calls
    case NoClient(c) => c in s.calls && s.calls[c].phase.Begun?
    case Grab(c, _, _) => c in s.calls && s.calls[c].phase.Begun?
    case NoSharedSurface(c) => c in s.calls && s.calls[c].phase.HasResult? && !AnySurface(s.calls[c].phase.images)
    case CloneSurface(c, image, clone) =>
      && c in s.calls && s.calls[c].phase.HasResult? && IsFirstSurface(s.calls[c].phase.images, image)
      && clone !in s.issued
    case ReturnResult(c) => c in s.calls && s.calls[c].phase.Cloned?
    case OpenProcess(c, _) => c in s.calls && s.calls[c].phase.ResultReturned?
    case DuplicateHandle(c, _) => c in s.calls && s.calls[c].phase.Opened?
    case TakeNumber(c) => c in s.calls && s.calls[c].phase.Duplicated?
    case Track(c, purgeNow, created) => c in s.calls && s.calls[c].phase.Numbered? && s.now <= purgeNow <= created
    case Answer(c) => c in s.calls && s.calls[c].phase.Tracked?
    case Throw(c) => c in s.calls && !s.calls[c].phase.Returned?
    case ThrowTracking(c, purgeNow, _) => c in s.calls && s.calls[c].phase.Numbered? && s.now <= purgeNow
    case ReleaseFrame(_) => true
  }

  /** An exception leaves the body of the call `step.c`. */
  predicate Throws(step: Step) {
    step.Throw? || step.ThrowTracking?
  }

  /** The call the step belongs to. */
  function CallOf(step: Step): Option<nat> {
    match step
    case ReleaseFrame(_) => None
    case _ => Some(step.c)
  }

  /** How the step moves its own call. */
  ghost function Moved(s: State, step: Step): Call
    requires Enabled(s, step) && !step.ReleaseFrame?
  {
    var call := if step.Begin? then Call(Begun, 0, 0, 0) else s.calls[step.c];
    match step
    case Begin(_) => call
    case NoClient(_) => call.(phase := Returned(Ok, None))
    case Grab(_, grabbed, images) =>
      var tried := call.(successes := call.successes + if grabbed then 1 else 0);
      if !grabbed || images == [] then tried.(phase := Returned(Ok, None))
      else tried.(phase := HasResult(images), yielded := call.yielded + 1)
    case NoSharedSurface(_) => call.(phase := Returned(Ok, None), releases := call.releases + 1)
    case CloneSurface(_, image, clone) =>
      if clone == NO_SURFACE then call.(phase := Returned(Internal, None), releases := call.releases + 1)
      else call.(phase := Cloned(image, clone))
    case ReturnResult(_) =>
      call.(phase := ResultReturned(call.phase.image, call.phase.surface), releases := call.releases + 1)
    case OpenProcess(_, ok) =>
      call.(phase := if ok then Opened(call.phase.image, call.phase.surface) else Returned(Internal, None))
    case DuplicateHandle(_, ok) =>
      call.(phase := if ok then Duplicated(call.phase.image, call.phase.surface) else Returned(Internal, None))
    case TakeNumber(_) => call.(phase := Numbered(call.phase.image, call.phase.surface, s.nextFrameId))
    case Track(_, _, _) => call.(phase := Tracked(Frame(call.phase.image, call.phase.id)))
    case Answer(_) => call.(phase := Returned(Ok, Some(call.phase.frame)))
    case Throw(_) => call.(phase := Returned(Internal, None))
    case ThrowTracking(_, _, _) => call.(phase := Returned(Internal, None))
  }

  /** The clone a failing step releases, as a multiset of none or one. */
  ghost function Dropped(s: State, step: Step): multiset<Surface>
    requires Enabled(s, step)
  {
    match step
    case OpenProcess(c, ok) => if ok then multiset{} else multiset{s.calls[c].phase.surface}
    case DuplicateHandle(c, ok) => if ok then multiset{} else multiset{s.calls[c].phase.surface}
    case _ => multiset{}
  }

  /** The clone that an exception leaves without an owner, as a multiset of none or one. */
  ghost function Leaked(s: State, step: Step): multiset<Surface>
    requires Enabled(s, step)
  {
    if Throws(step) && Owned(s.calls[step.c]).Some? then multiset{Owned(s.calls[step.c]).value} else multiset{}
  }

  /** What the step does to the table of clones. */
  ghost function OpOf(s: State, step: Step): Option<Op<Surface>>
    requires Enabled(s, step)
  {
    match step
    case Track(c, purgeNow, created) =>
      Some(Put(s.calls[c].phase.id, s.calls[c].phase.surface, purgeNow, created))
    case ThrowTracking(_, purgeNow, reached) => Some(Cut(purgeNow, reached))
    case ReleaseFrame(frameId) => Some(Del(frameId))
    case _ => None
  }

  ghost function Next(s: State, step: Step): State
    requires Enabled(s, step)
  {
    var op := OpOf(s, step);
    State(
      if step.ReleaseFrame? then s.calls else s.calls[step.c := Moved(s, step)],
      if op.Some? then Apply(s.clones, op.value, CLONE_TTL) else s.clones,
      if step.TakeNumber? then (s.nextFrameId + 1) % U64 else s.nextFrameId,
      if step.Track? then step.created else if step.ThrowTracking? then step.purgeNow else s.now,
      s.early + Dropped(s, step),
      s.abandoned + Leaked(s, step),
      if step.CloneSurface? && step.clone != NO_SURFACE then s.issued + {step.clone} else s.issued,
      if step.TakeNumber? then s.fetches + 1 else s.fetches,
      if op.Some? then After(s.log, op.value) else s.log)
  }

  ghost function Exec(run: Trace<Step>): Option<State> {
    match run
    case Start => Some(INIT)
    case After(prev, step) =>
      var before := Exec(prev);
      if before.Some? && Enabled(before.value, step) then Some(Next(before.value, step)) else None
  }

  // ---------------------------------------------------------------- clones

  /** The clone the call owns. */
  function Owned(call: Call): Option<Surface> {
    match call.phase
    case Cloned(_, surface) => Some(surface)
    case ResultReturned(_, surface) => Some(surface)
    case Opened(_, surface) => Some(surface)
    case Duplicated(_, surface) => Some(surface)
    case Numbered(_, surface, _) => Some(surface)
    case _ => None
  }

  ghost predicate Owns(s: State, c: nat, v: Surface) {
    c in s.calls && Owned(s.calls[c]) == Some(v)
  }

  /** Some call owns the clone. */
  ghost predicate InHand(s: State, v: Surface) {
    exists c :: Owns(s, c, v)
  }

  ghost predicate OneOwner(s: State) {
    forall c: nat, d: nat, v: Surface :: Owns(s, c, v) && Owns(s, d, v) ==> c == d
  }

  /** A clone the SDK made is in one call's hands, or went to the table, was released early or abandoned, once. */
  ghost predicate Placed(s: State, v: Surface) {
    (if InHand(s, v) then 1 else 0) + Puts(s.log, v) + s.early[v] + s.abandoned[v] == if v in s.issued then 1 else 0
  }

  ghost predicate CloneInv(s: State) {
    OneOwner(s) && forall v :: Placed(s, v)
  }

  /** The clone that changes hands in the step. */
  ghost function Affected(s: State, step: Step): Option<Surface>
    requires Enabled(s, step)
  {
    if step.CloneSurface? && step.clone != NO_SURFACE then Some(step.clone)
    else if step.ReleaseFrame? || step.c !in s.calls then None
    else Owned(s.calls[step.c])
  }

  lemma OwnersAfter(s: State, step: Step, c: nat, v: Surface)
    requires Enabled(s, step)
    ensures Owns(Next(s, step), c, v)
       <==> if CallOf(step) == Some(c) then Owned(Moved(s, step)) == Some(v) else Owns(s, c, v)
  {
  }

  /** A call's clone stays its own until the call records it or fails. */
  lemma OwnedAfter(s: State, step: Step)
    requires Enabled(s, step) && !step.ReleaseFrame?
    ensures Owned(Moved(s, step))
         == if step.Track? || Throws(step) || Dropped(s, step) != multiset{} then None else Affected(s, step)
  {
    match step
    case OpenProcess(c, ok) => assert s.calls[c].phase.surface in multiset{s.calls[c].phase.surface};
    case DuplicateHandle(c, ok) => assert s.calls[c].phase.surface in multiset{s.calls[c].phase.surface};
    case _ =>
  }

  /** No other call owns what the stepping call owns afterwards. */
  lemma StepperOwnsAlone(s: State, step: Step, d: nat, v: Surface)
    requires CloneInv(s) && Enabled(s, step) && !step.ReleaseFrame?
    requires Owned(Moved(s, step)) == Some(v) && d != step.c
    ensures !Owns(s, d, v)
  {
    OwnedAfter(s, step);
    assert Placed(s, v);
    if Owns(s, d, v) {
      assert InHand(s, v);
      assert Owns(s, step.c, v);
      assert false;
    }
  }

  lemma OneOwnerKept(s: State, step: Step)
    requires CloneInv(s) && Enabled(s, step)
    ensures OneOwner(Next(s, step))
  {
    forall c: nat, d: nat, v: Surface | Owns(Next(s, step), c, v) && Owns(Next(s, step), d, v)
      ensures c == d
    {
      OwnersAfter(s, step, c, v);
      OwnersAfter(s, step, d, v);
      if CallOf(step) == Some(c) && c != d {
        StepperOwnsAlone(s, step, d, v);
      } else if CallOf(step) == Some(d) && c != d {
        StepperOwnsAlone(s, step, c, v);
      }
    }
  }

  /** How often the step puts the clone `v` into the table, releases it early or abandons it. */
  ghost function Disposed(s: State, step: Step, v: Surface): nat
    requires Enabled(s, step)
  {
    var op := OpOf(s, step);
    (if op.Some? && op.value.Put? && op.value.value == v then 1 else 0) + Dropped(s, step)[v] + Leaked(s, step)[v]
  }

  lemma DisposedByTrack(s: State, step: Step, v: Surface)
    requires Enabled(s, step) && step.Track?
    ensures Owned(Moved(s, step)).None? && Disposed(s, step, v) == if Affected(s, step) == Some(v) then 1 else 0
  {
  }

  lemma DisposedByThrow(s: State, step: Step, v: Surface)
    requires Enabled(s, step) && Throws(step)
    ensures Owned(Moved(s, step)).None? && Disposed(s, step, v) == if Affected(s, step) == Some(v) then 1 else 0
  {
    assert Dropped(s, step) == multiset{};
  }

  lemma DisposedByFailure(s: State, step: Step, v: Surface)
    requires Enabled(s, step) && (step.OpenProcess? || step.DuplicateHandle?)
    ensures Affected(s, step).Some? && (Owned(Moved(s, step)).None? <==> !step.ok)
    ensures Disposed(s, step, v) == if Affected(s, step) == Some(v) && !step.ok then 1 else 0
  {
    assert Leaked(s, step) == multiset{};
  }

  lemma NotDisposed(s: State, step: Step, v: Surface)
    requires Enabled(s, step) && !step.ReleaseFrame? && !step.Track? && !Throws(step)
    requires !step.OpenProcess? && !step.DuplicateHandle?
    ensures Disposed(s, step, v) == 0 && (Affected(s, step).Some? ==> Owned(Moved(s, step)).Some?)
  {
  }

  /** A clone that leaves a call's hands goes to one of these places, once. */
  lemma DisposedOnce(s: State, step: Step, v: Surface)
    requires Enabled(s, step)
    ensures Disposed(s, step, v) == if Affected(s, step) == Some(v) && Owned(Moved(s, step)).None? then 1 else 0
  {
    if step.Track? {
      DisposedByTrack(s, step, v);
    } else if Throws(step) {
      DisposedByThrow(s, step, v);
    } else if step.OpenProcess? || step.DuplicateHandle? {
      DisposedByFailure(s, step, v);
    } else if !step.ReleaseFrame? {
      NotDisposed(s, step, v);
    }
  }

  lemma AccountAfter(s: State, step: Step, v: Surface)
    requires Enabled(s, step)
    ensures var s' := Next(s, step);
      Puts(s'.log, v) + s'.early[v] + s'.abandoned[v]
        == Puts(s.log, v) + s.early[v] + s.abandoned[v] + Disposed(s, step, v)
  {
    var op := OpOf(s, step);
    assert Next(s, step).log == if op.Some? then After(s.log, op.value) else s.log;
  }

  lemma PlacedKept(s: State, step: Step, v: Surface)
    requires CloneInv(s) && Enabled(s, step)
    ensures Placed(Next(s, step), v)
  {
    assert Placed(s, v);
    AccountAfter(s, step, v);
    DisposedOnce(s, step, v);
    if Affected(s, step) == Some(v) {
      OwnedAfter(s, step);
      InHandOfStepper(s, step, v);
    } else {
      InHandElsewhere(s, step, v);
    }
  }

  lemma InHandElsewhere(s: State, step: Step, v: Surface)
    requires Enabled(s, step) && Affected(s, step) != Some(v)
    ensures InHand(Next(s, step), v) <==> InHand(s, v)
  {
    forall c
      ensures Owns(Next(s, step), c, v) <==> Owns(s, c, v)
    {
      OwnersAfter(s, step, c, v);
      if !step.ReleaseFrame? {
        OwnedAfter(s, step);
      }
    }
  }

  lemma InHandOfStepper(s: State, step: Step, v: Surface)
    requires CloneInv(s) && Enabled(s, step) && !step.ReleaseFrame? && Affected(s, step) == Some(v)
    ensures InHand(Next(s, step), v) <==> Owned(Moved(s, step)) == Some(v)
    ensures InHand(s, v) <==> !step.CloneSurface?
  {
    assert Placed(s, v);
    OwnersAfter(s, step, step.c, v);
    if !step.CloneSurface? {
      assert Owns(s, step.c, v);
    }
    forall c | c != step.c
      ensures !Owns(Next(s, step), c, v)
    {
      OwnersAfter(s, step, c, v);
    }
  }

  lemma {:induction false} ClonesArePlaced(run: Trace<Step>)
    requires Exec(run).Some?
    ensures CloneInv(Exec(run).value)
  {
    match run
    case Start =>
    case After(prev, step) =>
      ClonesArePlaced(prev);
      OneOwnerKept(Exec(prev).value, step);
      forall v
        ensures Placed(Exec(run).value, v)
      {
        PlacedKept(Exec(prev).value, step, v);
      }
  }

  // ---------------------------------------------------------------- frame numbers

  ghost predicate PutUnder(log: Trace<Op<Surface>>, key: nat) {
    match log
    case Start => false
    case After(prev, op) => (op.Put? && op.key == key) || PutUnder(prev, key)
  }

  /** The number of a call between its increment of the counter and its lock. */
  ghost function NumberInFlight(s: State, c: nat): Option<nat> {
    if c in s.calls && s.calls[c].phase.Numbered? then Some(s.calls[c].phase.id) else None
  }

  /** Frame numbers in flight and frame numbers recorded are all different and below the counter. */
  ghost predicate NumbersApart(s: State) {
    && (forall c :: NumberInFlight(s, c).Some? ==>
          var id := NumberInFlight(s, c).value; 1 <= id <= s.fetches && !PutUnder(s.log, id))
    && (forall c, d :: NumberInFlight(s, c).Some? && NumberInFlight(s, c) == NumberInFlight(s, d) ==> c == d)
    && (forall k: nat :: PutUnder(s.log, k) ==> 1 <= k <= s.fetches)
    && KeysFresh(s.log, CLONE_TTL)
  }

  ghost predicate NumberInv(s: State) {
    && s.nextFrameId == (1 + s.fetches) % U64
    && (s.fetches < U64 ==> NumbersApart(s))
  }

  ghost predicate TableInv(s: State) {
    s.clones == Replay(s.log, CLONE_TTL) && Monotone(s.log) && LastTime(s.log) <= s.now
  }

  lemma {:induction false} KeysWerePut(log: Trace<Op<Surface>>, ttl: int)
    ensures forall k :: k in Replay(log, ttl) ==> PutUnder(log, k)
  {
    match log
    case Start =>
    case After(prev, _) => KeysWerePut(prev, ttl);
  }

  lemma NumberStep(s: State, step: Step, c: nat)
    requires Enabled(s, step)
    ensures NumberInFlight(Next(s, step), c)
         == if step == TakeNumber(c) then Some(s.nextFrameId)
            else if (step.Track? || Throws(step)) && step.c == c then None
            else NumberInFlight(s, c)
  {
  }

  lemma NumbersKept(s: State, step: Step)
    requires NumberInv(s) && Enabled(s, step)
    ensures NumberInv(Next(s, step))
  {
    var s' := Next(s, step);
    assert s'.nextFrameId == (1 + s'.fetches) % U64;
    if s'.fetches < U64 {
      forall c
        ensures NumberInFlight(s', c)
             == if step == TakeNumber(c) then Some(1 + s.fetches)
                else if (step.Track? || Throws(step)) && step.c == c then None
                else NumberInFlight(s, c)
      {
        NumberStep(s, step, c);
      }
      ApartAfter(s, step);
    }
  }

  lemma ApartAfter(s: State, step: Step)
    requires NumbersApart(s) && Enabled(s, step)
    requires forall c :: NumberInFlight(Next(s, step), c)
                      == if step == TakeNumber(c) then Some(1 + s.fetches)
                         else if (step.Track? || Throws(step)) && step.c == c then None
                         else NumberInFlight(s, c)
    ensures NumbersApart(Next(s, step))
  {
    var s' := Next(s, step);
    if step.Track? {
      var id := s.calls[step.c].phase.id;
      assert NumberInFlight(s, step.c) == Some(id);
      KeysWerePut(s.log, CLONE_TTL);
      assert forall k :: PutUnder(s'.log, k) <==> k == id || PutUnder(s.log, k);
    } else {
      assert forall k :: PutUnder(s'.log, k) <==> PutUnder(s.log, k);
    }
  }

  lemma {:induction false} NumbersAreDistinct(run: Trace<Step>)
    requires Exec(run).Some?
    ensures NumberInv(Exec(run).value) && TableInv(Exec(run).value)
  {
    match run
    case Start =>
    case After(prev, step) =>
      NumbersAreDistinct(prev);
      NumbersKept(Exec(prev).value, step);
  }

  // ---------------------------------------------------------------- main results

  /** Some call was ended by an exception while it owned the clone `v`. */
  ghost predicate ThrewOwning(run: Trace<Step>, v: Surface) {
    match run
    case Start => false
    case After(prev, step) =>
      || ThrewOwning(prev, v)
      || (Throws(step) && Exec(prev).Some? && Owns(Exec(prev).value, step.c, v))
  }

  lemma {:induction false} AbandonedIffThrew(run: Trace<Step>, v: Surface)
    requires Exec(run).Some?
    ensures v in Exec(run).value.abandoned <==> ThrewOwning(run, v)
  {
    match run
    case Start =>
    case After(prev, step) =>
      AbandonedIffThrew(prev, v);
      var s := Exec(prev).value;
      assert v in Leaked(s, step) <==> Throws(step) && Owns(s, step.c, v);
  }

  /**
   Under every interleaving a clone the SDK made is, at any time, exactly one of: owned by
   one running call, tracked by exactly one entry, or released exactly once; and it is none
   of these if and only if an exception ended a call while that call owned it.
   */
  lemma ClonesAreReleasedExactlyOnce(run: Trace<Step>, v: Surface)
    requires Exec(run).Some? && Exec(run).value.fetches < U64
    ensures var s := Exec(run).value;
      (if InHand(s, v) then 1 else 0) + Copies(s.clones, v) + (s.early[v] + Removals(s.log, CLONE_TTL, v))
        == if v in s.issued && !ThrewOwning(run, v) then 1 else 0
    ensures ThrewOwning(run, v) ==> v in Exec(run).value.issued
  {
    var s := Exec(run).value;
    ClonesArePlaced(run);
    assert Placed(s, v);
    AbandonedIffThrew(run, v);
    NumbersAreDistinct(run);
    FreshKeysOverwriteNothing(s.log, CLONE_TTL, v);
    PutsAreAccountedFor(s.log, CLONE_TTL, v);
  }

  /** A call records its clone under a number nobody uses, so nothing is written over and leaked. */
  lemma TrackedFrameIsNew(run: Trace<Step>, c: nat, purgeNow: int, created: int)
    requires Exec(After(run, Track(c, purgeNow, created))).Some? && Exec(run).value.fetches < U64
    ensures var s, s' := Exec(run).value, Exec(After(run, Track(c, purgeNow, created))).value;
      var id, surface := s.calls[c].phase.id, s.calls[c].phase.surface;
      && id != 0 && id !in s.clones
      && s'.calls[c].phase == Tracked(Frame(s.calls[c].phase.image, id))
      && id in s'.clones && s'.clones[id] == Entry(surface, created)
      && (forall d :: NumberInFlight(s, d) == Some(id) ==> d == c)
  {
    var s := Exec(run).value;
    NumbersAreDistinct(run);
    KeysWerePut(s.log, CLONE_TTL);
    assert NumberInFlight(s, c) == Some(s.calls[c].phase.id);
  }

  /**
   The tracked clones are exactly those recorded, not released by a client or by a purge cut
   short, and at most 30 s old at the latest complete purge.
   */
  lemma ClonesExpireExactly(run: Trace<Step>)
    requires Exec(run).Some?
    ensures var s := Exec(run).value; s.clones == Keep(Unpurged(s.log, CLONE_TTL), LastPurge(s.log), CLONE_TTL)
  {
    NumbersAreDistinct(run);
    ExpiryIsExact(Exec(run).value.log, CLONE_TTL);
  }

  /** The step does not take out the clone recorded under `id` at time `created`. */
  predicate LeavesFrame(step: Step, id: nat, created: int) {
    match step
    case ReleaseFrame(frameId) => frameId != id
    case Track(_, purgeNow, _) => purgeNow - created <= 30 * TICKS_PER_SECOND
    case ThrowTracking(_, purgeNow, reached) => id in reached ==> purgeNow - created <= 30 * TICKS_PER_SECOND
    case _ => true
  }

  ghost predicate LeaveFrame(run: Trace<Step>, id: nat, created: int) {
    match run
    case Start => true
    case After(prev, step) => LeaveFrame(prev, id, created) && LeavesFrame(step, id, created)
  }

  /** The clone is under `id` as it was recorded, if `there`, and otherwise under no number. */
  ghost predicate CloneIsThere(s: State, id: nat, v: Surface, created: int, there: bool) {
    if there then id in s.clones && s.clones[id] == Entry(v, created)
    else forall k :: k in s.clones ==> s.clones[k].value != v
  }

  lemma CloneAfterStep(s: State, step: Step, id: nat, v: Surface, created: int, there: bool)
    requires Enabled(s, step) && CloneIsThere(s, id, v, created, there)
    requires !InHand(s, v) && Copies(s.clones, v) <= 1
    requires step.Track? ==> s.calls[step.c].phase.id !in s.clones
    ensures CloneIsThere(Next(s, step), id, v, created, there && LeavesFrame(step, id, created))
  {
    if step.Track? {
      assert !Owns(s, step.c, v);
    }
    if there {
      forall k | k in s.clones && s.clones[k].value == v
        ensures k == id
      {
        OnlyHolder(s.clones, v, id, k);
      }
    }
  }

  /** A clone that was recorded is in nobody's hands again, and in the table at most once. */
  lemma RecordedOnce(run: Trace<Step>, v: Surface)
    requires Exec(run).Some? && Exec(run).value.fetches < U64 && Puts(Exec(run).value.log, v) >= 1
    ensures !InHand(Exec(run).value, v) && Copies(Exec(run).value.clones, v) <= 1
  {
    ClonesArePlaced(run);
    assert Placed(Exec(run).value, v);
    ClonesAreReleasedExactlyOnce(run, v);
  }

  /**
   A frame number leads to the clone recorded under it, as long as no client releases it and
   no purge that gets to it comes more than 30 seconds later; after that no number leads to
   that clone.
   */
  lemma {:induction false} FrameLeadsToItsClone(before: Trace<Step>, c: nat, purgeNow: int, created: int,
                                                later: Trace<Step>)
    requires Exec(After(before, Track(c, purgeNow, created)).Then(later)).Some?
    requires Exec(After(before, Track(c, purgeNow, created)).Then(later)).value.fetches < U64
    ensures Exec(before).Some? && c in Exec(before).value.calls && Exec(before).value.calls[c].phase.Numbered?
    ensures var phase := Exec(before).value.calls[c].phase;
      var s := Exec(After(before, Track(c, purgeNow, created)).Then(later)).value;
      && Puts(s.log, phase.surface) >= 1
      && CloneIsThere(s, phase.id, phase.surface, created, LeaveFrame(later, phase.id, created))
  {
    var tracked := After(before, Track(c, purgeNow, created));
    match later
    case Start =>
    case After(prev, step) =>
      FrameLeadsToItsClone(before, c, purgeNow, created, prev);
      var s, phase := Exec(tracked.Then(prev)).value, Exec(before).value.calls[c].phase;
      RecordedOnce(tracked.Then(prev), phase.surface);
      if step.Track? {
        TrackedFrameIsNew(tracked.Then(prev), step.c, step.purgeNow, step.created);
      }
      CloneAfterStep(s, step, phase.id, phase.surface, created, LeaveFrame(prev, phase.id, created));
  }

  ghost predicate GrabbedEmpty(run: Trace<Step>, c: nat) {
    match run
    case Start => false
    case After(prev, step) => step == Grab(c, true, []) || GrabbedEmpty(prev, c)
  }

  /** The call has taken a render result and not given it back. */
  ghost predicate HoldsResult(s: State, c: nat) {
    c in s.calls && (s.calls[c].phase.HasResult? || s.calls[c].phase.Cloned?)
  }

  /** The call was ended by an exception between taking a render result and giving it back. */
  ghost predicate ThrewHoldingResult(run: Trace<Step>, c: nat) {
    match run
    case Start => false
    case After(prev, step) =>
      || ThrewHoldingResult(prev, c)
      || (Throws(step) && step.c == c && Exec(prev).Some? && HoldsResult(Exec(prev).value, c))
  }

  /** How many render results a call has taken and given back, by where it stands. */
  ghost predicate ResultInv(call: Call, empty: bool, held: bool) {
    && call.successes == call.yielded + (if empty then 1 else 0)
    && (empty ==> call.phase.Returned? && call.yielded == 0)
    && (held ==> call.phase.Returned? && call.yielded == 1)
    && match call.phase
       case Begun => call.yielded == 0 && call.releases == 0
       case HasResult(_) => call.yielded == 1 && call.releases == 0
       case Cloned(_, _) => call.yielded == 1 && call.releases == 0
       case Returned(_, _) => call.yielded <= 1 && call.releases == call.yielded - if held then 1 else 0
       case _ => call.yielded == 1 && call.releases == 1
  }

  lemma ResultStep(s: State, step: Step, empty: bool, held: bool)
    requires Enabled(s, step) && !step.ReleaseFrame?
    requires if step.c in s.calls then ResultInv(s.calls[step.c], empty, held) else !empty && !held
    ensures ResultInv(Moved(s, step), empty || step == Grab(step.c, true, []),
                      held || (Throws(step) && HoldsResult(s, step.c)))
  {
  }

  lemma {:induction false} ResultsAreCounted(run: Trace<Step>, c: nat)
    requires Exec(run).Some?
    ensures if c in Exec(run).value.calls
            then ResultInv(Exec(run).value.calls[c], GrabbedEmpty(run, c), ThrewHoldingResult(run, c))
            else !GrabbedEmpty(run, c) && !ThrewHoldingResult(run, c)
  {
    match run
    case Start =>
    case After(prev, step) =>
      ResultsAreCounted(prev, c);
      if CallOf(step) == Some(c) {
        ResultStep(Exec(prev).value, step, GrabbedEmpty(prev, c), ThrewHoldingResult(prev, c));
      }
  }

  /**
   A call that has ended gave back the render result it got, if it got one with images, exactly
   once, if and only if no exception ended it in between.  Counting every successful grab
   instead, takes and returns match exactly when, besides, no grab succeeded without images.
   */
  lemma RenderResultIsReturnedOnce(run: Trace<Step>, c: nat)
    requires Exec(run).Some?
    requires c in Exec(run).value.calls && Exec(run).value.calls[c].phase.Returned?
    ensures var call := Exec(run).value.calls[c];
      && call.releases <= call.yielded <= 1
      && (call.releases == call.yielded <==> !ThrewHoldingResult(run, c))
      && (call.releases == call.successes <==> !ThrewHoldingResult(run, c) && !GrabbedEmpty(run, c))
  {
    ResultsAreCounted(run, c);
  }

  /** A call that throws right after its grab never gives the render result back. */
  lemma ThrowKeepsTheResult() returns (run: Trace<Step>)
    ensures Exec(run).Some? && 0 in Exec(run).value.calls
    ensures Exec(run).value.calls[0] == Call(Returned(Internal, None), 1, 1, 0)
  {
    OneMore(Start, Begin(0));
    run := After(Start, Begin(0));
    OneMore(run, Grab(0, true, [5]));
    run := After(run, Grab(0, true, [5]));
    OneMore(run, Throw(0));
    run := After(run, Throw(0));
  }

  // ---------------------------------------------------------------- one call by itself

  lemma OneMore(run: Trace<Step>, step: Step)
    requires Exec(run).Some? && Enabled(Exec(run).value, step)
    ensures Exec(After(run, step)) == Some(Next(Exec(run).value, step))
  {
  }

  /** The first image with a shared surface, if any image has one. */
  lemma FirstSurface(images: seq<Surface>) returns (i: nat)
    requires AnySurface(images)
    ensures IsFirstSurface(images, i)
  {
    i := 0;
    while images[i] == NO_SURFACE
      invariant i < |images|
      invariant forall j :: 0 <= j < i ==> images[j] == NO_SURFACE
      decreases |images| - i
    {
      i := i + 1;
    }
  }

  /** How often the surface `v` has been released so far. */
  ghost function Released(s: State, v: Surface): nat {
    s.early[v] + Removals(s.log, CLONE_TTL, v)
  }

  ghost function ReleasesIn(s: State): Surface -> nat {
    v => Released(s, v)
  }

  /** The call `c` has ended with this answer and this many render results given back. */
  ghost predicate Ended(s: State, c: nat, status: Status, answer: Option<Frame>, releases: nat) {
    c in s.calls && s.calls[c].phase == Returned(status, answer) && s.calls[c].releases == releases
  }

  /** The call `c` has just made the clone `surface` of the image `image`. */
  ghost predicate HasCloned(s: State, c: nat, image: nat, surface: Surface) {
    c in s.calls && s.calls[c] == Call(Cloned(image, surface), 1, 1, 0)
  }

  /** A step that moves its own call and nothing else. */
  lemma Quiet(run: Trace<Step>, step: Step) returns (done: Trace<Step>)
    requires Exec(run).Some? && Enabled(Exec(run).value, step)
    requires step.Begin? || step.NoClient? || step.Grab? || step.NoSharedSurface? || step.ReturnResult? || step.Answer?
          || (step.OpenProcess? && step.ok) || (step.DuplicateHandle? && step.ok)
          || (step.Throw? && Owned(Exec(run).value.calls[step.c]).None?)
    ensures var s := Exec(run).value; Exec(done) == Some(s.(calls := s.calls[step.c := Moved(s, step)]))
  {
    var s := Exec(run).value;
    OneMore(run, step);
    assert s.early + multiset{} == s.early && s.abandoned + multiset{} == s.abandoned;
    done := After(run, step);
  }

  /** A step by which a call loses its clone without recording it. */
  lemma Loses(run: Trace<Step>, step: Step) returns (done: Trace<Step>)
    requires Exec(run).Some? && Enabled(Exec(run).value, step)
    requires (step.OpenProcess? && !step.ok) || (step.DuplicateHandle? && !step.ok) || step.Throw?
    requires Owned(Exec(run).value.calls[step.c]).Some?
    ensures var s := Exec(run).value;
      var clone := multiset{Owned(s.calls[step.c]).value};
      Exec(done) == Some(s.(calls := s.calls[step.c := Moved(s, step)],
                            early := if step.Throw? then s.early else s.early + clone,
                            abandoned := if step.Throw? then s.abandoned + clone else s.abandoned))
  {
    var s := Exec(run).value;
    OneMore(run, step);
    assert s.early + multiset{} == s.early && s.abandoned + multiset{} == s.abandoned;
    done := After(run, step);
  }

  /** A grab from its start up to the point where it has its render result, or where it ends without one. */
  lemma SoloUntilResult(run: Trace<Step>, c: nat, out: Outside) returns (done: Trace<Step>)
    requires Exec(run).Some? && c !in Exec(run).value.calls
    ensures Exec(done).Some?
    ensures var s, s' := Exec(run).value, Exec(done).value;
      && s' == s.(calls := s'.calls)
      && if out.YieldsImages() then c in s'.calls && s'.calls[c] == Call(HasResult(out.images), 1, 1, 0)
         else Ended(s', c, if out.AnswersOk() then Ok else Internal, None, 0)
  {
    done := Quiet(run, Begin(c));
    if out.clientPid == 0 {
      done := Quiet(done, NoClient(c));
    } else if out.throws == Grabbing {
      done := Quiet(done, Throw(c));
    } else {
      done := Quiet(done, Grab(c, out.grabbed, out.images));
    }
  }

  /** A grab from its render result up to the point where its clone is made, or where it ends without one. */
  lemma SoloUntilClone(run: Trace<Step>, c: nat, out: Outside) returns (done: Trace<Step>, image: nat)
    requires Exec(run).Some? && out.YieldsImages()
    requires c in Exec(run).value.calls && Exec(run).value.calls[c] == Call(HasResult(out.images), 1, 1, 0)
    requires out.clone !in Exec(run).value.issued
    ensures Exec(done).Some?
    ensures var s, s' := Exec(run).value, Exec(done).value;
      && s' == s.(calls := s'.calls, issued := s'.issued)
      && if out.MakesClone()
         then HasCloned(s', c, image, out.clone) && IsFirstSurface(out.images, image)
         else Ended(s', c, if out.AnswersOk() then Ok else Internal, None, if out.ReturnsResult() then 1 else 0)
  {
    image := 0;
    if out.throws == Cloning {
      done := Quiet(run, Throw(c));
    } else if !out.HasSurface() {
      done := Quiet(run, NoSharedSurface(c));
    } else {
      image := FirstSurface(out.images);
      var s := Exec(run).value;
      OneMore(run, CloneSurface(c, image, out.clone));
      assert s.early + multiset{} == s.early && s.abandoned + multiset{} == s.abandoned;
      done := After(run, CloneSurface(c, image, out.clone));
    }
  }

  /** What a grab does to the table, the counter and the releases, and whether it leaks its clone. */
  ghost predicate CloneEffect(s: State, s': State, out: Outside) {
    && Effect(out, s.nextFrameId, s.clones, ReleasesIn(s), s'.nextFrameId, s'.clones, ReleasesIn(s'))
    && s'.abandoned == s.abandoned + if out.LeaksClone() then multiset{out.clone} else multiset{}
  }

  /** The state after a call lost its clone without recording it, in which the calls are `calls`. */
  ghost function Lost(s: State, calls: map<nat, Call>, out: Outside): State {
    s.(calls := calls,
       early := if out.ReleasesClone() then s.early + multiset{out.clone} else s.early,
       abandoned := if out.LeaksClone() then s.abandoned + multiset{out.clone} else s.abandoned)
  }

  /** The effect of a grab that records nothing. */
  lemma EffectOfLoss(s: State, calls: map<nat, Call>, out: Outside)
    requires !out.TakesNumber()
    ensures CloneEffect(s, Lost(s, calls, out), out)
  {
    assert s.abandoned + multiset{} == s.abandoned;
    assert multiset{out.clone}[out.clone] == 1;
  }

  /** The effect is not about the calls, nor about the clones made so far. */
  lemma EffectElsewhere(s: State, s': State, calls: map<nat, Call>, issued: set<Surface>, out: Outside)
    requires CloneEffect(s.(calls := calls, issued := issued), s', out)
    ensures CloneEffect(s, s', out)
  {
    forall v
      ensures ReleasesIn(s.(calls := calls, issued := issued))(v) == ReleasesIn(s)(v)
    {
    }
  }

  lemma EffectBefore(s: State, s': State, calls: map<nat, Call>, out: Outside)
    requires CloneEffect(s, s', out)
    ensures CloneEffect(s, s'.(calls := calls), out)
  {
    forall v
      ensures ReleasesIn(s'.(calls := calls))(v) == ReleasesIn(s')(v)
    {
    }
  }

  /** The effect of a grab whose step under the lock is the last entry of the log. */
  lemma EffectOfLock(s: State, s': State, out: Outside)
    requires out.TakesNumber() && s.clones == Replay(s.log, CLONE_TTL)
    requires var op := out.TableOp(s.nextFrameId).value;
      s'.clones == Apply(s.clones, op, CLONE_TTL) && s'.log == After(s.log, op)
    requires s'.nextFrameId == (s.nextFrameId + 1) % U64 && s'.early == s.early
    requires s'.abandoned == s.abandoned + if out.Tracks() then multiset{} else multiset{out.clone}
    ensures CloneEffect(s, s', out)
  {
  }

  /** A grab from its clone up to the point where its handle is duplicated, or where it ends before. */
  lemma SoloUntilDuplicate(run: Trace<Step>, c: nat, image: nat, out: Outside) returns (done: Trace<Step>)
    requires Exec(run).Some? && out.MakesClone() && HasCloned(Exec(run).value, c, image, out.clone)
    ensures Exec(done).Some?
    ensures var s, s' := Exec(run).value, Exec(done).value;
      if out.AsksToDuplicate() && out.duplicateOk
      then s' == s.(calls := s'.calls) && c in s'.calls && s'.calls[c] == Call(Duplicated(image, out.clone), 1, 1, 1)
      else && Ended(s', c, Internal, None, if out.ReturnsResult() then 1 else 0)
           && s' == Lost(s, s'.calls, out)
  {
    if out.throws == ReturningResult {
      done := Loses(run, Throw(c));
    } else {
      done := Quiet(run, ReturnResult(c));
      done := SoloUntilOpen(done, c, image, out);
    }
  }

  lemma SoloUntilOpen(run: Trace<Step>, c: nat, image: nat, out: Outside) returns (done: Trace<Step>)
    requires Exec(run).Some? && out.MakesClone() && out.throws != ReturningResult
    requires c in Exec(run).value.calls && Exec(run).value.calls[c] == Call(ResultReturned(image, out.clone), 1, 1, 1)
    ensures Exec(done).Some?
    ensures var s, s' := Exec(run).value, Exec(done).value;
      if out.AsksToDuplicate() && out.duplicateOk
      then s' == s.(calls := s'.calls) && c in s'.calls && s'.calls[c] == Call(Duplicated(image, out.clone), 1, 1, 1)
      else Ended(s', c, Internal, None, 1) && s' == Lost(s, s'.calls, out)
  {
    done := run;
    if out.throws == OpeningProcess {
      done := Loses(done, Throw(c));
    } else if !out.openOk {
      done := Loses(done, OpenProcess(c, false));
    } else {
      done := Quiet(done, OpenProcess(c, true));
      if out.throws == DuplicatingHandle {
        done := Loses(done, Throw(c));
      } else if !out.duplicateOk {
        done := Loses(done, DuplicateHandle(c, false));
      } else {
        done := Quiet(done, DuplicateHandle(c, true));
      }
    }
  }

  lemma Increment(s: State, c: nat)
    requires Enabled(s, TakeNumber(c))
    ensures var phase := s.calls[c].phase;
      var numbered := s.calls[c].(phase := Numbered(phase.image, phase.surface, s.nextFrameId));
      Next(s, TakeNumber(c))
        == s.(calls := s.calls[c := numbered], nextFrameId := (s.nextFrameId + 1) % U64, fetches := s.fetches + 1)
  {
    assert s.early + multiset{} == s.early && s.abandoned + multiset{} == s.abandoned;
  }

  /** What the step under the lock leaves of a call's state, when it applies `op` to the table. */
  ghost predicate Locked(s: State, s': State, op: Op<Surface>, c: nat, call: Call) {
    && s'.calls == s.calls[c := call]
    && s'.clones == Apply(s.clones, op, CLONE_TTL) && s'.log == After(s.log, op)
    && s'.nextFrameId == s.nextFrameId && s'.early == s.early
    && s.clones == Replay(s.log, CLONE_TTL)
  }

  lemma Records(run: Trace<Step>, c: nat, call: Call, purgeNow: int, created: int) returns (done: Trace<Step>)
    requires Exec(run).Some? && Enabled(Exec(run).value, Track(c, purgeNow, created))
    requires Exec(run).value.calls[c] == call
    ensures Exec(done).Some?
    ensures var s, s' := Exec(run).value, Exec(done).value;
      && Locked(s, s', Put(call.phase.id, call.phase.surface, purgeNow, created), c,
                call.(phase := Tracked(Frame(call.phase.image, call.phase.id))))
      && s'.abandoned == s.abandoned
  {
    NumbersAreDistinct(run);
    OneMore(run, Track(c, purgeNow, created));
    assert Exec(run).value.early + multiset{} == Exec(run).value.early;
    assert Exec(run).value.abandoned + multiset{} == Exec(run).value.abandoned;
    done := After(run, Track(c, purgeNow, created));
  }

  lemma FailsToRecord(run: Trace<Step>, c: nat, call: Call, purgeNow: int, reached: set<nat>)
    returns (done: Trace<Step>)
    requires Exec(run).Some? && Enabled(Exec(run).value, ThrowTracking(c, purgeNow, reached))
    requires Exec(run).value.calls[c] == call
    ensures Exec(done).Some?
    ensures var s, s' := Exec(run).value, Exec(done).value;
      && Locked(s, s', Cut(purgeNow, reached), c, call.(phase := Returned(Internal, None)))
      && s'.abandoned == s.abandoned + multiset{call.phase.surface}
  {
    NumbersAreDistinct(run);
    OneMore(run, ThrowTracking(c, purgeNow, reached));
    assert Exec(run).value.early + multiset{} == Exec(run).value.early;
    done := After(run, ThrowTracking(c, purgeNow, reached));
  }

  /** A grab from its number to the end of its turn under the lock. */
  lemma SoloNumbered(run: Trace<Step>, c: nat, numbered: Call, out: Outside) returns (done: Trace<Step>)
    requires Exec(run).Some? && out.TakesNumber()
    requires c in Exec(run).value.calls && Exec(run).value.calls[c] == numbered
    requires numbered.phase.Numbered? && numbered.phase.surface == out.clone
    requires Exec(run).value.now <= out.purgeNow <= out.created
    ensures Exec(done).Some?
    ensures var s, s' := Exec(run).value, Exec(done).value;
      && Locked(s, s', out.TableOp(numbered.phase.id).value, c,
                numbered.(phase := if out.Tracks() then Tracked(Frame(numbered.phase.image, numbered.phase.id))
                                   else Returned(Internal, None)))
      && s'.abandoned == s.abandoned + if out.Tracks() then multiset{} else multiset{out.clone}
  {
    if out.Tracks() {
      done := Records(run, c, numbered, out.purgeNow, out.created);
    } else {
      done := FailsToRecord(run, c, numbered, out.purgeNow, out.throws.reached);
    }
  }

  /** A grab from its duplicated handle to the end of its turn under the lock. */
  lemma SoloUntilTracked(run: Trace<Step>, c: nat, image: nat, out: Outside) returns (done: Trace<Step>)
    requires Exec(run).Some? && out.TakesNumber()
    requires c in Exec(run).value.calls && Exec(run).value.calls[c] == Call(Duplicated(image, out.clone), 1, 1, 1)
    requires Exec(run).value.now <= out.purgeNow <= out.created
    ensures Exec(done).Some?
    ensures var s, s' := Exec(run).value, Exec(done).value;
      && CloneEffect(s, s', out)
      && c in s'.calls
      && s'.calls[c].phase == (if out.Tracks() then Tracked(Frame(image, s.nextFrameId)) else Returned(Internal, None))
      && s'.calls[c] == Call(s'.calls[c].phase, 1, 1, 1)
  {
    var s := Exec(run).value;
    Increment(s, c);
    OneMore(run, TakeNumber(c));
    done := SoloNumbered(After(run, TakeNumber(c)), c, Call(Numbered(image, out.clone, s.nextFrameId), 1, 1, 1), out);
    EffectOfLock(s, Exec(done).value, out);
  }

  /** A grab that has recorded its clone answers, or throws before it does. */
  lemma SoloFromTracked(run: Trace<Step>, c: nat, frame: Frame, out: Outside) returns (done: Trace<Step>)
    requires Exec(run).Some? && out.Tracks()
    requires c in Exec(run).value.calls && Exec(run).value.calls[c] == Call(Tracked(frame), 1, 1, 1)
    ensures Exec(done).Some?
    ensures var s, s' := Exec(run).value, Exec(done).value;
      && s' == s.(calls := s'.calls)
      && Ended(s', c, if out.Succeeds() then Ok else Internal, if out.Succeeds() then Some(frame) else None, 1)
  {
    if out.throws == Answering {
      done := Quiet(run, Throw(c));
    } else {
      done := Quiet(run, Answer(c));
    }
  }

  /** A grab from its duplicated handle to its end. */
  lemma SoloFromDuplicate(run: Trace<Step>, c: nat, image: nat, out: Outside) returns (done: Trace<Step>)
    requires Exec(run).Some? && out.AsksToDuplicate() && out.duplicateOk
    requires c in Exec(run).value.calls && Exec(run).value.calls[c] == Call(Duplicated(image, out.clone), 1, 1, 1)
    requires Exec(run).value.now <= out.purgeNow <= out.created
    ensures Exec(done).Some?
    ensures var s, s' := Exec(run).value, Exec(done).value;
      && CloneEffect(s, s', out)
      && Ended(s', c, if out.Succeeds() then Ok else Internal,
               if out.Succeeds() then Some(Frame(image, s.nextFrameId)) else None, 1)
  {
    var s := Exec(run).value;
    if out.throws == TakingNumber {
      done := Loses(run, Throw(c));
      EffectOfLoss(s, Exec(done).value.calls, out);
    } else {
      done := SoloUntilTracked(run, c, image, out);
      if out.Tracks() {
        var s' := Exec(done).value;
        done := SoloFromTracked(done, c, Frame(image, s.nextFrameId), out);
        EffectBefore(s, s', Exec(done).value.calls, out);
      }
    }
  }

  /** A grab from its clone to its end. */
  lemma SoloFromClone(run: Trace<Step>, c: nat, image: nat, out: Outside) returns (done: Trace<Step>)
    requires Exec(run).Some? && out.MakesClone() && HasCloned(Exec(run).value, c, image, out.clone)
    requires Exec(run).value.now <= out.purgeNow <= out.created
    ensures Exec(done).Some?
    ensures var s, s' := Exec(run).value, Exec(done).value;
      && CloneEffect(s, s', out)
      && Ended(s', c, if out.Succeeds() then Ok else Internal,
               if out.Succeeds() then Some(Frame(image, s.nextFrameId)) else None, if out.ReturnsResult() then 1 else 0)
  {
    var s := Exec(run).value;
    done := SoloUntilDuplicate(run, c, image, out);
    var s1 := Exec(done).value;
    if out.AsksToDuplicate() && out.duplicateOk {
      done := SoloFromDuplicate(done, c, image, out);
      EffectElsewhere(s, Exec(done).value, s1.calls, s.issued, out);
    } else {
      EffectOfLoss(s, s1.calls, out);
    }
  }

  /** A grab from its start to its end. */
  lemma SoloGrab(run: Trace<Step>, c: nat, out: Outside) returns (done: Trace<Step>, image: nat)
    requires Exec(run).Some? && c !in Exec(run).value.calls
    requires out.clone !in Exec(run).value.issued
    requires Exec(run).value.now <= out.purgeNow <= out.created
    ensures Exec(done).Some?
    ensures var s, s' := Exec(run).value, Exec(done).value;
      && CloneEffect(s, s', out)
      && (out.Succeeds() ==> IsFirstSurface(out.images, image))
      && Ended(s', c, if out.AnswersOk() then Ok else Internal,
               if out.Succeeds() then Some(Frame(image, s.nextFrameId)) else None, if out.ReturnsResult() then 1 else 0)
  {
    image := 0;
    var s := Exec(run).value;
    done := SoloUntilResult(run, c, out);
    if out.YieldsImages() {
      done, image := SoloUntilClone(done, c, out);
    }
    var s1 := Exec(done).value;
    if out.MakesClone() {
      done := SoloFromClone(done, c, image, out);
      EffectElsewhere(s, Exec(done).value, s1.calls, s1.issued, out);
    } else {
      EffectOfLoss(s, s1.calls, out);
    }
  }

  /** What `SharedFrameService.GrabSharedFrame` promises of a call, said of the states before and after. */
  ghost predicate GrabEffect(s: State, s': State, c: nat, out: Outside) {
    && c in s'.calls && s'.calls[c].phase.Returned?
    && Answers(out, s.nextFrameId, s'.calls[c].phase.status, s'.calls[c].phase.answer, s'.calls[c].releases)
    && CloneEffect(s, s', out)
  }

  /** A call that nothing interrupts ends as the method for it promises. */
  lemma UninterruptedGrab(run: Trace<Step>, c: nat, out: Outside) returns (done: Trace<Step>)
    requires Exec(run).Some? && c !in Exec(run).value.calls
    requires out.clone !in Exec(run).value.issued
    requires Exec(run).value.now <= out.purgeNow <= out.created
    ensures Exec(done).Some?
    ensures GrabEffect(Exec(run).value, Exec(done).value, c, out)
  {
    var image: nat;
    done, image := SoloGrab(run, c, out);
  }

  /** The clone 7 cannot be recorded because the table throws: it stays alive and nobody knows it any more. */
  lemma ThrowLeaksTheClone() returns (run: Trace<Step>)
    ensures Exec(run).Some?
    ensures var s := Exec(run).value;
      && Ended(s, 0, Internal, None, 1)
      && 7 in s.issued && !InHand(s, 7) && s.clones == map[] && Released(s, 7) == 0
  {
    var out := Outside(1, true, [5], 7, true, true, 0, 0, Tracking({}));
    assert out.images[0] != NO_SURFACE;
    assert out.LeaksClone() && out.ReturnsResult() && !out.AnswersOk() && !out.Succeeds();
    CopiesOfNothing<Surface>();
    run := UninterruptedGrab(Start, 0, out);
    assert ReleasesIn(INIT)(7) == 0 && ReleasesIn(Exec(run).value)(7) == Released(Exec(run).value, 7);
    LeakedIsLost(run, 7);
  }

  lemma LeakedIsLost(run: Trace<Step>, v: Surface)
    requires Exec(run).Some? && v in Exec(run).value.abandoned
    ensures v in Exec(run).value.issued && !InHand(Exec(run).value, v)
  {
    ClonesArePlaced(run);
    assert Placed(Exec(run).value, v);
  }
}
