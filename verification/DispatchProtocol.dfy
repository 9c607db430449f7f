/**
 All threads at once: render threads broadcasting, streams subscribing, popping, writing
 and leaving, and exceptions ending a call anywhere.  `Broadcast` holds the dispatcher's
 mutex for its whole fan-out but takes a queue's mutex once per push, so pops run between
 its pushes; `Subscribe` and `Unsubscribe` wait for the dispatcher's mutex.
 */
module DispatchProtocol {
  import opened Basics
  import opened Traces
  import opened CallbackQueue
  import opened StreamClient
  import opened CallbackDispatch
  import opened StreamTurns

  /** A broadcast that has the dispatcher's mutex and pushes next to subscriber number `next`. */
  datatype FanOut = Idle | Fanning(e: Event, next: nat)

  /**
   `history` is every event ever broadcast.  `from` and `until` say for each call how long
   the history was when it subscribed, and when it unsubscribed or threw instead.
   */
  datatype State = State(
    subs: seq<nat>,
    clients: map<nat, Client>,
    fan: FanOut,
    history: seq<Event>,
    from: map<nat, int>,
    until: map<nat, int>
  )

  datatype Step =
    | Connect(c: nat)
    | Subscribe(c: nat)
    | BeginBroadcast(e: Event)
    | PushNext
    | EndBroadcast
    | PopEvent(c: nat)
    | Skip(c: nat)
    | Write(c: nat, ok: bool)
    | Cancel(c: nat)
    | Unsubscribe(c: nat)
    | Return(c: nat)
    | Throw(c: nat)

  const INIT := State([], map[], Idle, [], map[], map[])

  function PhaseOf(s: State, c: nat): Option<Phase> {
    if c in s.clients then Some(s.clients[c].phase) else None
  }

  predicate Enabled(s: State, step: Step) {
    match step
    case Connect(c) => c !in s.clients
    case Subscribe(c) => s.fan.Idle? && PhaseOf(s, c) == Some(Starting)
    case BeginBroadcast(_) => s.fan.Idle?
    case PushNext =>
      // A push through a pointer to a subscription that is gone is undefined: no step.
      && s.fan.Fanning? && s.fan.next < |s.subs|
      && s.subs[s.fan.next] in s.clients && s.clients[s.subs[s.fan.next]].phase.Running()
    case EndBroadcast => s.fan.Fanning? && s.fan.next >= |s.subs|
    case PopEvent(c) => PhaseOf(s, c) == Some(Looping) && s.clients[c].sub.queue != []
    case Skip(c) => c in s.clients && s.clients[c].phase.Holding? && ToMessage(s.clients[c].phase.e).None?
    case Write(c, _) => c in s.clients && s.clients[c].phase.Holding? && ToMessage(s.clients[c].phase.e).Some?
    case Cancel(c) => PhaseOf(s, c) == Some(Looping)
    case Unsubscribe(c) => s.fan.Idle? && PhaseOf(s, c) == Some(Leaving)
    case Return(c) => PhaseOf(s, c) == Some(Unsubscribed)
    case Throw(c) => c in s.clients && s.clients[c].phase.Running()
  }

  /** How much of the history a subscribed call has been sent: all, or all but the event under way. */
  function Sent(s: State, c: nat): int {
    if s.fan.Fanning? && s.fan.next <= |s.subs| && c in s.subs[s.fan.next..] then |s.history| - 1 else |s.history|
  }

  function Next(s: State, depth: nat, step: Step): State
    requires depth >= 1 && Enabled(s, step)
  {
    match step
    case Connect(c) => s.(clients := s.clients[c := NEW_CLIENT])
    case Subscribe(c) =>
      s.(subs := s.subs + [c],
         clients := s.clients[c := s.clients[c].(phase := Looping)],
         from := s.from[c := |s.history|])
    case BeginBroadcast(e) => s.(fan := Fanning(e, 0), history := s.history + [e])
    case PushNext =>
      var c := s.subs[s.fan.next];
      s.(clients := s.clients[c := OnPush(s.clients[c], depth, s.fan.e)], fan := s.fan.(next := s.fan.next + 1))
    case EndBroadcast => s.(fan := Idle)
    case PopEvent(c) => s.(clients := s.clients[c := OnPop(s.clients[c], depth)])
    case Skip(c) => s.(clients := s.clients[c := OnSkip(s.clients[c])])
    case Write(c, ok) =>
      s.(clients := s.clients[c := OnWrite(s.clients[c], ToMessage(s.clients[c].phase.e).value, ok)])
    case Cancel(c) => s.(clients := s.clients[c := s.clients[c].(phase := Leaving)])
    case Unsubscribe(c) =>
      s.(subs := Without(s.subs, c),
         clients := s.clients[c := s.clients[c].(phase := Unsubscribed)],
         until := s.until[c := |s.history|])
    case Return(c) => s.(clients := s.clients[c := s.clients[c].(phase := Returned)])
    case Throw(c) =>
      s.(clients := s.clients[c := OnThrow(s.clients[c])],
         until := if s.clients[c].phase.Known() then s.until[c := Sent(s, c)] else s.until)
  }

  /** The state a run leads to; `None` if one of its steps was not possible where it stands. */
  function Exec(run: Trace<Step>, depth: nat): Option<State>
    requires depth >= 1
  {
    match run
    case Start => Some(INIT)
    case After(prev, step) =>
      var before := Exec(prev, depth);
      if before.Some? && Enabled(before.value, step) then Some(Next(before.value, depth, step)) else None
  }

  // ---------------------------------------------------------------- the invariant

  ghost predicate NoDuplicates(subs: seq<nat>) {
    forall i, j :: 0 <= i < j < |subs| ==> subs[i] != subs[j]
  }

  ghost predicate SubsInv(s: State) {
    && NoDuplicates(s.subs)
    && (forall c :: c in s.subs ==> c in s.clients && c in s.from)
    && (s.fan.Fanning? ==>
          && s.fan.next <= |s.subs| && s.history != [] && s.history[|s.history| - 1] == s.fan.e
          && forall c :: c in s.subs ==> s.from[c] < |s.history|)
  }

  /** What has been pushed to a call is a gap-free window of the broadcast history. */
  ghost predicate WindowInv(s: State, c: nat)
    requires c in s.clients
  {
    var client := s.clients[c];
    && (c in s.subs <==> client.phase.Known())
    && if client.phase.NeverSubscribed() then
         client.sub.pushed == []
       else if client.phase.Known() && client.phase.Running() then
         && c in s.from && 0 <= s.from[c] <= Sent(s, c) <= |s.history|
         && client.sub.pushed == s.history[s.from[c]..Sent(s, c)]
       else
         && c in s.from && c in s.until && 0 <= s.from[c] <= s.until[c] <= |s.history|
         && client.sub.pushed == s.history[s.from[c]..s.until[c]]
  }

  ghost predicate Windows(s: State) {
    forall c :: c in s.clients ==> WindowInv(s, c)
  }

  ghost predicate Tallies(s: State, depth: nat) {
    forall c :: c in s.clients ==> TallyInv(s.clients[c], depth)
  }

  ghost predicate Inv(s: State, depth: nat) {
    SubsInv(s) && Windows(s) && Tallies(s, depth)
  }

  lemma {:induction false} WithoutProperties(subs: seq<nat>, c: nat)
    requires NoDuplicates(subs)
    ensures NoDuplicates(Without(subs, c))
    ensures forall x :: x in Without(subs, c) <==> x in subs && x != c
  {
    if subs != [] {
      var init := subs[..|subs| - 1];
      WithoutProperties(init, c);
      assert subs == init + [subs[|subs| - 1]];
      assert subs[|subs| - 1] !in init;
    }
  }

  /** The call whose record the step changes. */
  function Touched(s: State, step: Step): Option<nat>
    requires Enabled(s, step)
  {
    match step
    case BeginBroadcast(_) => None
    case PushNext => Some(s.subs[s.fan.next])
    case EndBroadcast => None
    case _ => Some(step.c)
  }

  lemma OthersUntouched(s: State, depth: nat, step: Step, c: nat)
    requires depth >= 1 && Enabled(s, step) && Touched(s, step) != Some(c)
    ensures var s' := Next(s, depth, step);
      (c in s'.clients <==> c in s.clients) && (c in s.clients ==> s'.clients[c] == s.clients[c])
  {
  }

  lemma SubsKept(s: State, depth: nat, step: Step)
    requires depth >= 1 && SubsInv(s) && Windows(s) && Enabled(s, step)
    ensures SubsInv(Next(s, depth, step))
  {
    match step
    case Subscribe(c) => SubsKeptBySubscribe(s, depth, c);
    case Unsubscribe(c) => WithoutProperties(s.subs, c);
    case BeginBroadcast(e) => SubsKeptByBegin(s, depth, e);
    case _ => SubsKeptByOthers(s, depth, step);
  }

  lemma SubsKeptBySubscribe(s: State, depth: nat, c: nat)
    requires depth >= 1 && SubsInv(s) && Windows(s) && Enabled(s, Subscribe(c))
    ensures SubsInv(Next(s, depth, Subscribe(c)))
  {
    assert WindowInv(s, c);
  }

  lemma SubsKeptByBegin(s: State, depth: nat, e: Event)
    requires depth >= 1 && SubsInv(s) && Windows(s) && Enabled(s, BeginBroadcast(e))
    ensures SubsInv(Next(s, depth, BeginBroadcast(e)))
  {
    forall c | c in s.subs
      ensures s.from[c] <= |s.history|
    {
      assert WindowInv(s, c);
    }
  }

  lemma SubsKeptByOthers(s: State, depth: nat, step: Step)
    requires depth >= 1 && SubsInv(s) && Enabled(s, step)
    requires !step.Subscribe? && !step.Unsubscribe? && !step.BeginBroadcast?
    ensures SubsInv(Next(s, depth, step))
  {
    var s' := Next(s, depth, step);
    assert s'.subs == s.subs && s'.from == s.from && s'.history == s.history && s.clients.Keys <= s'.clients.Keys;
  }

  lemma TallyKept(s: State, depth: nat, step: Step, c: nat)
    requires depth >= 1 && Enabled(s, step)
    requires c in s.clients ==> TallyInv(s.clients[c], depth)
    requires c in Next(s, depth, step).clients
    ensures TallyInv(Next(s, depth, step).clients[c], depth)
  {
    if Touched(s, step) != Some(c) {
      OthersUntouched(s, depth, step, c);
    } else if step.Connect? {
      NewClientIsTallied(Next(s, depth, step).clients[c], depth);
    } else {
      TallyKeptByOwnStep(s, depth, step);
    }
  }

  lemma TallyKeptByOwnStep(s: State, depth: nat, step: Step)
    requires depth >= 1 && Enabled(s, step) && Touched(s, step).Some? && !step.Connect?
    requires TallyInv(s.clients[Touched(s, step).value], depth)
    ensures TallyInv(Next(s, depth, step).clients[Touched(s, step).value], depth)
  {
    var client := s.clients[Touched(s, step).value];
    match step
    case Subscribe(_) => LeavingKeepsTally(client, depth, Looping);
    case PushNext => PushKeepsTally(client, depth, s.fan.e);
    case PopEvent(_) => PopKeepsTally(client, depth);
    case Skip(_) => SkipKeepsTally(client, depth);
    case Write(_, ok) => WriteKeepsTally(client, depth, ToMessage(client.phase.e).value, ok);
    case Cancel(_) => LeavingKeepsTally(client, depth, Leaving);
    case Unsubscribe(_) => LeavingKeepsTally(client, depth, Unsubscribed);
    case Return(_) => LeavingKeepsTally(client, depth, Returned);
    case Throw(_) => ThrowKeepsTally(client, depth);
  }

  /** While a fan-out runs, the position of the next push separates who has the event from who has not. */
  lemma SentAfterPush(s: State, depth: nat, c: nat)
    requires depth >= 1 && SubsInv(s) && Enabled(s, PushNext)
    ensures Sent(Next(s, depth, PushNext), c)
         == if c == s.subs[s.fan.next] then |s.history| else Sent(s, c)
  {
    assert s.subs[s.fan.next..] == [s.subs[s.fan.next]] + s.subs[s.fan.next + 1..];
  }

  lemma WindowKept(s: State, depth: nat, step: Step, c: nat)
    requires depth >= 1 && SubsInv(s) && Enabled(s, step)
    requires c in s.clients && WindowInv(s, c)
    ensures WindowInv(Next(s, depth, step), c)
  {
    match step
    case PushNext => WindowKeptByPush(s, depth, c);
    case BeginBroadcast(e) => WindowKeptByBegin(s, depth, e, c);
    case EndBroadcast => assert s.subs[s.fan.next..] == [];
    case Subscribe(d) => WindowKeptBySubscribe(s, depth, d, c);
    case Unsubscribe(d) => WindowKeptByUnsubscribe(s, depth, d, c);
    case Throw(d) => WindowKeptByThrow(s, depth, d, c);
    case _ => WindowKeptByLocalStep(s, depth, step, c);
  }

  lemma WindowKeptBySubscribe(s: State, depth: nat, d: nat, c: nat)
    requires depth >= 1 && SubsInv(s) && Enabled(s, Subscribe(d))
    requires c in s.clients && WindowInv(s, c)
    ensures WindowInv(Next(s, depth, Subscribe(d)), c)
  {
  }

  lemma WindowKeptByUnsubscribe(s: State, depth: nat, d: nat, c: nat)
    requires depth >= 1 && SubsInv(s) && Enabled(s, Unsubscribe(d))
    requires c in s.clients && WindowInv(s, c)
    ensures WindowInv(Next(s, depth, Unsubscribe(d)), c)
  {
    WithoutProperties(s.subs, d);
  }

  lemma WindowKeptByThrow(s: State, depth: nat, d: nat, c: nat)
    requires depth >= 1 && SubsInv(s) && Enabled(s, Throw(d))
    requires c in s.clients && WindowInv(s, c)
    ensures WindowInv(Next(s, depth, Throw(d)), c)
  {
  }

  /** Steps of one call that leave the dispatcher and the history as they are. */
  lemma WindowKeptByLocalStep(s: State, depth: nat, step: Step, c: nat)
    requires depth >= 1 && SubsInv(s) && Enabled(s, step)
    requires step.Connect? || step.PopEvent? || step.Skip? || step.Write? || step.Cancel? || step.Return?
    requires c in s.clients && WindowInv(s, c)
    ensures WindowInv(Next(s, depth, step), c)
  {
    var s' := Next(s, depth, step);
    assert s'.clients[c].sub.pushed == s.clients[c].sub.pushed;
    assert Sent(s', c) == Sent(s, c);
  }

  lemma WindowKeptByBegin(s: State, depth: nat, e: Event, c: nat)
    requires depth >= 1 && SubsInv(s) && Enabled(s, BeginBroadcast(e))
    requires c in s.clients && WindowInv(s, c)
    ensures WindowInv(Next(s, depth, BeginBroadcast(e)), c)
  {
    assert s.subs[0..] == s.subs;
  }

  lemma WindowKeptByPush(s: State, depth: nat, c: nat)
    requires depth >= 1 && SubsInv(s) && Enabled(s, PushNext)
    requires c in s.clients && WindowInv(s, c)
    ensures WindowInv(Next(s, depth, PushNext), c)
  {
    SentAfterPush(s, depth, c);
    if c == s.subs[s.fan.next] {
      assert c in s.subs[s.fan.next..];
      var all, from := s.history, s.from[c];
      assert all[from..] == all[from..|all| - 1] + [s.fan.e];
    }
  }

  lemma InvKept(s: State, depth: nat, step: Step)
    requires depth >= 1 && Inv(s, depth) && Enabled(s, step)
    ensures Inv(Next(s, depth, step), depth)
  {
    var s' := Next(s, depth, step);
    SubsKept(s, depth, step);
    forall c | c in s'.clients
      ensures TallyInv(s'.clients[c], depth)
    {
      TallyKept(s, depth, step, c);
    }
    forall c | c in s'.clients
      ensures WindowInv(s', c)
    {
      if c in s.clients {
        WindowKept(s, depth, step, c);
      } else {
        NewWindow(s, depth, step, c);
      }
    }
  }

  lemma NewWindow(s: State, depth: nat, step: Step, c: nat)
    requires depth >= 1 && SubsInv(s) && Enabled(s, step)
    requires c !in s.clients && c in Next(s, depth, step).clients
    ensures WindowInv(Next(s, depth, step), c)
  {
    assert step == Connect(c);
  }

  lemma {:induction false} Reachable(run: Trace<Step>, depth: nat)
    requires depth >= 1 && Exec(run, depth).Some?
    ensures Inv(Exec(run, depth).value, depth)
  {
    match run
    case Start =>
    case After(prev, step) =>
      Reachable(prev, depth);
      InvKept(Exec(prev, depth).value, depth, step);
  }

  // ---------------------------------------------------------------- what a run says by itself

  /** Every event broadcast in the run, in order. */
  function Broadcasts(run: Trace<Step>): seq<Event> {
    match run
    case Start => []
    case After(prev, BeginBroadcast(e)) => Broadcasts(prev) + [e]
    case After(prev, _) => Broadcasts(prev)
  }

  /** How many events had been broadcast when the call subscribed. */
  function SubscribedAt(run: Trace<Step>, c: nat): Option<int> {
    match run
    case Start => None
    case After(prev, step) => if step == Subscribe(c) then Some(|Broadcasts(prev)|) else SubscribedAt(prev, c)
  }

  /** How many events had been broadcast when the call unsubscribed. */
  function UnsubscribedAt(run: Trace<Step>, c: nat): Option<int> {
    match run
    case Start => None
    case After(prev, step) => if step == Unsubscribe(c) then Some(|Broadcasts(prev)|) else UnsubscribedAt(prev, c)
  }

  /** How many events had been broadcast when the call threw between its `Subscribe` and its `Unsubscribe`. */
  function ThrewAt(run: Trace<Step>, c: nat): Option<int> {
    match run
    case Start => None
    case After(prev, step) =>
      if step == Throw(c) && SubscribedAt(prev, c).Some? && UnsubscribedAt(prev, c).None? then Some(|Broadcasts(prev)|)
      else ThrewAt(prev, c)
  }

  /** The call threw between its `Subscribe` and its `Unsubscribe`. */
  ghost predicate ThrewBetween(run: Trace<Step>, c: nat) {
    ThrewAt(run, c).Some?
  }

  /** How one step moves the record of call `c`. */
  lemma RecordStep(s: State, depth: nat, step: Step, c: nat)
    requires depth >= 1 && Enabled(s, step)
    ensures var s' := Next(s, depth, step);
      && (c in s'.clients <==> c in s.clients || step == Connect(c))
      && (step == Subscribe(c) ==> c in s'.from && s'.from[c] == |s.history|)
      && (c in s.from && step != Subscribe(c) ==> c in s'.from && s'.from[c] == s.from[c])
      && (c in s.until && step != Unsubscribe(c) && step != Throw(c) ==> c in s'.until && s'.until[c] == s.until[c])
      && (step == Unsubscribe(c) ==> c in s'.until && s'.until[c] == |s.history|)
      && (step == Throw(c) && s.clients[c].phase.Known() ==>
            c in s'.until && |s.history| - 1 <= s'.until[c] <= |s.history|)
      && (step == Throw(c) && !s.clients[c].phase.Known() ==> s'.until == s.until)
  {
  }

  /** How one step moves call `c` between its phases. */
  lemma PhaseStep(s: State, depth: nat, step: Step, c: nat)
    requires depth >= 1 && Enabled(s, step) && c in Next(s, depth, step).clients
    ensures var phase := Next(s, depth, step).clients[c].phase;
      if c !in s.clients then phase.Starting? else
      var before := s.clients[c].phase;
      && (phase.NeverSubscribed() <==> before.NeverSubscribed() && step != Subscribe(c))
      && (phase.Left() <==> before.Left() || step == Unsubscribe(c))
      && (phase.Known() && phase.Crashed? <==> before.Known() && (before.Crashed? || step == Throw(c)))
  {
  }

  lemma {:induction false} HistoryIsTheRuns(run: Trace<Step>, depth: nat)
    requires depth >= 1 && Exec(run, depth).Some?
    ensures Exec(run, depth).value.history == Broadcasts(run)
  {
    match run
    case Start =>
    case After(prev, step) => HistoryIsTheRuns(prev, depth);
  }

  /** The state's bookkeeping says of call `c` what the run itself says. */
  lemma {:induction false} RecordIsTheRuns(run: Trace<Step>, depth: nat, c: nat)
    requires depth >= 1 && Exec(run, depth).Some?
    ensures var s := Exec(run, depth).value;
      && (SubscribedAt(run, c).Some? <==> c in s.clients && !s.clients[c].phase.NeverSubscribed())
      && (SubscribedAt(run, c).Some? ==> c in s.from && s.from[c] == SubscribedAt(run, c).value)
      && (UnsubscribedAt(run, c).Some? <==> c in s.clients && s.clients[c].phase.Left())
      && (UnsubscribedAt(run, c).Some? ==> c in s.until && s.until[c] == UnsubscribedAt(run, c).value)
      && (ThrewBetween(run, c) <==> c in s.clients && s.clients[c].phase.Known() && s.clients[c].phase.Crashed?)
      && (ThrewBetween(run, c) ==> c in s.until && ThrewAt(run, c).value - 1 <= s.until[c] <= ThrewAt(run, c).value)
  {
    match run
    case Start =>
    case After(prev, step) =>
      RecordIsTheRuns(prev, depth, c);
      HistoryIsTheRuns(prev, depth);
      var s := Exec(prev, depth).value;
      RecordStep(s, depth, step, c);
      if c in Next(s, depth, step).clients {
        PhaseStep(s, depth, step, c);
      }
  }

  // ---------------------------------------------------------------- main results

  /** `b` is how far the call's window reaches into the broadcasts of the run. */
  ghost predicate WindowEnd(run: Trace<Step>, depth: nat, c: nat, b: int)
    requires depth >= 1 && Exec(run, depth).Some?
    requires c in Exec(run, depth).value.clients
  {
    var s := Exec(run, depth).value;
    if SubscribedAt(run, c).None? then b == 0
    else if UnsubscribedAt(run, c).Some? then UnsubscribedAt(run, c) == Some(b)
    else if ThrewBetween(run, c) then ThrewAt(run, c).value - 1 <= b <= ThrewAt(run, c).value
    else b == |Broadcasts(run)| || (s.fan.Fanning? && b == |Broadcasts(run)| - 1)
  }

  ghost predicate IsWindow(run: Trace<Step>, depth: nat, c: nat, a: int, b: int)
    requires depth >= 1 && Exec(run, depth).Some?
    requires c in Exec(run, depth).value.clients
  {
    && a == (if SubscribedAt(run, c).Some? then SubscribedAt(run, c).value else 0)
    && 0 <= a <= b <= |Broadcasts(run)|
    && WindowEnd(run, depth, c, b)
    && Exec(run, depth).value.clients[c].sub.pushed == Broadcasts(run)[a..b]
  }

  /**
   In every interleaving, what has been pushed to a call is exactly the run's broadcasts
   from its `Subscribe` on, up to its `Unsubscribe`, its exception or now; only the one
   event whose fan-out is under way may still be to come.
   */
  lemma PushedIsAWindow(run: Trace<Step>, depth: nat, c: nat) returns (a: int, b: int)
    requires depth >= 1 && Exec(run, depth).Some?
    requires c in Exec(run, depth).value.clients
    ensures IsWindow(run, depth, c, a, b)
  {
    Reachable(run, depth);
    HistoryIsTheRuns(run, depth);
    RecordIsTheRuns(run, depth, c);
    var s := Exec(run, depth).value;
    assert WindowInv(s, c);
    if SubscribedAt(run, c).None? {
      a, b := 0, 0;
    } else if UnsubscribedAt(run, c).Some? || ThrewBetween(run, c) {
      a, b := s.from[c], s.until[c];
    } else {
      a, b := s.from[c], Sent(s, c);
    }
  }

  lemma ClientIsTallied(run: Trace<Step>, depth: nat, c: nat)
    requires depth >= 1 && Exec(run, depth).Some?
    requires c in Exec(run, depth).value.clients
    ensures TallyInv(Exec(run, depth).value.clients[c], depth)
  {
    Reachable(run, depth);
  }

  /** The numbers of the broadcasts whose fan-out pushed to call `c`, one for each push. */
  function PushNumbers(run: Trace<Step>, depth: nat, c: nat): seq<int>
    requires depth >= 1 && Exec(run, depth).Some?
  {
    match run
    case Start => []
    case After(prev, step) =>
      var s := Exec(prev, depth).value;
      PushNumbers(prev, depth, c) + if PushesTo(s, step, c) then [|Broadcasts(prev)| - 1] else []
  }

  /** The numbers go up one by one from `first`. */
  ghost predicate CountUp(numbers: seq<int>, first: Option<int>) {
    && (numbers != [] ==> first.Some?)
    && forall i :: 0 <= i < |numbers| ==> numbers[i] == first.value + i
  }

  /** Push number `i` to a call is of broadcast number `i`, counted from its `Subscribe` on. */
  lemma {:induction false} PushNumbersAreConsecutive(run: Trace<Step>, depth: nat, c: nat)
    requires depth >= 1 && Exec(run, depth).Some?
    ensures CountUp(PushNumbers(run, depth, c), SubscribedAt(run, c))
    ensures var s := Exec(run, depth).value;
      |PushNumbers(run, depth, c)| == if c in s.clients then |s.clients[c].sub.pushed| else 0
  {
    match run
    case Start =>
    case After(prev, step) =>
      PushNumbersAreConsecutive(prev, depth, c);
      var s := Exec(prev, depth).value;
      if c in s.clients {
        PushNumberStep(prev, depth, step, c);
      } else {
        NewClientHasNothing(s, depth, step, c);
      }
  }

  lemma NewClientHasNothing(s: State, depth: nat, step: Step, c: nat)
    requires depth >= 1 && Enabled(s, step) && c !in s.clients
    ensures !PushesTo(s, step, c)
    ensures c in Next(s, depth, step).clients ==> Next(s, depth, step).clients[c].sub.pushed == []
  {
  }

  lemma PushNumberStep(prev: Trace<Step>, depth: nat, step: Step, c: nat)
    requires depth >= 1 && Exec(After(prev, step), depth).Some?
    requires c in Exec(prev, depth).value.clients
    ensures var s, s' := Exec(prev, depth).value, Exec(After(prev, step), depth).value;
      && c in s'.clients
      && |s'.clients[c].sub.pushed| == |s.clients[c].sub.pushed| + (if PushesTo(s, step, c) then 1 else 0)
      && (PushesTo(s, step, c) ==>
            && SubscribedAt(prev, c).Some?
            && |Broadcasts(prev)| - 1 == SubscribedAt(prev, c).value + |s.clients[c].sub.pushed|)
      && (step == Subscribe(c) ==> s.clients[c].sub.pushed == [])
  {
    var s := Exec(prev, depth).value;
    assert SubsInv(s) && WindowInv(s, c) by {
      Reachable(prev, depth);
    }
    HistoryIsTheRuns(prev, depth);
    RecordIsTheRuns(prev, depth, c);
    PushStep(s, depth, step, c);
  }

  predicate PushesTo(s: State, step: Step, c: nat)
    requires Enabled(s, step)
  {
    step.PushNext? && s.subs[s.fan.next] == c
  }

  lemma PushStep(s: State, depth: nat, step: Step, c: nat)
    requires depth >= 1 && Enabled(s, step) && SubsInv(s)
    requires c in s.clients && WindowInv(s, c)
    ensures var s' := Next(s, depth, step);
      && c in s'.clients
      && |s'.clients[c].sub.pushed| == |s.clients[c].sub.pushed| + (if PushesTo(s, step, c) then 1 else 0)
      && (PushesTo(s, step, c) ==>
            && !s.clients[c].phase.NeverSubscribed() && c in s.from
            && |s.history| - 1 == s.from[c] + |s.clients[c].sub.pushed|)
      && (step == Subscribe(c) ==> s.clients[c].sub.pushed == [])
  {
    if Touched(s, step) != Some(c) {
      OthersUntouched(s, depth, step, c);
    } else if PushesTo(s, step, c) {
      assert c in s.subs[s.fan.next..];
    }
  }

  /** The numbers of the broadcasts that the messages written to call `c` are of, message by message. */
  ghost function DeliveredAt(run: Trace<Step>, depth: nat, c: nat): (ix: seq<int>)
    requires depth >= 1 && Exec(run, depth).Some?
    requires c in Exec(run, depth).value.clients
    requires TallyInv(Exec(run, depth).value.clients[c], depth)
  {
    var at, numbers := WrittenAt(Exec(run, depth).value.clients[c]), PushNumbers(run, depth, c);
    seq(|at|, k requires 0 <= k < |at| => if 0 <= at[k] < |numbers| then numbers[at[k]] else 0)
  }

  /**
   The messages written to a client are an in-order selection of the broadcasts of its window:
   message by message, it is the broadcast by whose fan-out the event got into the queue.
   */
  lemma OutputIsFromWindow(run: Trace<Step>, depth: nat, c: nat) returns (a: int, b: int)
    requires depth >= 1 && Exec(run, depth).Some?
    requires c in Exec(run, depth).value.clients
    ensures IsWindow(run, depth, c, a, b)
    ensures TallyInv(Exec(run, depth).value.clients[c], depth)
    ensures WritesInOrder(Broadcasts(run), DeliveredAt(run, depth, c), Exec(run, depth).value.clients[c].tally.written)
    ensures forall k :: 0 <= k < |DeliveredAt(run, depth, c)| ==>
              && a <= DeliveredAt(run, depth, c)[k] < b
              && DeliveredAt(run, depth, c)[k] == a + WrittenAt(Exec(run, depth).value.clients[c])[k]
  {
    a, b := PushedIsAWindow(run, depth, c);
    ClientIsTallied(run, depth, c);
    PushNumbersAreConsecutive(run, depth, c);
    var client := Exec(run, depth).value.clients[c];
    OutputIsOrderedSelection(client, depth);
    var at, ix := WrittenAt(client), DeliveredAt(run, depth, c);
    forall k | 0 <= k < |at|
      ensures a <= ix[k] < b && ix[k] == a + at[k] && ToMessage(Broadcasts(run)[ix[k]]) == Some(client.tally.written[k])
    {
      assert client.sub.pushed[at[k]] == Broadcasts(run)[a..b][at[k]];
    }
  }

  /** Whatever the pushes in between, a broadcast made earlier is delivered earlier, to every client that gets both. */
  lemma ClientsAgreeOnOrder(run: Trace<Step>, depth: nat, c: nat, d: nat)
    requires depth >= 1 && Exec(run, depth).Some?
    requires c in Exec(run, depth).value.clients && d in Exec(run, depth).value.clients
    ensures TallyInv(Exec(run, depth).value.clients[c], depth) && TallyInv(Exec(run, depth).value.clients[d], depth)
    ensures var ixc, ixd := DeliveredAt(run, depth, c), DeliveredAt(run, depth, d);
      forall i, j, k, l ::
        && 0 <= i < |ixc| && 0 <= j < |ixc| && 0 <= k < |ixd| && 0 <= l < |ixd|
        && ixc[i] == ixd[k] && ixc[j] == ixd[l]
        ==> (i < j <==> k < l)
  {
    var a, b := OutputIsFromWindow(run, depth, c);
    var a', b' := OutputIsFromWindow(run, depth, d);
    OrdersAgree(DeliveredAt(run, depth, c), DeliveredAt(run, depth, d));
  }

  lemma OrdersAgree(ix: seq<int>, iy: seq<int>)
    requires Increasing(ix) && Increasing(iy)
    ensures forall i, j, k, l ::
              && 0 <= i < |ix| && 0 <= j < |ix| && 0 <= k < |iy| && 0 <= l < |iy|
              && ix[i] == iy[k] && ix[j] == iy[l]
              ==> (i < j <==> k < l)
  {
  }

  /**
   When a call has returned, every event it popped was written or filtered out, except at
   most one whose write failed, and the count it reports is the number of successful writes.
   */
  lemma ReturnedCallIsBalanced(run: Trace<Step>, depth: nat, c: nat)
    requires depth >= 1 && Exec(run, depth).Some?
    requires PhaseOf(Exec(run, depth).value, c) == Some(Returned)
    ensures var client := Exec(run, depth).value.clients[c];
      && |client.sub.popped| == |client.tally.written| + client.tally.filtered + client.tally.failed
      && client.tally.failed <= 1
      && client.tally.eventsWritten == |client.tally.written|
      && client.tally.written == Messages(client.sub.popped[..|client.sub.popped| - client.tally.failed])
  {
    ClientIsTallied(run, depth, c);
  }

  /** The dispatcher holds a pointer to a subscription whose call is over. */
  ghost predicate Dangling(s: State, c: nat) {
    c in s.subs && c in s.clients && !s.clients[c].phase.Running()
  }

  /** A pointer is left behind by exactly the calls that threw between their `Subscribe` and their `Unsubscribe`. */
  lemma DanglingIffThrew(run: Trace<Step>, depth: nat, c: nat)
    requires depth >= 1 && Exec(run, depth).Some?
    ensures Dangling(Exec(run, depth).value, c) <==> ThrewBetween(run, c)
  {
    Reachable(run, depth);
    RecordIsTheRuns(run, depth, c);
    var s := Exec(run, depth).value;
    if c in s.clients {
      assert WindowInv(s, c);
    }
  }

  /**
   A fan-out can go on if and only if it has reached all subscribers, or the one that is next
   did not throw between its `Subscribe` and its `Unsubscribe`.
   */
  lemma FanOutGoesOnIff(run: Trace<Step>, depth: nat)
    requires depth >= 1 && Exec(run, depth).Some?
    requires Exec(run, depth).value.fan.Fanning?
    ensures var s := Exec(run, depth).value;
      (Enabled(s, PushNext) || Enabled(s, EndBroadcast)) <==>
      (s.fan.next >= |s.subs| || !ThrewBetween(run, s.subs[s.fan.next]))
  {
    var s := Exec(run, depth).value;
    if s.fan.next < |s.subs| {
      SubscriberIsLiveIff(run, depth, s.fan.next);
    }
  }

  lemma SubscriberIsLiveIff(run: Trace<Step>, depth: nat, i: nat)
    requires depth >= 1 && Exec(run, depth).Some? && i < |Exec(run, depth).value.subs|
    ensures var s := Exec(run, depth).value;
      && s.subs[i] in s.clients
      && (s.clients[s.subs[i]].phase.Running() <==> !ThrewBetween(run, s.subs[i]))
  {
    assert SubsInv(Exec(run, depth).value) by {
      Reachable(run, depth);
    }
    DanglingIffThrew(run, depth, Exec(run, depth).value.subs[i]);
  }

  /** A call that threw while it was subscribed holds up the next broadcast. */
  lemma ThrowLeavesAStuckFanOut(e: Event)
    ensures var run: Trace<Step> :=
              After(After(After(After(Start, Connect(0)), Subscribe(0)), Throw(0)), BeginBroadcast(e));
            && Exec(run, STREAM_DEPTH).Some?
            && Exec(run, STREAM_DEPTH).value.fan.Fanning?
            && !Enabled(Exec(run, STREAM_DEPTH).value, PushNext)
            && !Enabled(Exec(run, STREAM_DEPTH).value, EndBroadcast)
  {
    var r1: Trace<Step> := After(Start, Connect(0));
    var r2 := After(r1, Subscribe(0));
    var r3 := After(r2, Throw(0));
    assert Exec(r1, STREAM_DEPTH) == Some(INIT.(clients := map[0 := NEW_CLIENT]));
    assert Exec(r2, STREAM_DEPTH).value.subs == [0];
    assert Exec(r3, STREAM_DEPTH).value.subs == [0];
    assert !Exec(r3, STREAM_DEPTH).value.clients[0].phase.Running();
  }

  // ---------------------------------------------------------------- down to the single queue

  /** The operation one step performs on call `c`'s queue, if any. */
  function OpOn(s: State, step: Step, c: nat): Option<QueueOp>
    requires Enabled(s, step)
  {
    match step
    case PushNext => if s.subs[s.fan.next] == c then Some(Push(s.fan.e)) else None
    case PopEvent(d) => if d == c then Some(Pop) else None
    case _ => None
  }

  /** The operations a run performs on call `c`'s queue. */
  function OpsOn(run: Trace<Step>, depth: nat, c: nat): Trace<QueueOp>
    requires depth >= 1 && Exec(run, depth).Some?
  {
    match run
    case Start => Start
    case After(prev, step) =>
      var before, op := OpsOn(prev, depth, c), OpOn(Exec(prev, depth).value, step, c);
      if op.Some? then After(before, op.value) else before
  }

  lemma OpStep(s: State, depth: nat, step: Step, c: nat)
    requires depth >= 1 && Enabled(s, step) && c in Next(s, depth, step).clients
    ensures c in s.clients ==>
              Next(s, depth, step).clients[c].sub
                == if OpOn(s, step, c).Some? then ApplyOp(s.clients[c].sub, depth, OpOn(s, step, c).value)
                   else s.clients[c].sub
    ensures c !in s.clients ==> OpOn(s, step, c).None? && Next(s, depth, step).clients[c].sub == EMPTY_QUEUE
  {
  }

  /** Seen from one queue, an interleaved run is just a run of that queue. */
  lemma {:induction false} QueueRunsAlone(run: Trace<Step>, depth: nat, c: nat)
    requires depth >= 1 && Exec(run, depth).Some?
    requires c in Exec(run, depth).value.clients
    ensures Exec(run, depth).value.clients[c].sub == RunQueue(OpsOn(run, depth, c), depth)
  {
    match run
    case Start =>
    case After(prev, step) =>
      OpStep(Exec(prev, depth).value, depth, step, c);
      if c in Exec(prev, depth).value.clients {
        QueueRunsAlone(prev, depth, c);
      } else {
        NoOpsBeforeConnect(prev, depth, c);
      }
  }

  lemma {:induction false} NoOpsBeforeConnect(run: Trace<Step>, depth: nat, c: nat)
    requires depth >= 1 && Exec(run, depth).Some?
    requires c !in Exec(run, depth).value.clients
    ensures OpsOn(run, depth, c) == Start
  {
    match run
    case Start =>
    case After(prev, step) =>
      RecordStep(Exec(prev, depth).value, depth, step, c);
      NoOpsBeforeConnect(prev, depth, c);
  }

  /**
   If the consumer never fell more than the queue's depth behind, what it popped is its
   window of the broadcasts without a gap, up to what is still queued, and what it wrote
   are the messages of all of that but the event in hand.
   */
  lemma PromptClientMissesNothing(run: Trace<Step>, depth: nat, c: nat) returns (a: int, b: int)
    requires depth >= 1 && Exec(run, depth).Some?
    requires c in Exec(run, depth).value.clients
    requires KeepsUp(OpsOn(run, depth, c), depth)
    ensures IsWindow(run, depth, c, a, b)
    ensures GapFree(Exec(run, depth).value.clients[c], Broadcasts(run), a, b)
  {
    a, b := PushedIsAWindow(run, depth, c);
    ClientIsTallied(run, depth, c);
    ClientIsLossless(run, depth, c);
    LosslessOutput(Exec(run, depth).value.clients[c], depth, Broadcasts(run), a, b);
  }

  /**
   What the client popped is all of `history[a..b]` but what is queued, and what it wrote are
   the messages of all of that but the event in hand.
   */
  ghost predicate GapFree(client: Client, history: seq<Event>, a: int, b: int) {
    && 0 <= a <= b - |client.sub.queue| <= b <= |history|
    && client.sub.popped == history[a..b - |client.sub.queue|]
    && client.InHand() <= |client.sub.popped|
    && client.tally.written == Messages(client.sub.popped[..|client.sub.popped| - client.InHand()])
  }

  lemma ClientIsLossless(run: Trace<Step>, depth: nat, c: nat)
    requires depth >= 1 && Exec(run, depth).Some?
    requires c in Exec(run, depth).value.clients
    ensures Exec(run, depth).value.clients[c].sub.Lossless() <==> KeepsUp(OpsOn(run, depth, c), depth)
  {
    QueueRunsAlone(run, depth, c);
    LosslessIffKeepsUp(OpsOn(run, depth, c), depth);
  }

  /** Exactly what a client misses: an event sent to it that was still queued when `depth` more had been. */
  lemma ClientMissesIff(run: Trace<Step>, depth: nat, c: nat, i: nat)
    requires depth >= 1 && Exec(run, depth).Some?
    requires c in Exec(run, depth).value.clients
    ensures Exec(run, depth).value.clients[c].sub.Lost(i) <==> Displaced(OpsOn(run, depth, c), depth, i)
  {
    QueueRunsAlone(run, depth, c);
    LostIffDisplaced(OpsOn(run, depth, c), depth, i);
  }

  /**
   Every broadcast of a client's window was written, filtered out, is in hand or was not
   accepted by the connection, is still queued, or is lost, and only one of these.
   */
  lemma WindowIsAccountedFor(run: Trace<Step>, depth: nat, c: nat) returns (a: int, b: int)
    requires depth >= 1 && Exec(run, depth).Some?
    requires c in Exec(run, depth).value.clients
    ensures IsWindow(run, depth, c, a, b)
    ensures var client := Exec(run, depth).value.clients[c];
      && client.sub.Gone() >= 0
      && b - a == |client.tally.written| + client.tally.filtered + client.InHand()
                  + |client.sub.queue| + |LostEvents(client.sub)|
  {
    a, b := PushedIsAWindow(run, depth, c);
    ClientIsTallied(run, depth, c);
    EventsAreConserved(Exec(run, depth).value.clients[c].sub, depth);
  }

  lemma LosslessOutput(client: Client, depth: nat, history: seq<Event>, a: int, b: int)
    requires TallyInv(client, depth) && client.sub.Lossless()
    requires 0 <= a <= b <= |history| && client.sub.pushed == history[a..b]
    ensures GapFree(client, history, a, b)
  {
    NothingLostMeansPrefix(client.sub, depth);
    PrefixOfWindow(history, a, b, client.sub.Gone());
  }

  lemma PrefixOfWindow(history: seq<Event>, a: int, b: int, n: int)
    requires 0 <= a <= b <= |history| && 0 <= n <= b - a
    ensures history[a..b][..n] == history[a..a + n]
  {
  }

  // ---------------------------------------------------------------- one broadcast by itself

  /** The first `n` pushes of a broadcast of `e`, with nothing in between. */
  function FanOutRun(run: Trace<Step>, e: Event, n: nat): Trace<Step> {
    if n == 0 then After(run, BeginBroadcast(e)) else After(FanOutRun(run, e, n - 1), PushNext)
  }

  /** `s'` is `s` with the event pushed once to each of the first `n` subscribers. */
  ghost predicate FannedOut(s: State, s': State, depth: nat, e: Event, n: nat)
    requires depth >= 1 && n <= |s.subs|
  {
    && s'.subs == s.subs && s'.fan == Fanning(e, n) && s'.clients.Keys == s.clients.Keys
    && forall c :: c in s.clients ==>
         s'.clients[c] == if c in s.subs[..n] then OnPush(s.clients[c], depth, e) else s.clients[c]
  }

  lemma OneMorePush(s: State, s': State, depth: nat, e: Event, n: nat)
    requires depth >= 1 && n < |s.subs| && SubsInv(s) && FannedOut(s, s', depth, e, n)
    requires s.clients[s.subs[n]].phase.Running()
    ensures Enabled(s', PushNext) && FannedOut(s, Next(s', depth, PushNext), depth, e, n + 1)
  {
    assert s.subs[n] !in s.subs[..n];
    assert s.subs[..n + 1] == s.subs[..n] + [s.subs[n]];
  }

  lemma {:induction false} OnceEach(subs: seq<nat>, n: nat, c: nat)
    requires NoDuplicates(subs) && n <= |subs|
    ensures multiset(subs[..n])[c] == if c in subs[..n] then 1 else 0
  {
    if n > 0 {
      OnceEach(subs, n - 1, c);
      assert subs[..n] == subs[..n - 1] + [subs[n - 1]];
    }
  }

  /**
   A fan-out that nothing interrupts and whose subscribers have not thrown does to the queues
   what the method `Broadcast` promises, and nothing else.
   */
  lemma UninterruptedFanOut(run: Trace<Step>, depth: nat, e: Event, n: nat)
    requires depth >= 1 && Exec(run, depth).Some? && Exec(run, depth).value.fan.Idle?
    requires n <= |Exec(run, depth).value.subs|
    requires forall i :: 0 <= i < n ==> !ThrewBetween(run, Exec(run, depth).value.subs[i])
    ensures Exec(FanOutRun(run, e, n), depth).Some?
    ensures var s, s' := Exec(run, depth).value, Exec(FanOutRun(run, e, n), depth).value;
      && FannedOut(s, s', depth, e, n)
      && forall c :: c in s.clients ==>
           s'.clients[c].sub.queue == PushedTimes(s.clients[c].sub.queue, depth, e, multiset(s.subs[..n])[c])
  {
    var s := Exec(run, depth).value;
    assert SubsInv(s) by {
      Reachable(run, depth);
    }
    FanOutReaches(run, depth, e, n);
    QueuesAfterFanOut(s, Exec(FanOutRun(run, e, n), depth).value, depth, e, n);
  }

  lemma {:induction false} FanOutReaches(run: Trace<Step>, depth: nat, e: Event, n: nat)
    requires depth >= 1 && Exec(run, depth).Some? && Exec(run, depth).value.fan.Idle? && SubsInv(Exec(run, depth).value)
    requires n <= |Exec(run, depth).value.subs|
    requires forall i :: 0 <= i < n ==> !ThrewBetween(run, Exec(run, depth).value.subs[i])
    ensures Exec(FanOutRun(run, e, n), depth).Some?
    ensures FannedOut(Exec(run, depth).value, Exec(FanOutRun(run, e, n), depth).value, depth, e, n)
  {
    if n > 0 {
      FanOutReaches(run, depth, e, n - 1);
      SubscriberIsLiveIff(run, depth, n - 1);
      OneMorePush(Exec(run, depth).value, Exec(FanOutRun(run, e, n - 1), depth).value, depth, e, n - 1);
    }
  }

  lemma QueuesAfterFanOut(s: State, s': State, depth: nat, e: Event, n: nat)
    requires depth >= 1 && n <= |s.subs| && NoDuplicates(s.subs) && FannedOut(s, s', depth, e, n)
    ensures forall c :: c in s.clients ==>
              s'.clients[c].sub.queue == PushedTimes(s.clients[c].sub.queue, depth, e, multiset(s.subs[..n])[c])
  {
    forall c | c in s.clients
      ensures s'.clients[c].sub.queue == PushedTimes(s.clients[c].sub.queue, depth, e, multiset(s.subs[..n])[c])
    {
      OnceEach(s.subs, n, c);
      assert PushedTimes(s.clients[c].sub.queue, depth, e, 0) == s.clients[c].sub.queue;
    }
  }

  /** `s'` is `s` after a turn of call `c` that found `s.clients[c].sub.queue` when its wait was over. */
  ghost predicate TurnTaken(s: State, s': State, c: nat, writeOk: bool)
    requires c in s.clients
  {
    && s' == s.(clients := s'.clients)
    && c in s'.clients && s'.clients == s.clients[c := s'.clients[c]]
    && Served(s.clients[c].sub.queue, writeOk, s.clients[c].tally.written,
              s'.clients[c].sub.queue, s'.clients[c].tally.written, s'.clients[c].phase.Looping?)
    && (s'.clients[c].phase.Looping? || s'.clients[c].phase.Leaving?)
  }

  /** A turn that nothing interrupts does what the loop's `PopAndWrite` promises, and nothing to anybody else. */
  lemma UninterruptedTurn(run: Trace<Step>, depth: nat, c: nat, writeOk: bool) returns (done: Trace<Step>)
    requires depth >= 1 && Exec(run, depth).Some? && PhaseOf(Exec(run, depth).value, c) == Some(Looping)
    ensures Exec(done, depth).Some?
    ensures TurnTaken(Exec(run, depth).value, Exec(done, depth).value, c, writeOk)
  {
    var s := Exec(run, depth).value;
    done := run;
    if s.clients[c].sub.queue == [] {
      assert s.clients[c := s.clients[c]] == s.clients;
    } else {
      done := After(run, PopEvent(c));
      var s1 := Next(s, depth, PopEvent(c));
      assert Exec(done, depth) == Some(s1);
      var last := if ToMessage(s1.clients[c].phase.e).None? then Skip(c) else Write(c, writeOk);
      done := After(done, last);
      assert Exec(done, depth) == Some(Next(s1, depth, last));
    }
  }
}
