/**
 One call of `callbackChannel`, from the construction of its subscription to its return:
 where the call stands, its queue, and a tally of what became of every event it popped.
 */
module StreamClient {
  import opened Basics
  import opened CallbackQueue

  datatype Message =
    | NewImageMessage(userData: nat)
    | NewStatisticsMessage(userData: nat)
    | RenderFailureMessage(userData: nat)
    | ProjectManagerChangedMessage(userData: nat)

  /** The message an event is written as; tile events are not forwarded. */
  function ToMessage(e: Event): Option<Message> {
    match e.kind
    case NewImage => Some(NewImageMessage(e.userData))
    case NewStatistics => Some(NewStatisticsMessage(e.userData))
    case RenderFailure => Some(RenderFailureMessage(e.userData))
    case ProjectChanged => Some(ProjectManagerChangedMessage(e.userData))
    case TileBlended => None
  }

  /** The event a client can tell from a message. */
  function FromMessage(m: Message): Event {
    match m
    case NewImageMessage(userData) => Event(NewImage, userData)
    case NewStatisticsMessage(userData) => Event(NewStatistics, userData)
    case RenderFailureMessage(userData) => Event(RenderFailure, userData)
    case ProjectManagerChangedMessage(userData) => Event(ProjectChanged, userData)
  }

  /** A message tells the client its event exactly, and only tile events have none. */
  lemma MessageTellsEvent(e: Event, m: Message)
    ensures ToMessage(e) == Some(m) <==> e == FromMessage(m)
    ensures ToMessage(e).None? <==> e.kind == TileBlended
  {
  }

  /** Where an exception ended a call; `held` is 1 if a popped event was in hand then, else 0. */
  datatype CrashPoint = BeforeSubscribe | WhileSubscribed(held: nat) | AfterUnsubscribe

  datatype Phase =
    | Starting
    | Looping
    | Holding(e: Event)
    | Leaving
    | Unsubscribed
    | Returned
    | Crashed(at: CrashPoint)
  {

    /** The call has not returned and has not been ended by an exception. */
    predicate Running() {
      !Returned? && !Crashed?
    }

    /** The call has not subscribed, or was ended before it could. */
    predicate NeverSubscribed() {
      Starting? || (Crashed? && at.BeforeSubscribe?)
    }

    /** The dispatcher has a pointer to the call's subscription. */
    predicate Known() {
      Looping? || Holding? || Leaving? || (Crashed? && at.WhileSubscribed?)
    }

    /** The call has unsubscribed. */
    predicate Left() {
      Unsubscribed? || Returned? || (Crashed? && at.AfterUnsubscribe?)
    }

    /** How many popped events have neither been written nor filtered out nor failed to be written. */
    function Held(): nat {
      if Holding? then 1 else if Crashed? && at.WhileSubscribed? then at.held else 0
    }

    /** The phase after an exception in this one. */
    function Thrown(): Phase {
      Crashed(if Starting? then BeforeSubscribe
              else if Unsubscribed? then AfterUnsubscribe
              else WhileSubscribed(Held()))
    }
  }

  /** What a call has written, the count it keeps of that, and how many events it left out or failed to write. */
  datatype Tally = Tally(written: seq<Message>, eventsWritten: nat, filtered: nat, failed: nat)

  datatype Client = Client(phase: Phase, sub: QueueState, tally: Tally) {
    /** The popped event that has neither been written nor filtered out, counted. */
    function InHand(): nat {
      tally.failed + phase.Held()
    }
  }

  const NEW_CLIENT := Client(Starting, EMPTY_QUEUE, Tally([], 0, 0, 0))

  function OnPush(c: Client, depth: nat, e: Event): Client
    requires depth >= 1
  {
    c.(sub := ApplyOp(c.sub, depth, Push(e)))
  }

  function OnPop(c: Client, depth: nat): Client
    requires depth >= 1 && c.sub.queue != []
  {
    c.(sub := ApplyOp(c.sub, depth, Pop), phase := Holding(c.sub.queue[0]))
  }

  /** The `default` branch: the event is skipped and the loop goes on. */
  function OnSkip(c: Client): Client {
    c.(phase := Looping, tally := c.tally.(filtered := c.tally.filtered + 1))
  }

  /** A write that succeeds is counted and the loop goes on; one that fails ends the loop. */
  function OnWrite(c: Client, m: Message, ok: bool): Client {
    var t := c.tally;
    if ok then c.(phase := Looping, tally := t.(written := t.written + [m], eventsWritten := t.eventsWritten + 1))
    else c.(phase := Leaving, tally := t.(failed := t.failed + 1))
  }

  function OnThrow(c: Client): Client {
    c.(phase := c.phase.Thrown())
  }

  /** What the loop body does with one wait: nothing on a timeout, else pop and then skip or write. */
  function OnWait(c: Client, depth: nat, writeOk: bool): Client
    requires depth >= 1
  {
    if c.sub.queue == [] then c
    else
      var popped, msg := OnPop(c, depth), ToMessage(c.sub.queue[0]);
      if msg.None? then OnSkip(popped) else OnWrite(popped, msg.value, writeOk)
  }

  /** The messages for a sequence of events, in order. */
  function Messages(es: seq<Event>): seq<Message> {
    if es == [] then []
    else
      var last := ToMessage(es[|es| - 1]);
      Messages(es[..|es| - 1]) + if last.Some? then [last.value] else []
  }

  ghost predicate TallyInv(c: Client, depth: nat) {
    && QueueInv(c.sub, depth)
    && c.tally.failed <= 1
    && (c.tally.failed == 1 ==> c.phase.Held() == 0 && !c.phase.Starting? && !c.phase.Looping?)
    && c.phase.Held() <= 1
    && c.InHand() <= |c.sub.popped|
    && (c.phase.Holding? ==> c.sub.popped[|c.sub.popped| - 1] == c.phase.e)
    && (c.tally.failed == 1 ==> ToMessage(c.sub.popped[|c.sub.popped| - 1]).Some?)
    && c.tally.written == Messages(Settled(c))
    && c.tally.eventsWritten == |c.tally.written|
    && |c.sub.popped| == |c.tally.written| + c.tally.filtered + c.InHand()
  }

  /** The popped events that were written or filtered out. */
  function Settled(c: Client): seq<Event>
    requires c.InHand() <= |c.sub.popped|
  {
    c.sub.popped[..|c.sub.popped| - c.InHand()]
  }

  lemma PushKeepsTally(c: Client, depth: nat, e: Event)
    requires depth >= 1 && TallyInv(c, depth)
    ensures TallyInv(OnPush(c, depth, e), depth)
  {
    OpKeepsInv(c.sub, depth, Push(e));
  }

  lemma PopKeepsTally(c: Client, depth: nat)
    requires depth >= 1 && TallyInv(c, depth) && c.phase.Looping? && c.sub.queue != []
    ensures TallyInv(OnPop(c, depth), depth)
  {
    OpKeepsInv(c.sub, depth, Pop);
    assert Settled(c) == Settled(OnPop(c, depth));
  }

  lemma SkipKeepsTally(c: Client, depth: nat)
    requires TallyInv(c, depth) && c.phase.Holding? && ToMessage(c.phase.e).None?
    ensures TallyInv(OnSkip(c), depth)
  {
    assert Settled(OnSkip(c))[..|Settled(OnSkip(c))| - 1] == Settled(c);
  }

  lemma WriteKeepsTally(c: Client, depth: nat, m: Message, ok: bool)
    requires TallyInv(c, depth) && c.phase.Holding? && ToMessage(c.phase.e) == Some(m)
    ensures TallyInv(OnWrite(c, m, ok), depth)
  {
    var c' := OnWrite(c, m, ok);
    if ok {
      assert Settled(c')[..|Settled(c')| - 1] == Settled(c);
    } else {
      assert Settled(c') == Settled(c);
    }
  }

  lemma WaitKeepsTally(c: Client, depth: nat, writeOk: bool)
    requires depth >= 1 && TallyInv(c, depth) && c.phase.Looping?
    ensures TallyInv(OnWait(c, depth, writeOk), depth)
    ensures OnWait(c, depth, writeOk).sub.pushed == c.sub.pushed
    ensures OnWait(c, depth, writeOk).phase == if OnWait(c, depth, writeOk).tally.failed == 0 then Looping else Leaving
  {
    if c.sub.queue != [] {
      PopKeepsTally(c, depth);
      var popped, msg := OnPop(c, depth), ToMessage(c.sub.queue[0]);
      if msg.None? {
        SkipKeepsTally(popped, depth);
      } else {
        WriteKeepsTally(popped, depth, msg.value, writeOk);
      }
    }
  }

  /** Ways of moving on that take nothing from the queue and write nothing. */
  lemma LeavingKeepsTally(c: Client, depth: nat, phase: Phase)
    requires TallyInv(c, depth)
    requires c.phase.Starting? || c.phase.Looping? || c.phase.Leaving? || c.phase.Unsubscribed?
    requires if c.phase.Unsubscribed? then phase.Returned?
             else if c.phase.Leaving? then phase.Unsubscribed?
             else if c.phase.Looping? then phase.Leaving?
             else phase.Looping?
    ensures TallyInv(c.(phase := phase), depth)
  {
    assert Settled(c.(phase := phase)) == Settled(c);
  }

  lemma ThrowKeepsTally(c: Client, depth: nat)
    requires TallyInv(c, depth) && c.phase.Running()
    ensures TallyInv(OnThrow(c), depth)
  {
    assert Settled(OnThrow(c)) == Settled(c);
  }

  lemma NewClientIsTallied(c: Client, depth: nat)
    requires c.phase.Starting? && c.tally.failed == 0 && c.tally.filtered == 0
    requires c.tally.eventsWritten == 0 && c.tally.written == []
    requires c.sub.queue == [] && c.sub.pushed == [] && c.sub.popped == [] && c.sub.taken == []
    ensures TallyInv(c, depth)
  {
    assert Settled(c) == [];
    assert QueueInv(c.sub, depth);
  }

  // ---------------------------------------------------------------- what gets written

  /** `written` are the messages of the events of `source` at the places `ix`, in order. */
  ghost predicate WritesInOrder(source: seq<Event>, ix: seq<int>, written: seq<Message>) {
    && |ix| == |written|
    && Increasing(ix)
    && forall k :: 0 <= k < |ix| ==> 0 <= ix[k] < |source| && ToMessage(source[ix[k]]) == Some(written[k])
  }

  /** The places in `es` of the events that have a message. */
  function Kept(es: seq<Event>): seq<int> {
    if es == [] then []
    else Kept(es[..|es| - 1]) + if ToMessage(es[|es| - 1]).Some? then [|es| - 1] else []
  }

  lemma {:induction false} KeptIsExact(es: seq<Event>)
    ensures WritesInOrder(es, Kept(es), Messages(es))
    ensures forall i :: 0 <= i < |es| ==> (i in Kept(es) <==> ToMessage(es[i]).Some?)
  {
    if es != [] {
      var init, last := es[..|es| - 1], |es| - 1;
      KeptIsExact(init);
      assert forall i :: 0 <= i < last ==> init[i] == es[i];
      KeptOneMore(es, Kept(init), Messages(init));
    }
  }

  /** The places and messages of all events but the last, extended by the last. */
  lemma KeptOneMore(es: seq<Event>, ix: seq<int>, written: seq<Message>)
    requires es != [] && WritesInOrder(es[..|es| - 1], ix, written)
    requires forall i :: 0 <= i < |es| - 1 ==> (i in ix <==> ToMessage(es[i]).Some?)
    ensures var msg := ToMessage(es[|es| - 1]);
      var ix' := ix + if msg.Some? then [|es| - 1] else [];
      var written' := written + if msg.Some? then [msg.value] else [];
      && WritesInOrder(es, ix', written')
      && forall i :: 0 <= i < |es| ==> (i in ix' <==> ToMessage(es[i]).Some?)
  {
    assert forall k :: 0 <= k < |ix| ==> es[..|es| - 1][ix[k]] == es[ix[k]];
  }

  /** The places, among all events pushed to the client, of the events it wrote. */
  ghost function WrittenAt(c: Client): (ix: seq<int>)
    requires c.InHand() <= |c.sub.popped| == |c.sub.taken|
  {
    var kept := Kept(Settled(c));
    seq(|kept|, k requires 0 <= k < |kept| => if 0 <= kept[k] < |c.sub.taken| then c.sub.taken[kept[k]] else 0)
  }

  /** The client's output is an in-order selection of what was pushed to it, tile events excepted. */
  lemma OutputIsOrderedSelection(c: Client, depth: nat)
    requires TallyInv(c, depth)
    ensures WritesInOrder(c.sub.pushed, WrittenAt(c), c.tally.written)
  {
    var settled, kept := Settled(c), Kept(Settled(c));
    KeptIsExact(settled);
    forall k | 0 <= k < |kept|
      ensures && 0 <= kept[k] < |settled| && WrittenAt(c)[k] == c.sub.taken[kept[k]]
              && settled[kept[k]] == c.sub.pushed[c.sub.taken[kept[k]]]
    {
      assert 0 <= kept[k] < |settled|;
    }
  }
}
