/**
 The dispatcher that fans events out to the subscribed queues, and the stream loop that
 empties one of them into a client's connection.
 */
module CallbackDispatch {
  import opened CallbackQueue
  import opened StreamClient
  import opened StreamTurns

  /** The queue after the same event has been pushed `n` times. */
  function PushedTimes(queue: seq<Event>, depth: nat, e: Event, n: nat): seq<Event>
    requires depth >= 1
  {
    if n == 0 then queue else Pushed(PushedTimes(queue, depth, e, n - 1), depth, e)
  }

  lemma CountOneMore<T>(subs: seq<T>, i: nat)
    requires i < |subs|
    ensures forall s :: multiset(subs[..i + 1])[s] == multiset(subs[..i])[s] + if s == subs[i] then 1 else 0
  {
    assert subs[..i + 1] == subs[..i] + [subs[i]];
  }

  /** The queue that was `was` has been given the event once for each of its places among the first `i`. */
  ghost predicate Fed(was: seq<Event>, s: CallbackSubscription, e: Event, subs: seq<CallbackSubscription>, i: nat)
    requires s.maxDepth >= 1 && i <= |subs|
    reads s
  {
    s.queue == PushedTimes(was, s.maxDepth, e, multiset(subs[..i])[s])
  }

  class CallbackDispatcher {
    var subscriptions: seq<CallbackSubscription>

    ghost predicate Valid()
      reads this, subscriptions
    {
      forall s :: s in subscriptions ==> s.Valid()
    }

    constructor ()
      ensures Valid() && subscriptions == []
    {
      subscriptions := [];
    }

    /** Each subscribed queue gets the event, as often as it is subscribed; no other queue changes. */
    method Broadcast(e: Event)
      requires Valid()
      modifies subscriptions
      ensures Valid()
      ensures forall s :: s in subscriptions ==>
                s.queue == PushedTimes(old(s.queue), s.maxDepth, e, multiset(subscriptions)[s])
    {
      for i := 0 to |subscriptions|
        invariant Valid()
        invariant forall s :: s in subscriptions ==> Fed(old(s.queue), s, e, subscriptions, i)
      {
        CountOneMore(subscriptions, i);
        subscriptions[i].Push(e);
      }
      assert subscriptions[..|subscriptions|] == subscriptions;
    }

    method Subscribe(sub: CallbackSubscription)
      requires Valid() && sub.Valid()
      modifies this`subscriptions
      ensures Valid() && subscriptions == old(subscriptions) + [sub]
    {
      subscriptions := subscriptions + [sub];
    }

    method Unsubscribe(sub: CallbackSubscription)
      requires Valid()
      modifies this`subscriptions
      ensures Valid()
      ensures subscriptions == Without(old(subscriptions), sub)
    {
      var kept: seq<CallbackSubscription> := [];
      for i := 0 to |subscriptions|
        invariant subscriptions == old(subscriptions)
        invariant kept == Without(subscriptions[..i], sub)
        invariant forall s :: s in kept ==> s in subscriptions
      {
        assert subscriptions[..i + 1][..i] == subscriptions[..i];
        if subscriptions[i] != sub {
          kept := kept + [subscriptions[i]];
        }
      }
      assert subscriptions[..|subscriptions|] == subscriptions;
      subscriptions := kept;
    }
  }

  /**
   The call's subscription is in the dispatcher once, next to those in `rest`; and the tally
   `call` has the queue, and has had every event in `heard`.
   */
  ghost predicate InStep(dispatcher: CallbackDispatcher, subscription: CallbackSubscription,
                         rest: seq<CallbackSubscription>, heard: seq<Event>, call: Client)
    reads dispatcher, dispatcher.subscriptions, subscription
  {
    && dispatcher.Valid() && multiset(dispatcher.subscriptions)[subscription] == 1
    && subscription in dispatcher.subscriptions && subscription.maxDepth == STREAM_DEPTH
    && Without(dispatcher.subscriptions, subscription) == rest
    && TallyInv(call, STREAM_DEPTH) && call.sub.queue == subscription.queue && call.sub.pushed == heard
  }

  /** The dispatcher has no subscriptions but this one and some of `others`, which are sound. */
  ghost predicate Enclosed(dispatcher: CallbackDispatcher, subscription: CallbackSubscription,
                           others: set<CallbackSubscription>)
    reads dispatcher, others
  {
    && subscription !in others && (forall s :: s in others ==> s.Valid())
    && forall s :: s in dispatcher.subscriptions ==> s == subscription || s in others
  }

  /** Another thread broadcasts an event. */
  method Hear(dispatcher: CallbackDispatcher, e: Event, subscription: CallbackSubscription,
              ghost rest: seq<CallbackSubscription>, ghost heard: seq<Event>, ghost call: Client)
    returns (ghost call': Client)
    requires InStep(dispatcher, subscription, rest, heard, call)
    modifies dispatcher.subscriptions
    ensures InStep(dispatcher, subscription, rest, heard + [e], call')
    ensures call' == OnPush(call, STREAM_DEPTH, e)
    ensures subscription.queue == Pushed(old(subscription.queue), STREAM_DEPTH, e)
  {
    assert PushedTimes(subscription.queue, STREAM_DEPTH, e, 0) == subscription.queue;
    PushKeepsTally(call, STREAM_DEPTH, e);
    call' := OnPush(call, STREAM_DEPTH, e);
    dispatcher.Broadcast(e);
  }

  /** Another call subscribes. */
  method Join(dispatcher: CallbackDispatcher, sub: CallbackSubscription, subscription: CallbackSubscription,
              ghost rest: seq<CallbackSubscription>, ghost heard: seq<Event>, ghost call: Client)
    requires InStep(dispatcher, subscription, rest, heard, call)
    requires sub.Valid() && sub != subscription
    modifies dispatcher
    ensures InStep(dispatcher, subscription, rest + [sub], heard, call)
    ensures dispatcher.subscriptions == old(dispatcher.subscriptions) + [sub]
  {
    WithoutAppended(dispatcher.subscriptions, subscription, sub);
    dispatcher.Subscribe(sub);
  }

  /** Another call unsubscribes. */
  method Leave(dispatcher: CallbackDispatcher, sub: CallbackSubscription, subscription: CallbackSubscription,
               ghost rest: seq<CallbackSubscription>, ghost heard: seq<Event>, ghost call: Client)
    requires InStep(dispatcher, subscription, rest, heard, call)
    requires sub != subscription
    modifies dispatcher
    ensures InStep(dispatcher, subscription, Without(rest, sub), heard, call)
    ensures forall s :: s in dispatcher.subscriptions ==> s in old(dispatcher.subscriptions)
  {
    WithoutOther(dispatcher.subscriptions, sub, subscription);
    dispatcher.Unsubscribe(sub);
    assert subscription in multiset(dispatcher.subscriptions);
  }

  /** One deed of another thread; the call's tally keeps up with its queue. */
  method Deal(dispatcher: CallbackDispatcher, deed: Deed, ghost others: set<CallbackSubscription>,
              subscription: CallbackSubscription,
              ghost rest: seq<CallbackSubscription>, ghost heard: seq<Event>, ghost call: Client)
    returns (ghost call': Client)
    requires InStep(dispatcher, subscription, rest, heard, call)
    requires (deed.Sends? || deed.sub in others) && Enclosed(dispatcher, subscription, others)
    modifies dispatcher, subscription, others
    ensures InStep(dispatcher, subscription, AfterDeed(rest, deed), heard + if deed.Sends? then [deed.e] else [], call')
    ensures Enclosed(dispatcher, subscription, others)
    ensures call' == call.(sub := call'.sub)
    ensures subscription.queue == if deed.Sends? then Pushed(old(subscription.queue), STREAM_DEPTH, deed.e)
                                  else old(subscription.queue)
  {
    call' := call;
    assert heard + [] == heard;
    match deed {
      case Sends(e) =>
        call' := Hear(dispatcher, e, subscription, rest, heard, call);
      case Joins(sub) =>
        Join(dispatcher, sub, subscription, rest, heard, call);
      case Leaves(sub) =>
        Leave(dispatcher, sub, subscription, rest, heard, call);
    }
  }

  /** What the other threads do during one wait. */
  method Interference(dispatcher: CallbackDispatcher, deeds: seq<Deed>, ghost others: set<CallbackSubscription>,
                      subscription: CallbackSubscription,
                      ghost rest: seq<CallbackSubscription>, ghost heard: seq<Event>, ghost call: Client)
    returns (ghost call': Client)
    requires InStep(dispatcher, subscription, rest, heard, call)
    requires Within(deeds, others) && Enclosed(dispatcher, subscription, others)
    modifies dispatcher, subscription, others
    ensures InStep(dispatcher, subscription, AfterDeeds(rest, deeds), heard + Sent(deeds), call')
    ensures Enclosed(dispatcher, subscription, others)
    ensures call' == call.(sub := call'.sub)
    ensures subscription.queue == Newest(old(subscription.queue) + Sent(deeds), STREAM_DEPTH)
  {
    call' := call;
    ghost var was := subscription.queue;
    assert was + Sent(deeds[..0]) == was && heard + Sent(deeds[..0]) == heard;
    for i := 0 to |deeds|
      invariant InStep(dispatcher, subscription, AfterDeeds(rest, deeds[..i]), heard + Sent(deeds[..i]), call')
      invariant Enclosed(dispatcher, subscription, others)
      invariant call' == call.(sub := call'.sub)
      invariant subscription.queue == Newest(was + Sent(deeds[..i]), STREAM_DEPTH)
    {
      OneMoreArrival(was, deeds, i);
      OneMoreDeed(rest, heard, deeds, i);
      call' := Deal(dispatcher, deeds[i], others, subscription,
                    AfterDeeds(rest, deeds[..i]), heard + Sent(deeds[..i]), call');
    }
    assert deeds[..|deeds|] == deeds;
  }

  /** The rest of a turn: pop, translate, write.  `ok` is false when the write failed. */
  method PopAndWrite(subscription: CallbackSubscription, writeOk: bool, written: seq<Message>, eventsWritten: nat,
                     ghost call: Client)
    returns (written': seq<Message>, eventsWritten': nat, ok: bool, ghost call': Client)
    requires subscription.Valid()
    requires TallyInv(call, STREAM_DEPTH) && call.phase.Looping? && call.sub.queue == subscription.queue
    requires written == call.tally.written && eventsWritten == call.tally.eventsWritten
    modifies subscription
    ensures subscription.Valid()
    ensures TallyInv(call', STREAM_DEPTH) && call'.sub.queue == subscription.queue
    ensures call'.phase == (if ok then Looping else Leaving) && call'.tally.failed == (if ok then 0 else 1)
    ensures call'.sub.pushed == call.sub.pushed
    ensures written' == call'.tally.written && eventsWritten' == call'.tally.eventsWritten
    ensures Served(old(subscription.queue), writeOk, written, subscription.queue, written', ok)
  {
    WaitKeepsTally(call, STREAM_DEPTH, writeOk);
    written', eventsWritten', ok, call' := written, eventsWritten, true, OnWait(call, STREAM_DEPTH, writeOk);
    var event := subscription.WaitAndPop();
    if event.None? {
      return;
    }
    var msg := ToMessage(event.value);
    if msg.None? {
      return;
    }
    if writeOk {
      written', eventsWritten' := written + [msg.value], eventsWritten + 1;
    } else {
      ok := false;
    }
  }

  /**
   The call after `n` turns: in step with the dispatcher, with the queue and the output that
   the turns make.  `ok` is whether no write has failed.
   */
  ghost predicate Streaming(dispatcher: CallbackDispatcher, subscription: CallbackSubscription,
                            others: set<CallbackSubscription>, turns: seq<Turn>, n: nat,
                            rest: seq<CallbackSubscription>, heard: seq<Event>,
                            written: seq<Message>, eventsWritten: nat, ok: bool, call: Client)
    reads dispatcher, dispatcher.subscriptions, subscription, others
  {
    && n <= |turns|
    && InStep(dispatcher, subscription, AfterTurns(rest, turns, n), heard + Arrivals(turns, n), call)
    && Enclosed(dispatcher, subscription, others)
    && Takes(turns, n, ok) && Follows(turns, n, subscription.queue, written)
    && call.phase == (if ok then Looping else Leaving) && call.tally.failed == (if ok then 0 else 1)
    && written == call.tally.written && eventsWritten == call.tally.eventsWritten
  }

  /** Turn number `n`: the wait, during which the other threads run, and what comes of it. */
  method TakeTurn(dispatcher: CallbackDispatcher, turns: seq<Turn>, n: nat, ghost others: set<CallbackSubscription>,
                  subscription: CallbackSubscription, written: seq<Message>, eventsWritten: nat,
                  ghost rest: seq<CallbackSubscription>, ghost heard: seq<Event>, ghost call: Client)
    returns (written': seq<Message>, eventsWritten': nat, ok: bool, ghost call': Client)
    requires n < |turns| && !turns[n].cancelled && Within(turns[n].deeds, others)
    requires Streaming(dispatcher, subscription, others, turns, n, rest, heard, written, eventsWritten, true, call)
    modifies dispatcher, subscription, others
    ensures Streaming(dispatcher, subscription, others, turns, n + 1, rest, heard, written', eventsWritten', ok, call')
  {
    call' := Interference(dispatcher, turns[n].deeds, others, subscription,
                          AfterTurns(rest, turns, n), heard + Arrivals(turns, n), call);
    OneMoreTurn(rest, heard, turns, n);
    written', eventsWritten', ok, call' := PopAndWrite(subscription, turns[n].writeOk, written, eventsWritten, call');
    ServedFollows(turns, n, written, subscription.queue, written', ok);
  }

  /** A call constructs its subscription and subscribes. */
  method Open(dispatcher: CallbackDispatcher)
    returns (subscription: CallbackSubscription, written: seq<Message>, eventsWritten: nat, ghost call: Client)
    requires dispatcher.Valid()
    modifies dispatcher
    ensures fresh(subscription) && dispatcher.subscriptions == old(dispatcher.subscriptions) + [subscription]
    ensures InStep(dispatcher, subscription, old(dispatcher.subscriptions), call.sub.pushed, call)
    ensures |call.sub.pushed| == 0 && call.phase.Looping? && call.tally.failed == 0
    ensures |subscription.queue| == 0 && |written| == 0
    ensures written == call.tally.written && eventsWritten == call.tally.eventsWritten
  {
    subscription := new CallbackSubscription(STREAM_DEPTH);
    WithoutAbsent(dispatcher.subscriptions, subscription);
    WithoutAppended(dispatcher.subscriptions, subscription, subscription);
    dispatcher.Subscribe(subscription);
    written, eventsWritten := [], 0;
    call := StartCall(subscription.queue, written, eventsWritten);
  }

  /** The loop of `callbackChannel`, which goes on until a write fails or the call is found cancelled. */
  method StreamLoop(dispatcher: CallbackDispatcher, turns: seq<Turn>, ghost others: set<CallbackSubscription>,
                    subscription: CallbackSubscription, none: seq<Message>, zero: nat,
                    ghost rest: seq<CallbackSubscription>, ghost heard: seq<Event>, ghost start: Client)
    returns (written: seq<Message>, eventsWritten: nat, seen: nat, ok: bool, ghost call: Client)
    requires Streaming(dispatcher, subscription, others, turns, 0, rest, heard, none, zero, true, start)
    requires forall i :: 0 <= i < |turns| ==> Within(turns[i].deeds, others)
    modifies dispatcher, subscription, others
    ensures Streaming(dispatcher, subscription, others, turns, seen, rest, heard, written, eventsWritten, ok, call)
    ensures ok && seen < |turns| ==> turns[seen].cancelled
  {
    written, eventsWritten, seen, ok, call := none, zero, 0, true, start;
    while ok && seen < |turns| && !turns[seen].cancelled
      invariant Streaming(dispatcher, subscription, others, turns, seen, rest, heard, written, eventsWritten, ok, call)
      decreases |turns| - seen
    {
      written, eventsWritten, ok, call :=
        TakeTurn(dispatcher, turns, seen, others, subscription, written, eventsWritten, rest, heard, call);
      seen := seen + 1;
    }
  }

  /**
   The body of `callbackChannel` when nothing in it throws.  `turns` is what the other
   threads do: a turn either finds the call cancelled, or they broadcast, subscribe and
   unsubscribe while the loop waits, and then a write may fail.  When the turns run out the
   client has cancelled.  `call` is the tally of the call and `seen` how many turns it took
   part in; `others` has the subscriptions of the calls that come and go.
   */
  method CallbackChannel(dispatcher: CallbackDispatcher, turns: seq<Turn>, ghost others: set<CallbackSubscription>)
    returns (written: seq<Message>, eventsWritten: nat, seen: nat, ghost call: Client)
    requires dispatcher.Valid()
    requires forall i :: 0 <= i < |turns| ==> Within(turns[i].deeds, others)
    requires forall s :: s in others ==> s.Valid()
    modifies dispatcher, dispatcher.subscriptions, others
    ensures dispatcher.Valid() && seen <= |turns|
    ensures dispatcher.subscriptions == AfterTurns(old(dispatcher.subscriptions), turns, seen)
    ensures written == call.tally.written && eventsWritten == |written|
    ensures TallyInv(call, STREAM_DEPTH) && call.phase.Returned?
    ensures call.sub.pushed == Arrivals(turns, seen)
    ensures WritesInOrder(Arrivals(turns, seen), WrittenAt(call), written)
    ensures Takes(turns, seen, call.tally.failed == 0) && Follows(turns, seen, call.sub.queue, written)
    ensures |call.sub.queue| == Backlog(turns, seen)
    ensures call.tally.failed == 0 && seen < |turns| ==> turns[seen].cancelled
    ensures forall i :: 0 <= i < seen ==> !turns[i].cancelled
  {
    ghost var before := dispatcher.subscriptions;
    var subscription, ok;
    subscription, written, eventsWritten, call := Open(dispatcher);
    ghost var heard, all := call.sub.pushed, others + (set s | s in before);
    assert heard + Arrivals(turns, 0) == heard;
    written, eventsWritten, seen, ok, call :=
      StreamLoop(dispatcher, turns, all, subscription, written, eventsWritten, before, heard, call);
    assert heard + Arrivals(turns, seen) == Arrivals(turns, seen);
    TakenAreNotCancelled(turns, seen, ok);
    BacklogByTheTurns(turns, seen);
    dispatcher.Unsubscribe(subscription);
    call := EndCall(call);
    OutputIsOrderedSelection(call, STREAM_DEPTH);
  }

  /** The tally of a call that has just subscribed. */
  lemma StartCall(queue: seq<Event>, written: seq<Message>, eventsWritten: nat) returns (call: Client)
    requires |queue| == 0 && |written| == 0 && eventsWritten == |written|
    ensures TallyInv(call, STREAM_DEPTH) && call.phase.Looping? && call.tally.failed == 0
    ensures call.sub.queue == queue && |call.sub.pushed| == 0
    ensures call.tally.written == written && call.tally.eventsWritten == eventsWritten
  {
    call := NEW_CLIENT;
    NewClientIsTallied(call, STREAM_DEPTH);
    LeavingKeepsTally(call, STREAM_DEPTH, Looping);
    call := call.(phase := Looping);
  }

  /** The tally of a call that leaves the loop, unsubscribes and returns. */
  lemma EndCall(call: Client) returns (ended: Client)
    requires TallyInv(call, STREAM_DEPTH) && (call.phase.Looping? || call.phase.Leaving?)
    ensures TallyInv(ended, STREAM_DEPTH) && ended == call.(phase := Returned)
  {
    ended := call;
    if call.phase.Looping? {
      LeavingKeepsTally(ended, STREAM_DEPTH, Leaving);
      ended := ended.(phase := Leaving);
    }
    LeavingKeepsTally(ended, STREAM_DEPTH, Unsubscribed);
    ended := ended.(phase := Unsubscribed);
    LeavingKeepsTally(ended, STREAM_DEPTH, Returned);
    ended := ended.(phase := Returned);
  }
}
