/**
 What the threads around one stream do to it, turn by turn, and what becomes of its events:
 said by the turns alone, without the queue's drop loop or the stream's own loop.
 */
module StreamTurns {
  import opened Basics
  import opened CallbackQueue
  import opened StreamClient

  /** The queue depth of every stream. */
  const STREAM_DEPTH: nat := 200

  /** `subs` with every occurrence of `sub` taken out. */
  function Without<T(==)>(subs: seq<T>, sub: T): seq<T> {
    if subs == [] then []
    else Without(subs[..|subs| - 1], sub) + if subs[|subs| - 1] == sub then [] else [subs[|subs| - 1]]
  }

  lemma WithoutAppended<T>(subs: seq<T>, sub: T, x: T)
    ensures Without(subs + [x], sub) == Without(subs, sub) + if x == sub then [] else [x]
  {
    assert (subs + [x])[..|subs|] == subs;
  }

  lemma {:induction false} WithoutAbsent<T>(subs: seq<T>, sub: T)
    requires sub !in subs
    ensures Without(subs, sub) == subs
  {
    if subs != [] {
      WithoutAbsent(subs[..|subs| - 1], sub);
    }
  }

  lemma {:induction false} WithoutCounts<T>(subs: seq<T>, sub: T, x: T)
    ensures multiset(Without(subs, sub))[x] == if x == sub then 0 else multiset(subs)[x]
  {
    if subs != [] {
      WithoutCounts(subs[..|subs| - 1], sub, x);
      assert subs == subs[..|subs| - 1] + [subs[|subs| - 1]];
    }
  }

  lemma {:induction false} WithoutCommutes<T>(subs: seq<T>, a: T, b: T)
    ensures Without(Without(subs, a), b) == Without(Without(subs, b), a)
  {
    if subs != [] {
      var init, last := subs[..|subs| - 1], subs[|subs| - 1];
      WithoutCommutes(init, a, b);
      assert Without(init, a) + [] == Without(init, a) && Without(init, b) + [] == Without(init, b);
      WithoutAppended(Without(init, a), b, last);
      WithoutAppended(Without(init, b), a, last);
      assert Without(Without(init, a), b) + [] == Without(Without(init, a), b);
    }
  }

  /** Taking out another subscription leaves this one where it is. */
  lemma WithoutOther<T>(subs: seq<T>, other: T, sub: T)
    requires other != sub
    ensures multiset(Without(subs, other))[sub] == multiset(subs)[sub]
    ensures Without(Without(subs, other), sub) == Without(Without(subs, sub), other)
    ensures forall x :: x in Without(subs, other) ==> x in subs
  {
    WithoutCounts(subs, other, sub);
    WithoutCommutes(subs, other, sub);
    forall x | x in Without(subs, other)
      ensures x in subs
    {
      WithoutCounts(subs, other, x);
      assert x in multiset(Without(subs, other));
    }
  }

  // ---------------------------------------------------------------- what the other threads do

  /** A thread broadcasts an event, or another call subscribes or unsubscribes. */
  datatype Deed = Sends(e: Event) | Joins(sub: CallbackSubscription) | Leaves(sub: CallbackSubscription)

  /** One turn of the stream loop, as the threads around it decide it. */
  datatype Turn = Turn(cancelled: bool, deeds: seq<Deed>, writeOk: bool)

  /** The events broadcast, in order. */
  function Sent(deeds: seq<Deed>): seq<Event> {
    if deeds == [] then []
    else Sent(deeds[..|deeds| - 1]) + if deeds[|deeds| - 1].Sends? then [deeds[|deeds| - 1].e] else []
  }

  function AfterDeed(subs: seq<CallbackSubscription>, deed: Deed): seq<CallbackSubscription> {
    match deed
    case Sends(_) => subs
    case Joins(sub) => subs + [sub]
    case Leaves(sub) => Without(subs, sub)
  }

  /** What a list of subscriptions has become. */
  function AfterDeeds(subs: seq<CallbackSubscription>, deeds: seq<Deed>): seq<CallbackSubscription> {
    if deeds == [] then subs
    else AfterDeed(AfterDeeds(subs, deeds[..|deeds| - 1]), deeds[|deeds| - 1])
  }

  /** Everything broadcast during the first `n` turns. */
  function Arrivals(turns: seq<Turn>, n: nat): seq<Event>
    requires n <= |turns|
  {
    if n == 0 then [] else Arrivals(turns, n - 1) + Sent(turns[n - 1].deeds)
  }

  /** What the first `n` turns have made of a list of subscriptions. */
  function AfterTurns(subs: seq<CallbackSubscription>, turns: seq<Turn>, n: nat): seq<CallbackSubscription>
    requires n <= |turns|
  {
    if n == 0 then subs else AfterDeeds(AfterTurns(subs, turns, n - 1), turns[n - 1].deeds)
  }

  /** The calls that come and go have their subscriptions in `others`. */
  ghost predicate Within(deeds: seq<Deed>, others: set<CallbackSubscription>) {
    forall i :: 0 <= i < |deeds| && !deeds[i].Sends? ==> deeds[i].sub in others
  }

  lemma OneMoreDeed(subs: seq<CallbackSubscription>, heard: seq<Event>, deeds: seq<Deed>, i: nat)
    requires i < |deeds|
    ensures heard + Sent(deeds[..i + 1]) == heard + Sent(deeds[..i]) + if deeds[i].Sends? then [deeds[i].e] else []
    ensures AfterDeeds(subs, deeds[..i + 1]) == AfterDeed(AfterDeeds(subs, deeds[..i]), deeds[i])
  {
    assert deeds[..i + 1][..i] == deeds[..i];
  }

  lemma OneMoreTurn(subs: seq<CallbackSubscription>, heard: seq<Event>, turns: seq<Turn>, n: nat)
    requires n < |turns|
    ensures AfterTurns(subs, turns, n + 1) == AfterDeeds(AfterTurns(subs, turns, n), turns[n].deeds)
    ensures heard + Arrivals(turns, n + 1) == heard + Arrivals(turns, n) + Sent(turns[n].deeds)
  {
  }

  // ---------------------------------------------------------------- what becomes of the events

  /** The last `depth` of the events, or all if there are not so many. */
  function Newest(es: seq<Event>, depth: nat): seq<Event> {
    if |es| <= depth then es else es[|es| - depth..]
  }

  lemma PushIsNewest(queue: seq<Event>, depth: nat, e: Event)
    requires depth >= 1 && |queue| <= depth
    ensures Pushed(queue, depth, e) == Newest(queue + [e], depth)
  {
  }

  lemma NewestOfNewest(es: seq<Event>, more: seq<Event>, depth: nat)
    ensures Newest(Newest(es, depth) + more, depth) == Newest(es + more, depth)
  {
  }

  /** What waits in the queue when the wait of turn `n` is over. */
  function AtWait(turns: seq<Turn>, n: nat): seq<Event>
    requires n < |turns|
    decreases n, 1
  {
    Newest(Left(turns, n) + Sent(turns[n].deeds), STREAM_DEPTH)
  }

  /** What the first `n` turns have left in the queue: each takes the oldest event, if there is one. */
  function Left(turns: seq<Turn>, n: nat): seq<Event>
    requires n <= |turns|
    decreases n, 0
  {
    if n == 0 then []
    else
      var waiting := AtWait(turns, n - 1);
      if waiting == [] then [] else waiting[1..]
  }

  /** The message due in turn `n`: of the oldest event waiting, unless that is not forwarded. */
  function Due(turns: seq<Turn>, n: nat): Option<Message>
    requires n < |turns|
  {
    if AtWait(turns, n) == [] then None else ToMessage(AtWait(turns, n)[0])
  }

  /** Turn `n` has a message to write and cannot. */
  predicate Fails(turns: seq<Turn>, n: nat)
    requires n < |turns|
  {
    Due(turns, n).Some? && !turns[n].writeOk
  }

  /** The first `n` turns neither find the call cancelled nor fail. */
  predicate GoesOn(turns: seq<Turn>, n: nat)
    requires n <= |turns|
  {
    n == 0 || (GoesOn(turns, n - 1) && !turns[n - 1].cancelled && !Fails(turns, n - 1))
  }

  /** The stream takes part in `n` turns: all of them go on or, if not `ok`, the last one fails. */
  predicate Takes(turns: seq<Turn>, n: nat, ok: bool) {
    && n <= |turns|
    && if ok then GoesOn(turns, n)
       else n > 0 && GoesOn(turns, n - 1) && !turns[n - 1].cancelled && Fails(turns, n - 1)
  }

  lemma TakenAreNotCancelled(turns: seq<Turn>, n: nat, ok: bool)
    requires Takes(turns, n, ok)
    ensures forall i :: 0 <= i < n ==> !turns[i].cancelled
  {
    AllGoOn(turns, if ok then n else n - 1);
  }

  lemma {:induction false} AllGoOn(turns: seq<Turn>, n: nat)
    requires n <= |turns| && GoesOn(turns, n)
    ensures forall i :: 0 <= i < n ==> !turns[i].cancelled
  {
    if n > 0 {
      AllGoOn(turns, n - 1);
    }
  }

  /** What the first `n` turns write. */
  function WrittenBy(turns: seq<Turn>, n: nat): seq<Message>
    requires n <= |turns|
  {
    if n == 0 then []
    else
      var due := Due(turns, n - 1);
      WrittenBy(turns, n - 1) + if due.Some? && turns[n - 1].writeOk then [due.value] else []
  }

  /** After `n` turns this is in the queue and this has been written. */
  predicate Follows(turns: seq<Turn>, n: nat, queue: seq<Event>, written: seq<Message>) {
    n <= |turns| && queue == Left(turns, n) && written == WrittenBy(turns, n)
  }

  /** What a turn makes of the queue it finds after its wait, and of what is written. */
  predicate Served(queue: seq<Event>, writeOk: bool, written: seq<Message>,
                   queue': seq<Event>, written': seq<Message>, ok: bool) {
    if queue == [] then
      queue' == [] && written' == written && ok
    else
      && queue' == queue[1..]
      && match ToMessage(queue[0])
         case None => written' == written && ok
         case Some(m) => ok == writeOk && written' == if writeOk then written + [m] else written
  }

  lemma ServedFollows(turns: seq<Turn>, n: nat, written: seq<Message>,
                      queue': seq<Event>, written': seq<Message>, ok: bool)
    requires n < |turns| && written == WrittenBy(turns, n)
    requires Served(AtWait(turns, n), turns[n].writeOk, written, queue', written', ok)
    ensures Follows(turns, n + 1, queue', written') && ok == !Fails(turns, n)
  {
    assert written + [] == written;
  }

  /** The queue while the deeds of a turn are done. */
  lemma OneMoreArrival(was: seq<Event>, deeds: seq<Deed>, i: nat)
    requires i < |deeds|
    ensures var before := Newest(was + Sent(deeds[..i]), STREAM_DEPTH);
      var after := Newest(was + Sent(deeds[..i + 1]), STREAM_DEPTH);
      after == if deeds[i].Sends? then Pushed(before, STREAM_DEPTH, deeds[i].e) else before
  {
    assert deeds[..i + 1][..i] == deeds[..i];
    var sofar := was + Sent(deeds[..i]);
    if deeds[i].Sends? {
      PushIsNewest(Newest(sofar, STREAM_DEPTH), STREAM_DEPTH, deeds[i].e);
      NewestOfNewest(sofar, [deeds[i].e], STREAM_DEPTH);
      assert was + (Sent(deeds[..i]) + [deeds[i].e]) == sofar + [deeds[i].e];
    } else {
      assert was + (Sent(deeds[..i]) + []) == sofar;
    }
  }

  /** How many events are waiting after `n` turns, by their numbers alone. */
  function Backlog(turns: seq<Turn>, n: nat): nat
    requires n <= |turns|
  {
    if n == 0 then 0
    else
      var waiting := Backlog(turns, n - 1) + |Sent(turns[n - 1].deeds)|;
      if waiting == 0 then 0 else if waiting > 200 then 199 else waiting - 1
  }

  /** Each turn adds its broadcasts, is cut to 200, and takes one away if there is one. */
  lemma {:induction false} BacklogByTheTurns(turns: seq<Turn>, n: nat)
    requires n <= |turns|
    ensures |Left(turns, n)| == Backlog(turns, n)
  {
    if n > 0 {
      BacklogByTheTurns(turns, n - 1);
    }
  }

  lemma {:induction false} MessagesConcat(es: seq<Event>, more: seq<Event>)
    ensures Messages(es + more) == Messages(es) + Messages(more)
  {
    if more == [] {
      assert es + more == es;
    } else {
      MessagesConcat(es, more[..|more| - 1]);
      assert (es + more)[..|es + more| - 1] == es + more[..|more| - 1];
    }
  }

  lemma MessagesOfFirst(es: seq<Event>)
    requires es != []
    ensures Messages(es) == (if ToMessage(es[0]).Some? then [ToMessage(es[0]).value] else []) + Messages(es[1..])
  {
    assert es == [es[0]] + es[1..];
    MessagesConcat([es[0]], es[1..]);
    assert [es[0]][..0] == [];
  }

  /** In none of the first `n` turns more than 200 events wait or a write fails. */
  predicate Calm(turns: seq<Turn>, n: nat)
    requires n <= |turns|
  {
    n == 0 || (Calm(turns, n - 1) && Backlog(turns, n - 1) + |Sent(turns[n - 1].deeds)| <= 200 && !Fails(turns, n - 1))
  }

  lemma TurnLosesNothing(turns: seq<Turn>, n: nat)
    requires n < |turns| && !Fails(turns, n)
    ensures WrittenBy(turns, n + 1) + Messages(Left(turns, n + 1)) == WrittenBy(turns, n) + Messages(AtWait(turns, n))
  {
    var waiting := AtWait(turns, n);
    if waiting == [] {
      assert WrittenBy(turns, n) + [] == WrittenBy(turns, n);
    } else {
      var first := if ToMessage(waiting[0]).Some? then [ToMessage(waiting[0]).value] else [];
      MessagesOfFirst(waiting);
      assert WrittenBy(turns, n + 1) == WrittenBy(turns, n) + first;
      var written, rest := WrittenBy(turns, n), Messages(waiting[1..]);
      assert written + first + rest == written + (first + rest);
    }
  }

  /**
   As long as there are never more than 200 events waiting and no write fails, nothing is
   missing: what is written and what is still to be written are the messages of everything
   broadcast.
   */
  lemma {:induction false} NothingIsMissing(turns: seq<Turn>, n: nat)
    requires n <= |turns| && Calm(turns, n)
    ensures WrittenBy(turns, n) + Messages(Left(turns, n)) == Messages(Arrivals(turns, n))
  {
    if n > 0 {
      NothingIsMissing(turns, n - 1);
      BacklogByTheTurns(turns, n - 1);
      TurnLosesNothing(turns, n - 1);
      var left, arrivals, sent := Left(turns, n - 1), Arrivals(turns, n - 1), Sent(turns[n - 1].deeds);
      MessagesConcat(left, sent);
      MessagesConcat(arrivals, sent);
      AppendedAlike(WrittenBy(turns, n - 1), Messages(left), Messages(arrivals), Messages(sent));
    }
  }

  lemma AppendedAlike<T>(a: seq<T>, b: seq<T>, whole: seq<T>, more: seq<T>)
    requires a + b == whole
    ensures a + (b + more) == whole + more
  {
  }

  /** With at most one broadcast a turn and every write succeeding, everything is written at once. */
  lemma {:induction false} PromptTurnsWriteEverything(turns: seq<Turn>, n: nat)
    requires n <= |turns|
    requires forall k :: 0 <= k < n ==> |Sent(turns[k].deeds)| <= 1 && turns[k].writeOk
    ensures Left(turns, n) == [] && WrittenBy(turns, n) == Messages(Arrivals(turns, n))
  {
    NoBacklog(turns, n);
    NothingIsMissing(turns, n);
    BacklogByTheTurns(turns, n);
    assert WrittenBy(turns, n) + [] == WrittenBy(turns, n);
  }

  lemma {:induction false} NoBacklog(turns: seq<Turn>, n: nat)
    requires n <= |turns|
    requires forall k :: 0 <= k < n ==> |Sent(turns[k].deeds)| <= 1 && turns[k].writeOk
    ensures Backlog(turns, n) == 0 && Calm(turns, n)
  {
    if n > 0 {
      NoBacklog(turns, n - 1);
    }
  }
}
