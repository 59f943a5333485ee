/** The asynchronous writer in front of a store (backend/internal/storage/async.go): two bounded
    queues, one loop that drains them into the inner store, and a shutdown by closed channels.

    `State` holds the channels and, for each goroutine, how far it is; the rest is history.  Close
    looks at the stop channel and closes it in two separate steps, as the code does. */
module AsyncWriter {

  type Item = string
  type Caller = nat

  datatype LoopAt = Selecting | WritingSnap(item: Item) | WritingEvent(item: Item) | Ended
  datatype CloserAt = Signalling | Waiting | Returned

  /** One queue: what waits in it, and in order everything it accepted, handed to the inner store,
      and refused. */
  datatype Queue = Queue(waiting: seq<Item>, accepted: seq<Item>, written: seq<Item>, dropped: nat, offered: nat)

  datatype State = State(cap: nat, snaps: Queue, events: Queue, stop: bool, done: bool, loop: LoopAt,
                         closers: map<Caller, CloserAt>, innerClosed: nat, panicked: bool)

  datatype Action =
    | OfferSnap(item: Item)
    | OfferEvent(item: Item)
    | TakeSnap
    | TakeEvent
    | Write
    | SeeStop
    | CloseBegin(c: Caller)
    | CloseSignal(c: Caller)
    | CloseEnd(c: Caller)

  const EMPTY := Queue([], [], [], 0, 0)

  ghost function Init(cap: nat): State {
    State(cap, EMPTY, EMPTY, false, false, Selecting, map[], 0, false)
  }

  ghost function Offer(q: Queue, cap: nat, item: Item): Queue {
    if |q.waiting| < cap then q.(waiting := q.waiting + [item], accepted := q.accepted + [item], offered := q.offered + 1)
    else q.(dropped := q.dropped + 1, offered := q.offered + 1)
  }

  ghost function Pop(q: Queue): Queue
    requires q.waiting != []
  {
    q.(waiting := q.waiting[1..])
  }

  ghost function Wrote(q: Queue, item: Item): Queue { q.(written := q.written + [item]) }

  ghost predicate Enabled(s: State, a: Action) {
    !s.panicked &&
    match a
    case OfferSnap(_) => true
    case OfferEvent(_) => true
    case TakeSnap => s.loop.Selecting? && s.snaps.waiting != []
    case TakeEvent => s.loop.Selecting? && s.events.waiting != []
    case Write => s.loop.WritingSnap? || s.loop.WritingEvent?
    case SeeStop => s.loop.Selecting? && s.stop
    case CloseBegin(c) => c !in s.closers
    case CloseSignal(c) => c in s.closers && s.closers[c] == Signalling
    case CloseEnd(c) => c in s.closers && s.closers[c] == Waiting && s.done
  }

  ghost function Next(s: State, a: Action): State
    requires Enabled(s, a)
  {
    match a
    case OfferSnap(item) => s.(snaps := Offer(s.snaps, s.cap, item))
    case OfferEvent(item) => s.(events := Offer(s.events, s.cap, item))
    case TakeSnap => s.(snaps := Pop(s.snaps), loop := WritingSnap(s.snaps.waiting[0]))
    case TakeEvent => s.(events := Pop(s.events), loop := WritingEvent(s.events.waiting[0]))
    case Write =>
      if s.loop.WritingSnap? then s.(snaps := Wrote(s.snaps, s.loop.item), loop := Selecting)
      else s.(events := Wrote(s.events, s.loop.item), loop := Selecting)
    case SeeStop => s.(loop := Ended, done := true)
    case CloseBegin(c) => s.(closers := s.closers[c := if s.stop then Waiting else Signalling])
    case CloseSignal(c) =>
      if s.stop then s.(panicked := true)
      else s.(stop := true, closers := s.closers[c := Waiting])
    case CloseEnd(c) => s.(closers := s.closers[c := Returned], innerClosed := s.innerClosed + 1)
  }

  // ---------------------------------------------------------------- what every run keeps

  /** Items go out in the order they came in; `hand` is what the loop holds. */
  ghost predicate QueueOk(q: Queue, cap: nat, hand: seq<Item>) {
    && q.accepted == q.written + hand + q.waiting
    && q.offered == |q.accepted| + q.dropped
    && |q.waiting| <= cap
  }

  ghost function SnapInHand(s: State): seq<Item> { if s.loop.WritingSnap? then [s.loop.item] else [] }

  ghost function EventInHand(s: State): seq<Item> { if s.loop.WritingEvent? then [s.loop.item] else [] }

  ghost predicate Inv(s: State) {
    && QueueOk(s.snaps, s.cap, SnapInHand(s)) && QueueOk(s.events, s.cap, EventInHand(s))
    && (s.done <==> s.loop.Ended?)
    && (s.done ==> s.stop)
    && (forall c :: c in s.closers && s.closers[c] == Returned ==> s.done)
    && (s.innerClosed > 0 ==> s.done)
  }

  lemma QueueStep(q: Queue, cap: nat, hand: seq<Item>, item: Item)
    requires QueueOk(q, cap, hand)
    ensures QueueOk(Offer(q, cap, item), cap, hand)
    ensures hand == [] && q.waiting != [] ==> QueueOk(Pop(q), cap, [q.waiting[0]])
    ensures hand == [item] ==> QueueOk(Wrote(q, item), cap, [])
  {
    assert q.written + hand + (q.waiting + [item]) == q.written + hand + q.waiting + [item];
    if q.waiting != [] {
      assert q.written + [] + q.waiting == q.written + [q.waiting[0]] + q.waiting[1..];
    }
    assert q.written + [item] + [] + q.waiting == q.written + [item] + q.waiting;
  }

  lemma InvStep(s: State, a: Action)
    requires Inv(s) && Enabled(s, a)
    ensures Inv(Next(s, a))
  {
    hide QueueOk, Offer, Pop, Wrote;
    match a
    case OfferSnap(item) => QueueStep(s.snaps, s.cap, SnapInHand(s), item);
    case OfferEvent(item) => QueueStep(s.events, s.cap, EventInHand(s), item);
    case TakeSnap => QueueStep(s.snaps, s.cap, [], "");
    case TakeEvent => QueueStep(s.events, s.cap, [], "");
    case Write =>
      if s.loop.WritingSnap? { QueueStep(s.snaps, s.cap, [s.loop.item], s.loop.item); }
      else { QueueStep(s.events, s.cap, [s.loop.item], s.loop.item); }
    case _ =>
  }

  datatype Outcome = Impossible | Reached(s: State)

  ghost function After(cap: nat, run: seq<Action>): Outcome {
    if run == [] then Reached(Init(cap))
    else
      var before := After(cap, run[..|run| - 1]);
      if before.Reached? && Enabled(before.s, run[|run| - 1]) then Reached(Next(before.s, run[|run| - 1]))
      else Impossible
  }

  /** In every interleaving, for either queue: the accepted items are those written, the one in hand and
      those waiting, in that order; nothing offered is unaccounted for; and once a Close has returned or
      the inner store was closed, the loop is over. */
  lemma {:induction false} NothingLostNothingReordered(cap: nat, run: seq<Action>)
    requires After(cap, run).Reached?
    ensures Inv(After(cap, run).s)
  {
    if run != [] {
      hide Inv, Enabled, Next;
      NothingLostNothingReordered(cap, run[..|run| - 1]);
      InvStep(After(cap, run[..|run| - 1]).s, run[|run| - 1]);
    } else {
      FirstIsOk(cap);
    }
  }

  lemma FirstIsOk(cap: nat)
    ensures Inv(Init(cap))
  {
  }

  datatype Which = Snaps | Events

  ghost function QueueOf(s: State, w: Which): Queue { if w.Snaps? then s.snaps else s.events }

  ghost function InHand(s: State, w: Which): seq<Item> { if w.Snaps? then SnapInHand(s) else EventInHand(s) }

  ghost function OfferedTo(w: Which, a: Action): seq<Item> {
    if (w.Snaps? && a.OfferSnap?) || (w.Events? && a.OfferEvent?) then [a.item] else []
  }

  /** Fewer than `cap` items wait at this point of the run. */
  ghost predicate HasRoom(cap: nat, run: seq<Action>, w: Which) {
    After(cap, run).Reached? && |QueueOf(After(cap, run).s, w).waiting| < cap
  }

  /** What was offered while there was room, and how often something was offered while there was none. */
  ghost function Entered(cap: nat, run: seq<Action>, w: Which): seq<Item> {
    if run == [] then []
    else
      var (front, a) := (run[..|run| - 1], run[|run| - 1]);
      Entered(cap, front, w) + if HasRoom(cap, front, w) then OfferedTo(w, a) else []
  }

  ghost function TurnedAway(cap: nat, run: seq<Action>, w: Which): nat {
    if run == [] then 0
    else
      var (front, a) := (run[..|run| - 1], run[|run| - 1]);
      TurnedAway(cap, front, w) + if HasRoom(cap, front, w) then 0 else |OfferedTo(w, a)|
  }

  lemma OfferStep(s: State, a: Action, w: Which)
    requires Enabled(s, a)
    ensures var (q, q', room) := (QueueOf(s, w), QueueOf(Next(s, a), w), |QueueOf(s, w).waiting| < s.cap);
            && q'.accepted == (if room then q.accepted + OfferedTo(w, a) else q.accepted)
            && q'.dropped == (if room then q.dropped else q.dropped + |OfferedTo(w, a)|)
            && Next(s, a).cap == s.cap
  {
    assert QueueOf(s, w).accepted + [] == QueueOf(s, w).accepted;
  }

  lemma {:induction false} OffersAreCounted(cap: nat, run: seq<Action>, w: Which)
    requires After(cap, run).Reached?
    ensures var s := After(cap, run).s;
            s.cap == cap && QueueOf(s, w).accepted == Entered(cap, run, w)
            && QueueOf(s, w).dropped == TurnedAway(cap, run, w)
  {
    if run != [] {
      hide Enabled, Next, QueueOf, OfferedTo;
      OffersAreCounted(cap, run[..|run| - 1], w);
      OfferStep(After(cap, run[..|run| - 1]).s, run[|run| - 1], w);
    }
  }

  /** What is lost on the way to the inner store is what was offered to a full queue, and nothing else: the
      items offered while fewer than `cap` waited are those written, in hand and waiting, in that order. */
  lemma OnlyOverflowIsLost(cap: nat, run: seq<Action>, w: Which)
    requires After(cap, run).Reached?
    ensures var (s, q) := (After(cap, run).s, QueueOf(After(cap, run).s, w));
            && q.written + InHand(s, w) + q.waiting == Entered(cap, run, w)
            && q.dropped == TurnedAway(cap, run, w) && |q.waiting| <= cap
  {
    hide After, Entered, TurnedAway;
    NothingLostNothingReordered(cap, run);
    OffersAreCounted(cap, run, w);
  }

  /** After the inner store was closed, no run writes to it again: what was left in the queues is lost. */
  lemma {:induction false} NoWriteAfterClose(cap: nat, run: seq<Action>, more: seq<Action>)
    requires After(cap, run + more).Reached?
    ensures After(cap, run).Reached?
    ensures var (s, s') := (After(cap, run).s, After(cap, run + more).s);
            s.innerClosed > 0 ==> s'.loop == Ended && s'.snaps.written == s.snaps.written && s'.events.written == s.events.written
  {
    NothingLostNothingReordered(cap, run + more);
    if more == [] {
      assert run + more == run;
    } else {
      var front := run + more[..|more| - 1];
      assert (run + more)[..|run + more| - 1] == front;
      NoWriteAfterClose(cap, run, more[..|more| - 1]);
      EndedStays(After(cap, front).s, (run + more)[|run + more| - 1]);
    }
  }

  lemma EndedStays(s: State, a: Action)
    requires Enabled(s, a)
    ensures s.loop == Ended ==> Next(s, a).loop == Ended
    ensures s.loop == Ended ==> Next(s, a).snaps.written == s.snaps.written && Next(s, a).events.written == s.events.written
  {
  }

  // ---------------------------------------------------------------- calling Close more than once

  ghost function Signals(run: seq<Action>): nat {
    if run == [] then 0 else Signals(run[..|run| - 1]) + if run[|run| - 1].CloseSignal? then 1 else 0
  }

  /** The second closing of the stop channel is the one that is fatal in Go. */
  lemma {:induction false} SecondSignalPanics(cap: nat, run: seq<Action>)
    requires After(cap, run).Reached?
    ensures After(cap, run).s.panicked <==> Signals(run) >= 2
    ensures After(cap, run).s.stop <==> Signals(run) >= 1
  {
    if run != [] {
      SecondSignalPanics(cap, run[..|run| - 1]);
    }
  }

  /** Two calls, interleaved so. */
  lemma OverlappingClosesPanic(cap: nat)
    ensures var run := [CloseBegin(1), CloseBegin(2), CloseSignal(1), CloseSignal(2)];
            After(cap, run).Reached? && After(cap, run).s.panicked
  {
    hide After;
    assert After(cap, []) == Reached(Init(cap)) by { Nothing(cap); }
    OneMore(cap, [], CloseBegin(1));
    OneMore(cap, [CloseBegin(1)], CloseBegin(2));
    OneMore(cap, [CloseBegin(1), CloseBegin(2)], CloseSignal(1));
    OneMore(cap, [CloseBegin(1), CloseBegin(2), CloseSignal(1)], CloseSignal(2));
    assert [] + [CloseBegin(1)] == [CloseBegin(1)];
    assert [CloseBegin(1)] + [CloseBegin(2)] == [CloseBegin(1), CloseBegin(2)];
    assert [CloseBegin(1), CloseBegin(2)] + [CloseSignal(1)] == [CloseBegin(1), CloseBegin(2), CloseSignal(1)];
    assert [CloseBegin(1), CloseBegin(2), CloseSignal(1)] + [CloseSignal(2)]
           == [CloseBegin(1), CloseBegin(2), CloseSignal(1), CloseSignal(2)];
  }

  lemma Nothing(cap: nat)
    ensures After(cap, []) == Reached(Init(cap))
  {
  }

  lemma OneMore(cap: nat, run: seq<Action>, a: Action)
    ensures var before := After(cap, run);
            After(cap, run + [a]) ==
              if before.Reached? && Enabled(before.s, a) then Reached(Next(before.s, a)) else Impossible
  {
    assert (run + [a])[..|run|] == run;
  }

  /** No call of Close begins while another is between looking and closing. */
  ghost predicate OneAtATime(cap: nat, run: seq<Action>)
    requires After(cap, run).Reached?
  {
    run == [] ||
      (var (front, a) := (run[..|run| - 1], run[|run| - 1]);
       && OneAtATime(cap, front)
       && (a.CloseBegin? ==> forall c :: c in After(cap, front).s.closers ==> After(cap, front).s.closers[c] != Signalling))
  }

  lemma {:induction false} ClosesInTurnAreSafe(cap: nat, run: seq<Action>)
    requires After(cap, run).Reached? && OneAtATime(cap, run)
    ensures !After(cap, run).s.panicked && InTurn(After(cap, run).s)
  {
    if run != [] {
      hide Enabled, Next, InTurn;
      var (front, a) := (run[..|run| - 1], run[|run| - 1]);
      ClosesInTurnAreSafe(cap, front);
      StaysInTurn(After(cap, front).s, a);
    } else {
      assert InTurn(Init(cap));
    }
  }

  /** At most one call is about to close the channel, and none once it is closed. */
  ghost predicate InTurn(s: State) {
    && (s.stop ==> forall c :: c in s.closers ==> s.closers[c] != Signalling)
    && (forall c, d :: c in s.closers && d in s.closers && s.closers[c] == Signalling && s.closers[d] == Signalling ==> c == d)
  }

  lemma StaysInTurn(s: State, a: Action)
    requires Enabled(s, a) && InTurn(s) && !s.panicked
    requires a.CloseBegin? ==> forall c :: c in s.closers ==> s.closers[c] != Signalling
    ensures !Next(s, a).panicked && InTurn(Next(s, a))
  {
  }

  /** No further call of Close begins. */
  ghost predicate NoBegin(run: seq<Action>) { forall i :: 0 <= i < |run| ==> !run[i].CloseBegin? }

  /** Whatever the goroutines under way still do, without another call of Close, none of them panics. */
  ghost predicate OutOfDanger(cap: nat, run: seq<Action>) {
    forall more :: NoBegin(more) && After(cap, run + more).Reached? ==> !After(cap, run + more).s.panicked
  }

  lemma {:induction false} StillOneAtATime(cap: nat, run: seq<Action>, more: seq<Action>)
    requires After(cap, run + more).Reached? && NoBegin(more)
    ensures After(cap, run).Reached?
    ensures OneAtATime(cap, run) ==> OneAtATime(cap, run + more)
  {
    if more == [] {
      assert run + more == run;
    } else {
      hide Enabled, Next;
      var front := run + more[..|more| - 1];
      assert (run + more)[..|run + more| - 1] == front;
      StillOneAtATime(cap, run, more[..|more| - 1]);
    }
  }

  /** Calls that have overlapped never sort themselves out. */
  lemma {:induction false} OverlapStays(cap: nat, run: seq<Action>)
    requires After(cap, run).Reached? && !OneAtATime(cap, run)
    ensures After(cap, run).s.panicked || !InTurn(After(cap, run).s)
  {
    hide Next, InTurn;
    var (front, a) := (run[..|run| - 1], run[|run| - 1]);
    if OneAtATime(cap, front) {
      BeginOverlaps(After(cap, front).s, a);
    } else {
      OverlapStays(cap, front);
      NotInTurnStays(After(cap, front).s, a);
    }
  }

  lemma BeginOverlaps(s: State, a: Action)
    requires Enabled(s, a) && a.CloseBegin? && exists c :: c in s.closers && s.closers[c] == Signalling
    ensures !InTurn(Next(s, a))
  {
    var c :| c in s.closers && s.closers[c] == Signalling;
    assert c in Next(s, a).closers && Next(s, a).closers[c] == Signalling && a.c in Next(s, a).closers;
  }

  lemma NotInTurnStays(s: State, a: Action)
    requires Enabled(s, a) && !InTurn(s)
    ensures Next(s, a).panicked || !InTurn(Next(s, a))
  {
    var s' := Next(s, a);
    if s.stop {
      var c :| c in s.closers && s.closers[c] == Signalling;
      assert c in s'.closers;
    } else {
      var c, d :| c in s.closers && d in s.closers && s.closers[c] == Signalling && s.closers[d] == Signalling && c != d;
      assert c in s'.closers && d in s'.closers;
    }
  }

  /** From an overlap, letting the calls go on leads to the second closing. */
  lemma OverlapEndsBadly(cap: nat, run: seq<Action>) returns (more: seq<Action>)
    requires After(cap, run).Reached? && (After(cap, run).s.panicked || !InTurn(After(cap, run).s))
    ensures NoBegin(more) && After(cap, run + more).Reached? && After(cap, run + more).s.panicked
  {
    hide After;
    var s := After(cap, run).s;
    if s.panicked {
      more := [];
      assert run + more == run;
    } else if s.stop {
      var c :| c in s.closers && s.closers[c] == Signalling;
      more := [CloseSignal(c)];
      OneMore(cap, run, CloseSignal(c));
    } else {
      var c, d :| c in s.closers && d in s.closers && s.closers[c] == Signalling && s.closers[d] == Signalling && c != d;
      more := [CloseSignal(c), CloseSignal(d)];
      OneMore(cap, run, CloseSignal(c));
      OneMore(cap, run + [CloseSignal(c)], CloseSignal(d));
      assert run + more == run + [CloseSignal(c)] + [CloseSignal(d)];
    }
  }

  /** The stop channel can come to be closed twice, which is fatal in Go, exactly if some call of Close
      began while another was between looking at the channel and closing it. */
  lemma PanicsIff(cap: nat, run: seq<Action>)
    requires After(cap, run).Reached?
    ensures OneAtATime(cap, run) <==> OutOfDanger(cap, run)
  {
    hide After, OneAtATime, InTurn;
    if OneAtATime(cap, run) {
      forall more | NoBegin(more) && After(cap, run + more).Reached? ensures !After(cap, run + more).s.panicked {
        StillOneAtATime(cap, run, more);
        ClosesInTurnAreSafe(cap, run + more);
      }
    } else {
      OverlapStays(cap, run);
      var more := OverlapEndsBadly(cap, run);
    }
  }

  // ---------------------------------------------------------------- the writer itself

  class Async {
    const cap: nat
    var snaps: seq<Item>
    var events: seq<Item>
    var stop: bool
    var done: bool
    var innerSnaps: seq<Item>
    var innerEvents: seq<Item>
    var innerClosed: nat

    /** Where the loop is, how far each call of Close is, and whether one has brought the program down. */
    var loop: LoopAt
    var closers: map<Caller, CloserAt>
    var panicked: bool

    ghost var run: seq<Action>
    ghost var model: State

    /** The fields are what the run so far leaves. */
    ghost predicate Valid()
      reads this
    {
      && After(cap, run) == Reached(model) && model.cap == cap
      && loop == model.loop && closers == model.closers && panicked == model.panicked && (done <==> loop == Ended)
      && snaps == model.snaps.waiting && events == model.events.waiting && stop == model.stop && done == model.done
      && innerSnaps == model.snaps.written && innerEvents == model.events.written && innerClosed == model.innerClosed
    }

    constructor (queue: int)
      ensures Valid() && !panicked && run == [] && loop == Selecting && cap == if queue <= 0 then 256 else queue
    {
      cap := if queue <= 0 then 256 else queue;
      snaps, events, stop, done := [], [], false, false;
      innerSnaps, innerEvents, innerClosed, loop, closers, panicked := [], [], 0, Selecting, map[], false;
      run, model := [], Init(if queue <= 0 then 256 else queue);
    }

    ghost method Did(a: Action)
      requires After(cap, run) == Reached(model) && Enabled(model, a)
      modifies this`run, this`model
      ensures After(cap, run) == Reached(model) && run == old(run) + [a] && model == Next(old(model), a)
    {
      OneMore(cap, run, a);
      run, model := run + [a], Next(model, a);
    }

    method RecordSnapshot(item: Item)
      requires Valid() && !panicked
      modifies this`snaps, this`run, this`model
      ensures Valid() && run == old(run) + [OfferSnap(item)]
      ensures snaps == if |old(snaps)| < cap then old(snaps) + [item] else old(snaps)
      ensures loop == old(loop) && closers == old(closers) && !panicked
    {
      hide After;
      if |snaps| < cap {
        snaps := snaps + [item];
      }
      Did(OfferSnap(item));
    }

    method RecordEvent(item: Item)
      requires Valid() && !panicked
      modifies this`events, this`run, this`model
      ensures Valid() && run == old(run) + [OfferEvent(item)]
      ensures events == if |old(events)| < cap then old(events) + [item] else old(events)
      ensures loop == old(loop) && closers == old(closers) && !panicked
    {
      hide After;
      if |events| < cap {
        events := events + [item];
      }
      Did(OfferEvent(item));
    }

    /** What other goroutines offer while the loop is busy. */
    method Others()
      requires Valid() && !panicked
      modifies this
      ensures Valid() && old(run) <= run && loop == old(loop) && done == old(done) && stop == old(stop)
      ensures innerSnaps == old(innerSnaps) && innerEvents == old(innerEvents)
      ensures innerClosed == old(innerClosed) && closers == old(closers) && !panicked
    {
      var n: nat := *;
      while n > 0
        invariant Valid() && old(run) <= run && loop == old(loop) && done == old(done) && stop == old(stop)
        invariant innerSnaps == old(innerSnaps) && innerEvents == old(innerEvents)
        invariant innerClosed == old(innerClosed) && closers == old(closers) && !panicked
      {
        var item: Item := *;
        if * { RecordSnapshot(item); } else { RecordEvent(item); }
        n := n - 1;
      }
    }

    /** case snap := <-a.snaps */
    method PickSnap()
      requires Valid() && !panicked && loop == Selecting && snaps != []
      modifies this`snaps, this`loop, this`run, this`model
      ensures Valid() && run == old(run) + [TakeSnap] && loop == WritingSnap(old(snaps)[0])
    {
      hide After;
      loop := WritingSnap(snaps[0]);
      snaps := snaps[1..];
      Did(TakeSnap);
    }

    /** case e := <-a.evts */
    method PickEvent()
      requires Valid() && !panicked && loop == Selecting && events != []
      modifies this`events, this`loop, this`run, this`model
      ensures Valid() && run == old(run) + [TakeEvent] && loop == WritingEvent(old(events)[0])
    {
      hide After;
      loop := WritingEvent(events[0]);
      events := events[1..];
      Did(TakeEvent);
    }

    /** The inner store has taken what the loop holds. */
    method FinishWrite()
      requires Valid() && !panicked && (loop.WritingSnap? || loop.WritingEvent?)
      modifies this`innerSnaps, this`innerEvents, this`loop, this`run, this`model
      ensures Valid() && run == old(run) + [Write] && loop == Selecting
      ensures innerSnaps == old(innerSnaps) + if old(loop).WritingSnap? then [old(loop).item] else []
      ensures innerEvents == old(innerEvents) + if old(loop).WritingEvent? then [old(loop).item] else []
    {
      hide After;
      if loop.WritingSnap? {
        innerSnaps := innerSnaps + [loop.item];
      } else {
        innerEvents := innerEvents + [loop.item];
      }
      loop := Selecting;
      Did(Write);
    }

    /** case <-a.stop, and the deferred close(a.done) */
    method End()
      requires Valid() && !panicked && loop == Selecting && stop
      modifies this`loop, this`done, this`run, this`model
      ensures Valid() && run == old(run) + [SeeStop] && loop == Ended && done
    {
      hide After;
      loop, done := Ended, true;
      Did(SeeStop);
    }

    /** Handing one snapshot over, while others offer more. */
    method WriteSnap()
      requires Valid() && !panicked && loop == Selecting && snaps != []
      modifies this
      ensures Valid() && !panicked && old(run) <= run && loop == Selecting && !done
      ensures stop == old(stop) && innerClosed == old(innerClosed) && closers == old(closers)
      ensures innerSnaps == old(innerSnaps) + [old(snaps)[0]] && innerEvents == old(innerEvents)
    {
      hide After, Next, Enabled;
      PickSnap();
      Others();
      FinishWrite();
    }

    method WriteEvent()
      requires Valid() && !panicked && loop == Selecting && events != []
      modifies this
      ensures Valid() && !panicked && old(run) <= run && loop == Selecting && !done
      ensures stop == old(stop) && innerClosed == old(innerClosed) && closers == old(closers)
      ensures innerEvents == old(innerEvents) + [old(events)[0]] && innerSnaps == old(innerSnaps)
    {
      hide After, Next, Enabled;
      PickEvent();
      Others();
      FinishWrite();
    }

    /** One turn of the loop; which ready case the select takes is up to the caller. */
    method Turn(seesStop: bool, preferSnap: bool) returns (ended: bool)
      requires Valid() && !panicked && loop == Selecting
      modifies this
      ensures Valid() && old(run) <= run && ended == done && (ended ==> stop)
      ensures loop == if ended then Ended else Selecting
      ensures seesStop && stop ==> ended
      ensures !seesStop ==> !ended
      ensures stop == old(stop) && innerClosed == old(innerClosed) && closers == old(closers) && !panicked
      ensures var fromSnaps := !ended && old(snaps) != [] && (preferSnap || old(events) == []);
              && innerSnaps == old(innerSnaps) + (if fromSnaps then [old(snaps)[0]] else [])
              && innerEvents == old(innerEvents)
                 + if !ended && !fromSnaps && old(events) != [] then [old(events)[0]] else []
    {
      hide After;
      ended := false;
      if stop && seesStop {
        End();
        return true;
      }
      if snaps != [] && (preferSnap || events == []) {
        WriteSnap();
      } else if events != [] {
        WriteEvent();
      }
    }

    /** The select at the top of Close: is the stop channel still open? */
    method Look(c: Caller) returns (open: bool)
      requires Valid() && !panicked && c !in closers
      modifies this`closers, this`run, this`model
      ensures Valid() && run == old(run) + [CloseBegin(c)] && loop == old(loop)
      ensures open == !stop && closers == old(closers)[c := if open then Signalling else Waiting]
    {
      hide After;
      open := !stop;
      closers := closers[c := if open then Signalling else Waiting];
      Did(CloseBegin(c));
    }

    /** close(a.stop) */
    method Signal(c: Caller)
      requires Valid() && !panicked && c in closers && closers[c] == Signalling
      modifies this`closers, this`stop, this`panicked, this`run, this`model
      ensures Valid() && run == old(run) + [CloseSignal(c)] && loop == old(loop)
      ensures stop && panicked == old(stop)
      ensures closers == if panicked then old(closers) else old(closers)[c := Waiting]
    {
      hide After;
      if stop {
        panicked := true;
      } else {
        stop := true;
        closers := closers[c := Waiting];
      }
      Did(CloseSignal(c));
    }

    /** return a.inner.Close() */
    method Return(c: Caller)
      requires Valid() && !panicked && c in closers && closers[c] == Waiting && done
      modifies this`closers, this`innerClosed, this`run, this`model
      ensures Valid() && run == old(run) + [CloseEnd(c)] && loop == old(loop)
      ensures innerClosed == old(innerClosed) + 1 && closers == old(closers)[c := Returned]
    {
      hide After;
      innerClosed := innerClosed + 1;
      closers := closers[c := Returned];
      Did(CloseEnd(c));
    }

    /** What everyone else does while a call of Close is between two steps: the loop goes on, producers offer,
        other calls of Close act. */
    method Meanwhile(c: Caller)
      requires Valid() && !panicked && c in closers
      modifies this
      ensures Valid() && old(run) <= run && (old(done) ==> done)
      ensures (old(stop) ==> stop) && innerClosed >= old(innerClosed)
      ensures c in closers && closers[c] == old(closers)[c]
    {
      var n: nat := *;
      while n > 0 && !panicked
        invariant Valid() && old(run) <= run && (old(done) ==> done)
        invariant (old(stop) ==> stop) && innerClosed >= old(innerClosed)
        invariant c in closers && closers[c] == old(closers)[c]
      {
        if * { LoopStep(); } else { CloserStep(c); }
        n := n - 1;
      }
    }

    method LoopStep()
      requires Valid() && !panicked
      modifies this
      ensures Valid() && !panicked && old(run) <= run && (old(done) ==> done)
      ensures stop == old(stop) && innerClosed == old(innerClosed) && closers == old(closers)
    {
      hide After, Next, Enabled;
      if
      case true => Others();
      case loop == Selecting && snaps != [] => PickSnap();
      case loop == Selecting && events != [] => PickEvent();
      case loop.WritingSnap? || loop.WritingEvent? => FinishWrite();
      case loop == Selecting && stop => End();
    }

    method CloserStep(c: Caller)
      requires Valid() && !panicked && c in closers
      modifies this
      ensures Valid() && old(run) <= run && done == old(done)
      ensures (old(stop) ==> stop) && innerClosed >= old(innerClosed)
      ensures c in closers && closers[c] == old(closers)[c]
    {
      hide After, Next, Enabled;
      var d: Caller := *;
      if d !in closers {
        var open := Look(d);
      } else if d != c && closers[d] == Signalling {
        Signal(d);
      } else if d != c && closers[d] == Waiting && done {
        Return(d);
      }
    }

    /** One call of Close among others, wherever the loop is.  Unless calls overlap between looking at the stop
        channel and closing it, it returns with the loop ended and the inner store closed. */
    method Close(c: Caller)
      requires Valid() && !panicked && c !in closers
      modifies this
      ensures Valid() && old(run) <= run
      ensures panicked ==> !OneAtATime(cap, run)
      ensures !panicked ==> done && loop == Ended && innerClosed > old(innerClosed)
      ensures !panicked ==> c in closers && closers[c] == Returned
    {
      var open := Look(c);
      Meanwhile(c);
      if open && !panicked {
        Signal(c);
      }
      if !panicked {
        Await(c);
      }
      if panicked {
        SafeUnlessOverlapping();
        return;
      }
      Return(c);
    }

    lemma SafeUnlessOverlapping()
      requires Valid() && panicked
      ensures After(cap, run).Reached? && !OneAtATime(cap, run)
    {
      if OneAtATime(cap, run) {
        ClosesInTurnAreSafe(cap, run);
        assert false;
      }
    }

    /** <-a.done: the loop writes on for as long as its select does not pick the stop channel. */
    method Await(c: Caller)
      requires Valid() && !panicked && stop && c in closers && closers[c] == Waiting
      modifies this
      ensures Valid() && old(run) <= run && innerClosed >= old(innerClosed)
      ensures c in closers && closers[c] == Waiting
      ensures panicked || (done && loop == Ended)
    {
      Meanwhile(c);
      if panicked {
        return;
      }
      if loop.WritingSnap? || loop.WritingEvent? {
        FinishWrite();
      }
      if loop == Selecting {
        End();
      }
    }
  }
}
