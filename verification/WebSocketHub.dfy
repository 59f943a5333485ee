/** The WebSocket hub (backend/internal/hub/hub.go) and the rule its callers follow
    (ServeWS in backend/internal/hub/client.go).

    `State` holds the hub's fields, the send channels of all clients it was ever handed, and a
    history: the arguments of all Broadcast calls, the messages the loop has taken from the
    queue, and what became of each client.  Delivering one message to all clients is not one
    step: other goroutines broadcast and drain channels between any two sends, so each turn of
    that loop is an action of its own.  Go's two fatal channel errors, closing a closed channel
    and sending on one, set `panicked`. */
module WebSocketHub {

  const QUEUE_CAP := 256
  const SEND_CAP := 64

  type Id = nat
  type Msg = string

  datatype Why = Unregistered | TooSlow(readThen: nat) | HubStopped
  datatype Fate = Rejected | Live | Gone(end: nat, why: Why)

  /** A client's send channel, and its history: what writePump has read from the channel, where in
      the log of processed broadcasts it joined, and what became of it.  `Gone.end` is a position in
      that log too. */
  datatype Client = Client(buf: seq<Msg>, closed: bool, joined: nat, read: seq<Msg>, fate: Fate)

  datatype Phase = Idle | Sending(msg: Msg, pending: set<Id>) | Closing | Stopped

  datatype State = State(
    max: nat, clients: set<Id>, known: map<Id, Client>, queue: seq<Msg>, count: nat, done: bool, panicked: bool,
    phase: Phase, calls: seq<Msg>, log: seq<Msg>, left: set<Id>)

  datatype Action =
    | Register(c: Id)
    | Unregister(c: Id)
    | Take
    | Deliver(c: Id)
    | EndSend
    | Shutdown
    | CloseOne(c: Id)
    | Finish
    | Publish(msg: Msg)
    | Receive(c: Id)

  // ---------------------------------------------------------------- one action, on values

  ghost function Init(max: nat): State {
    State(max, {}, map[], [], 0, false, false, Idle, [], [], {})
  }

  /** The loop only deals with clients it knows; StaysWellFormed shows that it always does. */
  ghost predicate WellFormed(s: State) {
    && s.clients <= s.known.Keys
    && (s.phase.Sending? ==> s.phase.pending <= s.clients && s.log != [])
  }

  /** ServeWS registers a fresh client once and unregisters it at most once afterwards; the loop
      takes up something new only when it is back at its select. */
  ghost predicate Enabled(s: State, a: Action) {
    WellFormed(s) &&
    match a
    case Register(c) => s.phase.Idle? && c !in s.known
    case Unregister(c) => s.phase.Idle? && c in s.known && c !in s.left
    case Take => s.phase.Idle? && s.queue != []
    case Deliver(c) => s.phase.Sending? && c in s.phase.pending
    case EndSend => s.phase.Sending? && s.phase.pending == {}
    case Shutdown => s.phase.Idle?
    case CloseOne(c) => s.phase.Closing? && c in s.clients
    case Finish => s.phase.Closing? && s.clients == {}
    case Publish(msg) => true
    case Receive(c) => c in s.known && s.known[c].buf != []
  }

  /** close(client.send) */
  ghost function Close(s: State, c: Id, fate: Fate): State
    requires c in s.known
  {
    if s.known[c].closed then s.(panicked := true)
    else s.(known := s.known[c := s.known[c].(closed := true, fate := fate)])
  }

  ghost function Drop(s: State, c: Id, fate: Fate): State
    requires c in s.known
  {
    if c !in s.clients then s
    else Close(s.(clients := s.clients - {c}, count := |s.clients - {c}|), c, fate)
  }

  /** select { case client.send <- msg: default: h.drop(client) } */
  ghost function Push(s: State, c: Id, msg: Msg): State
    requires c in s.known && s.log != []
  {
    var k := s.known[c];
    if k.closed then s.(panicked := true)
    else if |k.buf| < SEND_CAP then s.(known := s.known[c := k.(buf := k.buf + [msg])])
    else Drop(s, c, Gone(|s.log| - 1, TooSlow(|k.read|)))
  }

  ghost function Next(s: State, a: Action): State
    requires Enabled(s, a)
  {
    match a
    case Register(c) =>
      var s' := s.(known := s.known[c := Client([], false, |s.log|, [], Live)]);
      if |s.clients| >= s.max then Close(s', c, Rejected)
      else s'.(clients := s.clients + {c}, count := |s.clients + {c}|)
    case Unregister(c) => Drop(s.(left := s.left + {c}), c, Gone(|s.log|, Unregistered))
    case Take => s.(queue := s.queue[1..], log := s.log + [s.queue[0]], phase := Sending(s.queue[0], s.clients))
    case Deliver(c) => Push(s.(phase := Sending(s.phase.msg, s.phase.pending - {c})), c, s.phase.msg)
    case EndSend => s.(phase := Idle)
    case Shutdown => s.(phase := Closing)
    case CloseOne(c) => Close(s, c, Gone(|s.log|, HubStopped)).(clients := s.clients - {c})
    case Finish => s.(count := 0, done := true, phase := Stopped)
    case Publish(msg) =>
      s.(calls := s.calls + [msg], queue := if |s.queue| < QUEUE_CAP then s.queue + [msg] else s.queue)
    case Receive(c) =>
      var k := s.known[c];
      s.(known := s.known[c := k.(buf := k.buf[1..], read := k.read + [k.buf[0]])])
  }

  // ---------------------------------------------------------------- what every run keeps

  ghost predicate Subsequence(a: seq<Msg>, b: seq<Msg>) {
    if a == [] then true
    else if b == [] then false
    else
      var (a', b') := (a[..|a| - 1], b[..|b| - 1]);
      Subsequence(a, b') || (a[|a| - 1] == b[|b| - 1] && Subsequence(a', b'))
  }

  /** How much of the log a client has been sent. */
  ghost function SentUpTo(s: State, c: Id): int
    requires c in s.known
  {
    match s.known[c].fate
    case Gone(end, _) => end
    case Rejected => s.known[c].joined
    case Live => if s.phase.Sending? && c in s.phase.pending then |s.log| - 1 else |s.log|
  }

  ghost predicate ClientOk(s: State, c: Id)
    requires c in s.known
  {
    var k := s.known[c];
    && k.joined <= SentUpTo(s, c) <= |s.log|
    && k.read + k.buf == s.log[k.joined..SentUpTo(s, c)]
    && |k.buf| <= SEND_CAP
    && (k.closed <==> k.fate != Live)
    && (c in s.clients <==> k.fate == Live)
    && (k.fate.Gone? && k.fate.why.TooSlow? ==>
          k.fate.end < |s.log| && k.fate.end - k.joined - k.fate.why.readThen == SEND_CAP)
  }

  ghost predicate HubOk(s: State) {
    && WellFormed(s)
    && |s.clients| <= s.max
    && !s.panicked
    && (if s.phase.Closing? then |s.clients| <= s.count else s.count == |s.clients|)
    && (s.done <==> s.phase.Stopped?)
    && (s.phase.Stopped? ==> s.clients == {})
    && (s.phase.Sending? ==> s.log[|s.log| - 1] == s.phase.msg)
    && |s.queue| <= QUEUE_CAP
    && Subsequence(s.log + s.queue, s.calls)
  }

  ghost predicate Inv(s: State) {
    HubOk(s) && forall c :: c in s.known ==> ClientOk(s, c)
  }

  lemma SubsequenceGrows(a: seq<Msg>, b: seq<Msg>, m: Msg)
    requires Subsequence(a, b)
    ensures Subsequence(a, b + [m]) && Subsequence(a + [m], b + [m])
  {
    assert (b + [m])[..|b|] == b && (a + [m])[..|a|] == a;
  }

  /** Nothing that concerns client d differs, except that the log may have grown. */
  ghost predicate Same(s: State, s': State, d: Id)
    requires d in s.known
  {
    && d in s'.known && s'.known[d] == s.known[d]
    && (d in s'.clients <==> d in s.clients)
    && s.log <= s'.log && SentUpTo(s', d) == SentUpTo(s, d)
  }

  lemma Untouched(s: State, s': State, d: Id)
    requires d in s.known && ClientOk(s, d) && Same(s, s', d)
    ensures ClientOk(s', d)
  {
    var (from, to) := (s.known[d].joined, SentUpTo(s, d));
    assert s'.log[from..to] == s.log[from..to];
  }

  /** Every client but c is untouched, and c is fine. */
  lemma InvFrom(s: State, s': State, c: Id)
    requires Inv(s) && HubOk(s')
    requires forall d :: d in s'.known && d != c ==> d in s.known && Same(s, s', d)
    requires c in s'.known ==> ClientOk(s', c)
    ensures Inv(s')
  {
    hide ClientOk, Same, HubOk;
    forall d | d in s'.known ensures ClientOk(s', d) {
      if d != c {
        assert Same(s, s', d) && ClientOk(s, d);
        Untouched(s, s', d);
      }
    }
  }

  lemma InvFromAll(s: State, s': State)
    requires Inv(s) && HubOk(s')
    requires forall d :: d in s'.known ==> d in s.known && Same(s, s', d)
    ensures Inv(s')
  {
    hide ClientOk, Same, HubOk;
    forall d | d in s'.known ensures ClientOk(s', d) {
      assert Same(s, s', d) && ClientOk(s, d);
      Untouched(s, s', d);
    }
  }

  lemma RegisterKeeps(s: State, c: Id)
    requires Inv(s) && Enabled(s, Register(c))
    ensures Inv(Next(s, Register(c)))
  {
    hide Subsequence, ClientOk;
    var s' := Next(s, Register(c));
    RegisteredOk(s, c);
    assert |s.clients + {c}| == |s.clients| + 1;
    InvFrom(s, s', c);
  }

  lemma RegisteredOk(s: State, c: Id)
    requires HubOk(s) && Enabled(s, Register(c))
    ensures ClientOk(Next(s, Register(c)), c)
  {
    hide Subsequence;
    assert s.log[|s.log|..|s.log|] == [];
  }

  /** What dropping a client does, in a state that is fine but for that client's pending delivery. */
  lemma DropKeeps(s: State, s0: State, c: Id, fate: Fate)
    requires Inv(s) && c in s.known && Dropping(s, s0, c, fate)
    ensures Inv(Drop(s0, c, fate))
  {
    hide Subsequence, ClientOk;
    var s' := Drop(s0, c, fate);
    assert ClientOk(s, c);
    DroppedOk(s, s0, c, fate);
    assert forall d :: d in s'.known && d != c ==> d in s.known && Same(s, s', d);
    InvFrom(s, s', c);
  }

  ghost predicate Dropping(s: State, s0: State, c: Id, fate: Fate)
    requires c in s.known
  {
    && s0 == s.(left := s0.left, phase := s0.phase)
    && fate.Gone? && fate.end == SentUpTo(s, c)
    && (fate.why.TooSlow? ==>
          fate.end < |s.log| && fate.end - s.known[c].joined - fate.why.readThen == SEND_CAP)
    && s0.phase == match s.phase { case Sending(m, p) => Sending(m, p - {c}) case _ => s.phase }
    && !s.phase.Closing? && !s.phase.Stopped?
    && c in s.clients
  }

  lemma DroppedOk(s: State, s0: State, c: Id, fate: Fate)
    requires HubOk(s) && c in s.known && ClientOk(s, c) && Dropping(s, s0, c, fate)
    ensures ClientOk(Drop(s0, c, fate), c) && HubOk(Drop(s0, c, fate))
  {
    hide Subsequence;
  }

  lemma UnregisterKeeps(s: State, c: Id)
    requires Inv(s) && Enabled(s, Unregister(c))
    ensures Inv(Next(s, Unregister(c)))
  {
    hide Subsequence;
    assert ClientOk(s, c);
    var s0 := s.(left := s.left + {c});
    if c in s.clients {
      DropKeeps(s, s0, c, Gone(|s.log|, Unregistered));
    } else {
      assert Drop(s0, c, Gone(|s.log|, Unregistered)) == s0;
      InvFromAll(s, s0);
    }
  }

  lemma TakeKeeps(s: State)
    requires Inv(s) && Enabled(s, Take)
    ensures Inv(Next(s, Take))
  {
    var s' := Next(s, Take);
    assert s'.log + s'.queue == s.log + s.queue;
    forall d | d in s.known ensures Same(s, s', d) {
      assert ClientOk(s, d);
    }
    InvFromAll(s, s');
  }

  lemma DeliverKeeps(s: State, c: Id)
    requires Inv(s) && Enabled(s, Deliver(c))
    ensures Inv(Next(s, Deliver(c)))
  {
    hide Subsequence, Drop;
    var s' := Next(s, Deliver(c));
    assert ClientOk(s, c);
    var k := s.known[c];
    var s0 := s.(phase := Sending(s.phase.msg, s.phase.pending - {c}));
    if |k.buf| < SEND_CAP {
      assert s.log[k.joined..|s.log|] == s.log[k.joined..|s.log| - 1] + [s.phase.msg];
      assert k.read + (k.buf + [s.phase.msg]) == k.read + k.buf + [s.phase.msg];
      assert s'.known.Keys == s.known.Keys;
      InvFrom(s, s', c);
    } else {
      assert |s.log[k.joined..|s.log| - 1]| == |k.read| + SEND_CAP;
      DropKeeps(s, s0, c, Gone(|s.log| - 1, TooSlow(|k.read|)));
    }
  }

  lemma QuietKeeps(s: State, a: Action)
    requires Inv(s) && Enabled(s, a) && (a.EndSend? || a.Shutdown? || a.Finish?)
    ensures Inv(Next(s, a))
  {
    hide Subsequence;
    InvFromAll(s, Next(s, a));
  }

  lemma CloseOneKeeps(s: State, c: Id)
    requires Inv(s) && Enabled(s, CloseOne(c))
    ensures Inv(Next(s, CloseOne(c)))
  {
    hide Subsequence;
    var s' := Next(s, CloseOne(c));
    assert ClientOk(s, c);
    assert s'.known.Keys == s.known.Keys;
    InvFrom(s, s', c);
  }

  lemma PublishKeeps(s: State, msg: Msg)
    requires Inv(s)
    ensures Inv(Next(s, Publish(msg)))
  {
    var s' := Next(s, Publish(msg));
    SubsequenceGrows(s.log + s.queue, s.calls, msg);
    assert s.log + (s.queue + [msg]) == s.log + s.queue + [msg];
    InvFromAll(s, s');
  }

  lemma ReceiveKeeps(s: State, c: Id)
    requires Inv(s) && Enabled(s, Receive(c))
    ensures Inv(Next(s, Receive(c)))
  {
    hide Subsequence;
    var s' := Next(s, Receive(c));
    assert ClientOk(s, c);
    var k := s.known[c];
    assert k.read + [k.buf[0]] + k.buf[1..] == k.read + k.buf;
    assert s'.known.Keys == s.known.Keys;
    InvFrom(s, s', c);
  }

  lemma InvStep(s: State, a: Action)
    requires Inv(s) && Enabled(s, a)
    ensures Inv(Next(s, a))
  {
    hide Inv, Next, Enabled;
    match a
    case Register(c) => RegisterKeeps(s, c);
    case Unregister(c) => UnregisterKeeps(s, c);
    case Take => TakeKeeps(s);
    case Deliver(c) => DeliverKeeps(s, c);
    case CloseOne(c) => CloseOneKeeps(s, c);
    case Publish(msg) => PublishKeeps(s, msg);
    case Receive(c) => ReceiveKeeps(s, c);
    case _ => QuietKeeps(s, a);
  }

  // ---------------------------------------------------------------- whole runs

  lemma StaysWellFormed(s: State, a: Action)
    requires Enabled(s, a)
    ensures WellFormed(Next(s, a))
  {
  }

  datatype Outcome = Impossible | Reached(s: State)

  /** The state after a run, if every action was possible when it came. */
  ghost function After(max: nat, run: seq<Action>): Outcome
  {
    if run == [] then
      Reached(Init(max))
    else
      var before := After(max, run[..|run| - 1]);
      var a := run[|run| - 1];
      if before.Reached? && Enabled(before.s, a) then Reached(Next(before.s, a))
      else Impossible
  }

  lemma {:induction false} InvAlways(max: nat, run: seq<Action>)
    requires After(max, run).Reached?
    ensures Inv(After(max, run).s)
  {
    if run == [] {
      FirstIsOk(max);
    } else {
      hide Inv, Next, Enabled, WellFormed;
      InvAlways(max, run[..|run| - 1]);
      InvStep(After(max, run[..|run| - 1]).s, run[|run| - 1]);
    }
  }

  lemma FirstIsOk(max: nat)
    ensures Inv(Init(max))
  {
  }

  lemma OneMore(max: nat, run: seq<Action>, a: Action)
    ensures var before := After(max, run);
            After(max, run + [a]) ==
              if before.Reached? && Enabled(before.s, a) then Reached(Next(before.s, a)) else Impossible
  {
    assert (run + [a])[..|run|] == run;
  }

  /** In every reachable state: no channel was closed twice or sent on after closing, the hub holds at
      most `max` clients, their channels are open, nobody else's is, and the published count is exact
      whenever closeAll is not under way. */
  lemma RunsAreSafe(max: nat, run: seq<Action>)
    requires After(max, run).Reached?
    ensures var s := After(max, run).s;
            && !s.panicked
            && |s.clients| <= s.max
            && (forall c :: c in s.known ==> (s.known[c].closed <==> c !in s.clients))
            && (if s.phase.Closing? then |s.clients| <= s.count else s.count == |s.clients|)
            && Subsequence(s.log + s.queue, s.calls)
  {
    var s := After(max, run).s;
    InvAlways(max, run);
    assert forall c :: c in s.known ==> ClientOk(s, c);
  }

  /** Once the hub has stopped, every writePump it ever started sees a closed channel. */
  lemma StoppedHubLeaksNothing(max: nat, run: seq<Action>)
    requires After(max, run).Reached? && After(max, run).s.phase.Stopped?
    ensures var s := After(max, run).s;
            s.done && s.count == 0 && forall c :: c in s.known ==> s.known[c].closed && s.known[c].fate != Live
  {
    var s := After(max, run).s;
    InvAlways(max, run);
    assert forall c :: c in s.known ==> ClientOk(s, c);
  }

  /** What may still happen to a client: it reads on, but where it joined and how it left are fixed,
      and nothing enters a closed channel. */
  ghost predicate Onward(s: State, s': State, c: Id)
    requires c in s.known
  {
    && s.log <= s'.log && s.calls <= s'.calls && s'.max == s.max
    && c in s'.known
    && var (k, k') := (s.known[c], s'.known[c]);
       && k'.joined == k.joined && k.read <= k'.read
       && (k.fate != Live ==> k'.fate == k.fate && k'.read + k'.buf == k.read + k.buf)
       && (k.fate == Live ==> k'.fate != Rejected)
  }

  lemma LiveIff(s: State, c: Id)
    requires Inv(s) && c in s.known
    ensures c in s.clients <==> s.known[c].fate == Live
    ensures c in s.clients <==> !s.known[c].closed
  {
    assert ClientOk(s, c);
  }

  lemma ClientAfter(s: State, a: Action, c: Id)
    requires Inv(s) && Enabled(s, a) && c in s.known
    ensures c in Next(s, a).known
    ensures var (k, k') := (s.known[c], Next(s, a).known[c]);
            || k' == k
            || (k.buf != [] && k' == k.(buf := k.buf[1..], read := k.read + [k.buf[0]]))
            || (k.fate == Live && k' == k.(buf := k'.buf, closed := k'.closed, fate := k'.fate) && k'.fate != Rejected)
  {
    hide ClientOk, Subsequence;
    LiveIff(s, c);
  }

  lemma LogsAfter(s: State, a: Action)
    requires Inv(s) && Enabled(s, a)
    ensures var s' := Next(s, a); s.log <= s'.log && s.calls <= s'.calls && s'.max == s.max
  {
    hide Inv;
  }

  lemma OnwardStep(s: State, a: Action, c: Id)
    requires Inv(s) && Enabled(s, a) && c in s.known
    ensures Onward(s, Next(s, a), c)
  {
    hide Next, Inv, Enabled;
    ClientAfter(s, a, c);
    LogsAfter(s, a);
    var k := s.known[c];
    if k.buf != [] {
      assert k.read + [k.buf[0]] + k.buf[1..] == k.read + k.buf;
    }
  }

  lemma OnwardTwice(s: State, s': State, s'': State, c: Id)
    requires c in s.known && Onward(s, s', c) && Onward(s', s'', c)
    ensures Onward(s, s'', c)
  {
  }

  lemma {:induction false} OnwardRun(max: nat, run: seq<Action>, at: nat, c: Id)
    requires After(max, run).Reached? && at <= |run|
    ensures After(max, run[..at]).Reached?
    ensures c in After(max, run[..at]).s.known ==> Onward(After(max, run[..at]).s, After(max, run).s, c)
  {
    hide Onward, Next, Enabled, Inv;
    if at == |run| {
      assert run[..at] == run;
      if c in After(max, run).s.known {
        OnwardNow(After(max, run).s, c);
      }
    } else {
      var front, a := run[..|run| - 1], run[|run| - 1];
      assert front[..at] == run[..at] && run == front + [a];
      OnwardRun(max, front, at, c);
      OneMore(max, front, a);
      var past := After(max, run[..at]).s;
      if c in past.known {
        StillKnown(past, After(max, front).s, c);
        InvAlways(max, front);
        OnwardStep(After(max, front).s, a, c);
        OnwardTwice(past, After(max, front).s, After(max, run).s, c);
      }
    }
  }

  lemma OnwardNow(s: State, c: Id)
    requires c in s.known
    ensures Onward(s, s, c)
  {
  }

  lemma StillKnown(s: State, s': State, c: Id)
    requires c in s.known && Onward(s, s', c)
    ensures c in s'.known
  {
  }

  lemma RegisterOutcome(s: State, c: Id)
    requires Inv(s) && Enabled(s, Register(c))
    ensures var s' := Next(s, Register(c));
            && c in s'.known && s'.log == s.log
            && s'.known[c] == if |s.clients| >= s.max then Client([], true, |s.log|, [], Rejected)
                              else Client([], false, |s.log|, [], Live)
  {
  }

  /** A client the hub is handed while full gets a closed channel and never a message.  Any other
      client has been sent a contiguous slice of the processed broadcasts, beginning with the first one
      taken up after it joined in state s0: what it read, then what waits in its channel.  While it is
      registered the slice reaches the end of the log (or the message before the last-taken, if that
      one is still being handed round).  If it was dropped for being slow, the slice stops right before
      a message that found 64 messages unread. */
  ghost predicate Story(s0: State, s: State, c: Id) {
    && c in s.known
    && var k := s.known[c];
       if |s0.clients| >= s0.max then k.fate == Rejected && k.closed && k.read == [] && k.buf == []
       else
         && |s0.log| <= SentUpTo(s, c) <= |s.log|
         && k.read + k.buf == s.log[|s0.log|..SentUpTo(s, c)]
         && match k.fate {
              case Live => c in s.clients
              case Rejected => false
              case Gone(end, TooSlow(readThen)) => end < |s.log| && end == |s0.log| + readThen + 64
              case Gone(_, _) => c !in s.clients
            }
  }

  /** However the run goes on after a registration. */
  lemma ClientStory(max: nat, run: seq<Action>, at: nat, c: Id)
    requires After(max, run).Reached? && at < |run|
    ensures After(max, run[..at]).Reached?
    ensures run[at] == Register(c) ==> Story(After(max, run[..at]).s, After(max, run).s, c)
  {
    hide Next, Enabled, Inv, Onward, Story, WellFormed;
    OnwardRun(max, run, at, c);
    if run[at] == Register(c) {
      assert run[..at + 1] == run[..at] + [Register(c)];
      OnwardRun(max, run, at + 1, c);
      OneMore(max, run[..at], Register(c));
      InvAlways(max, run[..at]);
      InvAlways(max, run);
      RegisterOutcome(After(max, run[..at]).s, c);
      StoryUnfolds(After(max, run[..at]).s, After(max, run).s, c);
    }
  }

  lemma StoryUnfolds(s0: State, s: State, c: Id)
    requires Inv(s0) && Inv(s) && Enabled(s0, Register(c)) && Onward(Next(s0, Register(c)), s, c)
    ensures Story(s0, s, c)
  {
    hide Next;
    RegisterOutcome(s0, c);
    assert ClientOk(s, c);
  }

  // ---------------------------------------------------------------- what becomes of broadcasts and clients

  /** The broadcasts that found fewer than 256 waiting, in order. */
  ghost function Heard(max: nat, run: seq<Action>): seq<Msg> {
    if run == [] then []
    else
      var (front, a) := (run[..|run| - 1], run[|run| - 1]);
      var before := After(max, front);
      Heard(max, front) + if a.Publish? && before.Reached? && |before.s.queue| < 256 then [a.msg] else []
  }

  /** A broadcast is lost exactly if it finds 256 others waiting: all others are processed, or wait. */
  lemma {:induction false} OnlyOverflowIsLost(max: nat, run: seq<Action>)
    requires After(max, run).Reached?
    ensures var s := After(max, run).s; s.log + s.queue == Heard(max, run)
  {
    if run != [] {
      hide Next, Enabled;
      var (front, a) := (run[..|run| - 1], run[|run| - 1]);
      OnlyOverflowIsLost(max, front);
      QueueStep(After(max, front).s, a);
    }
  }

  lemma QueueStep(s: State, a: Action)
    requires Enabled(s, a)
    ensures var s' := Next(s, a);
            && s'.log + s'.queue == s.log + s.queue + (if a.Publish? && |s.queue| < 256 then [a.msg] else [])
            && s'.calls == s.calls + if a.Publish? then [a.msg] else []
  {
    if a.Take? {
      assert s.queue == [s.queue[0]] + s.queue[1..];
    } else if a.Publish? {
    } else {
      QueueUntouched(s, a);
    }
  }

  lemma QueueUntouched(s: State, a: Action)
    requires Enabled(s, a) && !a.Take? && !a.Publish?
    ensures var s' := Next(s, a); s'.log == s.log && s'.queue == s.queue && s'.calls == s.calls
  {
    match a
    case Deliver(c) => PushKeepsQueue(s.(phase := Sending(s.phase.msg, s.phase.pending - {c})), c, s.phase.msg);
    case Register(_) =>
    case Unregister(_) =>
    case _ =>
  }

  lemma PushKeepsQueue(s: State, c: Id, msg: Msg)
    requires c in s.known && s.log != []
    ensures var s' := Push(s, c, msg); s'.log == s.log && s'.queue == s.queue && s'.calls == s.calls
  {
  }

  ghost predicate NeverFull(max: nat, run: seq<Action>) {
    forall i :: 0 <= i < |run| && run[i].Publish? ==> After(max, run[..i]).Reached? && |After(max, run[..i]).s.queue| < 256
  }

  lemma {:induction false} NothingIsLostUnlessFull(max: nat, run: seq<Action>)
    requires After(max, run).Reached? && NeverFull(max, run)
    ensures var s := After(max, run).s; s.log + s.queue == s.calls
  {
    if run != [] {
      hide Next, Enabled;
      var (front, a) := (run[..|run| - 1], run[|run| - 1]);
      assert forall i :: 0 <= i < |front| ==> front[..i] == run[..i];
      NothingIsLostUnlessFull(max, front);
      QueueStep(After(max, front).s, a);
    }
  }

  /** A client is gone for the reason recorded, and gone for good once it has unregistered. */
  ghost predicate ReasonOk(s: State, c: Id)
    requires c in s.known
  {
    var fate := s.known[c].fate;
    && (c in s.left ==> fate != Live)
    && (fate.Gone? && fate.why == Unregistered ==> c in s.left)
    && (fate.Gone? && fate.why == HubStopped ==> s.phase.Closing? || s.phase.Stopped?)
  }

  lemma LeftIs(s: State, a: Action)
    requires Enabled(s, a)
    ensures if a.Unregister? then Next(s, a).left == s.left + {a.c} else Next(s, a).left == s.left
  {
  }

  lemma LeftStep(s: State, a: Action)
    requires Enabled(s, a) && s.left <= s.known.Keys
    ensures if a.Unregister? then Next(s, a).left == s.left + {a.c} else Next(s, a).left == s.left
    ensures Next(s, a).left <= Next(s, a).known.Keys
  {
    hide Next, WellFormed;
    LeftIs(s, a);
    KnownStays(s, a);
  }

  lemma KnownStays(s: State, a: Action)
    requires Enabled(s, a)
    ensures s.known.Keys <= Next(s, a).known.Keys
  {
  }

  lemma RegisterReason(s: State, a: Action, c: Id)
    requires Enabled(s, a) && a.Register? && s.left <= s.known.Keys && (c in s.known ==> ReasonOk(s, c))
    ensures c in Next(s, a).known ==> ReasonOk(Next(s, a), c)
  {
  }

  lemma UnregisterReason(s: State, a: Action, c: Id)
    requires Enabled(s, a) && a.Unregister? && (c in s.known ==> ReasonOk(s, c) && (c in s.clients <==> s.known[c].fate == Live))
    requires c in s.clients ==> c in s.known && !s.known[c].closed
    ensures c in Next(s, a).known ==> ReasonOk(Next(s, a), c)
  {
  }

  lemma DeliverReason(s: State, a: Action, c: Id)
    requires Enabled(s, a) && a.Deliver? && (c in s.known ==> ReasonOk(s, c))
    ensures c in Next(s, a).known ==> ReasonOk(Next(s, a), c)
  {
  }

  lemma OtherReason(s: State, a: Action, c: Id)
    requires Enabled(s, a) && !a.Register? && !a.Unregister? && !a.Deliver? && (c in s.known ==> ReasonOk(s, c))
    ensures c in Next(s, a).known ==> ReasonOk(Next(s, a), c)
  {
  }

  lemma ReasonStep(s: State, a: Action, c: Id)
    requires Inv(s) && Enabled(s, a) && s.left <= s.known.Keys
    requires c in s.known ==> ReasonOk(s, c)
    ensures c in Next(s, a).known ==> ReasonOk(Next(s, a), c)
  {
    hide Next, ReasonOk, ClientOk, Subsequence;
    if c in s.known { LiveIff(s, c); }
    match a
    case Register(_) => RegisterReason(s, a, c);
    case Unregister(_) => UnregisterReason(s, a, c);
    case Deliver(_) => DeliverReason(s, a, c);
    case _ => OtherReason(s, a, c);
  }

  lemma InSnoc(run: seq<Action>, a: Action)
    requires run != []
    ensures a in run <==> a in run[..|run| - 1] || a == run[|run| - 1]
  {
    assert run == run[..|run| - 1] + [run[|run| - 1]];
  }

  lemma {:induction false} LeftAndKnown(max: nat, run: seq<Action>, c: Id)
    requires After(max, run).Reached?
    ensures var s := After(max, run).s;
            && s.left <= s.known.Keys
            && (c in s.left <==> Unregister(c) in run)
            && (c in s.known <==> Register(c) in run)
  {
    if run != [] {
      hide Next, Enabled;
      var (front, a) := (run[..|run| - 1], run[|run| - 1]);
      LeftAndKnown(max, front, c);
      LeftStep(After(max, front).s, a);
      KnownIs(After(max, front).s, a);
      InSnoc(run, Register(c));
      InSnoc(run, Unregister(c));
    }
  }

  lemma KnownIs(s: State, a: Action)
    requires Enabled(s, a)
    ensures if a.Register? then Next(s, a).known.Keys == s.known.Keys + {a.c} else Next(s, a).known.Keys == s.known.Keys
  {
  }

  lemma {:induction false} ReasonsHold(max: nat, run: seq<Action>, c: Id)
    requires After(max, run).Reached?
    ensures c in After(max, run).s.known ==> ReasonOk(After(max, run).s, c)
  {
    if run != [] {
      hide Inv, Next, Enabled, ReasonOk;
      var (front, a) := (run[..|run| - 1], run[|run| - 1]);
      ReasonsHold(max, front, c);
      InvAlways(max, front);
      LeftAndKnown(max, front, c);
      ReasonStep(After(max, front).s, a, c);
    }
  }

  /** In every run: `left` are the clients that were unregistered, none of them is still served, and no other
      client counts as unregistered; nobody was let go for a shutdown before one. */
  lemma ReasonsAreReal(max: nat, run: seq<Action>, c: Id)
    requires After(max, run).Reached? && c in After(max, run).s.known
    ensures var (s, fate) := (After(max, run).s, After(max, run).s.known[c].fate);
            && (Unregister(c) in run ==> fate != Live)
            && (fate.Gone? && fate.why == Unregistered ==> Unregister(c) in run)
            && (fate.Gone? && fate.why == HubStopped ==> s.phase.Closing? || s.phase.Stopped?)
  {
    hide After;
    LeftAndKnown(max, run, c);
    ReasonsHold(max, run, c);
  }

  // ---------------------------------------------------------------- what the loop has received

  /** What the loop's select receives. */
  datatype Case = Cancelled | Registering(c: Id) | Unregistering(c: Id) | Message

  ghost function CaseOf(a: Action): seq<Case> {
    match a
    case Register(c) => [Registering(c)]
    case Unregister(c) => [Unregistering(c)]
    case Take => [Message]
    case Shutdown => [Cancelled]
    case _ => []
  }

  ghost function Handled(run: seq<Action>): seq<Case> {
    if run == [] then [] else Handled(run[..|run| - 1]) + CaseOf(run[|run| - 1])
  }

  lemma {:induction false} HandledAppend(run: seq<Action>, more: seq<Action>)
    ensures Handled(run + more) == Handled(run) + Handled(more)
  {
    hide CaseOf, Handled;
    if more == [] {
      assert run + more == run;
      assert Handled([]) == [] by { HandledNothing(); }
    } else {
      var (init, a) := (more[..|more| - 1], more[|more| - 1]);
      assert run + more == run + init + [a] && more == init + [a];
      HandledOne(run + init, a);
      HandledOne(init, a);
      HandledAppend(run, init);
    }
  }

  lemma {:induction false} NothingHandled(run: seq<Action>)
    requires forall a :: a in run ==> CaseOf(a) == []
    ensures Handled(run) == []
  {
    if run != [] {
      hide CaseOf;
      assert run[|run| - 1] in run && forall a :: a in run[..|run| - 1] ==> a in run;
      NothingHandled(run[..|run| - 1]);
    }
  }

  lemma {:induction false} HandledIff(run: seq<Action>, c: Id)
    ensures Registering(c) in Handled(run) <==> Register(c) in run
    ensures Unregistering(c) in Handled(run) <==> Unregister(c) in run
  {
    if run != [] {
      HandledIff(run[..|run| - 1], c);
      assert run == run[..|run| - 1] + [run[|run| - 1]];
    }
  }

  /** Everything heard so far is processed, or still waits: with an empty queue, all of it is processed. */
  lemma {:induction false} HeardGrows(max: nat, run: seq<Action>, more: seq<Action>)
    requires After(max, run + more).Reached?
    ensures After(max, run).Reached? && Heard(max, run) <= Heard(max, run + more)
    ensures After(max, run).s.log <= After(max, run + more).s.log
  {
    if more == [] {
      assert run + more == run;
    } else {
      hide Next, Enabled, Inv;
      var front := run + more[..|more| - 1];
      assert (run + more)[..|run + more| - 1] == front;
      HeardGrows(max, run, more[..|more| - 1]);
      InvAlways(max, front);
      LogsAfter(After(max, front).s, (run + more)[|run + more| - 1]);
    }
  }

  lemma HandledBroadcast(run: seq<Action>, turns: seq<Action>)
    requires forall a :: a in turns ==> CaseOf(a) == []
    ensures Handled(run + [Take] + turns + [EndSend]) == Handled(run) + [Message]
  {
    NothingHandled(turns);
    HandledAppend(run, [Take]);
    HandledAppend(run + [Take], turns);
    HandledAppend(run + [Take] + turns, [EndSend]);
    assert [Take][..0] == [] && [EndSend][..0] == [];
  }

  lemma HandledNothing()
    ensures Handled([]) == []
  {
  }

  lemma HandledOne(run: seq<Action>, a: Action)
    ensures Handled(run + [a]) == Handled(run) + CaseOf(a)
  {
    assert (run + [a])[..|run|] == run;
  }

  lemma HandledOthers(run: seq<Action>, did: seq<Action>)
    requires forall a :: a in did ==> a.Publish? || a.Receive?
    ensures Handled(run + did) == Handled(run)
  {
    NothingHandled(did);
    HandledAppend(run, did);
  }

  ghost function Messages(h: seq<Case>): nat {
    if h == [] then 0 else Messages(h[..|h| - 1]) + if h[|h| - 1] == Message then 1 else 0
  }

  lemma {:induction false} MessagesAppend(h: seq<Case>, more: seq<Case>)
    ensures Messages(h + more) == Messages(h) + Messages(more)
  {
    if more == [] {
      assert h + more == h;
    } else {
      assert (h + more)[..|h + more| - 1] == h + more[..|more| - 1];
      MessagesAppend(h, more[..|more| - 1]);
    }
  }

  lemma {:induction false} LogCounts(max: nat, run: seq<Action>)
    requires After(max, run).Reached?
    ensures |After(max, run).s.log| == Messages(Handled(run))
  {
    if run != [] {
      hide Next, Enabled;
      var (front, a) := (run[..|run| - 1], run[|run| - 1]);
      LogCounts(max, front);
      LogStep(After(max, front).s, a);
      MessagesAppend(Handled(front), CaseOf(a));
      MessagesOf(a);
    }
  }

  lemma MessagesOf(a: Action)
    ensures Messages(CaseOf(a)) == if a.Take? then 1 else 0
  {
    assert forall x: Case :: [x][..0] == [];
  }

  lemma LogStep(s: State, a: Action)
    requires Enabled(s, a)
    ensures |Next(s, a).log| == |s.log| + if a.Take? then 1 else 0
  {
  }

  /** After the cases h, with `heard` broadcasts heard before, this case cannot be received: its client was
      registered before, or is unknown or unregistered, or everything heard has been taken up. */
  ghost predicate CannotArise(h: seq<Case>, cs: Case, heard: nat) {
    match cs
    case Cancelled => false
    case Registering(c) => cs in h
    case Unregistering(c) => Registering(c) !in h || cs in h
    case Message => Messages(h) >= heard
  }

  lemma PassedOver(max: nat, run: seq<Action>, cs: Case, heard: nat)
    requires After(max, run).Reached? && heard <= |Heard(max, run)|
    requires var s := After(max, run).s;
             match cs {
               case Cancelled => false
               case Registering(c) => c in s.known
               case Unregistering(c) => c !in s.known || c in s.left
               case Message => s.queue == []
             }
    ensures CannotArise(Handled(run), cs, heard)
  {
    hide After, Heard, Handled, Messages;
    match cs
    case Registering(c) => HandledIff(run, c); LeftAndKnown(max, run, c);
    case Unregistering(c) => HandledIff(run, c); LeftAndKnown(max, run, c);
    case Message => LogCounts(max, run); OnlyOverflowIsLost(max, run);
    case _ =>
  }

  /** The cases of which `kept` says so. */
  ghost function Chosen(cases: seq<Case>, kept: seq<bool>): seq<Case>
    requires |cases| == |kept|
  {
    if cases == [] then []
    else Chosen(cases[..|cases| - 1], kept[..|kept| - 1]) + if kept[|kept| - 1] then [cases[|cases| - 1]] else []
  }

  lemma ChosenNext(cases: seq<Case>, i: nat, kept: seq<bool>, took: bool)
    requires i < |cases| && |kept| == i
    ensures Chosen(cases[..i + 1], kept + [took]) == Chosen(cases[..i], kept) + if took then [cases[i]] else []
  {
    assert cases[..i + 1][..i] == cases[..i] && (kept + [took])[..i] == kept;
  }

  // ---------------------------------------------------------------- the hub itself

  datatype Chan = Chan(buf: seq<Msg>, closed: bool)

  ghost function Chans(known: map<Id, Client>): map<Id, Chan> {
    map c | c in known :: Chan(known[c].buf, known[c].closed)
  }

  lemma ChansAfter(known: map<Id, Client>, c: Id, k: Client)
    ensures Chans(known[c := k]) == Chans(known)[c := Chan(k.buf, k.closed)]
  {
  }

  /** What a drop does to the fields. */
  lemma UnregisterMeans(s: State, c: Id)
    requires Enabled(s, Unregister(c))
    ensures var (s', sends) := (Next(s, Unregister(c)), Chans(s.known));
            && c in sends
            && s'.max == s.max && s'.queue == s.queue && s'.done == s.done && s'.phase == s.phase
            && s'.left == s.left + {c}
            && s'.clients == s.clients - {c} && s'.count == (if c in s.clients then |s'.clients| else s.count)
            && s'.panicked == (s.panicked || (c in s.clients && sends[c].closed))
            && Chans(s'.known) == if c !in s.clients || sends[c].closed then sends else sends[c := Chan(sends[c].buf, true)]
  {
    hide Chans;
    var k := s.known[c];
    ChansAt(s.known, c);
    ChansAfter(s.known, c, k.(closed := true, fate := Gone(|s.log|, Unregistered)));
  }

  lemma ChansAt(known: map<Id, Client>, c: Id)
    requires c in known
    ensures c in Chans(known) && Chans(known)[c] == Chan(known[c].buf, known[c].closed)
  {
  }

  lemma OnlyKnown(known: map<Id, Client>, c: Id)
    requires c in Chans(known)
    ensures c in known
  {
  }

  class Hub {
    const max: nat
    var clients: set<Id>
    var sends: map<Id, Chan>
    var queue: seq<Msg>
    var count: nat
    var done: bool
    var panicked: bool

    ghost var run: seq<Action>
    ghost var model: State

    /** The fields are exactly what the run so far leaves. */
    ghost predicate Valid()
      reads this
    {
      After(max, run) == Reached(model) && WellFormed(model) && Matches()
    }

    ghost predicate Matches()
      reads this
    {
      && max == model.max && clients == model.clients && queue == model.queue && count == model.count
      && done == model.done && panicked == model.panicked && sends == Chans(model.known)
    }

    ghost predicate At(phase: Phase)
      reads this
    {
      Valid() && model.phase == phase
    }

    constructor (maxClients: int)
      ensures At(Idle) && run == [] && max == if maxClients <= 0 then 128 else maxClients
    {
      max := if maxClients <= 0 then 128 else maxClients;
      clients, sends, queue, count, done, panicked := {}, map[], [], 0, false, false;
      run, model := [], Init(if maxClients <= 0 then 128 else maxClients);
    }

    ghost method Did(a: Action)
      requires After(max, run) == Reached(model) && Enabled(model, a)
      modifies this`run, this`model
      ensures After(max, run) == Reached(model) && WellFormed(model)
      ensures run == old(run) + [a] && model == Next(old(model), a)
    {
      hide After, Next, Enabled, WellFormed;
      OneMore(max, run, a);
      StaysWellFormed(model, a);
      run, model := run + [a], Next(model, a);
    }

    method CloseSend(c: Id)
      requires c in sends
      modifies this`sends, this`panicked
      ensures sends == if old(sends)[c].closed then old(sends) else old(sends)[c := Chan(old(sends)[c].buf, true)]
      ensures panicked == (old(panicked) || old(sends)[c].closed)
    {
      if sends[c].closed {
        panicked := true;
      } else {
        sends := sends[c := Chan(sends[c].buf, true)];
      }
    }

    method DropClient(c: Id)
      requires c in sends
      modifies this`clients, this`sends, this`count, this`panicked
      ensures if c !in old(clients) then
                clients == old(clients) && sends == old(sends) && count == old(count) && panicked == old(panicked)
              else
                && clients == old(clients) - {c} && count == |clients|
                && panicked == (old(panicked) || old(sends)[c].closed)
                && sends == if old(sends)[c].closed then old(sends)
                            else old(sends)[c := Chan(old(sends)[c].buf, true)]
    {
      if c !in clients {
        return;
      }
      clients := clients - {c};
      CloseSend(c);
      count := |clients|;
    }

    /** case client := <-h.register, for the fresh channel ServeWS made */
    method HandleRegister(c: Id)
      requires At(Idle) && c !in sends
      modifies this
      ensures At(Idle) && run == old(run) + [Register(c)]
      ensures model.left == old(model).left
    {
      hide After, Chans;
      ghost var k := Client([], false, |model.log|, [], Live);
      if c in model.known { ChansAt(model.known, c); }
      ChansAfter(model.known, c, k);
      ChansAfter(model.known[c := k], c, k.(closed := true, fate := Rejected));
      sends := sends[c := Chan([], false)];
      if |clients| >= max {
        CloseSend(c);
      } else {
        clients := clients + {c};
        count := |clients|;
      }
      Did(Register(c));
    }

    method HandleUnregister(c: Id)
      requires At(Idle) && c in sends && c !in model.left
      modifies this
      ensures At(Idle) && run == old(run) + [Unregister(c)]
      ensures model.left == old(model).left + {c}
    {
      hide After, Chans, Next;
      OnlyKnown(model.known, c);
      UnregisterMeans(model, c);
      DropClient(c);
      Did(Unregister(c));
    }

    /** One turn of the delivery loop: a non-blocking send. */
    method SendTo(c: Id, message: Msg, ghost pending: set<Id>)
      requires At(Sending(message, pending)) && c in pending
      modifies this
      ensures At(Sending(message, pending - {c})) && run == old(run) + [Deliver(c)]
      ensures model.left == old(model).left
    {
      hide After, ClientOk, Subsequence;
      if sends[c].closed {
        panicked := true;
      } else if |sends[c].buf| < SEND_CAP {
        sends := sends[c := Chan(sends[c].buf + [message], false)];
      } else {
        DropClient(c);
      }
      Did(Deliver(c));
    }

    method BeginBroadcast() returns (message: Msg)
      requires At(Idle) && queue != []
      modifies this
      ensures At(Sending(message, clients)) && clients == old(clients) && run == old(run) + [Take]
      ensures model.left == old(model).left
    {
      hide After, Inv;
      message := queue[0];
      queue := queue[1..];
      Did(Take);
    }

    ghost method EndBroadcast(message: Msg)
      requires At(Sending(message, {}))
      modifies this`run, this`model
      ensures At(Idle) && run == old(run) + [EndSend]
      ensures model.left == old(model).left
    {
      hide After, Inv;
      Did(EndSend);
    }

    method Broadcast(msg: Msg)
      requires Valid()
      modifies this
      ensures At(old(model).phase) && run == old(run) + [Publish(msg)]
      ensures model.left == old(model).left && model.log == old(model).log && sends == old(sends)
      ensures queue == if |old(queue)| < 256 then old(queue) + [msg] else old(queue)
    {
      hide After, Inv;
      if |queue| < QUEUE_CAP {
        queue := queue + [msg];
      }
      Did(Publish(msg));
    }

    /** writePump takes one message off its channel. */
    method Drain(c: Id) returns (msg: Msg)
      requires Valid() && c in sends && sends[c].buf != []
      modifies this
      ensures At(old(model).phase) && run == old(run) + [Receive(c)] && msg == old(sends)[c].buf[0]
      ensures model.left == old(model).left
    {
      hide After, Inv;
      msg := sends[c].buf[0];
      sends := sends[c := Chan(sends[c].buf[1..], sends[c].closed)];
      Did(Receive(c));
    }

    /** Whatever other goroutines do while this one is between two steps. */
    method Others() returns (ghost did: seq<Action>)
      requires Valid()
      modifies this
      ensures At(old(model).phase) && run == old(run) + did
      ensures forall a :: a in did ==> a.Publish? || a.Receive?
      ensures model.left == old(model).left
    {
      hide After, Inv, Next, Enabled;
      did := [];
      var n: nat := *;
      while n > 0
        invariant At(old(model).phase) && run == old(run) + did && model.left == old(model).left
        invariant forall a :: a in did ==> a.Publish? || a.Receive?
      {
        if * {
          var msg: Msg := *;
          Broadcast(msg);
          did := did + [Publish(msg)];
        } else {
          var c: Id := *;
          if c in sends && sends[c].buf != [] {
            var msg := Drain(c);
            did := did + [Receive(c)];
          }
        }
        n := n - 1;
      }
    }

    /** case message := <-h.broadcast: every client gets it or is dropped, in any order. */
    method HandleBroadcast() returns (ghost turns: seq<Action>)
      requires At(Idle) && queue != []
      modifies this
      ensures At(Idle) && run == old(run) + [Take] + turns + [EndSend] && model.left == old(model).left
      ensures forall c :: c in old(clients) ==> Deliver(c) in turns
      ensures Handled(run) == Handled(old(run)) + [Message]
    {
      hide Hub.Valid, After, Inv;
      var message := BeginBroadcast();
      var pending := clients;
      turns := [];
      while pending != {}
        invariant At(Sending(message, pending)) && run == old(run) + [Take] + turns
        invariant pending <= old(clients) && model.left == old(model).left
        invariant forall c :: c in old(clients) && c !in pending ==> Deliver(c) in turns
        invariant forall a :: a in turns ==> CaseOf(a) == []
        decreases pending
      {
        var did := Others();
        var c :| c in pending;
        SendTo(c, message, pending);
        turns := turns + did + [Deliver(c)];
        pending := pending - {c};
      }
      EndBroadcast(message);
      HandledBroadcast(old(run), turns);
    }

    ghost method BeginClosing()
      requires At(Idle)
      modifies this`run, this`model
      ensures At(Closing) && run == old(run) + [Shutdown]
    {
      hide After, Inv;
      Did(Shutdown);
    }

    method CloseClient(c: Id)
      requires At(Closing) && c in clients
      modifies this
      ensures At(Closing) && clients == old(clients) - {c} && run == old(run) + [CloseOne(c)]
    {
      hide After, ClientOk, Subsequence;
      CloseSend(c);
      clients := clients - {c};
      Did(CloseOne(c));
    }

    method FinishClosing()
      requires At(Closing) && clients == {}
      modifies this
      ensures At(Stopped) && run == old(run) + [Finish]
    {
      hide After, Inv;
      count := 0;
      if !done {
        done := true;
      }
      Did(Finish);
    }

    /** Deferred by Run. */
    method CloseAll()
      requires At(Idle)
      modifies this
      ensures At(Stopped) && old(run) + [Shutdown] <= run
      ensures Handled(run) == Handled(old(run)) + [Cancelled]
    {
      hide Hub.At;
      BeginClosing();
      HandledOne(old(run), Shutdown);
      ghost var since := run;
      while clients != {}
        invariant At(Closing) && since <= run && Handled(run) == Handled(old(run)) + [Cancelled]
        decreases clients
      {
        var c :| c in clients;
        HandledOne(run, CloseOne(c));
        CloseClient(c);
      }
      HandledOne(run, Finish);
      FinishClosing();
    }

    /** The event loop, for the cases its select happens to receive.  It handles them in this order, up to a
        cancellation; it passes over only what cannot arise: a client registered before, one unregistered before
        or unknown, and a message when all that was heard has been taken up. */
    method Run(cases: seq<Case>) returns (ghost kept: seq<bool>)
      requires At(Idle) && model.left == {}
      modifies this
      ensures Valid() && old(run) <= run
      ensures model.phase == if Cancelled in cases then Stopped else Idle
      ensures |kept| <= |cases| && Handled(run) == Handled(old(run)) + Chosen(cases[..|kept|], kept)
      ensures if Cancelled in cases then |kept| > 0 && cases[|kept| - 1] == Cancelled && Cancelled !in cases[..|kept| - 1]
              else |kept| == |cases|
      ensures AllPassed(Handled(old(run)), cases, kept, |old(model).log| + |old(queue)|)
    {
      hide Hub.Valid, After, Inv, Handled, AllPassed, CannotArise, Chosen;
      ghost var (first, heard) := (run, |model.log| + |queue|);
      HeardSoFar();
      var gone: set<Id> := {};
      kept := [];
      NoneChosen(cases, Handled(first), heard);
      for i := 0 to |cases|
        invariant gone == model.left && |kept| == i
        invariant At(Idle) && first <= run && Cancelled !in cases[..i]
        invariant Handled(run) == Handled(first) + Chosen(cases[..i], kept)
        invariant AllPassed(Handled(first), cases, kept, heard)
      {
        ghost var was := run;
        var did := Others();
        HandledOthers(was, did);
        HeardSoFar();
        ghost var before := run;
        var took;
        took, gone := Dispatch(cases[i], gone);
        if !took { StillHeard(max, first, before, cases[i], heard); }
        ChosenNext(cases, i, kept, took);
        AllPassedNext(Handled(first), cases, kept, took, heard);
        kept := kept + [took];
        if cases[i] == Cancelled {
          assert cases[..i + 1][..i] == cases[..i];
          return;
        }
      }
      assert cases[..|cases|] == cases;
    }

    lemma HeardSoFar()
      requires Valid()
      ensures After(max, run).Reached? && |model.log| + |queue| == |Heard(max, run)|
    {
      OnlyOverflowIsLost(max, run);
    }

    /** One turn of the select. */
    method Dispatch(cs: Case, gone: set<Id>) returns (took: bool, now: set<Id>)
      requires At(Idle) && gone == model.left
      modifies this
      ensures At(if cs == Cancelled then Stopped else Idle) && old(run) <= run && (cs != Cancelled ==> now == model.left)
      ensures cs == Cancelled ==> took
      ensures Handled(run) == Handled(old(run)) + if took then [cs] else []
      ensures !took ==> run == old(run) && CannotArise(Handled(run), cs, |Heard(max, run)|)
    {
      hide After, Inv, Handled, CannotArise;
      took, now := false, gone;
      match cs
      case Cancelled =>
        CloseAll();
        took := true;
      case Registering(c) =>
        if c !in sends {
          HandledOne(run, Register(c));
          HandleRegister(c);
          took := true;
        } else {
          OnlyKnown(model.known, c);
          PassedOver(max, run, cs, |Heard(max, run)|);
        }
      case Unregistering(c) =>
        if c in sends && c !in gone {
          HandledOne(run, Unregister(c));
          HandleUnregister(c);
          took, now := true, gone + {c};
        } else {
          PassedOver(max, run, cs, |Heard(max, run)|);
        }
      case Message =>
        if queue != [] {
          var turns := HandleBroadcast();
          took := true;
        } else {
          PassedOver(max, run, cs, |Heard(max, run)|);
        }
    }
  }

  /** Every case not kept could not arise when it was passed over. */
  ghost predicate AllPassed(h: seq<Case>, cases: seq<Case>, kept: seq<bool>, heard: nat)
    requires |kept| <= |cases|
  {
    forall j :: 0 <= j < |kept| && !kept[j] ==> CannotArise(h + Chosen(cases[..j], kept[..j]), cases[j], heard)
  }

  lemma AllPassedNext(h: seq<Case>, cases: seq<Case>, kept: seq<bool>, took: bool, heard: nat)
    requires |kept| < |cases| && AllPassed(h, cases, kept, heard)
    requires !took ==> CannotArise(h + Chosen(cases[..|kept|], kept), cases[|kept|], heard)
    ensures AllPassed(h, cases, kept + [took], heard)
  {
    hide CannotArise, Chosen;
    var longer := kept + [took];
    assert longer[..|kept|] == kept;
    forall j | 0 <= j < |longer| && !longer[j] ensures CannotArise(h + Chosen(cases[..j], longer[..j]), cases[j], heard) {
      if j < |kept| { assert longer[..j] == kept[..j]; }
    }
  }

  lemma NoneChosen(cases: seq<Case>, h: seq<Case>, heard: nat)
    ensures Chosen(cases[..0], []) == [] && AllPassed(h, cases, [], heard)
  {
  }

  lemma StillHeard(max: nat, first: seq<Action>, run: seq<Action>, cs: Case, heard: nat)
    requires first <= run && After(max, run).Reached? && heard == |Heard(max, first)|
    requires CannotArise(Handled(run), cs, |Heard(max, run)|)
    ensures CannotArise(Handled(run), cs, heard)
  {
    hide After, Heard, Handled, Messages;
    assert run == first + run[|first|..];
    HeardGrows(max, first, run[|first|..]);
  }
}
