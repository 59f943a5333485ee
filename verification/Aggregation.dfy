/** Rate counters and the snapshot builder (backend/internal/agg/rates.go and snapshot.go).

    Clock readings are inputs in seconds; rates are reals. */
module Aggregation {
  import opened MachineTypes
  import opened MapSums
  import CounterRates

  // ---------------------------------------------------------------- one counter, on values

  datatype Meter = Meter(last: real, current: U64, rate1s: real, rate5s: real)

  /** A closed window: its length and rate. */
  datatype Window = Window(length: real, rate: real)

  datatype Op = Plus(delta: U64, now: real) | Read(now: real)

  /** The five-second average after a window at `rate`. */
  function Smooth(average: real, rate: real): real {
    if average == 0.0 then rate else 1.0 / 3.0 * rate + (1.0 - 1.0 / 3.0) * average
  }

  predicate Closes(m: Meter, now: real) { now - m.last >= 1.0 }

  function RateOf(m: Meter, now: real): real
    requires Closes(m, now)
  {
    m.current as real / (now - m.last)
  }

  function Roll(m: Meter, now: real): Meter {
    if !Closes(m, now) then m
    else Meter(now, 0, RateOf(m, now), Smooth(m.rate5s, RateOf(m, now)))
  }

  function Count(m: Meter, op: Op): Meter {
    if op.Plus? then m.(current := Add64(m.current, op.delta)) else m
  }

  class Counter {
    var lastUpdate: real
    var currentSec: U64
    var rate1s: real
    var rate5s: real

    ghost function Value(): Meter
      reads this
    {
      Meter(lastUpdate, currentSec, rate1s, rate5s)
    }

    constructor (now: real)
      ensures Value() == Meter(now, 0, 0.0, 0.0)
    {
      lastUpdate, currentSec, rate1s, rate5s := now, 0, 0.0, 0.0;
    }

    method Add(delta: U64, now: real)
      modifies this
      ensures Value() == Roll(Count(old(Value()), Plus(delta, now)), now)
    {
      currentSec := Add64(currentSec, delta);
      Update(now);
    }

    method Update(now: real)
      modifies this
      ensures Value() == Roll(old(Value()), now)
    {
      var elapsed := now - lastUpdate;
      if elapsed >= 1.0 {
        var rate := currentSec as real / elapsed;
        rate1s := rate;
        var alpha := 1.0 / 3.0;
        if rate5s == 0.0 {
          rate5s := rate;
        } else {
          rate5s := alpha * rate + (1.0 - alpha) * rate5s;
        }
        currentSec := 0;
        lastUpdate := now;
      }
    }

    method Rate5s(now: real) returns (r: real)
      modifies this
      ensures Value() == Roll(old(Value()), now) && r == Value().rate5s
    {
      Update(now);
      r := rate5s;
    }

    method Rate1s(now: real) returns (r: real)
      modifies this
      ensures Value() == Roll(old(Value()), now) && r == Value().rate1s
    {
      Update(now);
      r := rate1s;
    }
  }

  // ---------------------------------------------------------------- runs of one counter

  /** A counter and the windows it has closed. */
  datatype Log = Log(m: Meter, windows: seq<Window>)

  ghost function Apply(l: Log, op: Op): Log {
    var m := Count(l.m, op);
    Log(Roll(m, op.now),
        l.windows + if Closes(m, op.now) then [Window(op.now - m.last, RateOf(m, op.now))] else [])
  }

  ghost function After(start: real, ops: seq<Op>): Log {
    if ops == [] then Log(Meter(start, 0, 0.0, 0.0), []) else Apply(After(start, ops[..|ops| - 1]), ops[|ops| - 1])
  }

  ghost function Added(ops: seq<Op>): nat {
    if ops == [] then 0
    else Added(ops[..|ops| - 1]) + if ops[|ops| - 1].Plus? then ops[|ops| - 1].delta else 0
  }

  ghost function Area(ws: seq<Window>): real {
    if ws == [] then 0.0 else Area(ws[..|ws| - 1]) + ws[|ws| - 1].rate * ws[|ws| - 1].length
  }

  lemma AreaGrows(ws: seq<Window>, w: Window)
    ensures Area(ws + [w]) == Area(ws) + w.rate * w.length
  {
    assert (ws + [w])[..|ws|] == ws;
  }

  /** The count of the open window comes round 2^64. */
  ghost predicate Overflows(m: Meter, op: Op) { op.Plus? && m.current + op.delta >= U64_SIZE }

  ghost function Overflowed(start: real, ops: seq<Op>): nat {
    if ops == [] then 0
    else
      var front := ops[..|ops| - 1];
      Overflowed(start, front) + if Overflows(After(start, front).m, ops[|ops| - 1]) then 1 else 0
  }

  lemma CountAdds(m: Meter, op: Op)
    ensures Count(m, op).current + (if Overflows(m, op) then U64_SIZE else 0)
            == m.current + if op.Plus? then op.delta else 0
  {
  }

  lemma ApplyConserves(l: Log, op: Op)
    ensures Area(Apply(l, op).windows) + Apply(l, op).m.current as real
            == Area(l.windows) + Count(l.m, op).current as real
    ensures Apply(l, op).m.current <= Count(l.m, op).current
  {
    hide RateOf, Smooth, Closes, Area, Roll, Count;
    var m := Count(l.m, op);
    RollMeans(m, op.now);
    if Closes(m, op.now) {
      var w := Window(op.now - m.last, RateOf(m, op.now));
      RateTimesLength(m, op.now);
      AreaGrows(l.windows, w);
      assert w.rate * w.length == m.current as real;
      assert Apply(l, op).windows == l.windows + [w] && Apply(l, op).m.current == 0;
    } else {
      assert Apply(l, op).windows == l.windows;
    }
  }

  lemma RollMeans(m: Meter, now: real)
    ensures Roll(m, now).current == if Closes(m, now) then 0 else m.current
  {
  }

  /** Closed windows, rate times length, plus what the open one has gathered, make up everything added,
      less 2^64 for every time the open window's count came round, which takes that much to be added. */
  lemma {:induction false} CounterConserves(start: real, ops: seq<Op>)
    ensures Area(After(start, ops).windows) + After(start, ops).m.current as real
            + (U64_SIZE * Overflowed(start, ops)) as real == Added(ops) as real
    ensures After(start, ops).m.current + U64_SIZE * Overflowed(start, ops) <= Added(ops)
  {
    if ops != [] {
      hide Apply, Area, Overflows, Count;
      var (before, op) := (After(start, ops[..|ops| - 1]), ops[|ops| - 1]);
      CounterConserves(start, ops[..|ops| - 1]);
      CountAdds(before.m, op);
      ApplyConserves(before, op);
    }
  }

  /** So nothing is lost exactly when the count never came round. */
  lemma ConservesIffNeverOverflows(start: real, ops: seq<Op>)
    ensures Area(After(start, ops).windows) + After(start, ops).m.current as real == Added(ops) as real
            <==> Overflowed(start, ops) == 0
    ensures Added(ops) < U64_SIZE ==> Overflowed(start, ops) == 0
  {
    CounterConserves(start, ops);
  }

  lemma RateTimesLength(m: Meter, now: real)
    requires Closes(m, now)
    ensures RateOf(m, now) * (now - m.last) == m.current as real
  {
    CounterRates.Undo(m.current as real, now - m.last);
  }

  ghost function Lengths(ws: seq<Window>): real {
    if ws == [] then 0.0 else Lengths(ws[..|ws| - 1]) + ws[|ws| - 1].length
  }

  lemma ApplyAt(l: Log, op: Op)
    ensures var l' := Apply(l, op);
            if op.now - l.m.last >= 1.0 then
              l'.m.last == op.now && |l'.windows| == |l.windows| + 1
              && l'.windows[..|l.windows|] == l.windows && l'.windows[|l.windows|].length == op.now - l.m.last
            else l'.m.last == l.m.last && l'.windows == l.windows
  {
    hide RateOf, Smooth;
  }

  /** A window closes at the first operation that finds it a second old or older: none closed is shorter,
      after an operation the open one is, and end to end they reach from the counter's making to the
      open one.  The clock may go backwards. */
  lemma {:induction false} WindowsTakeASecond(start: real, ops: seq<Op>)
    ensures var l := After(start, ops);
            && (forall i :: 0 <= i < |l.windows| ==> l.windows[i].length >= 1.0)
            && (ops != [] ==> ops[|ops| - 1].now - l.m.last < 1.0)
            && Lengths(l.windows) == l.m.last - start
  {
    if ops != [] {
      hide Apply;
      var (before, op) := (After(start, ops[..|ops| - 1]), ops[|ops| - 1]);
      WindowsTakeASecond(start, ops[..|ops| - 1]);
      ApplyAt(before, op);
    }
  }

  /** What was added since the last operation that closed a window, whose own addition it closed with. */
  ghost function AddedSince(start: real, ops: seq<Op>): nat {
    if ops == [] then 0
    else
      var (front, op) := (ops[..|ops| - 1], ops[|ops| - 1]);
      if After(start, ops).windows != After(start, front).windows then 0
      else AddedSince(start, front) + if op.Plus? then op.delta else 0
  }

  lemma ApplyCounts(l: Log, op: Op)
    ensures Apply(l, op).m.current
            == if Apply(l, op).windows != l.windows then 0 else (l.m.current + if op.Plus? then op.delta else 0) % U64_SIZE
  {
    hide RateOf, Smooth;
    assert Apply(l, op).windows != l.windows ==> Closes(Count(l.m, op), op.now);
  }

  /** The open window holds what was added after the last one closed, in 64 bits. */
  lemma {:induction false} OpenWindowHolds(start: real, ops: seq<Op>)
    ensures After(start, ops).m.current == AddedSince(start, ops) % U64_SIZE
  {
    if ops != [] {
      hide Apply;
      var (before, op) := (After(start, ops[..|ops| - 1]), ops[|ops| - 1]);
      OpenWindowHolds(start, ops[..|ops| - 1]);
      ApplyCounts(before, op);
      AddMod(AddedSince(start, ops[..|ops| - 1]), if op.Plus? then op.delta else 0);
    }
  }

  ghost predicate InHull(l: Log, lo: real, hi: real) {
    if l.windows == [] then l.m.rate5s == 0.0 && l.m.rate1s == 0.0
    else lo <= l.m.rate5s <= hi && l.m.rate1s == l.windows[|l.windows| - 1].rate
  }

  lemma ApplyStaysInHull(l: Log, op: Op, lo: real, hi: real)
    requires InHull(l, lo, hi)
    requires forall i :: 0 <= i < |Apply(l, op).windows| ==> lo <= Apply(l, op).windows[i].rate <= hi
    ensures InHull(Apply(l, op), lo, hi)
  {
    hide RateOf;
    var m := Count(l.m, op);
    if Closes(m, op.now) {
      assert Apply(l, op).windows[|l.windows|].rate == RateOf(m, op.now);
    }
  }

  /** Both rates stay within the window rates seen: the one-second rate is the latest of them, the
      five-second one lies in their convex hull. */
  lemma {:induction false} AverageStaysInHull(start: real, ops: seq<Op>, lo: real, hi: real)
    requires forall i :: 0 <= i < |After(start, ops).windows| ==> lo <= After(start, ops).windows[i].rate <= hi
    ensures InHull(After(start, ops), lo, hi)
  {
    if ops != [] {
      hide RateOf, InHull, Roll, Count, Closes;
      var before := After(start, ops[..|ops| - 1]);
      assert before.windows <= After(start, ops).windows;
      AverageStaysInHull(start, ops[..|ops| - 1], lo, hi);
      ApplyStaysInHull(before, ops[|ops| - 1], lo, hi);
    } else {
      assert InHull(After(start, []), lo, hi);
    }
  }

  function SmoothAll(average: real, rate: real, n: nat): real {
    if n == 0 then average else Smooth(SmoothAll(average, rate, n - 1), rate)
  }

  function TwoThirds(n: nat): real { if n == 0 then 1.0 else 2.0 / 3.0 * TwoThirds(n - 1) }

  lemma {:induction false} SmoothConverges(average: real, rate: real, n: nat)
    requires average >= 0.0 && rate >= 0.0
    ensures average > 0.0 ==>
              SmoothAll(average, rate, n) > 0.0 && SmoothAll(average, rate, n) - rate == TwoThirds(n) * (average - rate)
    ensures average == 0.0 && n > 0 ==> SmoothAll(average, rate, n) == rate
  {
    if n > 0 {
      SmoothConverges(average, rate, n - 1);
      Scale(TwoThirds(n - 1), average - rate);
    }
  }

  /** The operations `more` close n windows, each at the given rate. */
  ghost predicate ClosesAt(start: real, ops: seq<Op>, more: seq<Op>, rate: real, n: nat) {
    var (before, after) := (After(start, ops).windows, After(start, ops + more).windows);
    |after| == |before| + n && forall i :: |before| <= i < |after| ==> after[i].rate == rate
  }

  lemma {:induction false} WindowsGrow(start: real, ops: seq<Op>, more: seq<Op>)
    ensures After(start, ops).windows <= After(start, ops + more).windows
  {
    if more == [] {
      assert ops + more == ops;
    } else {
      hide Roll, RateOf, Count, Closes;
      assert (ops + more)[..|ops + more| - 1] == ops + more[..|more| - 1];
      WindowsGrow(start, ops, more[..|more| - 1]);
    }
  }

  /** A run smooths its average once for every window it closes. */
  lemma {:induction false} RunSmooths(start: real, ops: seq<Op>, more: seq<Op>, rate: real, n: nat)
    requires ClosesAt(start, ops, more, rate, n)
    ensures After(start, ops + more).m.rate5s == SmoothAll(After(start, ops).m.rate5s, rate, n)
  {
    if more == [] {
      assert ops + more == ops;
    } else {
      hide RateOf, Count, Closes, Smooth, Roll;
      var (front, op) := (ops + more[..|more| - 1], more[|more| - 1]);
      assert (ops + more)[..|ops + more| - 1] == front && (ops + more)[|ops + more| - 1] == op;
      var l := After(start, front);
      WindowsGrow(start, ops, more[..|more| - 1]);
      RollSmooths(Count(l.m, op), op.now);
      CountKeepsRates(l.m, op);
      if Closes(Count(l.m, op), op.now) {
        assert After(start, ops + more).windows[|l.windows|].rate == RateOf(Count(l.m, op), op.now);
        assert forall i :: 0 <= i < |l.windows| ==> After(start, ops + more).windows[i] == l.windows[i];
        RunSmooths(start, ops, more[..|more| - 1], rate, n - 1);
      } else {
        assert After(start, ops + more).windows == l.windows;
        RunSmooths(start, ops, more[..|more| - 1], rate, n);
      }
    }
  }

  lemma RollSmooths(m: Meter, now: real)
    ensures Roll(m, now).rate5s == if Closes(m, now) then Smooth(m.rate5s, RateOf(m, now)) else m.rate5s
  {
  }

  lemma CountKeepsRates(m: Meter, op: Op)
    ensures Count(m, op).rate5s == m.rate5s
  {
  }

  lemma {:induction false} RatesAreNotNegative(start: real, ops: seq<Op>)
    ensures After(start, ops).m.rate5s >= 0.0
    ensures forall i :: 0 <= i < |After(start, ops).windows| ==> After(start, ops).windows[i].rate >= 0.0
  {
    if ops != [] {
      hide RateOf, Count, Closes, Roll;
      var (l, op) := (After(start, ops[..|ops| - 1]), ops[|ops| - 1]);
      RatesAreNotNegative(start, ops[..|ops| - 1]);
      RollSmooths(Count(l.m, op), op.now);
      CountKeepsRates(l.m, op);
      if Closes(Count(l.m, op), op.now) {
        RateIsNotNegative(Count(l.m, op), op.now);
      }
    }
  }

  lemma RateIsNotNegative(m: Meter, now: real)
    requires Closes(m, now)
    ensures RateOf(m, now) >= 0.0
  {
    CounterRates.QuotientNotNegative(m.current as real, now - m.last);
  }

  /** Once a counter has an average, n further windows at a constant rate bring it (2/3)^n as far from that
      rate as it was, whatever happens in between; without an average the first window sets it. */
  lemma AverageConverges(start: real, ops: seq<Op>, more: seq<Op>, rate: real, n: nat)
    requires ClosesAt(start, ops, more, rate, n)
    ensures var (was, now) := (After(start, ops).m.rate5s, After(start, ops + more).m.rate5s);
            && (was > 0.0 ==> now - rate == TwoThirds(n) * (was - rate))
            && (was == 0.0 && n > 0 ==> now == rate)
            && was >= 0.0
  {
    hide SmoothAll, After, TwoThirds;
    RatesAreNotNegative(start, ops);
    RunSmooths(start, ops, more, rate, n);
    if n > 0 {
      RatesAreNotNegative(start, ops + more);
      assert After(start, ops + more).windows[|After(start, ops).windows|].rate == rate;
      SmoothConverges(After(start, ops).m.rate5s, rate, n);
    } else {
      NoSmoothing(After(start, ops).m.rate5s, rate);
    }
  }

  lemma NoSmoothing(average: real, rate: real)
    ensures SmoothAll(average, rate, 0) == average && TwoThirds(0) == 1.0
  {
  }

  lemma Scale(a: real, b: real)
    ensures 2.0 / 3.0 * a * b == 2.0 / 3.0 * (a * b)
  {
  }

  // ---------------------------------------------------------------- RateMap.Add under concurrency

  type Thread = U32

  /** A thread inside RateMap.Add: it missed under the read lock, or it holds a counter. */
  datatype Pc = Missed(key: string, delta: U64) | Holding(key: string, delta: U64, counter: nat)

  datatype Table = Table(counters: map<string, nat>, totals: seq<nat>, threads: map<Thread, Pc>)

  datatype Move = Look(t: Thread, key: string, delta: U64) | Lock(t: Thread) | Credit(t: Thread)

  ghost predicate CanMove(s: Table, a: Move) {
    match a
    case Look(t, _, _) => t !in s.threads
    case Lock(t) => t in s.threads && s.threads[t].Missed?
    case Credit(t) => t in s.threads && s.threads[t].Holding?
  }

  /** Look reads the map under the read lock; Lock looks again under the write lock and creates the
      counter if there still is none; Credit adds to the counter found. */
  ghost function Moved(s: Table, a: Move): Table
    requires CanMove(s, a)
  {
    match a
    case Look(t, key, delta) =>
      s.(threads := s.threads[t := if key in s.counters then Holding(key, delta, s.counters[key]) else Missed(key, delta)])
    case Lock(t) =>
      var pc := s.threads[t];
      if pc.key in s.counters then s.(threads := s.threads[t := Holding(pc.key, pc.delta, s.counters[pc.key])])
      else s.(counters := s.counters[pc.key := |s.totals|], totals := s.totals + [0],
              threads := s.threads[t := Holding(pc.key, pc.delta, |s.totals|)])
    case Credit(t) =>
      var pc := s.threads[t];
      var s' := s.(threads := s.threads - {t});
      if pc.counter < |s.totals| then s'.(totals := s.totals[pc.counter := s.totals[pc.counter] + pc.delta]) else s'
  }

  /** Every holder holds the one counter of its key, and no counter has two keys. */
  ghost predicate TableOk(s: Table) {
    && (forall k :: k in s.counters ==> s.counters[k] < |s.totals|)
    && (forall k, k' :: k in s.counters && k' in s.counters && s.counters[k] == s.counters[k'] ==> k == k')
    && (forall t :: t in s.threads && s.threads[t].Holding? ==>
          s.threads[t].key in s.counters && s.counters[s.threads[t].key] == s.threads[t].counter)
  }

  function DeltaFor(key: string): Pc -> nat { (pc: Pc) => if pc.key == key then pc.delta else 0 }

  function Counted(s: Table, key: string): nat {
    if key in s.counters && s.counters[key] < |s.totals| then s.totals[s.counters[key]] else 0
  }

  ghost function InFlight(s: Table, key: string): nat { Total(s.threads, DeltaFor(key)) }

  lemma MoveKeepsTable(s: Table, a: Move)
    requires TableOk(s) && CanMove(s, a)
    ensures TableOk(Moved(s, a))
    ensures forall k :: k in s.counters ==> k in Moved(s, a).counters && Moved(s, a).counters[k] == s.counters[k]
  {
    hide TableOk;
    match a
    case Look(_, _, _) => LookKeeps(s, a);
    case Lock(_) => LockKeeps(s, a);
    case Credit(_) => CreditKeeps(s, a);
  }

  lemma LookKeeps(s: Table, a: Move)
    requires TableOk(s) && CanMove(s, a) && a.Look?
    ensures TableOk(Moved(s, a))
  {
  }

  lemma LockKeeps(s: Table, a: Move)
    requires TableOk(s) && CanMove(s, a) && a.Lock?
    ensures TableOk(Moved(s, a))
  {
  }

  lemma CreditKeeps(s: Table, a: Move)
    requires TableOk(s) && CanMove(s, a) && a.Credit?
    ensures TableOk(Moved(s, a))
  {
  }

  lemma MoveConserves(s: Table, a: Move, key: string)
    requires TableOk(s) && CanMove(s, a)
    ensures Counted(Moved(s, a), key) + InFlight(Moved(s, a), key)
            == Counted(s, key) + InFlight(s, key) + if a.Look? && a.key == key then a.delta else 0
  {
    hide Total;
    var s' := Moved(s, a);
    match a
    case Look(t, k, d) =>
      TotalUpdate(s.threads, DeltaFor(key), t, s'.threads[t]);
    case Lock(t) =>
      TotalUpdate(s.threads, DeltaFor(key), t, s'.threads[t]);
    case Credit(t) =>
      TotalPick(s.threads, DeltaFor(key), t);
  }

  datatype Outcome = Impossible | Reached(s: Table)

  ghost function Moves(run: seq<Move>): Outcome {
    if run == [] then Reached(Table(map[], [], map[]))
    else
      var before := Moves(run[..|run| - 1]);
      if before.Reached? && CanMove(before.s, run[|run| - 1]) then Reached(Moved(before.s, run[|run| - 1])) else Impossible
  }

  ghost function Offered(run: seq<Move>, key: string): nat {
    if run == [] then 0
    else
      var a := run[|run| - 1];
      Offered(run[..|run| - 1], key) + if a.Look? && a.key == key then a.delta else 0
  }

  /** In every interleaving, what was offered for a key is what its counter holds plus what threads still
      carry; so once all calls have returned, the counter holds everything. */
  lemma {:induction false} NoDeltaIsLost(run: seq<Move>, key: string)
    requires Moves(run).Reached?
    ensures TableOk(Moves(run).s)
    ensures Offered(run, key) == Counted(Moves(run).s, key) + InFlight(Moves(run).s, key)
    ensures Moves(run).s.threads == map[] ==> Offered(run, key) == Counted(Moves(run).s, key)
  {
    if run == [] {
      TotalOfNone(Moves(run).s.threads, DeltaFor(key));
    } else {
      hide TableOk, Moved, CanMove, Counted, InFlight;
      NoDeltaIsLost(run[..|run| - 1], key);
      MoveKeepsTable(Moves(run[..|run| - 1]).s, run[|run| - 1]);
      MoveConserves(Moves(run[..|run| - 1]).s, run[|run| - 1], key);
      IdleCarriesNothing(Moves(run).s, key);
    }
  }

  lemma IdleCarriesNothing(s: Table, key: string)
    ensures s.threads == map[] ==> InFlight(s, key) == 0
  {
  }

  /** A key, once bound to a counter, stays bound to that counter. */
  lemma {:induction false} OneCounterPerKey(run: seq<Move>, more: seq<Move>, key: string)
    requires Moves(run + more).Reached?
    ensures Moves(run).Reached?
    ensures var (s, s') := (Moves(run).s, Moves(run + more).s);
            key in s.counters ==> key in s'.counters && s'.counters[key] == s.counters[key]
  {
    if more == [] {
      assert run + more == run;
    } else {
      hide TableOk, Moved, CanMove;
      var front := run + more[..|more| - 1];
      assert (run + more)[..|run + more| - 1] == front;
      OneCounterPerKey(run, more[..|more| - 1], key);
      NoDeltaIsLost(front, key);
      MoveKeepsTable(Moves(front).s, (run + more)[|run + more| - 1]);
    }
  }

  // ---------------------------------------------------------------- the snapshot builder

  const SERIES_CAP := 60
  const TIMELINE_CAP := 300

  datatype Target = Target(pid: int, comm: string)
  datatype Meta = Meta(dropped: U64, eventRate: real, uptime: real, target: Target)
  datatype ProcessRow = ProcessRow(pid: int, ppid: int, comm: string, cpuPct: real, rss: int)
  datatype SyscallStat = SyscallStat(name: string, perSecond: real)
  datatype FileStat = FileStat(path: string, opsPerSecond: real, errors: int)
  datatype NetFlow = NetFlow(src: string, dst: string, sport: int, dport: int)
  datatype SeriesPoint = SeriesPoint(t: int, cpuPct: real)
  datatype IOPoint = IOPoint(t: int, read: real, written: real)
  datatype NetPoint = NetPoint(t: int, tx: real, rx: real)
  datatype EventRow = EventRow(id: string, title: string, detail: string)

  /** What a snapshot shows. */
  datatype Content = Content(meta: Meta, processes: seq<ProcessRow>, syscalls: seq<SyscallStat>, files: seq<FileStat>,
                             flows: seq<NetFlow>, cpu: seq<SeriesPoint>, io: seq<IOPoint>, net: seq<NetPoint>,
                             timeline: seq<EventRow>)

  lemma LastNSnoc<T>(s: seq<T>, n: nat, x: T)
    requires n > 0
    ensures LastN(LastN(s, n) + [x], n) == LastN(s + [x], n)
  {
  }

  /** append(s, p), re-sliced to the newest `cap` */
  function AppendCapped<T>(s: seq<T>, cap: nat, p: T): seq<T> { LastN(s + [p], cap) }

  method FromSeq<T>(s: seq<T>) returns (a: array<T>)
    ensures fresh(a) && a[..] == s
  {
    a := new T[|s|](i requires 0 <= i < |s| => s[i]);
  }

  method Rows(c: Content)
    returns (processes: array<ProcessRow>, syscalls: array<SyscallStat>, files: array<FileStat>, flows: array<NetFlow>)
    ensures fresh(processes) && fresh(syscalls) && fresh(files) && fresh(flows)
    ensures processes[..] == c.processes && syscalls[..] == c.syscalls
    ensures files[..] == c.files && flows[..] == c.flows
  {
    processes := FromSeq(c.processes);
    syscalls := FromSeq(c.syscalls);
    files := FromSeq(c.files);
    flows := FromSeq(c.flows);
  }

  method Windows(c: Content)
    returns (cpu: array<SeriesPoint>, io: array<IOPoint>, net: array<NetPoint>, timeline: array<EventRow>)
    ensures fresh(cpu) && fresh(io) && fresh(net) && fresh(timeline)
    ensures cpu[..] == c.cpu && io[..] == c.io && net[..] == c.net && timeline[..] == c.timeline
  {
    cpu := FromSeq(c.cpu);
    io := FromSeq(c.io);
    net := FromSeq(c.net);
    timeline := FromSeq(c.timeline);
  }

  class Snapshot {
    var meta: Meta
    var processes: array<ProcessRow>
    var syscalls: array<SyscallStat>
    var files: array<FileStat>
    var flows: array<NetFlow>
    var cpu: array<SeriesPoint>
    var io: array<IOPoint>
    var net: array<NetPoint>
    var timeline: array<EventRow>

    /** The slices a holder of this snapshot can write through. */
    ghost function Slices(): set<object>
      reads this
    {
      {processes, syscalls, files, flows, cpu, io, net, timeline}
    }

    ghost function Value(): Content
      reads this, Slices()
    {
      Content(meta, processes[..], syscalls[..], files[..], flows[..], cpu[..], io[..], net[..], timeline[..])
    }

    constructor (c: Content)
      ensures Value() == c && fresh(Slices())
    {
      var a1, a2, a3, a4 := Rows(c);
      var a5, a6, a7, a8 := Windows(c);
      meta, processes, syscalls, files, flows := c.meta, a1, a2, a3, a4;
      cpu, io, net, timeline := a5, a6, a7, a8;
    }

    /** Fresh copies of the rolling windows. */
    method SetWindows(cpu: seq<SeriesPoint>, io: seq<IOPoint>, net: seq<NetPoint>, timeline: seq<EventRow>)
      modifies this`cpu, this`io, this`net, this`timeline
      ensures Value() == old(Value()).(cpu := cpu, io := io, net := net, timeline := timeline)
      ensures this.cpu[..] == cpu && this.io[..] == io && this.net[..] == net && this.timeline[..] == timeline
      ensures fresh(this.cpu) && fresh(this.io) && fresh(this.net) && fresh(this.timeline)
    {
      var a1 := FromSeq(cpu);
      var a2 := FromSeq(io);
      var a3 := FromSeq(net);
      var a4 := FromSeq(timeline);
      this.cpu, this.io, this.net, this.timeline := a1, a2, a3, a4;
    }
  }

  /** cloneSnapshot */
  method Clone(s: Snapshot) returns (out: Snapshot)
    ensures fresh(out) && fresh(out.Slices()) && out.Value() == s.Value()
  {
    out := new Snapshot(Content(s.meta, s.processes[..], s.syscalls[..], s.files[..], s.flows[..],
                                s.cpu[..], s.io[..], s.net[..], s.timeline[..]));
  }

  /** A snapshot whose series and timeline are the newest parts of the given histories. */
  function Windowed(c: Content, allCpu: seq<SeriesPoint>, allIo: seq<IOPoint>, allNet: seq<NetPoint>, allEvents: seq<EventRow>)
    : Content
  {
    c.(cpu := LastN(allCpu, SERIES_CAP), io := LastN(allIo, SERIES_CAP), net := LastN(allNet, SERIES_CAP),
       timeline := LastN(allEvents, TIMELINE_CAP))
  }

  class SnapshotBuilder {
    var latest: Snapshot
    var cpu: seq<SeriesPoint>
    var io: seq<IOPoint>
    var net: seq<NetPoint>
    var events: seq<EventRow>

    /** Every newest point and every event ever supplied. */
    ghost var allCpu: seq<SeriesPoint>
    ghost var allIo: seq<IOPoint>
    ghost var allNet: seq<NetPoint>
    ghost var allEvents: seq<EventRow>

    ghost function Repr(): set<object>
      reads this, latest
    {
      {this, latest} + latest.Slices()
    }

    ghost predicate Valid()
      reads this, latest, latest.Slices()
    {
      && cpu == LastN(allCpu, SERIES_CAP) && latest.Value().cpu == cpu
      && io == LastN(allIo, SERIES_CAP) && latest.Value().io == io
      && net == LastN(allNet, SERIES_CAP) && latest.Value().net == net
      && events == LastN(allEvents, TIMELINE_CAP) && latest.Value().timeline == events
    }

    constructor ()
      ensures Valid() && fresh(Repr()) && allCpu == [] && allIo == [] && allNet == [] && allEvents == []
    {
      cpu, io, net, events := [], [], [], [];
      allCpu, allIo, allNet, allEvents := [], [], [], [];
      var s := new Snapshot(Content(Meta(0, 0.0, 0.0, Target(0, "")), [], [], [], [], [], [], [], []));
      latest := s;
    }

    /** The newest point of a series, if the producer supplied one. */
    method TakeCpu(s: Snapshot)
      requires cpu == LastN(allCpu, SERIES_CAP)
      modifies this`cpu, this`allCpu
      ensures cpu == LastN(allCpu, SERIES_CAP) && allCpu == old(allCpu) + LastN(s.cpu[..], 1)
    {
      if s.cpu.Length > 0 {
        var p := s.cpu[s.cpu.Length - 1];
        LastNSnoc(allCpu, SERIES_CAP, p);
        cpu, allCpu := AppendCapped(cpu, SERIES_CAP, p), allCpu + [p];
      }
    }

    method TakeIo(s: Snapshot)
      requires io == LastN(allIo, SERIES_CAP)
      modifies this`io, this`allIo
      ensures io == LastN(allIo, SERIES_CAP) && allIo == old(allIo) + LastN(s.io[..], 1)
    {
      if s.io.Length > 0 {
        var p := s.io[s.io.Length - 1];
        LastNSnoc(allIo, SERIES_CAP, p);
        io, allIo := AppendCapped(io, SERIES_CAP, p), allIo + [p];
      }
    }

    method TakeNet(s: Snapshot)
      requires net == LastN(allNet, SERIES_CAP)
      modifies this`net, this`allNet
      ensures net == LastN(allNet, SERIES_CAP) && allNet == old(allNet) + LastN(s.net[..], 1)
    {
      if s.net.Length > 0 {
        var p := s.net[s.net.Length - 1];
        LastNSnoc(allNet, SERIES_CAP, p);
        net, allNet := AppendCapped(net, SERIES_CAP, p), allNet + [p];
      }
    }

    method TakePoints(s: Snapshot)
      requires cpu == LastN(allCpu, SERIES_CAP) && io == LastN(allIo, SERIES_CAP) && net == LastN(allNet, SERIES_CAP)
      modifies this`cpu, this`allCpu, this`io, this`allIo, this`net, this`allNet
      ensures cpu == LastN(allCpu, SERIES_CAP) && io == LastN(allIo, SERIES_CAP) && net == LastN(allNet, SERIES_CAP)
      ensures allCpu == old(allCpu) + LastN(s.Value().cpu, 1)
      ensures allIo == old(allIo) + LastN(s.Value().io, 1)
      ensures allNet == old(allNet) + LastN(s.Value().net, 1)
    {
      hide LastN;
      TakeCpu(s);
      TakeIo(s);
      TakeNet(s);
    }

    /** The builder keeps the producer's snapshot object, takes the newest point of each of its series, and
        replaces the series and the timeline by the rolling windows. */
    method Update(s: Snapshot)
      requires Valid()
      modifies this, s
      ensures Valid() && latest == s && allEvents == old(allEvents)
      ensures allCpu == old(allCpu) + LastN(old(s.Value()).cpu, 1)
      ensures allIo == old(allIo) + LastN(old(s.Value()).io, 1)
      ensures allNet == old(allNet) + LastN(old(s.Value()).net, 1)
      ensures s.Value() == Windowed(old(s.Value()), allCpu, allIo, allNet, allEvents)
      ensures fresh(s.Slices() - old(s.Slices()))
    {
      hide LastN;
      TakePoints(s);
      latest := s;
      latest.SetWindows(cpu, io, net, events);
    }

    method AddEvent(e: EventRow)
      requires Valid()
      modifies this, latest
      ensures Valid() && latest == old(latest) && allEvents == old(allEvents) + [e]
      ensures allCpu == old(allCpu) && allIo == old(allIo) && allNet == old(allNet)
      ensures latest.Value() == old(latest.Value()).(timeline := LastN(allEvents, TIMELINE_CAP))
      ensures fresh(latest.Slices() - old(latest.Slices()))
    {
      LastNSnoc(allEvents, TIMELINE_CAP, e);
      hide LastN;
      events := AppendCapped(events, TIMELINE_CAP, e);
      allEvents := allEvents + [e];
      var t := FromSeq(events);
      latest.timeline := t;
    }

    /** What a caller gets shares nothing with the builder. */
    method Latest() returns (out: Snapshot)
      requires Valid()
      ensures fresh(out) && fresh(out.Slices()) && out.Slices() !! Repr()
      ensures Valid() && out.Value() == latest.Value() == old(latest.Value())
      ensures out.Value().cpu == LastN(allCpu, 60) && out.Value().io == LastN(allIo, 60)
      ensures out.Value().net == LastN(allNet, 60) && out.Value().timeline == LastN(allEvents, 300)
    {
      out := Clone(latest);
    }
  }

  // ---------------------------------------------------------------- results are the caller's own

  /** A caller gets a result, callers overwrite rows of results they have, or the builder gets an event or a
      producer's new snapshot. */
  datatype Deed = Fetch | Scribble | Note(e: EventRow) | Supply(c: Content)

  function Extended<T>(window: seq<T>, cap: nat, supplied: seq<T>): seq<T> {
    if supplied == [] then window else AppendCapped(window, cap, supplied[|supplied| - 1])
  }

  /** What the builder shows after a deed: what callers do is of no consequence. */
  function Shown(c: Content, d: Deed): Content {
    match d
    case Fetch => c
    case Scribble => c
    case Note(e) => c.(timeline := AppendCapped(c.timeline, TIMELINE_CAP, e))
    case Supply(n) =>
      n.(cpu := Extended(c.cpu, SERIES_CAP, n.cpu), io := Extended(c.io, SERIES_CAP, n.io),
         net := Extended(c.net, SERIES_CAP, n.net), timeline := c.timeline)
  }

  function AllShown(c: Content, deeds: seq<Deed>): Content {
    if deeds == [] then c else Shown(AllShown(c, deeds[..|deeds| - 1]), deeds[|deeds| - 1])
  }

  lemma WindowStep<T>(all: seq<T>, cap: nat, supplied: seq<T>)
    requires cap > 0
    ensures LastN(all + LastN(supplied, 1), cap) == Extended(LastN(all, cap), cap, supplied)
  {
    if supplied == [] {
      assert all + LastN(supplied, 1) == all;
    } else {
      assert LastN(supplied, 1) == [supplied[|supplied| - 1]];
      LastNSnoc(all, cap, supplied[|supplied| - 1]);
    }
  }

  /** Any writes through slices that callers hold. */
  method Overwrite(ghost theirs: set<object>)
    modifies theirs
  {
    modify theirs;
  }

  method ScribbleDeed(b: SnapshotBuilder, ghost theirs: set<object>)
    requires b.Valid() && theirs !! b.Repr()
    modifies theirs
    ensures b.Valid() && theirs !! b.Repr()
    ensures b.latest == old(b.latest) && b.latest.Value() == old(b.latest.Value())
  {
    Overwrite(theirs);
  }

  method NoteDeed(b: SnapshotBuilder, ghost theirs: set<object>, e: EventRow)
    requires b.Valid() && theirs !! b.Repr()
    modifies b, b.latest
    ensures b.Valid() && theirs !! b.Repr()
    ensures b.latest == old(b.latest) && b.latest.Value() == Shown(old(b.latest.Value()), Note(e))
  {
    LastNSnoc(b.allEvents, TIMELINE_CAP, e);
    hide LastN;
    b.AddEvent(e);
  }

  /** A producer's snapshot is made for the builder alone. */
  method UpdateFresh(b: SnapshotBuilder, c: Content)
    requires b.Valid()
    modifies b
    ensures b.Valid() && fresh(b.latest) && fresh(b.Repr() - {b})
    ensures b.latest.Value() == Shown(old(b.latest.Value()), Supply(c))
  {
    hide LastN, Extended, Shown, Windowed;
    SupplyShows(b.latest.Value(), c, b.allCpu, b.allIo, b.allNet, b.allEvents);
    var s := new Snapshot(c);
    b.Update(s);
  }

  method SupplyDeed(b: SnapshotBuilder, ghost theirs: set<object>, c: Content)
    requires b.Valid() && theirs !! b.Repr()
    modifies b
    ensures b.Valid() && theirs !! b.Repr()
    ensures fresh(b.latest) && b.latest.Value() == Shown(old(b.latest.Value()), Supply(c))
  {
    hide Shown, Snapshot.Value, SnapshotBuilder.Valid;
    UpdateFresh(b, c);
  }

  lemma SupplyShows(was: Content, c: Content, allCpu: seq<SeriesPoint>, allIo: seq<IOPoint>, allNet: seq<NetPoint>,
                    allEvents: seq<EventRow>)
    requires was.cpu == LastN(allCpu, SERIES_CAP) && was.io == LastN(allIo, SERIES_CAP)
    requires was.net == LastN(allNet, SERIES_CAP) && was.timeline == LastN(allEvents, TIMELINE_CAP)
    ensures Shown(was, Supply(c))
            == Windowed(c, allCpu + LastN(c.cpu, 1), allIo + LastN(c.io, 1), allNet + LastN(c.net, 1), allEvents)
  {
    hide LastN, Extended;
    WindowStep(allCpu, SERIES_CAP, c.cpu);
    WindowStep(allIo, SERIES_CAP, c.io);
    WindowStep(allNet, SERIES_CAP, c.net);
  }

  method DoDeed(b: SnapshotBuilder, ghost theirs: set<object>, d: Deed) returns (ghost now: set<object>)
    requires b.Valid() && theirs !! b.Repr()
    modifies b, b.latest, theirs
    ensures b.Valid() && now !! b.Repr() && theirs <= now && fresh(now - theirs)
    ensures b.latest.Value() == Shown(old(b.latest.Value()), d)
    ensures b.latest == old(b.latest) || fresh(b.latest)
  {
    hide Shown, Snapshot.Value, Snapshot.Slices, SnapshotBuilder.Valid, SnapshotBuilder.Repr;
    ShownNothing(b.latest.Value());
    now := theirs;
    match d
    case Fetch =>
      var result := b.Latest();
      now := theirs + result.Slices();
    case Scribble => ScribbleDeed(b, theirs);
    case Note(e) => NoteDeed(b, theirs, e);
    case Supply(c) => SupplyDeed(b, theirs, c);
  }

  lemma ShownNothing(c: Content)
    ensures Shown(c, Fetch) == c && Shown(c, Scribble) == c
  {
  }

  /** Whatever callers write through any of the results they got, and whenever, the builder shows what the
      events and snapshots it was given make it show.  `theirs` are the slices of all results so far. */
  method WritesStayPrivate(b: SnapshotBuilder, deeds: seq<Deed>) returns (out: Snapshot)
    requires b.Valid()
    modifies b, b.latest
    ensures b.Valid() && out.Value() == AllShown(old(b.latest.Value()), deeds)
  {
    hide Shown, Snapshot.Value, Snapshot.Slices, SnapshotBuilder.Valid, SnapshotBuilder.Repr;
    ghost var theirs: set<object> := {};
    assert deeds[..0] == [];
    for i := 0 to |deeds|
      invariant b.Valid() && b.latest.Value() == AllShown(old(b.latest.Value()), deeds[..i])
      invariant fresh(theirs) && theirs !! b.Repr()
      invariant b.latest == old(b.latest) || fresh(b.latest)
    {
      assert deeds[..i + 1][..i] == deeds[..i];
      theirs := DoDeed(b, theirs, deeds[i]);
    }
    assert deeds[..|deeds|] == deeds;
    out := b.Latest();
  }
}
