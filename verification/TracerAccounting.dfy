/** What userspace may conclude from what the kernel tells it: the drop counter, the per-file
    counters that noteEvent folds out of the ring buffer (backend/internal/ebpfagent/agent.go), and
    the per-process error counter of the kernel (backend/bpf/agent.bpf.c). */
module TracerAccounting {
  import opened MachineTypes
  import opened MapSums
  import opened ProcessFilter
  import opened KernelTracer
  import ProcDecoders

  // ---------------------------------------------------------------- nothing is lost silently

  ghost function Attempts(s: State, run: seq<Fire>): nat {
    if run == [] then 0
    else Attempts(s, run[..|run| - 1]) + if Attempt(After(s, run[..|run| - 1]), run[|run| - 1]).Some? then 1 else 0
  }

  function Sum(d: seq<U64>): nat { if d == [] then 0 else Sum(d[..|d| - 1]) + d[|d| - 1] }

  lemma {:induction false} SumUpdate(d: seq<U64>, i: nat, v: U64)
    requires i < |d|
    ensures Sum(d[i := v]) == Sum(d) - d[i] + v
  {
    var n := |d| - 1;
    if i == n {
      assert d[i := v][..n] == d[..n];
    } else {
      assert d[i := v][..n] == d[..n][i := v];
      SumUpdate(d[..n], i, v);
    }
  }

  lemma {:induction false} SumZeros(d: seq<U64>)
    requires forall i :: 0 <= i < |d| ==> d[i] == 0
    ensures Sum(d) == 0
  {
    if d != [] { SumZeros(d[..|d| - 1]); }
  }

  ghost predicate OnCpus(run: seq<Fire>, cpus: nat) {
    forall i :: 0 <= i < |run| ==> run[i].Retarget? || run[i].at.cpu < cpus
  }

  lemma SendConserves(r: Ring, attempt: Option<Record>, at: Where) returns (wrapped: nat)
    requires at.cpu < |r.drops|
    ensures var r' := Send(r, attempt, at);
            && |r'.drops| == |r.drops|
            && |r'.sent| + Sum(r'.drops) + wrapped * U64_SIZE
               == |r.sent| + Sum(r.drops) + if attempt.Some? then 1 else 0
  {
    wrapped := 0;
    if attempt.Some? && !at.room {
      SumUpdate(r.drops, at.cpu, Add64(r.drops[at.cpu], 1));
      if r.drops[at.cpu] == U64_SIZE - 1 {
        wrapped := 1;
      }
    }
  }

  lemma RingStep(s: State, e: Fire)
    ensures Step(s, e).ring == if e.Retarget? then s.ring else Send(s.ring, Attempt(s, e), e.at)
  {
    hide Targeted, EnterStats, ExitStats, Bump, Table, Capture, Blank;
    match e
    case Enter(_, _, _, _, _) =>
    case Exit(_, _, _, _, _) =>
    case _ =>
  }

  /** Every record a tracepoint tried to send was either delivered or counted as dropped, on whichever
      cpu it happened; `wraps` counts the times a 64-bit drop counter came round. */
  lemma {:induction false} EveryAttemptIsAccountedFor(s: State, run: seq<Fire>) returns (wraps: nat)
    requires Loaded(s) && OnCpus(run, |s.ring.drops|)
    ensures var ring := After(s, run).ring;
            |ring.drops| == |s.ring.drops| && Attempts(s, run) == |ring.sent| + Sum(ring.drops) + wraps * U64_SIZE
  {
    if run == [] {
      SumZeros(s.ring.drops);
      wraps := 0;
    } else {
      hide Step, Attempt, Send, Loaded, Sum;
      var (front, e) := (run[..|run| - 1], run[|run| - 1]);
      wraps := EveryAttemptIsAccountedFor(s, front);
      RingStep(After(s, front), e);
      if !e.Retarget? {
        var w := SendConserves(After(s, front).ring, Attempt(After(s, front), e), e.at);
        wraps := wraps + w;
      } else {
        assert Attempt(After(s, front), e) == None by { NoAttempt(After(s, front), e); }
      }
    }
  }

  lemma NoAttempt(s: State, e: Fire)
    requires e.Retarget?
    ensures Attempt(s, e) == None
  {
  }

  /** readDropCountFromMap: the per-cpu values if the lookup yields them, else a single value, else 0. */
  method ReadDropCount(perCpu: Option<seq<U64>>, single: Option<U64>) returns (total: U64, ghost wraps: nat)
    ensures perCpu.Some? ==> total + wraps * U64_SIZE == Sum(perCpu.value)
    ensures perCpu.None? ==> total == if single.Some? then single.value else 0
  {
    wraps := 0;
    if perCpu.None? {
      if single.None? {
        return 0, 0;
      }
      return single.value, 0;
    }
    total := 0;
    var values := perCpu.value;
    for i := 0 to |values|
      invariant total + wraps * U64_SIZE == Sum(values[..i])
    {
      assert values[..i + 1][..i] == values[..i];
      if total + values[i] >= U64_SIZE {
        wraps := wraps + 1;
      }
      total := Add64(total, values[i]);
    }
    assert values[..|values|] == values;
  }

  /** So the count shown to the user is exact: attempts = delivered + reported drops (modulo 2^64). */
  lemma ReportedDropsAreExact(s: State, run: seq<Fire>, total: U64, wraps: nat)
    requires Loaded(s) && OnCpus(run, |s.ring.drops|) && Attempts(s, run) < U64_SIZE
    requires total + wraps * U64_SIZE == Sum(After(s, run).ring.drops)
    ensures Attempts(s, run) == |After(s, run).ring.sent| + total
  {
    hide *;
    var w := EveryAttemptIsAccountedFor(s, run);
  }

  // ---------------------------------------------------------------- per-file counters

  const UNKNOWN: seq<Byte> := [40, 117, 110, 107, 110, 111, 119, 110, 41] // "(unknown)"

  function Name(path: seq<Byte>): seq<Byte> { if CStr(path) == [] then UNKNOWN else CStr(path) }

  predicate IsOpen(r: Record, name: seq<Byte>) { r.kind == EvtOpen && Name(r.path) == name }

  predicate Failed(r: Record) { r.ret < 0 || TopSet(r.flags) }

  ghost function Opens(rs: seq<Record>, name: seq<Byte>): nat {
    if rs == [] then 0 else Opens(rs[..|rs| - 1], name) + if IsOpen(rs[|rs| - 1], name) then 1 else 0
  }

  ghost function Failures(rs: seq<Record>, name: seq<Byte>): nat {
    if rs == [] then 0
    else Failures(rs[..|rs| - 1], name) + if IsOpen(rs[|rs| - 1], name) && Failed(rs[|rs| - 1]) then 1 else 0
  }

  predicate Connected(r: Record) { r.kind == EvtConnect && !TopSet(r.flags) }

  function KeyOf(r: Record): string { ProcDecoders.FlowKey(r.daddr, r.dport) }

  datatype FileAcc = FileAcc(ops: nat, errors: nat)
  datatype Flow = Flow(daddr: U32, dport: U16, tgid: U32, comm: seq<Byte>)

  function FlowOf(r: Record): Flow { Flow(r.daddr, r.dport, r.tgid, CStr(r.comm)) }

  const OPS := (acc: FileAcc) => acc.ops
  const ERRORS := (acc: FileAcc) => acc.errors

  /** Open events, and failed ones, under any name. */
  ghost function AllOpens(rs: seq<Record>): nat {
    if rs == [] then 0 else AllOpens(rs[..|rs| - 1]) + if rs[|rs| - 1].kind == EvtOpen then 1 else 0
  }

  ghost function AllFailures(rs: seq<Record>): nat {
    if rs == [] then 0
    else AllFailures(rs[..|rs| - 1]) + if rs[|rs| - 1].kind == EvtOpen && Failed(rs[|rs| - 1]) then 1 else 0
  }

  /** The file counters are folds over everything seen: path by path, and in total no open event is counted
      twice or missed. */
  ghost predicate FilesFold(files: map<seq<Byte>, FileAcc>, seen: seq<Record>) {
    && (forall p :: p in files <==> Opens(seen, p) > 0)
    && (forall p :: p in files ==> files[p] == FileAcc(Opens(seen, p), Failures(seen, p)))
    && (forall p :: p in files ==> files[p].errors <= files[p].ops)
    && Total(files, OPS) == AllOpens(seen) && Total(files, ERRORS) == AllFailures(seen)
  }

  ghost predicate FlowsFold(flows: map<string, Flow>, seen: seq<Record>) {
    forall k :: k in flows <==> exists i :: 0 <= i < |seen| && Connected(seen[i]) && KeyOf(seen[i]) == k
  }

  class LiveState {
    var files: map<seq<Byte>, FileAcc>
    var flows: map<string, Flow>
    var eventN: nat
    var connectN: nat
    ghost var seen: seq<Record>

    ghost predicate Valid()
      reads this
    {
      eventN == |seen| && FilesFold(files, seen) && FlowsFold(flows, seen)
    }

    constructor ()
      ensures Valid() && seen == []
    {
      TotalOfNone<seq<Byte>, FileAcc>(map[], OPS);
      TotalOfNone<seq<Byte>, FileAcc>(map[], ERRORS);
      files, flows, eventN, connectN, seen := map[], map[], 0, 0, [];
    }

    /** A path entry, once made, only grows; the first connection to an endpoint stands for all later. */
    method NoteEvent(ev: Record)
      requires Valid()
      modifies this
      ensures Valid() && seen == old(seen) + [ev]
      ensures connectN == old(connectN) + if ev.kind == EvtConnect then 1 else 0
      ensures forall k :: k in old(flows) ==> k in flows && flows[k] == old(flows)[k]
      ensures forall k :: k in flows && k !in old(flows) ==>
                && k == ProcDecoders.FlowKey(ev.daddr, ev.dport) && ev.kind == EvtConnect && ev.flags < 0x8000_0000
                && flows[k] == Flow(ev.daddr, ev.dport, ev.tgid, CStr(ev.comm))
      ensures ev.kind == EvtConnect && ev.flags < 0x8000_0000 ==> ProcDecoders.FlowKey(ev.daddr, ev.dport) in flows
    {
      hide FilesFold, FlowsFold, Noted, KeyOf, Connected;
      FilesStep(files, seen, ev);
      FlowsStep(flows, seen, ev);
      JoinedIs(flows, ev);
      eventN := eventN + 1;
      if ev.kind == EvtOpen {
        NoteOpen(ev);
      } else if ev.kind == EvtConnect {
        connectN := connectN + 1;
        NoteConnect(ev);
      }
      seen := seen + [ev];
    }

    method NoteOpen(ev: Record)
      modifies this`files
      ensures files == Noted(old(files), ev)
      ensures var path := if CStr(ev.path) == [] then UNKNOWN else CStr(ev.path);
              var was := if path in old(files) then old(files)[path] else FileAcc(0, 0);
              files == old(files)[path := FileAcc(was.ops + 1,
                                                  was.errors + if ev.ret < 0 || ev.flags >= 0x8000_0000 then 1 else 0)]
    {
      var path := CStr(ev.path);
      if path == [] {
        path := UNKNOWN;
      }
      var acc := FileAcc(0, 0);
      if path in files {
        acc := files[path];
      }
      acc := acc.(ops := acc.ops + 1);
      if ev.ret < 0 || TopSet(ev.flags) {
        acc := acc.(errors := acc.errors + 1);
      }
      files := files[path := acc];
    }

    method NoteConnect(ev: Record)
      requires ev.kind == EvtConnect
      modifies this`flows
      ensures flows == Joined(old(flows), ev)
    {
      if !TopSet(ev.flags) {
        var key := ProcDecoders.FlowKey(ev.daddr, ev.dport);
        if key !in flows {
          flows := flows[key := FlowOf(ev)];
        }
      }
    }
  }

  function Noted(files: map<seq<Byte>, FileAcc>, ev: Record): map<seq<Byte>, FileAcc> {
    var acc := if Name(ev.path) in files then files[Name(ev.path)] else FileAcc(0, 0);
    files[Name(ev.path) := FileAcc(acc.ops + 1, acc.errors + if Failed(ev) then 1 else 0)]
  }

  function Joined(flows: map<string, Flow>, ev: Record): map<string, Flow> {
    if Connected(ev) && KeyOf(ev) !in flows then flows[KeyOf(ev) := FlowOf(ev)] else flows
  }

  lemma JoinedIs(flows: map<string, Flow>, ev: Record)
    ensures var key := ProcDecoders.FlowKey(ev.daddr, ev.dport);
            Joined(flows, ev) ==
              if ev.kind == EvtConnect && ev.flags < 0x8000_0000 && key !in flows
              then flows[key := Flow(ev.daddr, ev.dport, ev.tgid, CStr(ev.comm))] else flows
    ensures Connected(ev) ==> ev.kind == EvtConnect
  {
  }

  lemma FilesStep(files: map<seq<Byte>, FileAcc>, seen: seq<Record>, ev: Record)
    requires FilesFold(files, seen)
    ensures FilesFold(if ev.kind == EvtOpen then Noted(files, ev) else files, seen + [ev])
  {
    hide Name, Failed, IsOpen, Total;
    TotalsStep(files, seen, ev);
    FoldStep(seen, ev);
    FailuresFew(seen + [ev], Name(ev.path));
  }

  lemma FlowsStep(flows: map<string, Flow>, seen: seq<Record>, ev: Record)
    requires FlowsFold(flows, seen)
    ensures FlowsFold(Joined(flows, ev), seen + [ev])
  {
    hide KeyOf, Connected;
    var (was, now) := (flows, Joined(flows, ev));
    forall k ensures k in now <==> exists i :: 0 <= i < |seen + [ev]| && Connected((seen + [ev])[i]) && KeyOf((seen + [ev])[i]) == k {
      if k in was {
        var i :| 0 <= i < |seen| && Connected(seen[i]) && KeyOf(seen[i]) == k;
        assert (seen + [ev])[i] == seen[i];
      } else if Connected(ev) && KeyOf(ev) == k {
        assert (seen + [ev])[|seen|] == ev;
      }
    }
  }

  lemma TotalsStep(files: map<seq<Byte>, FileAcc>, rs: seq<Record>, r: Record)
    ensures Total(Noted(files, r), OPS) == Total(files, OPS) + 1
    ensures Total(Noted(files, r), ERRORS) == Total(files, ERRORS) + if Failed(r) then 1 else 0
    ensures AllOpens(rs + [r]) == AllOpens(rs) + if r.kind == EvtOpen then 1 else 0
    ensures AllFailures(rs + [r]) == AllFailures(rs) + if r.kind == EvtOpen && Failed(r) then 1 else 0
  {
    hide Name, Failed, Total;
    assert (rs + [r])[..|rs|] == rs;
    TotalUpdate(files, OPS, Name(r.path), Noted(files, r)[Name(r.path)]);
    TotalUpdate(files, ERRORS, Name(r.path), Noted(files, r)[Name(r.path)]);
  }

  lemma FoldStep(rs: seq<Record>, r: Record)
    ensures forall p :: Opens(rs + [r], p) == Opens(rs, p) + if IsOpen(r, p) then 1 else 0
    ensures forall p :: Failures(rs + [r], p) == Failures(rs, p) + if IsOpen(r, p) && Failed(r) then 1 else 0
    ensures forall p :: IsOpen(r, p) <==> r.kind == EvtOpen && Name(r.path) == p
    ensures Opens(rs, Name(r.path)) == 0 ==> Failures(rs, Name(r.path)) == 0
  {
    hide IsOpen, Failed, Name;
    assert (rs + [r])[..|rs|] == rs;
    FailuresFew(rs, Name(r.path));
    assert forall p :: IsOpen(r, p) <==> r.kind == EvtOpen && Name(r.path) == p by { OpenNames(r); }
  }

  lemma OpenNames(r: Record)
    ensures forall p :: IsOpen(r, p) <==> r.kind == EvtOpen && Name(r.path) == p
  {
  }

  lemma {:induction false} FailuresFew(rs: seq<Record>, name: seq<Byte>)
    ensures Failures(rs, name) <= Opens(rs, name)
  {
    if rs != [] { FailuresFew(rs[..|rs| - 1], name); }
  }

  // ---------------------------------------------------------------- per-file counters and the calls behind them

  ghost predicate Enters(s: State, run: seq<Fire>, e: Fire, name: seq<Byte>) {
    e.Enter? && e.nr == SYS_OPENAT && Targeted(After(s, run).filter, e) && Name(ReadPath(e.args.text)) == name
  }

  ghost predicate Fails(s: State, run: seq<Fire>, e: Fire, name: seq<Byte>) {
    e.Exit? && e.nr == SYS_OPENAT && Attempt(After(s, run), e).Some?
    && Name(Attempt(After(s, run), e).value.path) == name
  }

  /** Followed openat calls that began / failures that were to be reported, under this name. */
  ghost function Began(s: State, run: seq<Fire>, name: seq<Byte>): nat {
    if run == [] then 0
    else Began(s, run[..|run| - 1], name) + if Enters(s, run[..|run| - 1], run[|run| - 1], name) then 1 else 0
  }

  ghost function Failing(s: State, run: seq<Fire>, name: seq<Byte>): nat {
    if run == [] then 0
    else Failing(s, run[..|run| - 1], name) + if Fails(s, run[..|run| - 1], run[|run| - 1], name) then 1 else 0
  }

  /** The same, counting only those whose record was delivered. */
  ghost function BeganSeen(s: State, run: seq<Fire>, name: seq<Byte>): nat {
    if run == [] then 0
    else
      var (front, e) := (run[..|run| - 1], run[|run| - 1]);
      BeganSeen(s, front, name) + if Enters(s, front, e, name) && e.at.room then 1 else 0
  }

  ghost function FailingSeen(s: State, run: seq<Fire>, name: seq<Byte>): nat {
    if run == [] then 0
    else
      var (front, e) := (run[..|run| - 1], run[|run| - 1]);
      FailingSeen(s, front, name) + if Fails(s, front, e, name) && e.at.room then 1 else 0
  }

  /** Entries delivered although their caller set bit 31 of the flags, which the tracer uses to mark
      failures. */
  ghost function MarkedSeen(s: State, run: seq<Fire>, name: seq<Byte>): nat {
    if run == [] then 0
    else
      var (front, e) := (run[..|run| - 1], run[|run| - 1]);
      MarkedSeen(s, front, name)
      + if Enters(s, front, e, name) && e.at.room && TopSet(ToU32(e.args.arg2)) then 1 else 0
  }

  lemma AttemptMeans(s: State, run: seq<Fire>, e: Fire, name: seq<Byte>)
    ensures var r := Attempt(After(s, run), e);
            && (r.Some? && IsOpen(r.value, name) <==> Enters(s, run, e, name) || Fails(s, run, e, name))
            && (Enters(s, run, e, name) ==>
                  !Fails(s, run, e, name) && (Failed(r.value) <==> TopSet(ToU32(e.args.arg2))))
            && (Fails(s, run, e, name) ==> Failed(r.value))
  {
    hide After, Name, ReadPath, Targeted, Swap16, ToU32, ToS32;
  }

  lemma SentAfter(r: Ring, attempt: Option<Record>, at: Where)
    ensures Send(r, attempt, at).sent == if attempt.Some? && at.room then r.sent + [attempt.value] else r.sent
  {
  }

  /** What the counters of a path mean in terms of calls: operations are the entries and the failures
      delivered; errors are the failures, and entries that only look like one. */
  lemma {:induction false} FileCountersMeanCalls(s: State, run: seq<Fire>, name: seq<Byte>)
    requires Loaded(s)
    ensures var sent := After(s, run).ring.sent;
            && Failures(sent, name) == FailingSeen(s, run, name) + MarkedSeen(s, run, name)
            && Opens(sent, name) == BeganSeen(s, run, name) + FailingSeen(s, run, name)
  {
    if run != [] {
      hide Step, Attempt, Send, Loaded, Enters, Fails, IsOpen, Failed, TopSet, ToU32;
      var (front, e) := (run[..|run| - 1], run[|run| - 1]);
      FileCountersMeanCalls(s, front, name);
      var before := After(s, front);
      RingStep(before, e);
      EntersAreEntries(s, front, e, name);
      AttemptMeans(s, front, e, name);
      if e.Retarget? {
        NoAttempt(before, e);
      } else {
        var r := Attempt(before, e);
        SentAfter(before.ring, r, e.at);
        if r.Some? && e.at.room {
          assert (before.ring.sent + [r.value])[..|before.ring.sent|] == before.ring.sent;
        }
      }
    } else {
      NothingSent(s);
    }
  }

  lemma EntersAreEntries(s: State, run: seq<Fire>, e: Fire, name: seq<Byte>)
    ensures Enters(s, run, e, name) ==> e.Enter?
  {
    hide Targeted, Name;
  }

  lemma NothingSent(s: State)
    requires Loaded(s)
    ensures After(s, []).ring.sent == []
  {
  }

  ghost function Waiting(m: map<U32, InFlight>, name: seq<Byte>): set<U32> {
    set t | t in m && m[t].OpenState? && Name(m[t].path) == name
  }

  ghost predicate SameAt(m: map<U32, InFlight>, m': map<U32, InFlight>, t: U32) {
    (t in m <==> t in m') && (t in m ==> m'[t] == m[t])
  }

  lemma WaitingStep(m: map<U32, InFlight>, m': map<U32, InFlight>, tid: U32, name: seq<Byte>)
    requires forall t :: t != tid ==> SameAt(m, m', t)
    ensures Waiting(m', name) - {tid} == Waiting(m, name) - {tid}
    ensures |Waiting(m', name)| - (if tid in Waiting(m', name) then 1 else 0)
            == |Waiting(m, name)| - (if tid in Waiting(m, name) then 1 else 0)
  {
    hide Name;
    var (w, w') := (Waiting(m, name), Waiting(m', name));
    forall t | t != tid ensures t in w <==> t in w' {
      assert SameAt(m, m', t);
    }
    assert w' - {tid} == w - {tid};
    assert tid in w ==> w == w - {tid} + {tid};
    assert tid in w' ==> w' == w' - {tid} + {tid};
  }

  lemma OpensStep(s: State, e: Fire)
    ensures e.Retarget? || e.Exec? ==> Step(s, e).opens == s.opens
    ensures !e.Retarget? ==>
              && (forall t :: t != e.tid ==> SameAt(s.opens, Step(s, e).opens, t))
              && var there := e.tid in Step(s, e).opens;
                 if Targeted(s.filter, e) && e.Exit? && e.nr == SYS_OPENAT then !there
                 else if Targeted(s.filter, e) && e.Enter? && e.nr == SYS_OPENAT
                         && (e.tid in s.opens || |s.opens| < INFLIGHT_CAP) then
                   there && Step(s, e).opens[e.tid] == OpenState(ToU32(e.args.arg2), ReadPath(e.args.text))
                 else (there <==> e.tid in s.opens) && (there ==> Step(s, e).opens[e.tid] == s.opens[e.tid])
  {
    hide Targeted, Step, ReadPath, ToU32;
    TableStep(s, e, SYS_OPENAT);
    if !e.Retarget? {
      TableAt(s.opens, SYS_OPENAT, Targeted(s.filter, e), e, e.tid);
      forall t | t != e.tid
        ensures SameAt(s.opens, Step(s, e).opens, t)
      {
        TableAt(s.opens, SYS_OPENAT, Targeted(s.filter, e), e, t);
      }
    }
  }

  /** No path fails more often than it was opened, whatever the filter and the threads do: every report
      uses up an in-flight entry, and every such entry was made by a followed call under that path. */
  lemma {:induction false} FailuresNeedEntries(s: State, run: seq<Fire>, name: seq<Byte>)
    requires Loaded(s)
    ensures Failing(s, run, name) + |Waiting(After(s, run).opens, name)| <= Began(s, run, name)
  {
    if run == [] {
      NothingWaits(s, name);
    } else {
      hide Step, Attempt, Loaded, Enters, Fails, Waiting;
      var (front, e) := (run[..|run| - 1], run[|run| - 1]);
      FailuresNeedEntries(s, front, name);
      var before := After(s, front);
      if e.Retarget? {
        OpensStep(before, e);
        OnlyCallsCount(s, front, e, name);
      } else {
        OneFiring(s, front, e, name);
      }
    }
  }

  lemma NothingWaits(s: State, name: seq<Byte>)
    requires Loaded(s)
    ensures Waiting(After(s, []).opens, name) == {}
  {
  }

  lemma OnlyCallsCount(s: State, run: seq<Fire>, e: Fire, name: seq<Byte>)
    requires !e.Enter? && !e.Exit?
    ensures !Enters(s, run, e, name) && !Fails(s, run, e, name)
  {
  }

  lemma OneFiring(s: State, run: seq<Fire>, e: Fire, name: seq<Byte>)
    requires !e.Retarget?
    ensures (if Fails(s, run, e, name) then 1 else 0) + |Waiting(Step(After(s, run), e).opens, name)|
            <= |Waiting(After(s, run).opens, name)| + if Enters(s, run, e, name) then 1 else 0
  {
    hide Step, After, Name, Targeted, ReadPath;
    var before := After(s, run);
    OpensStep(before, e);
    WaitingStep(before.opens, Step(before, e).opens, e.tid, name);
  }

  lemma {:induction false} SeenOrDropped(s: State, run: seq<Fire>, name: seq<Byte>)
    ensures BeganSeen(s, run, name) <= Began(s, run, name) && FailingSeen(s, run, name) <= Failing(s, run, name)
    ensures (forall i :: 0 <= i < |run| && run[i].Enter? ==> run[i].at.room) ==>
              BeganSeen(s, run, name) == Began(s, run, name)
  {
    if run != [] {
      hide Enters, Fails;
      var (front, e) := (run[..|run| - 1], run[|run| - 1]);
      SeenOrDropped(s, front, name);
      EntersAreEntries(s, front, e, name);
    }
  }

  /** So for every path the table shows at most as many errors as entries, but for entries whose records
      were dropped and for flags that carry the failure mark themselves. */
  lemma NoMoreErrorsThanOpens(s: State, run: seq<Fire>, name: seq<Byte>)
    requires Loaded(s)
    ensures var sent := After(s, run).ring.sent;
            var (errors, entries) := (Failures(sent, name), BeganSeen(s, run, name));
            && Opens(sent, name) - errors == entries - MarkedSeen(s, run, name)
            && errors <= Began(s, run, name) + MarkedSeen(s, run, name)
            && ((forall i :: 0 <= i < |run| && run[i].Enter? ==> run[i].at.room) ==>
                  errors <= entries + MarkedSeen(s, run, name))
  {
    hide *;
    FileCountersMeanCalls(s, run, name);
    FailuresNeedEntries(s, run, name);
    SeenOrDropped(s, run, name);
  }

  // ---------------------------------------------------------------- the kernel's error counter

  /** A call that a thread is in. */
  datatype Call = Call(tgid: U32, nr: U32)

  /** The call that a thread is in, if it is in one.  `begun` are the calls that threads were already in
      when the run began: the tracer may be loaded while they block. */
  ghost function InCall(begun: map<U32, Call>, run: seq<Fire>, tid: U32): Option<Call> {
    if run == [] then if tid in begun then Some(begun[tid]) else None
    else
      var e := run[|run| - 1];
      if (e.Enter? || e.Exit? || e.Death?) && e.tid == tid then
        if e.Enter? then Some(Call(e.tgid, e.nr)) else None
      else InCall(begun, run[..|run| - 1], tid)
  }

  /** The threads of a process that are inside some call. */
  ghost function InCalls(begun: map<U32, Call>, run: seq<Fire>, tgid: U32): set<U32> {
    if run == [] then set t | t in begun && begun[t].tgid == tgid
    else
      var (before, e) := (InCalls(begun, run[..|run| - 1], tgid), run[|run| - 1]);
      match e
      case Enter(tid, g, _, _, _) => if g == tgid then before + {tid} else before - {tid}
      case Exit(tid, _, _, _, _) => before - {tid}
      case Death(tid, _, _) => before - {tid}
      case _ => before
  }

  lemma {:induction false} InCallsIs(begun: map<U32, Call>, run: seq<Fire>, tgid: U32, tid: U32)
    ensures tid in InCalls(begun, run, tgid) <==>
              InCall(begun, run, tid).Some? && InCall(begun, run, tid).value.tgid == tgid
    ensures Inside(run, tid).Some? ==>
              InCall(begun, run, tid) == Some(Call(run[Inside(run, tid).value].tgid, run[Inside(run, tid).value].nr))
  {
    if run != [] { InCallsIs(begun, run[..|run| - 1], tgid, tid); }
  }

  /** A failed return from a call that nobody saw begin; the kernel reports one, for instance, when a
      seccomp filter denies a call. */
  ghost predicate Stray(begun: map<U32, Call>, run: seq<Fire>, e: Fire, tgid: U32) {
    e.Exit? && e.tgid == tgid && e.ret < 0 && e.tid !in InCalls(begun, run, tgid)
  }

  /** How many of them came at position b or later. */
  ghost function Strays(begun: map<U32, Call>, run: seq<Fire>, tgid: U32, b: nat): nat {
    if |run| <= b then 0
    else
      var (front, e) := (run[..|run| - 1], run[|run| - 1]);
      Strays(begun, front, tgid, b) + if Stray(begun, front, e, tgid) then 1 else 0
  }

  /** When the present process_stats entry of the process was created. */
  ghost function Birth(s: State, run: seq<Fire>, tgid: U32): (b: Option<nat>)
    ensures b.Some? ==> b.value < |run|
  {
    if run == [] || tgid !in After(s, run).stats then None
    else
      var front := run[..|run| - 1];
      if tgid in After(s, front).stats then
        var b := Birth(s, front, tgid);
        b
      else Some(|front|)
  }

  /** Since position b, all calls of the process were followed. */
  ghost predicate FollowedSince(s: State, run: seq<Fire>, tgid: U32, b: nat) {
    forall i :: b <= i < |run| && (run[i].Enter? || run[i].Exit?) && run[i].tgid == tgid ==> Followed(s, run, i)
  }

  lemma StatsStep(s: State, e: Fire, tgid: U32)
    requires tgid in Step(s, e).stats
    ensures var (m, m') := (s.stats, Step(s, e).stats);
            var counted := !e.Retarget? && e.tgid == tgid && Targeted(s.filter, e);
            if tgid in m then
              && m'[tgid].syscalls == (if counted && e.Enter? then Add64(m[tgid].syscalls, 1) else m[tgid].syscalls)
              && m'[tgid].errs == (if counted && e.Exit? && e.ret < 0 then Add64(m[tgid].errs, 1) else m[tgid].errs)
            else counted && e.Enter? && m'[tgid].syscalls == 1 && m'[tgid].errs == 0
  {
    hide Targeted, Bump, Table, Send, Attempt, Capture;
    match e
    case Enter(_, _, _, _, _) =>
    case Exit(_, _, _, _, _) =>
    case _ =>
  }

  ghost predicate Covered(begun: map<U32, Call>, s: State, run: seq<Fire>, tgid: U32, b: nat)
    requires b < |run| && run[b].Enter?
  {
    && tgid in After(s, run).stats
    && var st := After(s, run).stats[tgid];
       && st.errs + |InCalls(begun, run, tgid)|
          <= st.syscalls + |InCalls(begun, run[..b], tgid) - {run[b].tid}| + Strays(begun, run, tgid, b)
       && st.syscalls + st.errs <= |run|
  }

  lemma CoveredStep(begun: map<U32, Call>, s: State, run: seq<Fire>, e: Fire, tgid: U32, b: nat)
    requires b < |run| < U64_SIZE - 1 && run[b].Enter? && Covered(begun, s, run, tgid, b)
    requires tgid in Step(After(s, run), e).stats
    requires (e.Enter? || e.Exit?) && e.tgid == tgid ==> Targeted(After(s, run).filter, e)
    ensures Covered(begun, s, run + [e], tgid, b)
  {
    hide Step, Targeted, After, InCalls;
    Snoc(s, run, e);
    StatsStep(After(s, run), e, tgid);
    InCallsMoves(begun, run, e, tgid);
    assert (run + [e])[..b] == run[..b] && (run + [e])[..|run|] == run;
  }

  lemma CoveredBirth(begun: map<U32, Call>, s: State, run: seq<Fire>, e: Fire, tgid: U32)
    requires tgid !in After(s, run).stats && tgid in Step(After(s, run), e).stats
    ensures e.Enter? && Covered(begun, s, run + [e], tgid, |run|)
  {
    hide Step, Targeted, After, InCalls;
    Snoc(s, run, e);
    StatsStep(After(s, run), e, tgid);
    InCallsMoves(begun, run, e, tgid);
    assert (run + [e])[..|run|] == run;
  }

  /** Within one life of a process's entry, followed throughout: errors plus calls still open never exceed
      calls counted, plus the calls that other threads were in when the entry was created, plus failed
      returns that nobody saw begin.  Nothing is asked of the threads. */
  lemma {:induction false} ErrorsAreCovered(begun: map<U32, Call>, s: State, run: seq<Fire>, tgid: U32)
    requires Birth(s, run, tgid).Some? && |run| < U64_SIZE
    requires FollowedSince(s, run, tgid, Birth(s, run, tgid).value)
    requires tgid !in s.stats
    ensures tgid in After(s, run).stats && run[Birth(s, run, tgid).value].Enter?
    ensures var (st, b) := (After(s, run).stats[tgid], Birth(s, run, tgid).value);
            && st.errs + |InCalls(begun, run, tgid)|
               <= st.syscalls + |InCalls(begun, run[..b], tgid) - {run[b].tid}| + Strays(begun, run, tgid, b)
            && st.syscalls + st.errs <= |run|
  {
    hide Step, Targeted, InCalls, Strays;
    var (front, e) := (run[..|run| - 1], run[|run| - 1]);
    var b := Birth(s, run, tgid).value;
    assert run == front + [e];
    if tgid in After(s, front).stats {
      BirthInside(s, front, tgid);
      FollowedBefore(s, front, e, tgid, b);
      ErrorsAreCovered(begun, s, front, tgid);
      assert front[..b] == run[..b];
      CoveredStep(begun, s, front, e, tgid, b);
    } else {
      CoveredBirth(begun, s, front, e, tgid);
    }
  }

  lemma FollowedBefore(s: State, run: seq<Fire>, e: Fire, tgid: U32, b: nat)
    requires FollowedSince(s, run + [e], tgid, b) && b <= |run|
    ensures FollowedSince(s, run, tgid, b)
    ensures (e.Enter? || e.Exit?) && e.tgid == tgid ==> Targeted(After(s, run).filter, e)
  {
    hide After, Targeted;
    assert (run + [e])[..|run|] == run;
    assert (e.Enter? || e.Exit?) && e.tgid == tgid ==> Followed(s, run + [e], |run|);
    forall i | b <= i < |run| && (run[i].Enter? || run[i].Exit?) && run[i].tgid == tgid ensures Followed(s, run, i) {
      assert Followed(s, run + [e], i) && run[..i] == (run + [e])[..i];
    }
  }

  lemma {:induction false} BirthInside(s: State, run: seq<Fire>, tgid: U32)
    requires tgid in After(s, run).stats && tgid !in s.stats
    ensures Birth(s, run, tgid).Some?
  {
    hide Step;
    if run != [] && tgid in After(s, run[..|run| - 1]).stats {
      BirthInside(s, run[..|run| - 1], tgid);
    }
  }

  lemma InCallsMoves(begun: map<U32, Call>, run: seq<Fire>, e: Fire, tgid: U32)
    ensures var (was, now) := (InCalls(begun, run, tgid), InCalls(begun, run + [e], tgid));
            && |now| <= |was| + (if e.Enter? && e.tgid == tgid then 1 else 0)
            && (e.Enter? && e.tgid == tgid ==> |now| == |was - {e.tid}| + 1)
            && (e.Exit? && e.tid in was ==> |now| + 1 == |was|)
  {
    var was := InCalls(begun, run, tgid);
    assert (run + [e])[..|run|] == run;
    if e.Enter? && e.tgid == tgid {
      assert was + {e.tid} == was - {e.tid} + {e.tid};
      SubsetSize(was - {e.tid}, was);
    } else if e.Enter? || e.Exit? || e.Death? {
      SubsetSize(was - {e.tid}, was);
    }
  }

  lemma BirthSnoc(s: State, run: seq<Fire>, e: Fire, tgid: U32)
    ensures Birth(s, run + [e], tgid) ==
              if tgid !in Step(After(s, run), e).stats then None
              else if tgid in After(s, run).stats then Birth(s, run, tgid)
              else Some(|run|)
  {
    hide Step;
    Snoc(s, run, e);
    assert (run + [e])[..|run|] == run;
  }

  /** A pinned process is followed as long as nobody rewrites the configuration. */
  lemma {:induction false} PinStays(s: State, run: seq<Fire>)
    requires forall i :: 0 <= i < |run| ==> !run[i].Retarget?
    ensures After(s, run).filter.config == s.filter.config
  {
    if run != [] { PinStays(s, run[..|run| - 1]); }
  }

  lemma PinnedIsFollowed(s: State, run: seq<Fire>, tgid: U32)
    requires s.filter.config.targetTgid == tgid != 0 && forall i :: 0 <= i < |run| ==> !run[i].Retarget?
    ensures FollowedSince(s, run, tgid, 0)
  {
    forall i | 0 <= i < |run| && (run[i].Enter? || run[i].Exit?) && run[i].tgid == tgid ensures Followed(s, run, i) {
      PinStays(s, run[..i]);
    }
  }

  // ---------------------------------------------------------------- when errors never exceed calls

  /** A call that returns an error was seen to begin, or was one of those already begun. */
  ghost predicate Entered(begun: map<U32, Call>, run: seq<Fire>) {
    run == [] || (Entered(begun, run[..|run| - 1]) && MayReturn(begun, run[..|run| - 1], run[|run| - 1]))
  }

  ghost predicate MayReturn(begun: map<U32, Call>, run: seq<Fire>, e: Fire) {
    e.Exit? ==>
      var c := InCall(begun, run, e.tid);
      && (e.ret < 0 ==> c.Some?)
      && (c.Some? ==> c.value.tgid == e.tgid && (Paired(e.nr) || Paired(c.value.nr) ==> c.value.nr == e.nr))
  }

  lemma {:induction false} NoStrays(begun: map<U32, Call>, run: seq<Fire>, tgid: U32, b: nat)
    requires Entered(begun, run)
    ensures Strays(begun, run, tgid, b) == 0
  {
    if |run| > b {
      var (front, e) := (run[..|run| - 1], run[|run| - 1]);
      NoStrays(begun, front, tgid, b);
      if e.Exit? { InCallsIs(begun, front, tgid, e.tid); }
    }
  }

  /** The run goes on, and the process keeps its present entry and is followed. */
  ghost predicate Continues(begun: map<U32, Call>, s: State, run: seq<Fire>, more: seq<Fire>, tgid: U32, b: nat) {
    && Possible(run + more) && Entered(begun, run + more) && |run + more| < U64_SIZE
    && Birth(s, run + more, tgid) == Some(b) && FollowedSince(s, run + more, tgid, b)
  }

  ghost predicate ErrorsWithinCalls(s: State, run: seq<Fire>, tgid: U32) {
    tgid in After(s, run).stats && After(s, run).stats[tgid].errs <= After(s, run).stats[tgid].syscalls
  }

  /** An entry just made for a process shows no more errors than calls, however things go on, exactly if
      no other thread of the process was inside a call when it was made. */
  lemma ErrorsWithinCallsIff(begun: map<U32, Call>, s: State, run: seq<Fire>, tgid: U32)
    requires Possible(run) && Entered(begun, run) && |run| + 2 < U64_SIZE
    requires tgid !in s.stats && Birth(s, run, tgid) == Some(|run| - 1)
    ensures run[|run| - 1].Enter?
    ensures (forall more :: Continues(begun, s, run, more, tgid, |run| - 1) ==> ErrorsWithinCalls(s, run + more, tgid))
            <==> InCalls(begun, run[..|run| - 1], tgid) <= {run[|run| - 1].tid}
  {
    hide After, Possible, Entered, Birth, FollowedSince, InCalls, Strays;
    var b := |run| - 1;
    assert run == run[..b] + [run[b]];
    JustBorn(s, run[..b], run[b], tgid);
    if InCalls(begun, run[..b], tgid) <= {run[b].tid} {
      forall more | Continues(begun, s, run, more, tgid, b) ensures ErrorsWithinCalls(s, run + more, tgid) {
        ErrorsAreCovered(begun, s, run + more, tgid);
        NoStrays(begun, run + more, tgid, b);
        assert (run + more)[..b] == run[..b] && (run + more)[b] == run[b];
        assert InCalls(begun, run[..b], tgid) - {run[b].tid} == {};
      }
    } else {
      var t :| t in InCalls(begun, run[..b], tgid) && t != run[b].tid;
      var more := BothFail(begun, s, run, tgid, t);
      assert !ErrorsWithinCalls(s, run + more, tgid);
    }
  }

  /** The thread that made the entry and one that was already in a call both come back with an error. */
  lemma BothFail(begun: map<U32, Call>, s: State, run: seq<Fire>, tgid: U32, t: U32) returns (more: seq<Fire>)
    requires Possible(run) && Entered(begun, run) && |run| + 2 < U64_SIZE
    requires tgid !in s.stats && Birth(s, run, tgid) == Some(|run| - 1)
    requires run[|run| - 1].Enter?
    requires t in InCalls(begun, run[..|run| - 1], tgid) && t != run[|run| - 1].tid
    ensures Continues(begun, s, run, more, tgid, |run| - 1) && !ErrorsWithinCalls(s, run + more, tgid)
  {
    hide After, Possible, Entered, Birth, FollowedSince, InCalls, Step, Targeted;
    var (front, e) := (run[..|run| - 1], run[|run| - 1]);
    assert run == front + [e];
    JustBorn(s, front, e, tgid);
    InCallsIs(begun, front, tgid, t);
    InCallSnoc(begun, front, e);
    Snoc(s, front, e);
    InCallsIs(begun, run, tgid, t);
    var x1 := Exit(e.tid, tgid, e.nr, -1, e.at);
    OneFails(begun, s, run, x1, tgid, |run| - 1);
    InCallSnoc(begun, run, x1);
    Snoc(s, run, x1);
    var x2 := Exit(t, tgid, InCall(begun, front, t).value.nr, -1, e.at);
    InCallsIs(begun, run + [x1], tgid, t);
    OneFails(begun, s, run + [x1], x2, tgid, |run| - 1);
    more := [x1, x2];
    assert run + more == run + [x1] + [x2];
  }

  lemma InCallSnoc(begun: map<U32, Call>, run: seq<Fire>, e: Fire)
    ensures forall t :: InCall(begun, run + [e], t) ==
              if (e.Enter? || e.Exit? || e.Death?) && e.tid == t then if e.Enter? then Some(Call(e.tgid, e.nr)) else None
              else InCall(begun, run, t)
  {
    assert (run + [e])[..|run|] == run;
  }

  lemma JustBorn(s: State, run: seq<Fire>, e: Fire, tgid: U32)
    requires tgid !in s.stats && Birth(s, run + [e], tgid) == Some(|run|)
    ensures FollowedSince(s, run + [e], tgid, |run|)
    ensures tgid in After(s, run + [e]).stats && e.Enter? && e.tgid == tgid
    ensures After(s, run + [e]).stats[tgid].errs == 0 && After(s, run + [e]).stats[tgid].syscalls == 1
    ensures IsTarget(After(s, run + [e]).filter, tgid, e.at.comm)
  {
    hide Step, IsTarget;
    Snoc(s, run, e);
    assert (run + [e])[..|run|] == run;
    StatsStep(After(s, run), e, tgid);
    FilterStays(After(s, run), e);
  }

  lemma FilterStays(s: State, e: Fire)
    requires e.Enter? || e.Exit?
    ensures Step(s, e).filter == s.filter
    ensures e.Exit? ==> Step(s, e).stats.Keys == s.stats.Keys
  {
    hide Targeted, EnterStats, Bump, Table, Send, Attempt;
  }

  lemma OneFails(begun: map<U32, Call>, s: State, run: seq<Fire>, e: Fire, tgid: U32, b: nat)
    requires Possible(run) && Entered(begun, run) && May(run, e) && MayReturn(begun, run, e)
    requires e.Exit? && e.tgid == tgid && e.ret < 0 && IsTarget(After(s, run).filter, tgid, e.at.comm)
    requires Birth(s, run, tgid) == Some(b) && FollowedSince(s, run, tgid, b)
    requires tgid in After(s, run).stats && After(s, run).stats[tgid].errs < U64_SIZE - 1
    ensures Possible(run + [e]) && Entered(begun, run + [e])
    ensures Birth(s, run + [e], tgid) == Some(b) && FollowedSince(s, run + [e], tgid, b)
    ensures tgid in After(s, run + [e]).stats && After(s, run + [e]).filter == After(s, run).filter
    ensures var (st, st') := (After(s, run).stats[tgid], After(s, run + [e]).stats[tgid]);
            st'.errs == st.errs + 1 && st'.syscalls == st.syscalls
  {
    hide After, Step, IsTarget, Possible, Birth, Inside, May, MayReturn;
    Snoc(s, run, e);
    assert (run + [e])[..|run|] == run;
    FilterStays(After(s, run), e);
    BirthSnoc(s, run, e, tgid);
    StatsStep(After(s, run), e, tgid);
    forall i | b <= i < |run + [e]| && ((run + [e])[i].Enter? || (run + [e])[i].Exit?) && (run + [e])[i].tgid == tgid
      ensures Followed(s, run + [e], i)
    {
      if i < |run| {
        assert Followed(s, run, i) && (run + [e])[..i] == run[..i];
      }
    }
  }

  const AT := Where([], 0, true)
  const NO_ARGS := Args(0, 0, None, None)

  /** Thread 1 is in a call when thread 2 dies; thread 3 then begins a call; both return with an error. */
  const MISCOUNTED: seq<Fire> := [Enter(1, 1, 0, NO_ARGS, AT), Death(2, 1, AT), Enter(3, 1, 0, NO_ARGS, AT),
                                  Exit(1, 1, 0, -5, AT), Exit(3, 1, 0, -5, AT)]

  /** Without the second term it is false.  A thread's exit discards the entry of its whole process, so
      threads inside a call at that moment come back with errors whose calls are no longer counted. */
  lemma MoreErrorsThanCalls()
    ensures var s := Quiet(Filter(Config(1, false, []), {}));
            && Possible(MISCOUNTED) && Entered(map[], MISCOUNTED) && Birth(s, MISCOUNTED, 1) == Some(2) && FollowedSince(s, MISCOUNTED, 1, 0)
            && 1 in After(s, MISCOUNTED).stats
            && After(s, MISCOUNTED).stats[1].errs == 2 && After(s, MISCOUNTED).stats[1].syscalls == 1
  {
    hide After, Inside, Possible, Birth, FollowedSince, Entered, Table, Bump, Attempt, Send;
    MiscountedIsEntered();
    var s := Quiet(Filter(Config(1, false, []), {}));
    var r := MISCOUNTED;
    PinnedIsFollowed(s, r, 1);
    assert r[..0] == [] && r[..1] == r[..0] + [r[0]] && r[..2] == r[..1] + [r[1]];
    assert r[..3] == r[..2] + [r[2]] && r[..4] == r[..3] + [r[3]] && r == r[..4] + [r[4]];
    Nothing(s);
    assert After(s, []).stats == map[] && forall n | 0 <= n < 5 :: !r[n].Retarget?;
    forall n | 0 <= n < 5 ensures Targeted(After(s, r[..n]).filter, r[n]) { PinStays(s, r[..n]); }
    Snoc(s, r[..0], r[0]);
    BirthSnoc(s, r[..0], r[0], 1);
    Snoc(s, r[..1], r[1]);
    BirthSnoc(s, r[..1], r[1], 1);
    assert 1 !in After(s, r[..2]).stats;
    Snoc(s, r[..2], r[2]);
    BirthSnoc(s, r[..2], r[2], 1);
    StatsBorn(After(s, r[..2]), r[2], 1);
    StatsStep(After(s, r[..2]), r[2], 1);
    Snoc(s, r[..3], r[3]);
    BirthSnoc(s, r[..3], r[3], 1);
    StatsStep(After(s, r[..3]), r[3], 1);
    Snoc(s, r[..4], r[4]);
    BirthSnoc(s, r[..4], r[4], 1);
    StatsStep(After(s, r[..4]), r[4], 1);
  }

  lemma MiscountedIsEntered()
    ensures Entered(map[], MISCOUNTED)
  {
    hide InCall;
    var r := MISCOUNTED;
    assert r[..0] == [] && r[..1] == r[..0] + [r[0]] && r[..2] == r[..1] + [r[1]];
    assert r[..3] == r[..2] + [r[2]] && r[..4] == r[..3] + [r[3]] && r == r[..4] + [r[4]];
    InCallSnoc(map[], r[..0], r[0]);
    InCallSnoc(map[], r[..1], r[1]);
    InCallSnoc(map[], r[..2], r[2]);
    InCallSnoc(map[], r[..3], r[3]);
    EnteredSnoc(map[], r[..0], r[0]);
    EnteredSnoc(map[], r[..1], r[1]);
    EnteredSnoc(map[], r[..2], r[2]);
    EnteredSnoc(map[], r[..3], r[3]);
    EnteredSnoc(map[], r[..4], r[4]);
  }

  lemma EnteredSnoc(begun: map<U32, Call>, run: seq<Fire>, e: Fire)
    ensures Entered(begun, run + [e]) <==> Entered(begun, run) && MayReturn(begun, run, e)
  {
    assert (run + [e])[..|run|] == run;
  }

  lemma Nothing(s: State)
    ensures After(s, []) == s && Possible([]) && (forall t :: Inside([], t) == None) && forall g :: Birth(s, [], g) == None
  {
  }

  lemma StatsBorn(s: State, e: Fire, tgid: U32)
    requires e.Enter? && e.tgid == tgid && Targeted(s.filter, e) && |s.stats| < STATS_CAP
    ensures tgid in Step(s, e).stats
  {
    hide Targeted, Bump, Table, Send, Attempt, Capture;
  }

  // ---------------------------------------------------------------- what the process counters count

  datatype Field = Syscalls | Errs | ReadBytes | WriteBytes | NetTx | NetRx | OpenCount | ConnectCount

  function Get(st: Stats, f: Field): U64 {
    match f
    case Syscalls => st.syscalls
    case Errs => st.errs
    case ReadBytes => st.readBytes
    case WriteBytes => st.writeBytes
    case NetTx => st.netTx
    case NetRx => st.netRx
    case OpenCount => st.opens
    case ConnectCount => st.connects
  }

  /** What a single followed firing is worth to a counter: calls are counted where they begin, errors and
      transferred bytes where they end. */
  function Worth(e: Fire, f: Field): nat {
    match e
    case Enter(_, _, nr, a, _) =>
      if f == Syscalls || (f == OpenCount && nr == 257)
         || (f == ConnectCount && nr == 42 && a.addr.Some? && a.addr.value.family == 2) then 1
      else 0
    case Exit(_, _, nr, ret, _) =>
      if f == Errs then if ret < 0 then 1 else 0
      else if ret > 0
              && ((f == ReadBytes && nr in {0, 17, 19})
                  || (f == WriteBytes && nr in {1, 18, 20})
                  || (f == NetTx && nr in {44, 46})
                  || (f == NetRx && nr in {45, 47})) then ret
      else 0
    case _ => 0
  }

  ghost predicate Counting(s: State, e: Fire, tgid: U32) {
    (e.Enter? || e.Exit?) && e.tgid == tgid && Targeted(s.filter, e)
  }

  /** The worth of all followed calls of the process since position b. */
  ghost function Earned(s: State, run: seq<Fire>, tgid: U32, f: Field, b: nat): nat {
    if |run| <= b then 0
    else
      var (front, e) := (run[..|run| - 1], run[|run| - 1]);
      Earned(s, front, tgid, f, b) + if Counting(After(s, front), e, tgid) then Worth(e, f) else 0
  }

  lemma EnterWorth(m: map<U32, Stats>, e: Fire, f: Field)
    requires e.Enter? && e.tgid in EnterStats(m, e)
    ensures Get(EnterStats(m, e)[e.tgid], f) == Add64(if e.tgid in m then Get(m[e.tgid], f) else 0, Worth(e, f))
  {
    hide Add64, ReadPath, Swap16;
    assert forall x: U64 :: Add64(x, 0) == x by { AddNothing(); }
    match f
    case Syscalls =>
    case OpenCount =>
    case ConnectCount =>
    case _ =>
  }

  lemma AddNothing()
    ensures forall x: U64 :: Add64(x, 0) == x
  {
  }

  lemma ExitWorth(m: map<U32, Stats>, e: Fire, f: Field)
    requires e.Exit?
    ensures forall g :: (g in ExitStats(m, e) <==> g in m) && (g != e.tgid && g in m ==> ExitStats(m, e)[g] == m[g])
    ensures e.tgid in m ==> Get(ExitStats(m, e)[e.tgid], f) == Add64(Get(m[e.tgid], f), Worth(e, f))
  {
  }

  lemma FieldStep(s: State, e: Fire, tgid: U32, f: Field)
    requires tgid in Step(s, e).stats
    ensures tgid !in s.stats ==> Counting(s, e, tgid)
    ensures Get(Step(s, e).stats[tgid], f) ==
              Add64(if tgid in s.stats then Get(s.stats[tgid], f) else 0, if Counting(s, e, tgid) then Worth(e, f) else 0)
  {
    hide Targeted, Bump, Table, Send, Attempt, Capture, EnterStats, ExitStats, Worth, Get;
    match e
    case Enter(_, _, _, _, _) =>
      if Targeted(s.filter, e) {
        EnterKeepsOthers(s.stats, e);
        if e.tgid in EnterStats(s.stats, e) { EnterWorth(s.stats, e, f); }
      }
    case Exit(_, _, _, _, _) =>
      if Targeted(s.filter, e) { ExitWorth(s.stats, e, f); }
    case _ =>
  }

  lemma EnterKeepsOthers(m: map<U32, Stats>, e: Fire)
    requires e.Enter?
    ensures forall g :: g != e.tgid ==> (g in EnterStats(m, e) <==> g in m) && (g in m ==> EnterStats(m, e)[g] == m[g])
  {
  }

  /** Each counter of a process is, in 64-bit arithmetic, the total worth of its followed calls since the
      entry was created; no discipline of the threads or the filter is needed. */
  lemma {:induction false} CountersAreTotals(s: State, run: seq<Fire>, tgid: U32, f: Field)
    requires tgid !in s.stats && Birth(s, run, tgid).Some?
    ensures tgid in After(s, run).stats
    ensures Get(After(s, run).stats[tgid], f) == Earned(s, run, tgid, f, Birth(s, run, tgid).value) % U64_SIZE
  {
    hide Step, Targeted, Worth, Get, Add64, Counting;
    var (front, e) := (run[..|run| - 1], run[|run| - 1]);
    var b := Birth(s, run, tgid).value;
    FieldStep(After(s, front), e, tgid, f);
    var worth := if Counting(After(s, front), e, tgid) then Worth(e, f) else 0;
    if tgid in After(s, front).stats {
      BirthInside(s, front, tgid);
      CountersAreTotals(s, front, tgid, f);
      AddMod(Earned(s, front, tgid, f, b), worth);
    } else {
      AddMod(0, worth);
    }
  }

  ghost function Tally(s: State, run: seq<Fire>, nr: U32): nat {
    if run == [] then 0
    else
      var (front, e) := (run[..|run| - 1], run[|run| - 1]);
      Tally(s, front, nr) + if e.Enter? && e.nr == nr && Targeted(After(s, front).filter, e) then 1 else 0
  }

  lemma CountsStep(s: State, e: Fire, nr: U32)
    ensures |s.counts| <= |Step(s, e).counts| && (|s.counts| <= COUNTS_CAP ==> |Step(s, e).counts| <= COUNTS_CAP)
    ensures var (m, m', hit) := (s.counts, Step(s, e).counts, e.Enter? && e.nr == nr && Targeted(s.filter, e));
            if nr in m then nr in m' && m'[nr] == if hit then Add64(m[nr], 1) else m[nr]
            else if hit && |m| < COUNTS_CAP then nr in m' && m'[nr] == 1
            else nr !in m'
  {
    hide Targeted, Table, Send, Attempt, Capture, EnterStats, ExitStats;
    match e
    case Enter(_, _, n, _, _) => BumpSize(s.counts, n);
    case _ =>
  }

  lemma BumpSize(m: map<U32, U64>, nr: U32)
    ensures |Bump(m, nr)| == if nr in m || |m| >= COUNTS_CAP then |m| else |m| + 1
  {
    if nr in m {
      assert m[nr := Add64(m[nr], 1)].Keys == m.Keys;
    } else {
      assert m[nr := 1].Keys == m.Keys + {nr};
    }
  }

  /** Every syscall in the table has its exact number of followed entries, and one that was followed is
      missing only if the table is full. */
  lemma {:induction false} SyscallTableIsExact(s: State, run: seq<Fire>, nr: U32)
    requires Loaded(s)
    ensures var m := After(s, run).counts;
            && |m| <= 512
            && (nr in m ==> Tally(s, run, nr) > 0 && m[nr] == Tally(s, run, nr) % U64_SIZE)
            && (nr !in m ==> Tally(s, run, nr) == 0 || |m| == 512)
  {
    if run != [] {
      hide Step, Targeted, Loaded, Add64;
      var (front, e) := (run[..|run| - 1], run[|run| - 1]);
      CountsStep(After(s, front), e, nr);
      SyscallTableIsExact(s, front, nr);
      AddMod(Tally(s, front, nr), 1);
    } else {
      NothingCounted(s);
    }
  }

  lemma NothingCounted(s: State)
    requires Loaded(s)
    ensures After(s, []).counts == map[]
  {
  }
}
