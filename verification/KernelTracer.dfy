/** The kernel half of the tracer: the five tracepoints of backend/bpf/agent.bpf.c, with the maps
    they keep and the ring buffer they write.

    `Fire` is one tracepoint firing with everything it reads: the thread, the call's number,
    arguments or result, the current comm and cpu, and whether the ring buffer had room; an exec's
    `file` is the name of the new program, if it lies within reach.
    `Retarget` is userspace rewriting the filter.  Firings are taken one at a time.  Syscall
    numbers are those of x86_64. */
module KernelTracer {
  import opened MachineTypes
  import opened ProcessFilter

  const SYS_READ: U32 := 0
  const SYS_WRITE: U32 := 1
  const SYS_PREAD64: U32 := 17
  const SYS_PWRITE64: U32 := 18
  const SYS_READV: U32 := 19
  const SYS_WRITEV: U32 := 20
  const SYS_CONNECT: U32 := 42
  const SYS_ACCEPT: U32 := 43
  const SYS_SENDTO: U32 := 44
  const SYS_RECVFROM: U32 := 45
  const SYS_SENDMSG: U32 := 46
  const SYS_RECVMSG: U32 := 47
  const SYS_OPENAT: U32 := 257
  const SYS_ACCEPT4: U32 := 288

  const AF_INET := 2
  const EINPROGRESS := 115
  const STATS_CAP := 1024
  const COUNTS_CAP := 512
  const INFLIGHT_CAP := 32768
  const PATH_MAX := 127
  const TOP_BIT := 0x8000_0000

  // ---------------------------------------------------------------- data

  datatype Kind = EvtExec | EvtExit | EvtOpen | EvtConnect | EvtAccept

  datatype Record = Record(kind: Kind, pid: U32, tgid: U32, ret: int, flags: U32, extra: U64,
                           daddr: U32, dport: U16, family: U16, comm: seq<Byte>, path: seq<Byte>)

  datatype Stats = Stats(syscalls: U64, errs: U64, readBytes: U64, writeBytes: U64,
                         netTx: U64, netRx: U64, opens: U64, connects: U64)

  /** What sys_enter remembers for sys_exit. */
  datatype InFlight = OpenState(flags: U32, path: seq<Byte>)
                    | ConnectState(daddr: U32, dport: U16, family: U16, fd: U32)

  datatype Sockaddr = Sockaddr(family: U16, port: U16, addr: U32)

  /** args[0], args[2], and what reading user memory at args[1] yields: as a path, as an address. */
  datatype Args = Args(arg0: U64, arg2: U64, text: Option<seq<Byte>>, addr: Option<Sockaddr>)

  datatype Where = Where(comm: seq<Byte>, cpu: nat, room: bool)

  datatype Fire =
    | Enter(tid: U32, tgid: U32, nr: U32, args: Args, at: Where)
    | Exit(tid: U32, tgid: U32, nr: U32, ret: Int64, at: Where)
    | Death(tid: U32, tgid: U32, at: Where)
    | Exec(tid: U32, tgid: U32, file: Option<seq<Byte>>, at: Where)
    | Retarget(filter: Filter)

  datatype Ring = Ring(sent: seq<Record>, drops: seq<U64>)

  datatype State = State(filter: Filter, stats: map<U32, Stats>, counts: map<U32, U64>,
                         opens: map<U32, InFlight>, conns: map<U32, InFlight>, ring: Ring)

  /** (__s32)n */
  function ToS32(n: int): int { if n % U32_SIZE < TOP_BIT then n % U32_SIZE else n % U32_SIZE - U32_SIZE }

  /** flags | 0x80000000 */
  function SetTop(flags: U32): U32 { if flags < TOP_BIT then flags + TOP_BIT else flags }

  predicate TopSet(flags: U32) { flags >= TOP_BIT }

  /** The port of a sockaddr, from network byte order. */
  function Swap16(p: U16): U16 { p / 0x100 + p % 0x100 * 0x100 }

  /** A string read into a zeroed buffer of 128 bytes, or none */
  function ReadPath(text: Option<seq<Byte>>): seq<Byte> {
    if text.None? then []
    else if |CStr(text.value)| <= PATH_MAX then CStr(text.value)
    else CStr(text.value)[..PATH_MAX]
  }

  /** What of a name survives: its first 127 bytes before the NUL. */
  lemma PathIsCut(name: seq<Byte>)
    ensures ReadPath(Some(name)) <= CStr(name) && ReadPath(None) == []
    ensures |ReadPath(Some(name))| == if |CStr(name)| < 127 then |CStr(name)| else 127
  {
  }

  /** How results, flags and ports are narrowed: a result to the signed 32-bit number of the same residue, and
      bit 31 of the flags set without touching the others. */
  lemma WordsConvert(n: int, flags: U32, high: Byte, low: Byte)
    ensures -0x8000_0000 <= ToS32(n) < 0x8000_0000 && (n - ToS32(n)) % 0x1_0000_0000 == 0
    ensures 0 <= SetTop(flags) - 0x8000_0000 == flags % 0x8000_0000 && TopSet(SetTop(flags))
    ensures TopSet(flags) <==> flags / 0x8000_0000 == 1
    ensures var (h: int, l: int) := (high, low); Swap16(h * 256 + l) == l * 256 + h
  {
  }

  // ---------------------------------------------------------------- one firing, on values

  ghost predicate Targeted(f: Filter, e: Fire)
    requires !e.Retarget?
  {
    IsTarget(f, e.tgid, e.at.comm)
  }

  /** What an entry of call `nr` records, if anything. */
  function Capture(nr: U32, a: Args): Option<InFlight> {
    if nr == SYS_OPENAT then Some(OpenState(ToU32(a.arg2), ReadPath(a.text)))
    else if nr == SYS_CONNECT && a.addr.Some? && a.addr.value.family == AF_INET then
      Some(ConnectState(a.addr.value.addr, Swap16(a.addr.value.port), a.addr.value.family, ToU32(a.arg0)))
    else None
  }

  function PutCapped<V>(m: map<U32, V>, cap: nat, k: U32, v: V): map<U32, V> {
    if k in m || |m| < cap then m[k := v] else m
  }

  lemma PutCappedIs<V>(m: map<U32, V>, cap: nat, k: U32, v: V)
    ensures PutCapped(m, cap, k, v) == m || PutCapped(m, cap, k, v) == m[k := v]
  {
  }

  /** The in-flight table of call `nr`, after a firing. */
  ghost function Table(m: map<U32, InFlight>, nr: U32, targeted: bool, e: Fire): map<U32, InFlight> {
    if !targeted then m
    else match e {
      case Enter(tid, _, n, a, _) =>
        if n == nr && Capture(n, a).Some? then PutCapped(m, INFLIGHT_CAP, tid, Capture(n, a).value) else m
      case Exit(tid, _, n, _, _) => if n == nr then m - {tid} else m
      case _ => m
    }
  }

  const NO_STATS := Stats(0, 0, 0, 0, 0, 0, 0, 0)

  ghost function EnterStats(m: map<U32, Stats>, e: Fire): map<U32, Stats>
    requires e.Enter?
  {
    var m' := if e.tgid in m then m else PutCapped(m, STATS_CAP, e.tgid, NO_STATS);
    if e.tgid !in m' then m'
    else
      var p := m'[e.tgid];
      m'[e.tgid := p.(
        syscalls := Add64(p.syscalls, 1),
        opens := if e.nr == SYS_OPENAT then Add64(p.opens, 1) else p.opens,
        connects := if e.nr == SYS_CONNECT && Capture(e.nr, e.args).Some? then Add64(p.connects, 1) else p.connects)]
  }

  ghost function ExitStats(m: map<U32, Stats>, e: Fire): map<U32, Stats>
    requires e.Exit?
  {
    if e.tgid !in m then m
    else
      var p := m[e.tgid];
      var n := if e.ret > 0 then e.ret else 0;
      m[e.tgid := p.(
        errs := if e.ret < 0 then Add64(p.errs, 1) else p.errs,
        readBytes := Add64(p.readBytes, if e.nr in {SYS_READ, SYS_PREAD64, SYS_READV} then n else 0),
        writeBytes := Add64(p.writeBytes, if e.nr in {SYS_WRITE, SYS_PWRITE64, SYS_WRITEV} then n else 0),
        netTx := Add64(p.netTx, if e.nr in {SYS_SENDTO, SYS_SENDMSG} then n else 0),
        netRx := Add64(p.netRx, if e.nr in {SYS_RECVFROM, SYS_RECVMSG} then n else 0))]
  }

  ghost function Bump(m: map<U32, U64>, nr: U32): map<U32, U64> {
    if nr in m then m[nr := Add64(m[nr], 1)] else PutCapped(m, COUNTS_CAP, nr, 1)
  }

  function Blank(kind: Kind, e: Fire): Record
    requires !e.Retarget?
  {
    Record(kind, e.tid, e.tgid, 0, 0, 0, 0, 0, 0, e.at.comm, [])
  }

  function OpenFailure(e: Fire, st: InFlight): Record
    requires e.Exit? && st.OpenState?
  {
    Blank(EvtOpen, e).(ret := ToS32(e.ret), flags := SetTop(st.flags), path := st.path)
  }

  function ConnectResult(e: Fire, st: InFlight): Record
    requires e.Exit? && st.ConnectState?
  {
    Blank(EvtConnect, e).(ret := ToS32(e.ret), daddr := st.daddr, dport := st.dport, family := st.family,
                          extra := st.fd, flags := if e.ret < 0 then TOP_BIT else 0)
  }

  /** The record a firing wants to send, whether or not the ring has room. */
  ghost function Attempt(s: State, e: Fire): Option<Record> {
    match e
    case Retarget(_) => None
    case Exec(_, _, file, _) => Some(Blank(EvtExec, e).(path := ReadPath(file)))
    case Death(_, _, _) => if Targeted(s.filter, e) then Some(Blank(EvtExit, e)) else None
    case Enter(_, _, nr, a, _) =>
      if !Targeted(s.filter, e) then None
      else if nr == SYS_OPENAT then
        Some(Blank(EvtOpen, e).(flags := Capture(nr, a).value.flags, path := Capture(nr, a).value.path))
      else if nr == SYS_ACCEPT || nr == SYS_ACCEPT4 then Some(Blank(EvtAccept, e).(extra := a.arg0))
      else None
    case Exit(tid, _, nr, ret, _) =>
      if !Targeted(s.filter, e) then None
      else if nr == SYS_OPENAT && ret < 0 && tid in s.opens && s.opens[tid].OpenState? then
        Some(OpenFailure(e, s.opens[tid]))
      else if nr == SYS_CONNECT && ret != -EINPROGRESS && tid in s.conns && s.conns[tid].ConnectState? then
        Some(ConnectResult(e, s.conns[tid]))
      else None
  }

  ghost function Send(r: Ring, attempt: Option<Record>, at: Where): Ring {
    if attempt.None? then r
    else if at.room then r.(sent := r.sent + [attempt.value])
    else if at.cpu < |r.drops| then r.(drops := r.drops[at.cpu := Add64(r.drops[at.cpu], 1)])
    else r
  }

  lemma SendNothing(r: Ring, at: Where)
    ensures Send(r, None, at) == r
  {
  }

  ghost function Step(s: State, e: Fire): State {
    match e
    case Retarget(f) => s.(filter := f)
    case Exec(_, _, _, at) => s.(ring := Send(s.ring, Attempt(s, e), at))
    case Death(_, tgid, at) =>
      var s' := s.(ring := Send(s.ring, Attempt(s, e), at));
      if Targeted(s.filter, e) && at.room then
        s'.(stats := s.stats - {tgid}, filter := s.filter.(targets := s.filter.targets - {tgid}))
      else s'
    case Enter(_, _, nr, _, at) =>
      if !Targeted(s.filter, e) then s
      else State(s.filter, EnterStats(s.stats, e), Bump(s.counts, nr), Table(s.opens, SYS_OPENAT, true, e),
                 Table(s.conns, SYS_CONNECT, true, e), Send(s.ring, Attempt(s, e), at))
    case Exit(_, _, _, _, at) =>
      if !Targeted(s.filter, e) then s
      else State(s.filter, ExitStats(s.stats, e), s.counts, Table(s.opens, SYS_OPENAT, true, e),
                 Table(s.conns, SYS_CONNECT, true, e), Send(s.ring, Attempt(s, e), at))
  }

  // ---------------------------------------------------------------- whole runs

  ghost predicate Loaded(s: State) {
    s.stats == map[] && s.counts == map[] && s.opens == map[] && s.conns == map[]
    && s.ring.sent == [] && forall i :: 0 <= i < |s.ring.drops| ==> s.ring.drops[i] == 0
  }

  ghost function After(s: State, run: seq<Fire>): State {
    if run == [] then s else Step(After(s, run[..|run| - 1]), run[|run| - 1])
  }

  /** The position of the entry of the call that thread `tid` is in. */
  ghost function Inside(run: seq<Fire>, tid: U32): (r: Option<nat>)
    ensures r.Some? ==> r.value < |run| && run[r.value].Enter? && run[r.value].tid == tid
  {
    if run == [] then None
    else
      var e := run[|run| - 1];
      if (e.Enter? || e.Exit? || e.Death?) && e.tid == tid then (if e.Enter? then Some(|run| - 1) else None)
      else
        var r := Inside(run[..|run| - 1], tid);
        r
  }

  /** The two calls whose entries are remembered for their exits. */
  predicate Paired(nr: U32) { nr == SYS_OPENAT || nr == SYS_CONNECT }

  /** What threads do: an openat or connect that was seen to begin returns, and nothing else happens in
      its thread before it does.  Everything else is open.  A thread can return from a call whose
      beginning was not seen, because it began before the tracer did or is a clone's child; other calls
      need not return, and may return under another number, as sigreturn does. */
  ghost predicate Possible(run: seq<Fire>) {
    run == [] || (Possible(run[..|run| - 1]) && May(run[..|run| - 1], run[|run| - 1]))
  }

  ghost predicate May(run: seq<Fire>, e: Fire) {
    match e
    case Enter(tid, _, _, _, _) =>
      var j := Inside(run, tid);
      j.Some? ==> !Paired(run[j.value].nr)
    case Exit(tid, tgid, nr, _, _) =>
      var j := Inside(run, tid);
      j.Some? && (Paired(nr) || Paired(run[j.value].nr)) ==> run[j.value].nr == nr && run[j.value].tgid == tgid
    case Death(tid, _, _) =>
      var j := Inside(run, tid);
      j.Some? ==> !Paired(run[j.value].nr)
    case _ => true
  }

  ghost predicate Followed(s: State, run: seq<Fire>, i: nat)
    requires i < |run| && !run[i].Retarget?
  {
    Targeted(After(s, run[..i]).filter, run[i])
  }

  /** The filter answers the same at both ends of every openat and connect. */
  ghost predicate Steady(s: State, run: seq<Fire>) {
    run == [] || (Steady(s, run[..|run| - 1]) && SameAnswer(s, run[..|run| - 1], run[|run| - 1]))
  }

  ghost predicate SameAnswer(s: State, run: seq<Fire>, e: Fire) {
    e.Exit? && Paired(e.nr) && Inside(run, e.tid).Some? ==>
      (Targeted(After(s, run).filter, e) <==> Followed(s, run, Inside(run, e.tid).value))
  }

  lemma Snoc(s: State, run: seq<Fire>, e: Fire)
    ensures After(s, run + [e]) == Step(After(s, run), e)
    ensures Possible(run + [e]) <==> Possible(run) && May(run, e)
    ensures Steady(s, run + [e]) <==> Steady(s, run) && SameAnswer(s, run, e)
    ensures forall tid :: Inside(run + [e], tid) ==
              if (e.Enter? || e.Exit? || e.Death?) && e.tid == tid then (if e.Enter? then Some(|run|) else None)
              else Inside(run, tid)
  {
    assert (run + [e])[..|run|] == run;
  }

  // ---------------------------------------------------------------- what a process's exit does

  /** The filter userspace wrote last. */
  ghost function Written(s: State, run: seq<Fire>): Filter {
    if run == [] then s.filter
    else if run[|run| - 1].Retarget? then run[|run| - 1].filter
    else Written(s, run[..|run| - 1])
  }

  /** A thread's exit that is followed and could be reported. */
  ghost predicate Leaves(s: State, run: seq<Fire>, e: Fire, tgid: U32) {
    e.Death? && e.tgid == tgid && e.at.room && IsTarget(After(s, run).filter, tgid, e.at.comm)
  }

  /** The process left since userspace last wrote the filter. */
  ghost predicate Left(s: State, run: seq<Fire>, tgid: U32) {
    if run == [] || run[|run| - 1].Retarget? then false
    else Left(s, run[..|run| - 1], tgid) || Leaves(s, run[..|run| - 1], run[|run| - 1], tgid)
  }

  /** The filter is always the one written last, less the pids of processes that have left since. */
  lemma {:induction false} FilterIsWrittenLessLeft(s: State, run: seq<Fire>, tgid: U32)
    ensures After(s, run).filter.config == Written(s, run).config
    ensures tgid in After(s, run).filter.targets <==> tgid in Written(s, run).targets && !Left(s, run, tgid)
  {
    if run != [] {
      hide IsTarget;
      FilterIsWrittenLessLeft(s, run[..|run| - 1], tgid);
    }
  }

  lemma {:induction false} LeftStays(s: State, run: seq<Fire>, more: seq<Fire>, tgid: U32)
    requires Left(s, run, tgid) && forall i :: 0 <= i < |more| ==> !more[i].Retarget?
    ensures Left(s, run + more, tgid) && Written(s, run + more) == Written(s, run)
  {
    if more == [] {
      assert run + more == run;
    } else {
      hide Leaves;
      LeftStays(s, run, more[..|more| - 1], tgid);
      assert (run + more)[..|run + more| - 1] == run + more[..|more| - 1];
    }
  }

  /** Once a process has left, a process that gets its pid is followed, until userspace writes the filter
      again, only if every process is, or it is pinned, or its comm matches. */
  lemma ReusedPidIsNotFollowed(s: State, run: seq<Fire>, e: Fire, more: seq<Fire>, tgid: U32, comm: seq<Byte>)
    requires Leaves(s, run, e, tgid) && forall i :: 0 <= i < |more| ==> !more[i].Retarget?
    ensures var (was, now) := (After(s, run).filter, After(s, run + [e] + more).filter);
            && tgid !in now.targets && now.config == was.config
            && (IsTarget(now, tgid, comm) <==>
                  || was.config.observeAll
                  || (tgid != 0 && was.config.targetTgid == tgid)
                  || CommMatches(was.config.comm, comm))
  {
    hide After, CommMatches;
    assert (run + [e])[..|run|] == run;
    LeftStays(s, run + [e], more, tgid);
    FilterIsWrittenLessLeft(s, run, tgid);
    FilterIsWrittenLessLeft(s, run + [e] + more, tgid);
  }

  /** A process has counters from its first followed call that found fewer than 1024 others, until it
      leaves. */
  ghost predicate HasEntry(s: State, run: seq<Fire>, tgid: U32) {
    if run == [] then tgid in s.stats
    else
      var (front, e) := (run[..|run| - 1], run[|run| - 1]);
      !Leaves(s, front, e, tgid)
      && (HasEntry(s, front, tgid)
          || (e.Enter? && e.tgid == tgid && IsTarget(After(s, front).filter, tgid, e.at.comm)
              && |After(s, front).stats| < 1024))
  }

  lemma EnterEntry(m: map<U32, Stats>, e: Fire, tgid: U32)
    requires e.Enter?
    ensures tgid in EnterStats(m, e) <==> tgid in m || (tgid == e.tgid && |m| < 1024)
  {
  }

  lemma ExitEntry(m: map<U32, Stats>, e: Fire, tgid: U32)
    requires e.Exit?
    ensures tgid in ExitStats(m, e) <==> tgid in m
  {
  }

  lemma EntryStep(s: State, e: Fire, tgid: U32)
    ensures tgid in Step(s, e).stats <==>
              && !(e.Death? && e.tgid == tgid && e.at.room && IsTarget(s.filter, tgid, e.at.comm))
              && (tgid in s.stats
                  || (e.Enter? && e.tgid == tgid && IsTarget(s.filter, tgid, e.at.comm) && |s.stats| < 1024))
  {
    hide IsTarget, Bump, Send, Attempt, Table, EnterStats, ExitStats;
    if e.Enter? {
      EnterEntry(s.stats, e, tgid);
    } else if e.Exit? {
      ExitEntry(s.stats, e, tgid);
    }
  }

  lemma {:induction false} EntryIff(s: State, run: seq<Fire>, tgid: U32)
    ensures tgid in After(s, run).stats <==> HasEntry(s, run, tgid)
  {
    if run != [] {
      hide IsTarget, Step;
      EntryIff(s, run[..|run| - 1], tgid);
      EntryStep(After(s, run[..|run| - 1]), run[|run| - 1], tgid);
    }
  }

  /** What reaches the ring buffer of a thread's exec, exit and entry into a call, where there is room. */
  lemma ReportsAre(s: State, e: Fire)
    requires (e.Exec? || e.Death? || e.Enter?) && e.at.room
    ensures var followed := IsTarget(s.filter, e.tgid, e.at.comm);
            Step(s, e).ring == s.ring.(sent := s.ring.sent +
              if e.Exec? then [Record(EvtExec, e.tid, e.tgid, 0, 0, 0, 0, 0, 0, e.at.comm, ReadPath(e.file))]
              else if !followed then []
              else if e.Death? then [Record(EvtExit, e.tid, e.tgid, 0, 0, 0, 0, 0, 0, e.at.comm, [])]
              else if e.nr == 257 then
                [Record(EvtOpen, e.tid, e.tgid, 0, ToU32(e.args.arg2), 0, 0, 0, 0, e.at.comm, ReadPath(e.args.text))]
              else if e.nr == 43 || e.nr == 288 then
                [Record(EvtAccept, e.tid, e.tgid, 0, 0, e.args.arg0, 0, 0, 0, e.at.comm, [])]
              else [])
  {
    hide IsTarget, ReadPath, EnterStats, Bump, Table;
    assert s.ring.sent + [] == s.ring.sent;
  }

  // ---------------------------------------------------------------- pairing entries with exits

  /** The entry at position j was recorded in its in-flight table. */
  ghost predicate Recorded(s: State, run: seq<Fire>, nr: U32, j: nat)
    requires j < |run| && run[j].Enter?
  {
    run[j].nr == nr && Capture(nr, run[j].args).Some? && Followed(s, run, j)
    && |TableOf(After(s, run[..j]), nr)| < 32768
  }

  ghost function TableOf(s: State, nr: U32): map<U32, InFlight> {
    if nr == SYS_OPENAT then s.opens else s.conns
  }

  lemma TableStep(s: State, e: Fire, nr: U32)
    requires Paired(nr)
    ensures TableOf(Step(s, e), nr) == Table(TableOf(s, nr), nr, !e.Retarget? && Targeted(s.filter, e), e)
  {
    hide Targeted, EnterStats, ExitStats, Bump, Send, Attempt, Capture, PutCapped;
    match e
    case Enter(_, _, _, _, _) =>
    case Exit(_, _, _, _, _) =>
    case _ =>
  }

  lemma TableAt(m: map<U32, InFlight>, nr: U32, targeted: bool, e: Fire, tid: U32)
    ensures var m' := Table(m, nr, targeted, e);
            if targeted && e.Enter? && e.tid == tid && e.nr == nr && Capture(nr, e.args).Some?
               && (tid in m || |m| < INFLIGHT_CAP) then
              tid in m' && m'[tid] == Capture(nr, e.args).value
            else if targeted && e.Exit? && e.tid == tid && e.nr == nr then tid !in m'
            else if tid in m then tid in m' && m'[tid] == m[tid]
            else tid !in m'
  {
    hide Capture;
  }

  lemma PrefixFacts(s: State, run: seq<Fire>, e: Fire, nr: U32, j: nat)
    requires j < |run| && run[j].Enter?
    ensures Followed(s, run + [e], j) == Followed(s, run, j)
    ensures Recorded(s, run + [e], nr, j) == Recorded(s, run, nr, j)
  {
    assert (run + [e])[..j] == run[..j];
  }

  /** An in-flight entry exists exactly while its thread is inside that call, and holds that call's
      own arguments. */
  ghost predicate Own(s: State, run: seq<Fire>, nr: U32, tid: U32) {
    var (m, j) := (TableOf(After(s, run), nr), Inside(run, tid));
    && (tid in m <==> j.Some? && Recorded(s, run, nr, j.value))
    && (tid in m ==> m[tid] == Capture(nr, run[j.value].args).value)
  }

  lemma OwnStep(s: State, run: seq<Fire>, e: Fire, nr: U32, tid: U32)
    requires Paired(nr) && Own(s, run, nr, tid)
    requires May(run, e) && SameAnswer(s, run, e)
    ensures Own(s, run + [e], nr, tid)
  {
    hide Targeted, Capture, Step, Table, After, Inside, Possible, Steady;
    var before := After(s, run);
    Snoc(s, run, e);
    TableStep(before, e, nr);
    TableAt(TableOf(before, nr), nr, !e.Retarget? && Targeted(before.filter, e), e, tid);
    var j := Inside(run, tid);
    if j.Some? {
      PrefixFacts(s, run, e, nr, j.value);
    }
    assert (run + [e])[..|run|] == run;
  }

  lemma {:induction false} InFlightIsOwn(s: State, run: seq<Fire>, nr: U32, tid: U32)
    requires Loaded(s) && Possible(run) && Steady(s, run) && Paired(nr)
    ensures Own(s, run, nr, tid)
  {
    if run != [] {
      hide Own, May, SameAnswer;
      var (front, e) := (run[..|run| - 1], run[|run| - 1]);
      InFlightIsOwn(s, front, nr, tid);
      OwnStep(s, front, e, nr, tid);
      assert run == front + [e];
    }
  }

  // ---------------------------------------------------------------- what the failure events say

  /** The report that the exit e makes of the call that began with the firing `call`. */
  function Report(e: Fire, call: Fire): Record
    requires e.Exit? && call.Enter? && Paired(e.nr) && Capture(e.nr, call.args).Some?
  {
    if e.nr == SYS_OPENAT then OpenFailure(e, Capture(e.nr, call.args).value)
    else ConnectResult(e, Capture(e.nr, call.args).value)
  }

  /** An openat reports failures; a connect reports any outcome but a handshake still in progress. */
  predicate Reportable(e: Fire)
    requires e.Exit?
  {
    if e.nr == SYS_OPENAT then e.ret < 0 else e.nr == SYS_CONNECT && e.ret != -EINPROGRESS
  }

  /** A returning openat reports a failure exactly if it is followed, failed, and its entry was seen and
      recorded; the report carries that call's own path and flags. */
  lemma OpenFailureIsOwn(s: State, run: seq<Fire>, e: Fire)
    requires Loaded(s) && Possible(run + [e]) && Steady(s, run + [e]) && e.Exit? && e.nr == 257
    ensures Inside(run, e.tid).None? ==> Attempt(After(s, run), e) == None
    ensures Inside(run, e.tid).Some? ==>
              var (now, j) := (After(s, run), Inside(run, e.tid).value);
              && Attempt(now, e) == (
                   if Targeted(now.filter, e) && e.ret < 0 && Recorded(s, run, SYS_OPENAT, j)
                   then Some(Record(EvtOpen, e.tid, e.tgid, ToS32(e.ret), SetTop(ToU32(run[j].args.arg2)), 0, 0, 0, 0,
                                    e.at.comm, ReadPath(run[j].args.text)))
                   else None)
              && run[j].nr == SYS_OPENAT && run[j].tid == e.tid && run[j].tgid == e.tgid
  {
    hide Loaded, Targeted, ReadPath, After, SetTop, ToS32, Recorded;
    Snoc(s, run, e);
    InFlightIsOwn(s, run, SYS_OPENAT, e.tid);
  }

  /** Likewise for connect, which also reports successes, but not a handshake still in progress. */
  lemma ConnectResultIsOwn(s: State, run: seq<Fire>, e: Fire)
    requires Loaded(s) && Possible(run + [e]) && Steady(s, run + [e]) && e.Exit? && e.nr == 42
    ensures Inside(run, e.tid).None? ==> Attempt(After(s, run), e) == None
    ensures Inside(run, e.tid).Some? ==>
              var (now, j) := (After(s, run), Inside(run, e.tid).value);
              && run[j].nr == SYS_CONNECT && run[j].tid == e.tid && run[j].tgid == e.tgid
              && (Attempt(now, e).Some? <==>
                    Targeted(now.filter, e) && e.ret != -115 && Recorded(s, run, SYS_CONNECT, j))
              && (Attempt(now, e).Some? ==>
                    && run[j].args.addr.Some?
                    && var (r, to) := (Attempt(now, e).value, run[j].args.addr.value);
                       && to.family == 2
                       && r == Record(EvtConnect, e.tid, e.tgid, ToS32(e.ret), if e.ret < 0 then TOP_BIT else 0,
                                      ToU32(run[j].args.arg0), to.addr, Swap16(to.port), AF_INET, e.at.comm, []))
  {
    hide Loaded, Targeted, After, ToS32, Swap16, ToU32;
    Snoc(s, run, e);
    InFlightIsOwn(s, run, SYS_CONNECT, e.tid);
  }

  /** One call returns once, so it has at most one such report. */
  lemma CallReturnsOnce(run: seq<Fire>, first: nat, second: nat)
    requires first < second < |run| && run[first].Exit? && run[second].Exit? && run[first].tid == run[second].tid
    ensures Inside(run[..first], run[first].tid) == None
            || Inside(run[..first], run[first].tid) != Inside(run[..second], run[second].tid)
  {
    var tid := run[first].tid;
    NotBefore(run[..second], first, tid);
    assert run[..second][..first + 1] == run[..first + 1];
  }

  lemma {:induction false} NotBefore(run: seq<Fire>, i: nat, tid: U32)
    requires i < |run| && run[i].Exit? && run[i].tid == tid
    ensures Inside(run, tid).Some? ==> Inside(run, tid).value > i
  {
    if i < |run| - 1 {
      NotBefore(run[..|run| - 1], i, tid);
    }
  }

  // ---------------------------------------------------------------- without a steady filter

  ghost function Quiet(filter: Filter): State {
    State(filter, map[], map[], map[], map[], Ring([], [0]))
  }

  ghost function OpenOf(tid: U32, text: seq<Byte>): Fire {
    Enter(tid, tid, SYS_OPENAT, Args(0, 0, Some(text), None), Where([], 0, true))
  }

  /** The proviso is needed.  A filter that lets go of a process in the middle of an openat and takes it
      up again in the middle of the next one makes the second call's failure carry the first call's path. */
  lemma StalePathWithoutSteadyFilter()
    ensures var (on, off) := (Filter(Config(1, false, []), {}), Filter(Config(0, false, []), {}));
            var back := Exit(1, 1, SYS_OPENAT, -2, Where([], 0, true));
            var run := [OpenOf(1, [97]), Retarget(off), back, OpenOf(1, [98]), Retarget(on)];
            && Possible(run + [back])
            && Attempt(After(Quiet(on), run), back).Some?
            && Attempt(After(Quiet(on), run), back).value.path == [97]
  {
    var (on, off) := (Filter(Config(1, false, []), {}), Filter(Config(0, false, []), {}));
    var back := Exit(1, 1, SYS_OPENAT, -2, Where([], 0, true));
    var r1 := [OpenOf(1, [97])];
    var r2 := r1 + [Retarget(off)];
    var r3 := r2 + [back];
    var r4 := r3 + [OpenOf(1, [98])];
    var r5 := r4 + [Retarget(on)];
    Snoc(Quiet(on), [], OpenOf(1, [97]));
    Snoc(Quiet(on), r1, Retarget(off));
    Snoc(Quiet(on), r2, back);
    Snoc(Quiet(on), r3, OpenOf(1, [98]));
    Snoc(Quiet(on), r4, Retarget(on));
    Snoc(Quiet(on), r5, back);
    assert [] + r1 == r1;
    assert After(Quiet(on), r1).opens[1] == OpenState(0, [97]);
    assert After(Quiet(on), r5).opens[1] == OpenState(0, [97]);
    assert r5 == [OpenOf(1, [97]), Retarget(off), back, OpenOf(1, [98]), Retarget(on)];
  }

  /** Where the entry in the table comes from: the thread's latest recorded entry of this call after
      which no exit of it was followed. */
  ghost function Source(s: State, run: seq<Fire>, nr: U32, tid: U32): (r: Option<nat>)
    ensures r.Some? ==> r.value < |run| && run[r.value].Enter? && run[r.value].tid == tid && run[r.value].nr == nr
  {
    if run == [] then None
    else
      var (front, e) := (run[..|run| - 1], run[|run| - 1]);
      if e.Enter? && e.tid == tid && Stored(s, front, e, nr) then Some(|front|)
      else if e.Exit? && e.tid == tid && e.nr == nr && Targeted(After(s, front).filter, e) then None
      else
        var r := Source(s, front, nr, tid);
        r
  }

  ghost predicate Stored(s: State, run: seq<Fire>, e: Fire, nr: U32)
    requires e.Enter?
  {
    var m := TableOf(After(s, run), nr);
    e.nr == nr && Capture(nr, e.args).Some? && Targeted(After(s, run).filter, e) && (e.tid in m || |m| < 32768)
  }

  /** However the filter behaves: an entry always holds the arguments of its source, and the source of
      what an exit finds is the very call that returns exactly if that call was stored when it began. */
  lemma {:induction false} OwnIffStored(s: State, run: seq<Fire>, nr: U32, tid: U32)
    requires Loaded(s) && Paired(nr)
    ensures var (m, from) := (TableOf(After(s, run), nr), Source(s, run, nr, tid));
            && (tid in m <==> from.Some?)
            && (tid in m ==> Capture(nr, run[from.value].args) == Some(m[tid]))
    ensures var j := Inside(run, tid);
            j.Some? ==> (Source(s, run, nr, tid) == j <==> Stored(s, run[..j.value], run[j.value], nr))
  {
    if run != [] {
      hide Loaded, Targeted, Capture, Step, Table, After, TableOf;
      var (front, e) := (run[..|run| - 1], run[|run| - 1]);
      assert run == front + [e];
      OwnIffStored(s, front, nr, tid);
      var before := After(s, front);
      Snoc(s, front, e);
      TableStep(before, e, nr);
      TableAt(TableOf(before, nr), nr, !e.Retarget? && Targeted(before.filter, e), e, tid);
      var j := Inside(front, tid);
      if j.Some? {
        assert front[..j.value] == run[..j.value];
      }
    }
  }

  /** So, however the filter behaves, what a followed exit reports is built from its source, and from the
      returning call itself exactly if that call was stored when it began. */
  lemma ReportIsOwnIffStored(s: State, run: seq<Fire>, e: Fire)
    requires Loaded(s) && e.Exit? && Paired(e.nr) && Reportable(e) && Targeted(After(s, run).filter, e)
    ensures var from := Source(s, run, e.nr, e.tid);
            && (from.Some? ==> Capture(e.nr, run[from.value].args).Some?)
            && Attempt(After(s, run), e) == if from.None? then None else Some(Report(e, run[from.value]))
    ensures var j := Inside(run, e.tid);
            j.Some? ==> (Source(s, run, e.nr, e.tid) == j <==> Stored(s, run[..j.value], run[j.value], e.nr))
  {
    hide Loaded, Targeted, After, Source, Inside, Stored, OpenFailure, ConnectResult;
    OwnIffStored(s, run, e.nr, e.tid);
  }

  // ---------------------------------------------------------------- the tracepoints themselves

  /** One more call of the process, if it has an entry. */
  function Counted(m: map<U32, Stats>, tgid: U32): map<U32, Stats> {
    if tgid in m then m[tgid := m[tgid].(syscalls := Add64(m[tgid].syscalls, 1))] else m
  }

  class Tracer {
    var config: Config
    var targets: set<U32>
    var stats: map<U32, Stats>
    var counts: map<U32, U64>
    var opens: map<U32, InFlight>
    var conns: map<U32, InFlight>
    var sent: seq<Record>
    var drops: seq<U64>

    ghost function Value(): State
      reads this
    {
      State(Filter(config, targets), stats, counts, opens, conns, Ring(sent, drops))
    }

    ghost predicate Valid()
      reads this
    {
      && |config.comm| == COMM_BUF
      && (forall t :: t in opens ==> opens[t].OpenState?)
      && (forall t :: t in conns ==> conns[t].ConnectState?)
    }

    ghost predicate Ready(at: Where)
      reads this
    {
      Valid() && |at.comm| == COMM_BUF && at.comm[COMM_BUF - 1] == 0 && at.cpu < |drops|
    }

    constructor (cpus: nat)
      ensures Valid() && Loaded(Value()) && |drops| == cpus
    {
      config, targets := Config(0, false, seq(COMM_BUF, _ => 0)), {};
      stats, counts, opens, conns := map[], map[], map[], map[];
      sent, drops := [], seq(cpus, _ => 0);
    }

    method Follows(tgid: U32, at: Where) returns (yes: bool)
      requires Ready(at)
      ensures yes == IsTarget(Value().filter, tgid, at.comm)
      ensures yes <==> config.observeAll || (tgid != 0 && tgid == config.targetTgid) || tgid in targets
                       || (CStr(config.comm) != [] && CStr(config.comm) <= CStr(at.comm))
    {
      if config.observeAll {
        return true;
      }
      if config.targetTgid != 0 && config.targetTgid == tgid {
        return true;
      }
      yes := CommPrefixMatch(config.comm, at.comm);
      if yes {
        return;
      }
      yes := tgid in targets;
    }

    /** bpf_ringbuf_reserve; a failure is counted on the current cpu. */
    method Reserve(at: Where) returns (ok: bool)
      requires at.cpu < |drops|
      modifies this`drops
      ensures ok == at.room
      ensures drops == if ok then old(drops) else old(drops)[at.cpu := Add64(old(drops)[at.cpu], 1)]
    {
      ok := at.room;
      if !ok {
        drops := drops[at.cpu := Add64(drops[at.cpu], 1)];
      }
    }

    /** Reserve, fill in, submit. */
    method Emit(r: Record, at: Where)
      requires at.cpu < |drops|
      modifies this`drops, this`sent
      ensures Ring(sent, drops) == Send(old(Ring(sent, drops)), Some(r), at)
    {
      var ok := Reserve(at);
      if ok {
        sent := sent + [r];
      }
    }

    method SchedExec(tid: U32, tgid: U32, file: Option<seq<Byte>>, at: Where)
      requires Ready(at)
      modifies this
      ensures Valid() && Value() == Step(old(Value()), Exec(tid, tgid, file, at))
    {
      Emit(Record(EvtExec, tid, tgid, 0, 0, 0, 0, 0, 0, at.comm, ReadPath(file)), at);
    }

    method SchedExit(tid: U32, tgid: U32, at: Where)
      requires Ready(at)
      modifies this
      ensures Valid() && Value() == Step(old(Value()), Death(tid, tgid, at))
    {
      hide IsTarget;
      var followed := Follows(tgid, at);
      if !followed {
        return;
      }
      var ok := Reserve(at);
      if !ok {
        return;
      }
      sent := sent + [Record(EvtExit, tid, tgid, 0, 0, 0, 0, 0, 0, at.comm, [])];
      stats := stats - {tgid};
      targets := targets - {tgid};
    }

    method GetStats(tgid: U32) returns (found: bool)
      modifies this`stats
      ensures found == (tgid in stats)
      ensures stats == if tgid in old(stats) then old(stats) else PutCapped(old(stats), STATS_CAP, tgid, NO_STATS)
    {
      if tgid in stats {
        return true;
      }
      stats := PutCapped(stats, STATS_CAP, tgid, NO_STATS);
      found := tgid in stats;
    }

    method BumpSyscall(nr: U32)
      modifies this`counts
      ensures counts == Bump(old(counts), nr)
    {
      if nr in counts {
        counts := counts[nr := Add64(counts[nr], 1)];
        return;
      }
      counts := PutCapped(counts, COUNTS_CAP, nr, 1);
    }

    method CountCall(tgid: U32, nr: U32) returns (ps: bool)
      modifies this`stats, this`counts
      ensures ps == (tgid in stats) && counts == Bump(old(counts), nr)
      ensures stats == Counted(if tgid in old(stats) then old(stats) else PutCapped(old(stats), STATS_CAP, tgid, NO_STATS), tgid)
    {
      hide Bump, PutCapped;
      ps := GetStats(tgid);
      if ps {
        stats := stats[tgid := stats[tgid].(syscalls := Add64(stats[tgid].syscalls, 1))];
      }
      BumpSyscall(nr);
    }

    method SysEnter(tid: U32, tgid: U32, nr: U32, args: Args, at: Where)
      requires Ready(at)
      modifies this
      ensures Valid() && Value() == Step(old(Value()), Enter(tid, tgid, nr, args, at))
    {
      hide IsTarget, Bump, ReadPath, Swap16, PutCapped, Send;
      SendNothing(Ring(sent, drops), at);
      var followed := Follows(tgid, at);
      if !followed {
        return;
      }
      var ps := CountCall(tgid, nr);
      if nr == SYS_OPENAT {
        EnterOpenat(tid, tgid, args, at, ps);
        return;
      }
      if nr == SYS_CONNECT {
        EnterConnect(tid, tgid, args, ps);
        return;
      }
      if nr == SYS_ACCEPT || nr == SYS_ACCEPT4 {
        Emit(Record(EvtAccept, tid, tgid, 0, 0, args.arg0, 0, 0, 0, at.comm, []), at);
      }
    }

    method EnterOpenat(tid: U32, tgid: U32, args: Args, at: Where, ps: bool)
      requires at.cpu < |drops| && (ps ==> tgid in stats) && (forall t :: t in opens ==> opens[t].OpenState?)
      modifies this`opens, this`stats, this`sent, this`drops
      ensures forall t :: t in opens ==> opens[t].OpenState?
      ensures var st := Capture(SYS_OPENAT, args).value;
              && opens == PutCapped(old(opens), INFLIGHT_CAP, tid, st)
              && Ring(sent, drops) == Send(old(Ring(sent, drops)),
                   Some(Record(EvtOpen, tid, tgid, 0, st.flags, 0, 0, 0, 0, at.comm, st.path)), at)
      ensures stats == if !ps then old(stats)
                       else old(stats)[tgid := old(stats)[tgid].(opens := Add64(old(stats)[tgid].opens, 1))]
    {
      hide PutCapped, Send;
      var st := OpenState(ToU32(args.arg2), ReadPath(args.text));
      PutCappedIs(opens, INFLIGHT_CAP, tid, st);
      opens := PutCapped(opens, INFLIGHT_CAP, tid, st);
      if ps {
        stats := stats[tgid := stats[tgid].(opens := Add64(stats[tgid].opens, 1))];
      }
      Emit(Record(EvtOpen, tid, tgid, 0, st.flags, 0, 0, 0, 0, at.comm, st.path), at);
    }

    method EnterConnect(tid: U32, tgid: U32, args: Args, ps: bool)
      requires (ps ==> tgid in stats) && forall t :: t in conns ==> conns[t].ConnectState?
      modifies this`conns, this`stats
      ensures forall t :: t in conns ==> conns[t].ConnectState?
      ensures var st := Capture(SYS_CONNECT, args);
              && conns == (if st.None? then old(conns) else PutCapped(old(conns), INFLIGHT_CAP, tid, st.value))
              && stats == if !ps || st.None? then old(stats)
                          else old(stats)[tgid := old(stats)[tgid].(connects := Add64(old(stats)[tgid].connects, 1))]
    {
      hide PutCapped;
      if args.addr.None? {
        return;
      }
      var sin := args.addr.value;
      if sin.family != AF_INET {
        return;
      }
      var st := ConnectState(sin.addr, Swap16(sin.port), sin.family, ToU32(args.arg0));
      PutCappedIs(conns, INFLIGHT_CAP, tid, st);
      conns := PutCapped(conns, INFLIGHT_CAP, tid, st);
      if ps {
        stats := stats[tgid := stats[tgid].(connects := Add64(stats[tgid].connects, 1))];
      }
    }

    method CountResult(tgid: U32, nr: U32, ret: Int64)
      modifies this`stats
      ensures forall e: Fire :: e.Exit? && e.tgid == tgid && e.nr == nr && e.ret == ret ==>
                stats == ExitStats(old(stats), e)
    {
      if tgid !in stats {
        return;
      }
      var ps := stats[tgid];
      if ret < 0 {
        ps := ps.(errs := Add64(ps.errs, 1));
      }
      if ret > 0 {
        if nr == SYS_READ || nr == SYS_PREAD64 || nr == SYS_READV {
          ps := ps.(readBytes := Add64(ps.readBytes, ret));
        }
        if nr == SYS_WRITE || nr == SYS_PWRITE64 || nr == SYS_WRITEV {
          ps := ps.(writeBytes := Add64(ps.writeBytes, ret));
        }
        if nr == SYS_SENDTO || nr == SYS_SENDMSG {
          ps := ps.(netTx := Add64(ps.netTx, ret));
        }
        if nr == SYS_RECVFROM || nr == SYS_RECVMSG {
          ps := ps.(netRx := Add64(ps.netRx, ret));
        }
      }
      stats := stats[tgid := ps];
    }

    method SysExit(tid: U32, tgid: U32, nr: U32, ret: Int64, at: Where)
      requires Ready(at)
      modifies this
      ensures Valid() && Value() == Step(old(Value()), Exit(tid, tgid, nr, ret, at))
    {
      hide IsTarget, ToS32, SetTop, ExitStats, Send;
      SendNothing(Ring(sent, drops), at);
      var followed := Follows(tgid, at);
      if !followed {
        return;
      }
      CountResult(tgid, nr, ret);
      if nr == SYS_OPENAT {
        if ret < 0 && tid in opens {
          var st := opens[tid];
          Emit(Record(EvtOpen, tid, tgid, ToS32(ret), SetTop(st.flags), 0, 0, 0, 0, at.comm, st.path), at);
        }
        opens := opens - {tid};
        return;
      }
      if nr == SYS_CONNECT {
        if tid in conns {
          if ret != -EINPROGRESS {
            var st := conns[tid];
            Emit(Record(EvtConnect, tid, tgid, ToS32(ret), if ret < 0 then TOP_BIT else 0, st.fd,
                        st.daddr, st.dport, st.family, at.comm, []), at);
          }
        }
        conns := conns - {tid};
      }
    }
  }
}
