/** Which processes the tracer watches: the descendant search over /proc
    (backend/internal/enrich/proc.go), the two kernel maps that userspace rewrites on every tick
    (backend/internal/ebpfagent/agent.go), and the kernel's test (backend/bpf/agent.bpf.c). */
module ProcessFilter {
  import opened CommSanitizer
  import opened MachineTypes

  const TARGETS_CAP := 256
  const COMM_BUF := 16
  const MAX_PID := 4_194_304

  // ---------------------------------------------------------------- the kernel's test

  datatype Config = Config(targetTgid: U32, observeAll: bool, comm: seq<Byte>)

  datatype Filter = Filter(config: Config, targets: set<U32>)

  /** The text of a C string buffer. */
  function CStr(buf: seq<Byte>): seq<Byte> {
    if buf == [] || buf[0] == 0 then [] else [buf[0]] + CStr(buf[1..])
  }

  predicate CommMatches(want: seq<Byte>, comm: seq<Byte>) {
    CStr(want) != [] && CStr(want) <= CStr(comm)
  }

  lemma {:induction false} CStrUpTo(buf: seq<Byte>, n: nat)
    requires n <= |buf| && forall i :: 0 <= i < n ==> buf[i] != 0
    ensures CStr(buf) == buf[..n] + CStr(buf[n..])
    ensures n < |buf| && buf[n] == 0 ==> CStr(buf) == buf[..n]
  {
    if n > 0 {
      CStrUpTo(buf[1..], n - 1);
      assert buf[1..][n - 1..] == buf[n..];
      assert [buf[0]] + buf[1..][..n - 1] == buf[..n];
    } else {
      assert buf[0..] == buf;
    }
  }

  /** The unrolled comparison of comm_prefix_match.  The kernel's comm always ends in a NUL. */
  method CommPrefixMatch(want: seq<Byte>, comm: seq<Byte>) returns (hit: bool)
    requires |want| == COMM_BUF && |comm| == COMM_BUF && comm[COMM_BUF - 1] == 0
    ensures hit == CommMatches(want, comm)
  {
    if want[0] == 0 {
      return false;
    }
    for i := 0 to COMM_BUF
      invariant forall j :: 0 <= j < i ==> want[j] != 0 && comm[j] == want[j]
    {
      CStrUpTo(want, i);
      CStrUpTo(comm, i);
      assert comm[..i] == want[..i];
      var c := want[i];
      if c == 0 {
        assert i > 0;
        return true;
      }
      if comm[i] != c {
        Mismatch(want, comm, i);
        return false;
      }
    }
    assert false;
  }

  lemma Mismatch(want: seq<Byte>, comm: seq<Byte>, i: nat)
    requires i < |want| && i < |comm| && want[i] != 0 && comm[i] != want[i]
    requires forall j :: 0 <= j < i ==> want[j] != 0 && comm[j] == want[j]
    ensures !(CStr(want) <= CStr(comm))
  {
    CStrUpTo(want, i + 1);
    CStrIsPrefix(want);
    CStrIsPrefix(comm);
    assert |CStr(want)| > i && CStr(want)[i] == want[i];
  }

  lemma {:induction false} CStrIsPrefix(buf: seq<Byte>)
    ensures CStr(buf) <= buf
  {
    if buf != [] {
      CStrIsPrefix(buf[1..]);
    }
  }

  predicate IsTarget(f: Filter, tgid: U32, comm: seq<Byte>) {
    || f.config.observeAll
    || (f.config.targetTgid != 0 && f.config.targetTgid == tgid)
    || CommMatches(f.config.comm, comm)
    || tgid in f.targets
  }

  // ---------------------------------------------------------------- descendants

  /** `path` leads from a root to its last pid, each pid a child of the one before. */
  ghost predicate Lineage(ppidOf: map<Int64, Int64>, roots: seq<Int64>, path: seq<Int64>) {
    && path != [] && path[0] in roots
    && forall i :: 0 < i < |path| ==> path[i] in ppidOf && ppidOf[path[i]] == path[i - 1]
  }

  ghost predicate Descends(ppidOf: map<Int64, Int64>, roots: seq<Int64>, pid: Int64) {
    exists path :: Lineage(ppidOf, roots, path) && path[|path| - 1] == pid
  }

  ghost predicate Closed(ppidOf: map<Int64, Int64>, roots: seq<Int64>, s: set<Int64>) {
    (forall r :: r in roots ==> r in s) && forall pid :: pid in ppidOf && ppidOf[pid] in s ==> pid in s
  }

  lemma {:induction false} LineageStaysInside(ppidOf: map<Int64, Int64>, roots: seq<Int64>, s: set<Int64>, path: seq<Int64>)
    requires Closed(ppidOf, roots, s) && Lineage(ppidOf, roots, path)
    ensures path[|path| - 1] in s
  {
    if |path| > 1 {
      LineageStaysInside(ppidOf, roots, s, path[..|path| - 1]);
      var (parent, pid) := (path[|path| - 2], path[|path| - 1]);
      assert path[..|path| - 1][|path| - 2] == parent && parent in s;
      assert pid in ppidOf && ppidOf[pid] == parent;
    }
  }

  lemma RootDescends(ppidOf: map<Int64, Int64>, roots: seq<Int64>, r: Int64)
    requires r in roots
    ensures Descends(ppidOf, roots, r)
  {
    assert Lineage(ppidOf, roots, [r]) && [r][|[r]| - 1] == r;
  }

  lemma ChildDescends(ppidOf: map<Int64, Int64>, roots: seq<Int64>, pid: Int64)
    requires pid in ppidOf && Descends(ppidOf, roots, ppidOf[pid])
    ensures Descends(ppidOf, roots, pid)
  {
    var path :| Lineage(ppidOf, roots, path) && path[|path| - 1] == ppidOf[pid];
    var longer := path + [pid];
    assert Lineage(ppidOf, roots, longer) && longer[|longer| - 1] == pid;
  }

  /** The fixpoint loop: with a process table, exactly the roots and what descends from them; the
      parent map may have cycles and be visited in any order.  Without a table, the roots. */
  method ExpandDescendants(roots: seq<Int64>, table: Option<map<Int64, Int64>>) returns (out: seq<Int64>)
    ensures table.None? ==> out == roots
    ensures roots <= out
    ensures table.Some? ==> forall pid :: pid in out <==> Descends(table.value, roots, pid)
    ensures forall i, j :: |roots| <= i < j < |out| ==> out[i] != out[j]
    ensures forall i :: |roots| <= i < |out| ==> out[i] !in roots
  {
    if table.None? {
      return roots;
    }
    var want := Closure(roots, table.value);
    forall r | r in roots ensures r in want { RootDescends(table.value, roots, r); }
    var seen: set<Int64>;
    out, seen := RootsFirst(roots, want);
    out := ThenOthers(roots, want - seen);
    ghost var tail := out[|roots|..];
    assert out == roots + tail;
    forall i | |roots| <= i < |out| ensures out[i] !in roots {
      assert out[i] == tail[i - |roots|] && out[i] in tail;
    }
  }

  method RootsFirst(roots: seq<Int64>, want: set<Int64>) returns (out: seq<Int64>, seen: set<Int64>)
    requires forall r :: r in roots ==> r in want
    ensures out == roots && seen == set r | r in roots
  {
    out, seen := [], {};
    for i := 0 to |roots|
      invariant out == roots[..i] && seen == set j | 0 <= j < i :: roots[j]
    {
      if roots[i] in want {
        out := out + [roots[i]];
        seen := seen + {roots[i]};
      } else {
        assert false;
      }
    }
  }

  /** The rest of the set follows, in any order. */
  method ThenOthers(roots: seq<Int64>, others: set<Int64>) returns (out: seq<Int64>)
    ensures roots <= out
    ensures forall x :: x in out[|roots|..] <==> x in others
    ensures forall i, j :: |roots| <= i < j < |out| ==> out[i] != out[j]
  {
    out := roots;
    ghost var tail: seq<Int64> := [];
    var rest := others;
    while rest != {}
      invariant out == roots + tail && rest <= others
      invariant forall x :: x in tail <==> x in others - rest
      invariant forall i, j :: 0 <= i < j < |tail| ==> tail[i] != tail[j]
      decreases rest
    {
      Inhabited(rest);
      var pid :| pid in rest;
      assert pid !in tail;
      out := out + [pid];
      ghost var before := tail;
      tail := tail + [pid];
      assert forall i :: 0 <= i < |before| ==> tail[i] == before[i] && before[i] in before;
      rest := rest - {pid};
    }
    assert out[|roots|..] == tail;
    forall i, j | |roots| <= i < j < |out| ensures out[i] != out[j] {
      assert out[i] == tail[i - |roots|] && out[j] == tail[j - |roots|];
    }
  }

  lemma Inhabited(s: set<Int64>)
    requires s != {}
    ensures exists x :: x in s
  {
  }

  method Closure(roots: seq<Int64>, ppidOf: map<Int64, Int64>) returns (want: set<Int64>)
    ensures forall pid :: pid in want <==> Descends(ppidOf, roots, pid)
  {
    want := set r | r in roots;
    forall r | r in roots ensures Descends(ppidOf, roots, r) { RootDescends(ppidOf, roots, r); }
    var changed := true;
    while changed
      invariant forall r :: r in roots ==> r in want
      invariant forall pid :: pid in want ==> Descends(ppidOf, roots, pid)
      invariant !changed ==> Closed(ppidOf, roots, want)
      decreases ppidOf.Keys - want, changed
    {
      hide Descends;
      changed := false;
      ghost var before := want;
      var todo := ppidOf.Keys;
      while todo != {}
        invariant todo <= ppidOf.Keys && before <= want
        invariant changed ==> ppidOf.Keys - want < ppidOf.Keys - before
        invariant !changed ==> want == before
        invariant forall pid :: pid in want ==> Descends(ppidOf, roots, pid)
        invariant !changed ==> forall pid :: pid in ppidOf && pid !in todo && ppidOf[pid] in want ==> pid in want
        decreases todo
      {
        Inhabited(todo);
        var pid :| pid in todo;
        todo := todo - {pid};
        if pid !in want && ppidOf[pid] in want {
          ChildDescends(ppidOf, roots, pid);
          want := want + {pid};
          changed := true;
        }
      }
    }
    forall pid | Descends(ppidOf, roots, pid) ensures pid in want {
      var path :| Lineage(ppidOf, roots, path) && path[|path| - 1] == pid;
      LineageStaysInside(ppidOf, roots, want, path);
    }
  }

  /** Descent is the least closed set: the partner of the definition by lineages. */
  lemma DescentIsLeastClosedSet(ppidOf: map<Int64, Int64>, roots: seq<Int64>, s: set<Int64>)
    requires forall pid :: pid in s <==> Descends(ppidOf, roots, pid)
    ensures Closed(ppidOf, roots, s)
    ensures forall t :: Closed(ppidOf, roots, t) ==> s <= t
  {
    forall r | r in roots ensures r in s { RootDescends(ppidOf, roots, r); }
    forall pid | pid in ppidOf && ppidOf[pid] in s ensures pid in s { ChildDescends(ppidOf, roots, pid); }
    forall t, pid | Closed(ppidOf, roots, t) && pid in s ensures pid in t {
      var path :| Lineage(ppidOf, roots, path) && path[|path| - 1] == pid;
      LineageStaysInside(ppidOf, roots, t, path);
    }
  }

  // ---------------------------------------------------------------- the targets map

  /** The kernel's `targets` hash and `config` array, as userspace sees them. */
  class KernelMaps {
    var targets: set<U32>
    var config: Config

    ghost predicate Valid()
      reads this
    {
      |targets| <= TARGETS_CAP
    }

    ghost function Value(): Filter
      reads this
    {
      Filter(config, targets)
    }

    constructor ()
      ensures Valid() && targets == {} && config == Config(0, false, Pad([]))
    {
      targets, config := {}, Config(0, false, Pad([]));
    }

    /** A failed insertion is ignored, as the caller does. */
    method Put(k: U32)
      requires Valid()
      modifies this`targets
      ensures Valid()
      ensures targets == if k in old(targets) || |old(targets)| < TARGETS_CAP then old(targets) + {k} else old(targets)
      ensures |old(targets)| == TARGETS_CAP ==> targets == old(targets)
    {
      if k in targets {
        assert targets + {k} == targets;
      }
      if k in targets || |targets| < TARGETS_CAP {
        targets := targets + {k};
      }
    }

    method SyncTargets(pids: seq<Int64>)
      requires Valid()
      modifies this`targets
      ensures Valid() && targets <= Wanted(pids) && old(targets) * Wanted(pids) <= targets
      ensures targets == Wanted(pids) <==> |old(targets) + Wanted(pids)| <= 256
      ensures targets != Wanted(pids) ==> |old(targets) + targets| == 256
    {
      var want := PutAll(pids);
      ghost var filled := targets;
      DeleteStale(want);
      SyncOutcome(old(targets), want, filled);
    }

    method PutAll(pids: seq<Int64>) returns (want: set<U32>)
      requires Valid()
      modifies this`targets
      ensures Valid() && want == Wanted(pids)
      ensures old(targets) <= targets <= old(targets) + want
      ensures want <= targets || |targets| == TARGETS_CAP
    {
      want := {};
      for i := 0 to |pids|
        invariant Valid() && want == Wanted(pids[..i])
        invariant old(targets) <= targets <= old(targets) + want
        invariant want <= targets || |targets| == TARGETS_CAP
      {
        WantedMore(pids, i);
        var k := ToU32(pids[i]);
        want := want + {k};
        Put(k);
      }
      assert pids[..|pids|] == pids;
    }

    method DeleteStale(want: set<U32>)
      modifies this`targets
      ensures targets == old(targets) * want
    {
      var stale := set k | k in targets && k !in want;
      while stale != {}
        invariant stale <= targets && targets - stale == old(targets) * want && targets <= old(targets)
        decreases stale
      {
        var k :| k in stale;
        targets := targets - {k};
        stale := stale - {k};
      }
    }

    method WriteConfig(pid: Int64, comm: seq<Byte>, pids: seq<Int64>)
      modifies this`config
      ensures config == Config(ToU32(if pid > 0 then pid else if pids != [] then pids[0] else 0), false, Pad(comm))
    {
      var tgid: U32 := 0;
      if pid > 0 {
        tgid := ToU32(pid);
      } else if |pids| > 0 {
        tgid := ToU32(pids[0]);
      }
      config := Config(tgid, false, Pad(comm));
    }

    /** What one tick of buildSnapshot does before it reads any counter. */
    method Retarget(pid: Int64, comm: seq<Byte>, scan: Scan)
      returns (pids: seq<Int64>)
      requires Valid() && 0 <= pid <= MAX_PID && scan.InRange()
      modifies this
      ensures Valid()
      ensures forall p :: p in pids <==> scan.Selects(pid, comm, p)
      ensures config == Config(if pid > 0 then pid else if pids != [] then ToU32(pids[0]) else 0, false, Pad(comm))
      ensures targets == Wanted(pids) <==> |old(targets) + Wanted(pids)| <= 256
      ensures targets <= Wanted(pids)
      ensures |comm| <= MAX_COMM_LEN && 0 !in comm && targets == Wanted(pids) ==>
                forall tgid, current :: IsTarget(Value(), tgid, current) <==> Watched(pid, comm, scan, tgid, current)
    {
      pids := ResolveTargets(pid, comm, scan);
      assert pids != [] ==> scan.Selects(pid, comm, pids[0]);
      scan.SelectsInRange(pid, comm);
      WriteConfig(pid, comm, pids);
      SyncTargets(pids);
      if |comm| <= MAX_COMM_LEN && 0 !in comm && targets == Wanted(pids) {
        forall tgid, current ensures IsTarget(Value(), tgid, current) <==> Watched(pid, comm, scan, tgid, current) {
          FilterEndToEnd(Value(), pid, comm, scan, pids, tgid, current);
        }
      }
    }
  }

  lemma SyncOutcome(before: set<U32>, want: set<U32>, filled: set<U32>)
    requires before <= filled <= before + want && |filled| <= TARGETS_CAP
    requires want <= filled || |filled| == TARGETS_CAP
    ensures |filled * want| <= TARGETS_CAP
    ensures filled * want == want <==> |before + want| <= TARGETS_CAP
    ensures filled * want != want ==> |before + filled * want| == TARGETS_CAP
  {
    SubsetSize(filled, before + want);
    SubsetSize(filled * want, filled);
    assert before + filled * want == filled;
    if filled * want == want {
      assert before + want == filled;
    }
  }

  lemma SubsetSize<T>(a: set<T>, b: set<T>)
    requires a <= b
    ensures |a| <= |b| && (|a| == |b| ==> a == b)
  {
    assert b == a + (b - a);
  }

  function Wanted(pids: seq<Int64>): set<U32> { set i | 0 <= i < |pids| :: ToU32(pids[i]) }

  lemma WantedMore(pids: seq<Int64>, i: nat)
    requires i < |pids|
    ensures Wanted(pids[..i + 1]) == Wanted(pids[..i]) + {ToU32(pids[i])}
  {
    forall k | k in Wanted(pids[..i]) ensures k in Wanted(pids[..i + 1]) {
      var j :| 0 <= j < i && ToU32(pids[..i][j]) == k;
      assert pids[..i + 1][j] == pids[j];
    }
    assert pids[..i + 1][i] == pids[i];
  }

  /** copy(val.TargetComm[:], []byte(comm)) into a zeroed buffer */
  function Pad(comm: seq<Byte>): seq<Byte> {
    if |comm| >= COMM_BUF then comm[..COMM_BUF] else comm + seq(COMM_BUF - |comm|, _ => 0)
  }

  lemma PadKeepsText(comm: seq<Byte>)
    requires |comm| <= MAX_COMM_LEN && 0 !in comm
    ensures |Pad(comm)| == COMM_BUF && CStr(Pad(comm)) == comm
  {
    CStrUpTo(Pad(comm), |comm|);
  }

  // ---------------------------------------------------------------- target resolution

  /** What one pass over /proc shows: whether the pinned pid exists, which pids match the configured
      text by comm and by command line, and the parent of every readable process. */
  datatype Scan = Scan(alive: bool, byComm: seq<Int64>, byCmdline: seq<Int64>, table: Option<map<Int64, Int64>>) {

    /** Directory names parse to positive pids. */
    ghost predicate InRange() {
      && (forall p :: p in byComm || p in byCmdline ==> 0 < p <= MAX_PID)
      && (table.Some? ==> forall p :: p in table.value ==> 0 < p <= MAX_PID)
    }

    ghost function Roots(pid: Int64, comm: seq<Byte>): seq<Int64> {
      if pid > 0 then if alive then [pid] else []
      else if comm == [] then []
      else if byComm != [] then byComm
      else byCmdline
    }

    /** These pids are the roots, in order, and then what descends from them. */
    ghost predicate Spans(pids: seq<Int64>, roots: seq<Int64>) {
      roots <= pids && forall p :: p in pids <==> if table.Some? then Descends(table.value, roots, p) else p in roots
    }

    ghost predicate Selects(pid: Int64, comm: seq<Byte>, p: Int64) {
      if table.Some? then Descends(table.value, Roots(pid, comm), p) else p in Roots(pid, comm)
    }

    lemma SelectsInRange(pid: Int64, comm: seq<Byte>)
      requires InRange() && 0 <= pid <= MAX_PID
      ensures forall p: Int64 :: Selects(pid, comm, p) ==> 0 < p <= MAX_PID
    {
      forall p: Int64 | Selects(pid, comm, p) ensures 0 < p <= MAX_PID {
        if table.Some? {
          var path :| Lineage(table.value, Roots(pid, comm), path) && path[|path| - 1] == p;
          assert |path| > 1 ==> path[|path| - 1] in table.value;
        }
      }
    }
  }

  method ResolveTargets(pid: Int64, comm: seq<Byte>, scan: Scan) returns (pids: seq<Int64>)
    ensures forall p :: p in pids <==> scan.Selects(pid, comm, p)
    ensures pid > 0 && scan.alive ==> scan.Spans(pids, [pid])
    ensures pid > 0 && !scan.alive ==> pids == []
    ensures pid <= 0 && comm == [] ==> pids == []
    ensures pid <= 0 && comm != [] && scan.byComm != [] ==> scan.Spans(pids, scan.byComm)
    ensures pid <= 0 && comm != [] && scan.byComm == [] && scan.byCmdline != [] ==> scan.Spans(pids, scan.byCmdline)
    ensures pid <= 0 && scan.byComm == [] && scan.byCmdline == [] ==> pids == []
  {
    if pid > 0 {
      if !scan.alive {
        NoRootsNoPids(scan, pid, comm);
        return [];
      }
      pids := ExpandDescendants([pid], scan.table);
      return;
    }
    if comm == [] {
      NoRootsNoPids(scan, pid, comm);
      return [];
    }
    var roots := scan.byComm;
    if |roots| == 0 {
      roots := scan.byCmdline;
    }
    if |roots| == 0 {
      NoRootsNoPids(scan, pid, comm);
      return [];
    }
    pids := ExpandDescendants(roots, scan.table);
  }

  lemma NoRootsNoPids(scan: Scan, pid: Int64, comm: seq<Byte>)
    requires scan.Roots(pid, comm) == []
    ensures forall p :: !scan.Selects(pid, comm, p)
  {
  }

  // ---------------------------------------------------------------- end to end

  lemma WantedIsSelected(scan: Scan, pid: Int64, comm: seq<Byte>, pids: seq<Int64>, tgid: U32)
    requires 0 <= pid <= MAX_PID && scan.InRange()
    requires forall p :: p in pids <==> scan.Selects(pid, comm, p)
    ensures tgid in Wanted(pids) <==> scan.Selects(pid, comm, tgid)
  {
    scan.SelectsInRange(pid, comm);
    if scan.Selects(pid, comm, tgid) {
      var i :| 0 <= i < |pids| && pids[i] == tgid;
      assert ToU32(pids[i]) == tgid;
    }
    if tgid in Wanted(pids) {
      var i :| 0 <= i < |pids| && ToU32(pids[i]) == tgid;
      assert pids[i] in pids;
    }
  }

  /** The processes a user who configured `pid` and `comm` means: the pinned one, those the search
      selects, and those whose current comm starts with the configured text. */
  ghost predicate Watched(pid: Int64, comm: seq<Byte>, scan: Scan, tgid: U32, current: seq<Byte>) {
    || (pid > 0 && tgid == pid)
    || scan.Selects(pid, comm, tgid)
    || (comm != [] && comm <= CStr(current))
  }

  /** After a tick that the targets map had room for, the kernel follows exactly the processes the user
      means.  `f` is what Retarget leaves in the maps. */
  lemma FilterEndToEnd(f: Filter, pid: Int64, configured: seq<Byte>, scan: Scan, pids: seq<Int64>, tgid: U32, comm: seq<Byte>)
    requires 0 <= pid <= MAX_PID && scan.InRange()
    requires |configured| <= MAX_COMM_LEN && 0 !in configured
    requires forall p :: p in pids <==> scan.Selects(pid, configured, p)
    requires f.config == Config(if pid > 0 then pid else if pids != [] then ToU32(pids[0]) else 0, false, Pad(configured))
    requires f.targets == Wanted(pids)
    ensures IsTarget(f, tgid, comm) <==> Watched(pid, configured, scan, tgid, comm)
  {
    PadKeepsText(configured);
    WantedIsSelected(scan, pid, configured, pids, tgid);
    if pid == 0 && pids != [] {
      scan.SelectsInRange(pid, configured);
      assert pids[0] in pids;
    }
  }

  /** If stale pids left no room, the next tick with the same processes still gets there, if they fit at
      all; in between, exiting processes may take themselves out of the map. */
  method TwoTicksSettle(maps: KernelMaps, pids: seq<Int64>)
    requires maps.Valid()
    modifies maps`targets
    ensures maps.Valid() && maps.targets <= Wanted(pids)
    ensures maps.targets == Wanted(pids) <==> |Wanted(pids)| <= 256
  {
    hide Wanted;
    maps.SyncTargets(pids);
    var gone: set<U32> := *;
    SubsetSize(maps.targets - gone, maps.targets);
    maps.targets := maps.targets - gone;
    assert maps.targets + Wanted(pids) == Wanted(pids);
    maps.SyncTargets(pids);
  }
}
