/** From kernel counters to the rates and rankings of the dashboard (readProcessStats,
    readSyscallCounts and the ranking loops of backend/internal/ebpfagent/agent.go).

    A tick reads some entries of a kernel map, each key at most once and in any order, and turns the
    difference from the last value read, in 64-bit arithmetic, into a rate over the time elapsed. */
module CounterRates {
  import opened KernelTracer
  import opened MachineTypes
  import opened MapSums

  type Key = U32

  const TOP := 12

  // ---------------------------------------------------------------- one tick, on values

  /** cur - prev in 64 bits */
  function Delta(prev: U64, cur: U64): U64 { if prev <= cur then cur - prev else cur - prev + U64_SIZE }

  function Last<V>(prev: map<Key, V>, k: Key, get: V -> U64): U64 { if k in prev then get(prev[k]) else 0 }

  function Absorb<V>(prev: map<Key, V>, entries: seq<(Key, V)>): map<Key, V> {
    if entries == [] then prev
    else
      var (k, v) := entries[|entries| - 1];
      Absorb(prev, entries[..|entries| - 1])[k := v]
  }

  /** The sum of the differences a tick sees in one counter. */
  function Gained<V>(prev: map<Key, V>, entries: seq<(Key, V)>, get: V -> U64): nat {
    if entries == [] then 0
    else
      var front := entries[..|entries| - 1];
      var (k, v) := entries[|entries| - 1];
      Gained(prev, front, get) + Delta(Last(Absorb(prev, front), k, get), get(v))
  }

  function Quotient(n: nat, elapsed: real): real
    requires elapsed > 0.0
  {
    n as real / elapsed
  }

  lemma QuotientAdds(m: nat, n: nat, elapsed: real)
    requires elapsed > 0.0
    ensures Quotient(m + n, elapsed) == Quotient(m, elapsed) + n as real / elapsed
  {
    var (q, r, t) := (m as real / elapsed, n as real / elapsed, (m + n) as real / elapsed);
    Undo(m as real, elapsed);
    Undo(n as real, elapsed);
    Undo((m + n) as real, elapsed);
    Distributes(q, r, elapsed);
    SameProduct(t, q + r, elapsed);
  }

  lemma Undo(a: real, b: real)
    requires b > 0.0
    ensures a / b * b == a
  {
  }

  lemma Distributes(a: real, b: real, c: real)
    ensures (a + b) * c == a * c + b * c
  {
  }

  lemma SameProduct(a: real, b: real, c: real)
    requires a * c == b * c && c > 0.0
    ensures a == b
  {
    if a != b {
      NoZeroProduct(a - b, c);
      Distributes(a - b, b, c);
    }
  }

  lemma QuotientNotNegative(a: real, b: real)
    requires a >= 0.0 && b > 0.0
    ensures a / b >= 0.0
  {
  }

  lemma NoZeroProduct(a: real, c: real)
    requires a != 0.0 && c > 0.0
    ensures a * c != 0.0
  {
  }

  datatype Rates = Rates(syscalls: real, errs: real, connects: real, netTx: real, netRx: real)

  const GET_SYSCALLS := (st: Stats) => st.syscalls
  const GET_ERRS := (st: Stats) => st.errs
  const GET_CONNECTS := (st: Stats) => st.connects
  const GET_TX := (st: Stats) => st.netTx
  const GET_RX := (st: Stats) => st.netRx

  function RatesOf(prev: map<Key, Stats>, entries: seq<(Key, Stats)>, elapsed: real): Rates
    requires elapsed > 0.0
  {
    Rates(Quotient(Gained(prev, entries, GET_SYSCALLS), elapsed), Quotient(Gained(prev, entries, GET_ERRS), elapsed),
          Quotient(Gained(prev, entries, GET_CONNECTS), elapsed), Quotient(Gained(prev, entries, GET_TX), elapsed),
          Quotient(Gained(prev, entries, GET_RX), elapsed))
  }

  // ---------------------------------------------------------------- rankings

  ghost predicate Descending<T>(s: seq<T>, rank: T -> real) {
    forall i, j :: 0 <= i < j < |s| ==> rank(s[i]) >= rank(s[j])
  }

  /** Everything before i is in its final place; a[i] beats everything up to j. */
  ghost predicate Placed<T>(s: seq<T>, rank: T -> real, i: int, j: int) {
    && (forall p, q :: 0 <= p < i && p < q < |s| ==> rank(s[p]) >= rank(s[q]))
    && (forall q :: 0 <= i < q < j && q < |s| ==> rank(s[i]) >= rank(s[q]))
  }

  /** What the inner loop does with the pair i, j. */
  function Exchanged<T>(s: seq<T>, rank: T -> real, i: nat, j: nat): seq<T>
    requires i < j < |s|
  {
    if rank(s[j]) > rank(s[i]) then s[i := s[j]][j := s[i]] else s
  }

  lemma ExchangePlaces<T>(s: seq<T>, rank: T -> real, i: nat, j: nat)
    requires i < j < |s| && Placed(s, rank, i, j)
    ensures Placed(Exchanged(s, rank, i, j), rank, i, j + 1)
  {
  }

  lemma ExchangeKeeps<T>(s: seq<T>, rank: T -> real, i: nat, j: nat)
    requires i < j < |s|
    ensures |Exchanged(s, rank, i, j)| == |s| && multiset(Exchanged(s, rank, i, j)) == multiset(s)
  {
    var t := s[i := s[j]];
    assert t[j] == s[j];
    assert multiset(t) == multiset(s) - multiset{s[i]} + multiset{s[j]};
    assert multiset(t[j := s[i]]) == multiset(t) - multiset{s[j]} + multiset{s[i]};
  }

  lemma PlacedStarts<T>(s: seq<T>, rank: T -> real)
    ensures Placed(s, rank, 0, 1)
  {
  }

  lemma PlacedNext<T>(s: seq<T>, rank: T -> real, i: nat)
    requires i < |s| && Placed(s, rank, i, |s|)
    ensures Placed(s, rank, i + 1, i + 2)
  {
  }

  lemma PlacedEnds<T>(s: seq<T>, rank: T -> real)
    requires Placed(s, rank, |s|, |s| + 1)
    ensures Descending(s, rank)
  {
  }

  /** The double loop that ranks syscalls and files. */
  method ExchangeSort<T>(a: array<T>, rank: T -> real)
    modifies a
    ensures Descending(a[..], rank)
    ensures multiset(a[..]) == multiset(old(a[..]))
  {
    hide Placed, Descending;
    PlacedStarts(a[..], rank);
    for i := 0 to a.Length
      invariant Placed(a[..], rank, i, i + 1) && multiset(a[..]) == multiset(old(a[..]))
    {
      for j := i + 1 to a.Length
        invariant Placed(a[..], rank, i, j) && multiset(a[..]) == multiset(old(a[..]))
      {
        ghost var s := a[..];
        ExchangePlaces(s, rank, i, j);
        ExchangeKeeps(s, rank, i, j);
        if rank(a[j]) > rank(a[i]) {
          a[i], a[j] := a[j], a[i];
        }
        assert a[..] == Exchanged(s, rank, i, j);
      }
      PlacedNext(a[..], rank, i);
    }
    PlacedEnds(a[..], rank);
  }

  /** Sort, then cut to the first twelve. */
  method Rank<T>(rows: seq<T>, rank: T -> real) returns (top: seq<T>, ghost rest: seq<T>)
    ensures |top| == if |rows| < 12 then |rows| else 12
    ensures multiset(top) + multiset(rest) == multiset(rows)
    ensures Descending(top, rank)
    ensures forall i, j :: 0 <= i < |top| && 0 <= j < |rest| ==> rank(top[i]) >= rank(rest[j])
  {
    if rows == [] {
      return [], [];
    }
    var a := new T[|rows|](i requires 0 <= i < |rows| => rows[i]);
    assert a[..] == rows;
    ExchangeSort(a, rank);
    var limit := TOP;
    if a.Length < limit {
      limit := a.Length;
    }
    top, rest := a[..limit], a[limit..];
    assert a[..] == top + rest;
    forall i, j | 0 <= i < |top| && 0 <= j < |rest| ensures rank(top[i]) >= rank(rest[j]) {
      assert a[..][limit + j] == rest[j] && a[..][i] == top[i];
    }
  }

  // ---------------------------------------------------------------- the live state

  datatype Row = Row(nr: U32, n: U64)

  function Changed(prev: map<Key, U64>, entries: seq<(Key, U64)>): seq<Row> {
    if entries == [] then []
    else
      var front := entries[..|entries| - 1];
      var (k, v) := entries[|entries| - 1];
      var d := Delta(Last(Absorb(prev, front), k, (x: U64) => x), v);
      Changed(prev, front) + if d == 0 then [] else [Row(k, d)]
  }

  /** A map is read one key at a time. */
  ghost predicate KeysDiffer<V>(entries: seq<(Key, V)>) {
    forall i, j :: 0 <= i < j < |entries| ==> entries[i].0 != entries[j].0
  }

  /** The row says how many calls lead, in 64 bits, from the value remembered to the one read. */
  ghost predicate RowFor(prev: map<Key, U64>, entry: (Key, U64), row: Row) {
    row.nr == entry.0 && row.n > 0
    && ((if row.nr in prev then prev[row.nr] else 0) + row.n) % U64_SIZE == entry.1
  }

  ghost predicate CalledFor(prev: map<Key, U64>, entries: seq<(Key, U64)>, row: Row) {
    exists i :: 0 <= i < |entries| && RowFor(prev, entries[i], row)
  }

  /** An entry calls for a row exactly if its value is a new one, and for one only. */
  lemma RowForIff(prev: map<Key, U64>, entry: (Key, U64), row: Row)
    ensures RowFor(prev, entry, row) <==>
            row == Row(entry.0, Delta(if entry.0 in prev then prev[entry.0] else 0, entry.1)) && row.n > 0
    ensures Delta(if entry.0 in prev then prev[entry.0] else 0, entry.1) > 0
            <==> entry.1 != if entry.0 in prev then prev[entry.0] else 0
  {
    var before := if entry.0 in prev then prev[entry.0] else 0;
    assert (before + row.n) % U64_SIZE == if before + row.n < U64_SIZE then before + row.n else before + row.n - U64_SIZE;
  }

  lemma {:induction false} AbsorbKeeps<V>(prev: map<Key, V>, entries: seq<(Key, V)>, k: Key)
    requires forall i :: 0 <= i < |entries| ==> entries[i].0 != k
    ensures k in Absorb(prev, entries) <==> k in prev
    ensures k in prev ==> Absorb(prev, entries)[k] == prev[k]
  {
    if entries != [] {
      AbsorbKeeps(prev, entries[..|entries| - 1], k);
    }
  }

  /** Exactly the rows the entries call for, each once. */
  lemma {:induction false} ChangedIs(prev: map<Key, U64>, entries: seq<(Key, U64)>)
    requires KeysDiffer(entries)
    ensures forall row :: row in Changed(prev, entries) <==> CalledFor(prev, entries, row)
    ensures forall i, j :: 0 <= i < j < |Changed(prev, entries)| ==> Changed(prev, entries)[i].nr != Changed(prev, entries)[j].nr
  {
    if entries != [] {
      hide Delta, RowFor;
      var (front, e) := (entries[..|entries| - 1], entries[|entries| - 1]);
      ChangedIs(prev, front);
      AbsorbKeeps(prev, front, e.0);
      forall row ensures row in Changed(prev, entries) <==> row in Changed(prev, front) || RowFor(prev, e, row) {
        RowForIff(prev, e, row);
      }
      forall i | 0 <= i < |Changed(prev, front)| ensures Changed(prev, front)[i].nr != e.0 {
        assert Changed(prev, front)[i] in Changed(prev, front);
        NotYet(prev, front, Changed(prev, front)[i]);
      }
    }
  }

  lemma NotYet(prev: map<Key, U64>, entries: seq<(Key, U64)>, row: Row)
    requires CalledFor(prev, entries, row)
    ensures exists i :: 0 <= i < |entries| && entries[i].0 == row.nr
  {
  }

  /** One entry adds its difference over the elapsed time to each rate. */
  lemma RatesGrow(start: map<Key, Stats>, entries: seq<(Key, Stats)>, i: nat, elapsed: real)
    requires i < |entries| && elapsed > 0.0
    ensures var (was, (key, val), m) := (RatesOf(start, entries[..i], elapsed), entries[i], Absorb(start, entries[..i]));
            var prev := if key in m then m[key] else NO_STATS;
            RatesOf(start, entries[..i + 1], elapsed)
            == Rates(was.syscalls + Delta(prev.syscalls, val.syscalls) as real / elapsed,
                     was.errs + Delta(prev.errs, val.errs) as real / elapsed,
                     was.connects + Delta(prev.connects, val.connects) as real / elapsed,
                     was.netTx + Delta(prev.netTx, val.netTx) as real / elapsed,
                     was.netRx + Delta(prev.netRx, val.netRx) as real / elapsed)
  {
    hide Quotient, Gained, Absorb;
    RateGrows(start, entries, i, elapsed, GET_SYSCALLS);
    RateGrows(start, entries, i, elapsed, GET_ERRS);
    RateGrows(start, entries, i, elapsed, GET_CONNECTS);
    RateGrows(start, entries, i, elapsed, GET_TX);
    RateGrows(start, entries, i, elapsed, GET_RX);
  }

  lemma RateGrows(start: map<Key, Stats>, entries: seq<(Key, Stats)>, i: nat, elapsed: real, get: Stats -> U64)
    requires i < |entries| && elapsed > 0.0
    ensures Quotient(Gained(start, entries[..i + 1], get), elapsed)
            == Quotient(Gained(start, entries[..i], get), elapsed)
               + Delta(Last(Absorb(start, entries[..i]), entries[i].0, get), get(entries[i].1)) as real / elapsed
  {
    hide Quotient;
    assert entries[..i + 1][..i] == entries[..i];
    QuotientAdds(Gained(start, entries[..i], get), Delta(Last(Absorb(start, entries[..i]), entries[i].0, get), get(entries[i].1)),
                 elapsed);
  }

  lemma RatesOfNone(start: map<Key, Stats>, elapsed: real)
    requires elapsed > 0.0
    ensures RatesOf(start, [], elapsed) == Rates(0.0, 0.0, 0.0, 0.0, 0.0)
  {
    hide Quotient;
    QuotientOfNone(elapsed);
  }

  class Counters {
    var statPrev: map<Key, Stats>
    var sysPrev: map<Key, U64>

    constructor ()
      ensures statPrev == map[] && sysPrev == map[]
    {
      statPrev, sysPrev := map[], map[];
    }

    method ReadProcessStats(entries: seq<(Key, Stats)>, elapsed: real) returns (r: Rates)
      modifies this`statPrev
      ensures elapsed <= 0.0 ==> r == Rates(0.0, 0.0, 0.0, 0.0, 0.0) && statPrev == old(statPrev)
      ensures elapsed > 0.0 ==> r == RatesOf(old(statPrev), entries, elapsed) && statPrev == Absorb(old(statPrev), entries)
    {
      if elapsed <= 0.0 {
        return Rates(0.0, 0.0, 0.0, 0.0, 0.0);
      }
      hide RatesOf;
      var (syscalls, errs, connects, netTx, netRx) := (0.0, 0.0, 0.0, 0.0, 0.0);
      RatesOfNone(statPrev, elapsed);
      for i := 0 to |entries|
        invariant Rates(syscalls, errs, connects, netTx, netRx) == RatesOf(old(statPrev), entries[..i], elapsed)
        invariant statPrev == Absorb(old(statPrev), entries[..i])
      {
        assert entries[..i + 1][..i] == entries[..i];
        var (key, val) := entries[i];
        var prev := if key in statPrev then statPrev[key] else NO_STATS;
        RatesGrow(old(statPrev), entries, i, elapsed);
        syscalls := syscalls + Delta(prev.syscalls, val.syscalls) as real / elapsed;
        errs := errs + Delta(prev.errs, val.errs) as real / elapsed;
        connects := connects + Delta(prev.connects, val.connects) as real / elapsed;
        netTx := netTx + Delta(prev.netTx, val.netTx) as real / elapsed;
        netRx := netRx + Delta(prev.netRx, val.netRx) as real / elapsed;
        statPrev := statPrev[key := val];
      }
      assert entries[..|entries|] == entries;
      r := Rates(syscalls, errs, connects, netTx, netRx);
    }

    /** The busiest syscalls of the tick, busiest first; syscalls without a new call do not appear. */
    method ReadSyscallCounts(entries: seq<(Key, U64)>, elapsed: real)
      returns (top: seq<(U32, real)>, ghost ranked: seq<Row>, ghost rest: seq<Row>)
      modifies this`sysPrev
      ensures elapsed <= 0.0 ==> top == [] && sysPrev == old(sysPrev)
      ensures elapsed > 0.0 ==>
                && sysPrev == Absorb(old(sysPrev), entries)
                && multiset(ranked) + multiset(rest) == multiset(Changed(old(sysPrev), entries))
                && |ranked| == (if |Changed(old(sysPrev), entries)| < 12 then |Changed(old(sysPrev), entries)| else 12)
                && Descending(ranked, (r: Row) => r.n as real)
                && (forall i, j :: 0 <= i < |ranked| && 0 <= j < |rest| ==> ranked[i].n >= rest[j].n)
                && |top| == |ranked|
                && (forall i :: 0 <= i < |top| ==> top[i] == (ranked[i].nr, ranked[i].n as real / elapsed))
      ensures elapsed > 0.0 && KeysDiffer(entries) ==>
                forall row :: row in ranked || row in rest <==> CalledFor(old(sysPrev), entries, row)
    {
      if elapsed <= 0.0 {
        return [], [], [];
      }
      hide CalledFor, KeysDiffer, Descending;
      var rows: seq<Row> := [];
      for i := 0 to |entries|
        invariant rows == Changed(old(sysPrev), entries[..i]) && sysPrev == Absorb(old(sysPrev), entries[..i])
      {
        assert entries[..i + 1][..i] == entries[..i];
        var (key, val) := entries[i];
        var delta := Delta(if key in sysPrev then sysPrev[key] else 0, val);
        sysPrev := sysPrev[key := val];
        if delta != 0 {
          rows := rows + [Row(key, delta)];
        }
      }
      assert entries[..|entries|] == entries;
      var best;
      best, rest := Rank(rows, (r: Row) => r.n as real);
      ranked := best;
      top := seq(|best|, i requires 0 <= i < |best| => (best[i].nr, best[i].n as real / elapsed));
      forall i, j | 0 <= i < |ranked| && 0 <= j < |rest| ensures ranked[i].n >= rest[j].n {
        var f := (r: Row) => r.n as real;
        assert f(ranked[i]) >= f(rest[j]);
      }
      SameRows(ranked, rest, rows);
      if KeysDiffer(entries) {
        ChangedIs(old(sysPrev), entries);
      }
    }
  }

  lemma SameRows(top: seq<Row>, rest: seq<Row>, rows: seq<Row>)
    requires multiset(top) + multiset(rest) == multiset(rows)
    ensures forall row :: row in rows <==> row in top || row in rest
  {
    forall row ensures row in rows <==> row in top || row in rest {
      assert row in rows <==> row in multiset(rows);
      assert row in multiset(rows) <==> row in multiset(top) || row in multiset(rest);
    }
  }

  lemma QuotientOfNone(elapsed: real)
    requires elapsed > 0.0
    ensures Quotient(0, elapsed) == 0.0
  {
  }

  // ---------------------------------------------------------------- rates telescope

  datatype Tick<V> = Tick(entries: seq<(Key, V)>, elapsed: real)

  ghost predicate Timed<V>(ticks: seq<Tick<V>>) { forall i :: 0 <= i < |ticks| ==> ticks[i].elapsed > 0.0 }

  ghost function State<V>(ticks: seq<Tick<V>>): map<Key, V> {
    if ticks == [] then map[] else Absorb(State(ticks[..|ticks| - 1]), ticks[|ticks| - 1].entries)
  }

  function RateTimesTime(n: nat, elapsed: real): real
    requires elapsed > 0.0
  {
    Quotient(n, elapsed) * elapsed
  }

  /** Rate times elapsed time, summed over the run. */
  ghost function Area<V>(ticks: seq<Tick<V>>, get: V -> U64): real
    requires Timed(ticks)
  {
    if ticks == [] then 0.0
    else
      var (front, t) := (ticks[..|ticks| - 1], ticks[|ticks| - 1]);
      Area(front, get) + RateTimesTime(Gained(State(front), t.entries, get), t.elapsed)
  }

  /** Readings smaller than the previous reading of the same key. */
  ghost function FallsIn<V>(prev: map<Key, V>, entries: seq<(Key, V)>, get: V -> U64): nat {
    if entries == [] then 0
    else
      var (front, (k, v)) := (entries[..|entries| - 1], entries[|entries| - 1]);
      FallsIn(prev, front, get) + if get(v) < Last(Absorb(prev, front), k, get) then 1 else 0
  }

  /** The same counter, as a number to sum. */
  ghost function AsNat<V>(get: V -> U64): V -> nat { v => get(v) }

  ghost function Falls<V>(ticks: seq<Tick<V>>, get: V -> U64): nat {
    if ticks == [] then 0
    else Falls(ticks[..|ticks| - 1], get) + FallsIn(State(ticks[..|ticks| - 1]), ticks[|ticks| - 1].entries, get)
  }

  lemma {:induction false} TickTelescopes<V>(prev: map<Key, V>, entries: seq<(Key, V)>, get: V -> U64)
    ensures Total(prev, AsNat(get)) + Gained(prev, entries, get)
            == Total(Absorb(prev, entries), AsNat(get)) + U64_SIZE * FallsIn(prev, entries, get)
  {
    if entries != [] {
      hide Total;
      var (front, (k, v)) := (entries[..|entries| - 1], entries[|entries| - 1]);
      TickTelescopes(prev, front, get);
      TotalUpdate(Absorb(prev, front), AsNat(get), k, v);
    }
  }

  ghost function AllGained<V>(ticks: seq<Tick<V>>, get: V -> U64): nat {
    if ticks == [] then 0
    else AllGained(ticks[..|ticks| - 1], get) + Gained(State(ticks[..|ticks| - 1]), ticks[|ticks| - 1].entries, get)
  }

  lemma {:induction false} AreaIsGain<V>(ticks: seq<Tick<V>>, get: V -> U64)
    requires Timed(ticks)
    ensures Area(ticks, get) == AllGained(ticks, get) as real
  {
    if ticks != [] {
      hide RateTimesTime, Gained, State;
      var (front, t) := (ticks[..|ticks| - 1], ticks[|ticks| - 1]);
      AreaIsGain(front, get);
      QuotientUndone(Gained(State(front), t.entries, get), t.elapsed);
    }
  }

  lemma {:induction false} GainTelescopes<V>(ticks: seq<Tick<V>>, get: V -> U64)
    ensures AllGained(ticks, get) == Total(State(ticks), AsNat(get)) + U64_SIZE * Falls(ticks, get)
  {
    if ticks != [] {
      hide Total, Gained, FallsIn, Absorb;
      var (front, t) := (ticks[..|ticks| - 1], ticks[|ticks| - 1]);
      GainTelescopes(front, get);
      TickTelescopes(State(front), t.entries, get);
    } else {
      TotalOfNone(State(ticks), AsNat(get));
    }
  }

  /** Over any run, in any reading order: rate times time adds up to the sum, over keys, of the last
      value read, plus 2^64 for every reading that fell below the one before it. */
  lemma RatesTelescope<V>(ticks: seq<Tick<V>>, get: V -> U64)
    requires Timed(ticks)
    ensures Area(ticks, get) == (Total(State(ticks), AsNat(get)) + U64_SIZE * Falls(ticks, get)) as real
  {
    AreaIsGain(ticks, get);
    GainTelescopes(ticks, get);
  }

  lemma QuotientUndone(n: nat, elapsed: real)
    requires elapsed > 0.0
    ensures RateTimesTime(n, elapsed) == n as real
  {
    Undo(n as real, elapsed);
  }

  /** So the rates integrate to the counters exactly when no counter was ever seen to fall. */
  lemma ExactIffNeverFalls<V>(ticks: seq<Tick<V>>, get: V -> U64)
    requires Timed(ticks)
    ensures Area(ticks, get) == Total(State(ticks), AsNat(get)) as real <==> Falls(ticks, get) == 0
  {
    RatesTelescope(ticks, get);
  }

  /** A process whose counters restarted between two ticks (its entry was discarded on a thread's exit
      and made anew) shows, for one second, about 2^64 calls. */
  lemma RestartLooksLikeAFlood(pid: Key)
    ensures var was: map<Key, U64> := map[pid := 10];
            var now: seq<(Key, U64)> := [(pid, 3)];
            Gained(was, now, (x: U64) => x) == U64_SIZE - 7
  {
    var now: seq<(Key, U64)> := [(pid, 3)];
    assert now[..0] == [];
  }
}
