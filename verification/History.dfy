/** The history stores: the SQLite store with amortised pruning
    (backend/internal/storage/sqlite.go) and the in-memory store it must agree with
    (backend/internal/storage/memory.go).

    A table is the sequence of its rows in order of insertion.  Clock readings, in milliseconds, and
    failing statements are inputs. */
module History {
  import opened CommSanitizer
  import opened MachineTypes

  const MAX_SNAPSHOTS := 1000
  const MAX_EVENTS := 2000
  const PRUNE_EVERY := 32
  const MEMORY_CAP := 5000

  type Comm = seq<Byte>

  datatype Sample = Sample(comm: Comm, pid: Int64, cpuPct: real, threads: Int64, rss: Int64, fds: Int64,
                           syscalls: real, errs: real, netTx: real, netRx: real, diskR: real, diskW: real)

  datatype Point = Point(id: Int64, t: Int64, sample: Sample)

  datatype EventRow = EventRow(id: string, ts: Int64, text: string)

  function ClampLimit(n: int, fallback: nat, max: nat): nat {
    if n <= 0 then fallback else if n > max then max else n
  }

  function Matching(rows: seq<Point>, comm: Comm): seq<Point> {
    if rows == [] then []
    else Matching(rows[..|rows| - 1], comm) + if rows[|rows| - 1].sample.comm == comm then [rows[|rows| - 1]] else []
  }

  function Reversed<T>(s: seq<T>): seq<T> { seq(|s|, i requires 0 <= i < |s| => s[|s| - 1 - i]) }

  method ReverseInPlace<T>(a: array<T>)
    modifies a
    ensures a[..] == Reversed(old(a[..]))
  {
    var (i, j) := (0, a.Length - 1);
    while i < j
      invariant 0 <= i && j == a.Length - 1 - i && i <= j + 1
      invariant forall k :: 0 <= k < i || j < k < a.Length ==> a[k] == old(a[a.Length - 1 - k])
      invariant forall k :: i <= k <= j ==> a[k] == old(a[k])
    {
      a[i], a[j] := a[j], a[i];
      i, j := i + 1, j - 1;
    }
  }

  // ---------------------------------------------------------------- DELETE ... WHERE key IN (... OFFSET n)

  function Insert(x: Int64, s: seq<Int64>): seq<Int64> {
    if s == [] || x >= s[0] then [x] + s else [s[0]] + Insert(x, s[1..])
  }

  /** ORDER BY key DESC */
  function Ordered(keys: seq<Int64>): seq<Int64> {
    if keys == [] then [] else Insert(keys[|keys| - 1], Ordered(keys[..|keys| - 1]))
  }

  function Keys<R>(rows: seq<R>, key: R -> Int64): seq<Int64> { seq(|rows|, i requires 0 <= i < |rows| => key(rows[i])) }

  function Without<R>(rows: seq<R>, key: R -> Int64, gone: seq<Int64>): seq<R> {
    if rows == [] then []
    else
      var r := rows[|rows| - 1];
      Without(rows[..|rows| - 1], key, gone) + if key(r) in gone then [] else [r]
  }

  /** DELETE FROM rows WHERE key IN (SELECT key FROM rows ORDER BY key DESC LIMIT -1 OFFSET keep) */
  function Prune<R>(rows: seq<R>, key: R -> Int64, keep: nat): seq<R> {
    var keys := Ordered(Keys(rows, key));
    if |keys| <= keep then Without(rows, key, []) else Without(rows, key, keys[keep..])
  }

  const SELF: Int64 -> Int64 := v => v

  function NewerThan<R>(rows: seq<R>, key: R -> Int64, t: Int64): seq<R> {
    if rows == [] then []
    else
      var r := rows[|rows| - 1];
      NewerThan(rows[..|rows| - 1], key, t) + if key(r) > t then [r] else []
  }

  ghost predicate Descending(s: seq<Int64>) { forall i, j :: 0 <= i < j < |s| ==> s[i] >= s[j] }

  lemma {:induction false} InsertOrders(x: Int64, s: seq<Int64>)
    requires Descending(s)
    ensures Descending(Insert(x, s)) && |Insert(x, s)| == |s| + 1
    ensures forall v :: v in Insert(x, s) <==> v == x || v in s
  {
    if s != [] && x < s[0] {
      InsertOrders(x, s[1..]);
      assert forall v :: v in s <==> v == s[0] || v in s[1..];
      assert forall v :: v in Insert(x, s[1..]) ==> v <= s[0];
      var r := Insert(x, s[1..]);
      assert Insert(x, s) == [s[0]] + r;
      assert forall i :: 0 <= i < |r| ==> r[i] in r;
    }
  }

  lemma {:induction false} OrderedOrders(keys: seq<Int64>)
    ensures Descending(Ordered(keys)) && |Ordered(keys)| == |keys|
    ensures forall v :: v in Ordered(keys) <==> v in keys
  {
    if keys != [] {
      var n := |keys| - 1;
      OrderedOrders(keys[..n]);
      InsertOrders(keys[n], Ordered(keys[..n]));
      assert forall v :: v in keys <==> v in keys[..n] || v == keys[n];
    }
  }

  lemma TailIsOlder(s: seq<Int64>, keep: nat, v: Int64)
    requires Descending(s) && keep < |s| && v in s
    ensures v in s[keep..] <==> v <= s[keep]
  {
    var i :| 0 <= i < |s| && s[i] == v;
    if v <= s[keep] {
      if i >= keep {
        assert s[keep..][i - keep] == v;
      } else {
        assert s[i] >= s[keep] && s[keep..][0] == s[keep];
      }
    }
  }

  lemma {:induction false} FilterIsNewer<R>(rows: seq<R>, key: R -> Int64, gone: seq<Int64>, t: Int64)
    requires forall i :: 0 <= i < |rows| ==> (key(rows[i]) in gone <==> key(rows[i]) <= t)
    ensures Without(rows, key, gone) == NewerThan(rows, key, t)
  {
    if rows != [] { FilterIsNewer(rows[..|rows| - 1], key, gone, t); }
  }

  lemma {:induction false} WithoutNothing<R>(rows: seq<R>, key: R -> Int64)
    ensures Without(rows, key, []) == rows
  {
    if rows != [] { WithoutNothing(rows[..|rows| - 1], key); }
  }

  /** Pruning keeps exactly the rows strictly newer than the (keep + 1)-st newest, ties with it lost. */
  lemma PruneKeepsStrictlyNewer<R>(rows: seq<R>, key: R -> Int64, keep: nat)
    ensures |rows| <= keep ==> Prune(rows, key, keep) == rows
    ensures |Ordered(Keys(rows, key))| == |rows|
    ensures |rows| > keep ==> Prune(rows, key, keep) == NewerThan(rows, key, Ordered(Keys(rows, key))[keep])
  {
    var keys := Keys(rows, key);
    OrderedOrders(keys);
    WithoutNothing(rows, key);
    if |rows| > keep {
      var s := Ordered(keys);
      forall i | 0 <= i < |rows| ensures key(rows[i]) in s[keep..] <==> key(rows[i]) <= s[keep] {
        assert keys[i] == key(rows[i]) && keys[i] in keys;
        TailIsOlder(s, keep, key(rows[i]));
      }
      FilterIsNewer(rows, key, s[keep..], s[keep]);
    }
  }

  lemma {:induction false} NewerIsSmall<R>(rows: seq<R>, key: R -> Int64, t: Int64)
    ensures |NewerThan(rows, key, t)| == |NewerThan(Ordered(Keys(rows, key)), SELF, t)|
  {
    if rows != [] {
      var n := |rows| - 1;
      NewerIsSmall(rows[..n], key, t);
      assert Keys(rows, key)[..n] == Keys(rows[..n], key);
      NewerAfterInsert(key(rows[n]), Ordered(Keys(rows[..n], key)), t);
    }
  }

  lemma {:induction false} NewerSplit(a: seq<Int64>, b: seq<Int64>, t: Int64)
    ensures NewerThan(a + b, SELF, t) == NewerThan(a, SELF, t) + NewerThan(b, SELF, t)
  {
    if b == [] {
      assert a + b == a;
    } else {
      assert (a + b)[..|a + b| - 1] == a + b[..|b| - 1];
      NewerSplit(a, b[..|b| - 1], t);
    }
  }

  lemma {:induction false} NewerAfterInsert(x: Int64, s: seq<Int64>, t: Int64)
    ensures |NewerThan(Insert(x, s), SELF, t)|
            == |NewerThan(s, SELF, t)| + if x > t then 1 else 0
  {
    hide NewerThan;
    NewerSingle(x, t);
    if s == [] || x >= s[0] {
      NewerSplit([x], s, t);
    } else {
      NewerAfterInsert(x, s[1..], t);
      NewerSingle(s[0], t);
      NewerSplit([s[0]], Insert(x, s[1..]), t);
      NewerSplit([s[0]], s[1..], t);
      assert s == [s[0]] + s[1..];
    }
  }

  lemma NewerSingle(x: Int64, t: Int64)
    ensures NewerThan([x], SELF, t) == if x > t then [x] else []
  {
    assert [x][..0] == [];
  }

  lemma {:induction false} NewerAll(s: seq<Int64>, t: Int64)
    ensures (forall i :: 0 <= i < |s| ==> s[i] > t) ==> |NewerThan(s, SELF, t)| == |s|
    ensures (forall i :: 0 <= i < |s| ==> s[i] <= t) ==> |NewerThan(s, SELF, t)| == 0
    ensures |NewerThan(s, SELF, t)| <= |s|
    ensures s != [] && s[|s| - 1] <= t ==> |NewerThan(s, SELF, t)| < |s|
  {
    if s != [] { NewerAll(s[..|s| - 1], t); }
  }

  lemma PruneLeaves<R>(rows: seq<R>, key: R -> Int64, keep: nat, n: nat)
    requires |rows| > keep >= n > 0
    ensures |Ordered(Keys(rows, key))| == |rows|
    ensures var s := Ordered(Keys(rows, key)); |Prune(rows, key, keep)| >= n <==> s[n - 1] > s[keep]
  {
    hide Insert, NewerThan, Without, Prune;
    var s := Ordered(Keys(rows, key));
    PruneKeepsStrictlyNewer(rows, key, keep);
    OrderedOrders(Keys(rows, key));
    NewerIsSmall(rows, key, s[keep]);
    NewestNewer(s, n, s[keep]);
  }

  /** Of a descending sequence, the first n are newer than t, or all that are newer are fewer than n. */
  lemma NewestNewer(s: seq<Int64>, n: nat, t: Int64)
    requires Descending(s) && 0 < n <= |s|
    ensures |NewerThan(s, SELF, t)| >= n <==> s[n - 1] > t
  {
    hide NewerThan, Descending;
    var (head, tail) := (s[..n], s[n..]);
    assert s == head + tail;
    NewerSplit(head, tail, t);
    NewerAll(head, t);
    NewerAll(tail, t);
    if s[n - 1] > t { HeadIsNewer(s, n, t); } else { TailIsOld(s, n, t); }
  }

  lemma HeadIsNewer(s: seq<Int64>, n: nat, t: Int64)
    requires Descending(s) && 0 < n <= |s| && s[n - 1] > t
    ensures forall i :: 0 <= i < |s[..n]| ==> s[..n][i] > t
  {
    forall i | 0 <= i < n ensures s[..n][i] > t { assert i < n - 1 ==> s[i] >= s[n - 1]; }
  }

  lemma TailIsOld(s: seq<Int64>, n: nat, t: Int64)
    requires Descending(s) && 0 < n <= |s| && s[n - 1] <= t
    ensures forall i :: 0 <= i < |s[n..]| ==> s[n..][i] <= t
  {
    forall i | 0 <= i < |s[n..]| ensures s[n..][i] <= t { assert s[n - 1] >= s[n + i]; }
  }

  /** It keeps `keep` rows exactly if the last of them is newer than the first one dropped; a tie there
      costs more, and never fewer are dropped. */
  lemma PruneIsExactWithoutTies<R>(rows: seq<R>, key: R -> Int64, keep: nat)
    requires |rows| > keep > 0
    ensures |Ordered(Keys(rows, key))| == |rows|
    ensures var s := Ordered(Keys(rows, key));
            |Prune(rows, key, keep)| <= keep && (|Prune(rows, key, keep)| == keep <==> s[keep - 1] > s[keep])
  {
    hide Insert, NewerThan, Without, Prune;
    var s := Ordered(Keys(rows, key));
    PruneLeaves(rows, key, keep, keep);
    PruneKeepsStrictlyNewer(rows, key, keep);
    OrderedOrders(Keys(rows, key));
    NewerIsSmall(rows, key, s[keep]);
    NewestNewer(s, keep + 1, s[keep]);
  }

  /** In the extreme, a burst of events stamped alike is wiped out, newest ones included. */
  lemma TiesEraseEverything<R>(rows: seq<R>, key: R -> Int64, keep: nat, t: Int64)
    requires |rows| > keep && forall i :: 0 <= i < |rows| ==> key(rows[i]) == t
    ensures Prune(rows, key, keep) == []
  {
    hide NewerThan;
    PruneKeepsStrictlyNewer(rows, key, keep);
    OrderedOrders(Keys(rows, key));
    var s := Ordered(Keys(rows, key));
    assert s[keep] in s && s[keep] in Keys(rows, key);
    NoneNewer(rows, key, t);
  }

  lemma {:induction false} NoneNewer<R>(rows: seq<R>, key: R -> Int64, t: Int64)
    requires forall i :: 0 <= i < |rows| ==> key(rows[i]) <= t
    ensures NewerThan(rows, key, t) == []
  {
    if rows != [] { NoneNewer(rows[..|rows| - 1], key, t); }
  }

  ghost predicate Ascending<R>(rows: seq<R>, key: R -> Int64) {
    forall i, j :: 0 <= i < j < |rows| ==> key(rows[i]) < key(rows[j])
  }

  ghost predicate NonDescending<R>(rows: seq<R>, key: R -> Int64) {
    forall i, j :: 0 <= i < j < |rows| ==> key(rows[i]) <= key(rows[j])
  }

  lemma {:induction false} OrderedAscending<R>(rows: seq<R>, key: R -> Int64)
    requires NonDescending(rows, key)
    ensures Ordered(Keys(rows, key)) == Keys(Reversed(rows), key)
  {
    if rows != [] {
      var n := |rows| - 1;
      OrderedAscending(rows[..n], key);
      assert Keys(rows, key)[..n] == Keys(rows[..n], key);
      var rest := Keys(Reversed(rows[..n]), key);
      assert n > 0 ==> rest[0] == key(rows[n - 1]);
      assert [key(rows[n])] + rest == Keys(Reversed(rows), key);
    }
  }

  lemma AscendingIsNonDescending<R>(rows: seq<R>, key: R -> Int64)
    requires Ascending(rows, key)
    ensures NonDescending(rows, key)
  {
  }

  lemma {:induction false} NewerThanRow<R>(rows: seq<R>, key: R -> Int64, m: nat)
    requires Ascending(rows, key) && m < |rows|
    ensures NewerThan(rows, key, key(rows[m])) == rows[m + 1..]
  {
    var n := |rows| - 1;
    if m < n {
      NewerThanRow(rows[..n], key, m);
      assert rows[..n][m + 1..] + [rows[n]] == rows[m + 1..];
    } else {
      NoneNewer(rows, key, key(rows[m]));
    }
  }

  lemma PruneAscending<R>(rows: seq<R>, key: R -> Int64, keep: nat)
    requires Ascending(rows, key)
    ensures Prune(rows, key, keep) == LastN(rows, keep)
  {
    hide Prune, Ordered, NewerThan;
    PruneKeepsStrictlyNewer(rows, key, keep);
    AscendingIsNonDescending(rows, key);
    if |rows| > keep {
      OrderedAscending(rows, key);
      NewerThanRow(rows, key, |rows| - 1 - keep);
    }
  }

  // ---------------------------------------------------------------- the SQLite store

  const BY_ID := (p: Point) => p.id
  const BY_TS := (e: EventRow) => e.ts
  const MAX_ID: Int64 := 0x7FFF_FFFF_FFFF_FFFF

  function Over(n: nat, cap: nat): nat { if n > cap then n - cap else 0 }

  function WithoutId(rows: seq<EventRow>, id: string): seq<EventRow> {
    if rows == [] then []
    else WithoutId(rows[..|rows| - 1], id) + if rows[|rows| - 1].id == id then [] else [rows[|rows| - 1]]
  }

  ghost predicate OneRowEach(rows: seq<EventRow>) {
    forall i, j :: 0 <= i < j < |rows| ==> rows[i].id != rows[j].id
  }

  /** Deleting by id takes the rows with that id and no other. */
  lemma {:induction false} WithoutIdIs(rows: seq<EventRow>, id: string)
    ensures forall r :: r in WithoutId(rows, id) <==> r in rows && r.id != id
    ensures OneRowEach(rows) ==> OneRowEach(WithoutId(rows, id))
  {
    if rows != [] {
      var (front, r) := (rows[..|rows| - 1], rows[|rows| - 1]);
      WithoutIdIs(front, id);
      InSnoc(front, r);
      assert rows == front + [r];
      if OneRowEach(rows) {
        OneMore(front, r);
        OneMore(WithoutId(front, id), r);
      }
    }
  }

  lemma InSnoc<R>(rows: seq<R>, r: R)
    ensures forall x :: x in rows + [r] <==> x in rows || x == r
  {
  }

  lemma OneMore(rows: seq<EventRow>, r: EventRow)
    ensures OneRowEach(rows + [r]) <==> OneRowEach(rows) && forall x :: x in rows ==> x.id != r.id
  {
    var all := rows + [r];
    assert forall i :: 0 <= i < |rows| ==> all[i] == rows[i] && rows[i] in rows;
    assert all[|rows|] == r;
    if OneRowEach(all) {
      assert forall i, j :: 0 <= i < j < |rows| ==> all[i].id != all[j].id;
      forall x | x in rows ensures x.id != r.id {
        var i :| 0 <= i < |rows| && rows[i] == x;
        assert all[i].id != all[|rows|].id;
      }
    }
  }

  lemma {:induction false} WithoutSome(rows: seq<EventRow>, key: EventRow -> Int64, gone: seq<Int64>)
    ensures forall r :: r in Without(rows, key, gone) ==> r in rows
    ensures OneRowEach(rows) ==> OneRowEach(Without(rows, key, gone))
  {
    if rows != [] {
      var (front, r) := (rows[..|rows| - 1], rows[|rows| - 1]);
      WithoutSome(front, key, gone);
      InSnoc(front, r);
      assert rows == front + [r];
      if OneRowEach(rows) {
        OneMore(front, r);
        OneMore(Without(front, key, gone), r);
      }
    }
  }

  lemma {:induction false} WithoutIdSize(rows: seq<EventRow>, id: string)
    ensures |WithoutId(rows, id)| <= |rows|
  {
    if rows != [] { WithoutIdSize(rows[..|rows| - 1], id); }
  }

  /** `rows` are the newest of `all`, at least the newest `least`. */
  ghost predicate Newest<T>(rows: seq<T>, all: seq<T>, least: nat) {
    |rows| <= |all| && rows == all[|all| - |rows|..] && (|rows| == |all| || |rows| >= least)
  }

  lemma LastNIsNewest<T>(rows: seq<T>, all: seq<T>, least: nat)
    requires Newest(rows, all, least)
    ensures Newest(LastN(rows, least), all, least) && |LastN(rows, least)| <= least
  {
  }

  lemma NewestById(rows: seq<Point>, all: seq<Point>)
    requires Newest(rows, all, MAX_SNAPSHOTS) && forall i :: 0 <= i < |all| ==> all[i].id == i + 1
    ensures Ascending(rows, BY_ID)
  {
  }

  lemma NewestAnswers<T>(rows: seq<T>, all: seq<T>, least: nat, n: nat)
    requires Newest(rows, all, least) && n <= least
    ensures LastN(rows, n) == LastN(all, n)
  {
  }

  // ---------------------------------------------------------------- the event table, write by write

  /** A successful write: of a snapshot, or of an event under the stamp it got. */
  datatype Write = Snap | Note(e: EventRow)

  ghost function Written(rows: seq<EventRow>, w: Write): seq<EventRow> {
    match w
    case Snap => rows
    case Note(e) => WithoutId(rows, e.id) + [e]
  }

  lemma SnapWrites(rows: seq<EventRow>)
    ensures Written(rows, Snap) == rows
  {
  }

  /** How many writes since the last pruning one. */
  function Phase(writes: nat): nat { writes % PRUNE_EVERY }

  lemma PhaseAdvances(writes: nat, count: nat)
    requires writes < U64_SIZE && count > 0 && Phase(writes) == Phase(count - 1)
    ensures var next := (writes + 1) % U64_SIZE;
            Phase(next) == Phase(count) == if Phase(writes) == PRUNE_EVERY - 1 then 0 else Phase(writes) + 1
    ensures Phase(writes) < PRUNE_EVERY
  {
    NextPhase(writes);
    NextPhase(count - 1);
    if writes == U64_SIZE - 1 {
      assert Phase(writes) == PRUNE_EVERY - 1;
    }
  }

  lemma NextPhase(n: nat)
    ensures Phase(n + 1) == if Phase(n) == PRUNE_EVERY - 1 then 0 else Phase(n) + 1
  {
  }

  lemma PhaseIs(writes: nat)
    ensures Phase(writes) == writes % 32
  {
  }

  ghost function Pruned(rows: seq<EventRow>, writes: nat): seq<EventRow> {
    if Phase(writes) == 0 then Prune(rows, BY_TS, MAX_EVENTS) else rows
  }

  /** What a run of writes leaves in the table. */
  ghost function Table(run: seq<Write>): seq<EventRow> {
    if run == [] then [] else Pruned(Written(Table(run[..|run| - 1]), run[|run| - 1]), |run|)
  }

  /** All events it recorded. */
  ghost function Notes(run: seq<Write>): seq<EventRow> {
    if run == [] then []
    else
      var w := run[|run| - 1];
      Notes(run[..|run| - 1]) + if w.Note? then [w.e] else []
  }

  /** The clock does not run backwards, and no event id is used twice. */
  ghost predicate InOrder(noted: seq<EventRow>) {
    forall i, j :: 0 <= i < j < |noted| ==> noted[i].ts <= noted[j].ts && noted[i].id != noted[j].id
  }

  /** Moreover no two events share a millisecond. */
  ghost predicate Orderly(noted: seq<EventRow>) { InOrder(noted) && Ascending(noted, BY_TS) }

  /** In any 2001 events in a row, the n-th newest is stamped later than the oldest. */
  ghost predicate Spaced(noted: seq<EventRow>, n: nat)
    requires 0 < n <= MAX_EVENTS
  {
    forall i :: 0 <= i && i + MAX_EVENTS < |noted| ==> noted[i].ts < noted[i + MAX_EVENTS + 1 - n].ts
  }

  lemma OrderlyIsSpaced(noted: seq<EventRow>, n: nat)
    requires Orderly(noted) && 0 < n <= MAX_EVENTS
    ensures Spaced(noted, n)
  {
    assert forall i, j :: 0 <= i < j < |noted| ==> BY_TS(noted[i]) < BY_TS(noted[j]);
  }

  lemma InOrderBefore(noted: seq<EventRow>, e: EventRow)
    requires InOrder(noted + [e])
    ensures InOrder(noted) && forall i :: 0 <= i < |noted| ==> noted[i].id != e.id
  {
    var all := noted + [e];
    assert forall i :: 0 <= i < |noted| ==> all[i] == noted[i] && all[|noted|] == e;
  }

  lemma SpacedBefore(noted: seq<EventRow>, e: EventRow, n: nat)
    requires 0 < n <= MAX_EVENTS && Spaced(noted + [e], n)
    ensures Spaced(noted, n)
  {
    var all := noted + [e];
    forall i | 0 <= i && i + MAX_EVENTS < |noted| ensures noted[i].ts < noted[i + MAX_EVENTS + 1 - n].ts {
      assert all[i].ts < all[i + MAX_EVENTS + 1 - n].ts;
    }
  }

  lemma NewestNonDescending(rows: seq<EventRow>, noted: seq<EventRow>)
    requires InOrder(noted) && Newest(rows, noted, 0)
    ensures NonDescending(rows, BY_TS)
  {
  }

  lemma NewestGrows<T>(rows: seq<T>, all: seq<T>, n: nat, x: T)
    requires Newest(rows, all, n)
    ensures Newest(rows + [x], all + [x], n)
  {
  }

  lemma NewestIds(rows: seq<EventRow>, noted: seq<EventRow>, n: nat, id: string)
    requires Newest(rows, noted, n) && forall i :: 0 <= i < |noted| ==> noted[i].id != id
    ensures forall i :: 0 <= i < |rows| ==> rows[i].id != id
  {
    assert forall i :: 0 <= i < |rows| ==> rows[i] == noted[|noted| - |rows| + i];
  }

  /** Recording one more event keeps the table the newest part of all events. */
  lemma NoteKeepsNewest(rows: seq<EventRow>, noted: seq<EventRow>, e: EventRow, n: nat)
    requires InOrder(noted + [e]) && Newest(rows, noted, n)
    ensures Newest(WithoutId(rows, e.id) + [e], noted + [e], n) && |WithoutId(rows, e.id)| == |rows|
  {
    hide InOrder, Newest, WithoutId;
    InOrderBefore(noted, e);
    NewestIds(rows, noted, n, e.id);
    WithoutNewId(rows, e.id);
    NewestGrows(rows, noted, n, e);
  }

  lemma {:induction false} NewerIsSuffix<R>(rows: seq<R>, key: R -> Int64, t: Int64)
    requires NonDescending(rows, key)
    ensures Newest(NewerThan(rows, key, t), rows, 0)
  {
    if rows != [] {
      var n := |rows| - 1;
      NewerIsSuffix(rows[..n], key, t);
      assert forall i :: 0 <= i < |rows| ==> key(rows[i]) <= key(rows[n]);
      hide NonDescending, Newest;
      if key(rows[n]) > t {
        assert rows == rows[..n] + [rows[n]];
        NewestGrows(NewerThan(rows[..n], key, t), rows[..n], 0, rows[n]);
      } else {
        NoneNewer(rows, key, t);
        assert Newest([], rows, 0) by { NoneIsNewest(rows); }
      }
    } else {
      NoneIsNewest(rows);
    }
  }

  lemma NoneIsNewest<T>(all: seq<T>)
    ensures Newest([], all, 0)
  {
  }

  /** What pruning the newest part of all events does: it leaves a newest part again, which has k rows exactly
      if the k-th newest event is stamped later than the first one beyond the limit. */
  lemma PruneNewest(rows: seq<EventRow>, noted: seq<EventRow>, k: nat)
    requires InOrder(noted) && Newest(rows, noted, 0) && 0 < k <= MAX_EVENTS
    ensures Newest(Prune(rows, BY_TS, MAX_EVENTS), noted, 0)
    ensures |rows| <= MAX_EVENTS ==> Prune(rows, BY_TS, MAX_EVENTS) == rows
    ensures var m := |noted|;
            |rows| > MAX_EVENTS ==>
              (|Prune(rows, BY_TS, MAX_EVENTS)| >= k <==> noted[m - k].ts > noted[m - 1 - MAX_EVENTS].ts)
  {
    hide Prune, NewerThan, Ordered, InOrder;
    NewestNonDescending(rows, noted);
    PruneKeepsStrictlyNewer(rows, BY_TS, MAX_EVENTS);
    if |rows| > MAX_EVENTS {
      var s := Ordered(Keys(rows, BY_TS));
      NewerIsSuffix(rows, BY_TS, s[MAX_EVENTS]);
      PruneLeaves(rows, BY_TS, MAX_EVENTS, k);
      OrderedAscending(rows, BY_TS);
      var r := Keys(Reversed(rows), BY_TS);
      assert r[k - 1] == rows[|rows| - k].ts && r[MAX_EVENTS] == rows[|rows| - 1 - MAX_EVENTS].ts;
    }
  }

  lemma RunStep(run: seq<Write>)
    requires run != []
    ensures var (front, w) := (run[..|run| - 1], run[|run| - 1]);
            && Table(run) == Pruned(Written(Table(front), w), |run|)
            && Notes(run) == if w.Note? then Notes(front) + [w.e] else Notes(front)
  {
    hide Pruned, Written;
  }

  /** The event recorded last under this id. */
  ghost function Latest(noted: seq<EventRow>, id: string): Option<EventRow> {
    if noted == [] then None
    else if noted[|noted| - 1].id == id then Some(noted[|noted| - 1])
    else Latest(noted[..|noted| - 1], id)
  }

  lemma LatestNext(noted: seq<EventRow>, e: EventRow, id: string)
    ensures Latest(noted + [e], id) == if e.id == id then Some(e) else Latest(noted, id)
  {
    assert (noted + [e])[..|noted|] == noted;
  }

  ghost predicate AreLatest(rows: seq<EventRow>, noted: seq<EventRow>) {
    OneRowEach(rows) && forall r :: r in rows ==> Latest(noted, r.id) == Some(r)
  }

  lemma WrittenAreLatest(rows: seq<EventRow>, noted: seq<EventRow>, e: EventRow)
    requires AreLatest(rows, noted)
    ensures AreLatest(WithoutId(rows, e.id) + [e], noted + [e])
  {
    hide WithoutId, OneRowEach, Latest;
    var kept := WithoutId(rows, e.id);
    WithoutIdIs(rows, e.id);
    InSnoc(kept, e);
    OneMore(kept, e);
    forall r | r in kept + [e] ensures Latest(noted + [e], r.id) == Some(r) {
      LatestNext(noted, e, r.id);
    }
  }

  /** Whatever ids and stamps events come with, the table has at most one row of an id, and it is the event
      recorded last under it. */
  lemma {:induction false} RowsAreLatest(run: seq<Write>)
    ensures AreLatest(Table(run), Notes(run))
  {
    if run != [] {
      hide Table, Notes, WithoutId, OneRowEach, Latest, Ordered, Without;
      var (front, w) := (run[..|run| - 1], run[|run| - 1]);
      RowsAreLatest(front);
      RunStep(run);
      if w.Note? {
        WrittenAreLatest(Table(front), Notes(front), w.e);
      }
      PrunedAreLatest(Written(Table(front), w), Notes(run), |run|);
    }
  }

  lemma PrunedAreLatest(rows: seq<EventRow>, noted: seq<EventRow>, writes: nat)
    requires AreLatest(rows, noted)
    ensures AreLatest(Pruned(rows, writes), noted)
  {
    hide OneRowEach, Latest, Ordered, Without;
    var keys := Ordered(Keys(rows, BY_TS));
    WithoutSome(rows, BY_TS, []);
    if |keys| > MAX_EVENTS {
      WithoutSome(rows, BY_TS, keys[MAX_EVENTS..]);
    }
  }

  /** What one write does to a table that holds the newest part of all events. */
  lemma WriteStep(run: seq<Write>, n: nat)
    requires run != [] && InOrder(Notes(run)) && Newest(Table(run[..|run| - 1]), Notes(run[..|run| - 1]), n)
    ensures InOrder(Notes(run[..|run| - 1]))
    ensures var (was, w) := (Table(run[..|run| - 1]), run[|run| - 1]);
            && Newest(Written(was, w), Notes(run), n)
            && |Written(was, w)| == |was| + (if w.Note? then 1 else 0)
  {
    hide Table, Notes, WithoutId, InOrder, Newest;
    var (front, w) := (run[..|run| - 1], run[|run| - 1]);
    RunStep(run);
    if w.Note? {
      InOrderBefore(Notes(front), w.e);
      NoteKeepsNewest(Table(front), Notes(front), w.e, n);
    }
  }

  lemma NewestAtLeast<T>(rows: seq<T>, all: seq<T>, n: nat)
    ensures Newest(rows, all, n) ==> Newest(rows, all, 0)
    ensures Newest(rows, all, 0) && |rows| >= n ==> Newest(rows, all, n)
  {
  }

  /** Over any run whose events are spaced for n, the table holds at least the newest n events. */
  lemma {:induction false} TableIsNewest(run: seq<Write>, n: nat)
    requires InOrder(Notes(run)) && 0 < n <= MAX_EVENTS && Spaced(Notes(run), n)
    ensures Newest(Table(run), Notes(run), n)
  {
    if run != [] {
      hide Prune, Spaced, InOrder, Written, Newest, Table, Notes;
      RunStep(run);
      SpacedFront(run, n);
      TableIsNewest(run[..|run| - 1], n);
      WriteStep(run, n);
      PruneSpaced(Written(Table(run[..|run| - 1]), run[|run| - 1]), Notes(run), n);
    }
  }

  lemma SpacedFront(run: seq<Write>, n: nat)
    requires run != [] && InOrder(Notes(run)) && 0 < n <= MAX_EVENTS && Spaced(Notes(run), n)
    ensures InOrder(Notes(run[..|run| - 1])) && Spaced(Notes(run[..|run| - 1]), n)
  {
    hide InOrder, Spaced, Notes;
    var (front, w) := (run[..|run| - 1], run[|run| - 1]);
    RunStep(run);
    if w.Note? {
      InOrderBefore(Notes(front), w.e);
      SpacedBefore(Notes(front), w.e, n);
    }
  }

  lemma PruneSpaced(rows: seq<EventRow>, noted: seq<EventRow>, n: nat)
    requires InOrder(noted) && 0 < n <= MAX_EVENTS && Spaced(noted, n) && Newest(rows, noted, n)
    ensures Newest(Prune(rows, BY_TS, MAX_EVENTS), noted, n)
  {
    hide Prune, InOrder;
    PruneNewest(rows, noted, n);
    if |rows| > MAX_EVENTS {
      var i := |noted| - 1 - MAX_EVENTS;
      assert noted[i].ts < noted[i + MAX_EVENTS + 1 - n].ts;
    }
  }

  lemma {:induction false} WithoutNewId(rows: seq<EventRow>, id: string)
    requires forall i :: 0 <= i < |rows| ==> rows[i].id != id
    ensures WithoutId(rows, id) == rows
  {
    if rows != [] { WithoutNewId(rows[..|rows| - 1], id); }
  }

  class Database {
    var snapshots: seq<Point>
    var events: seq<EventRow>
    var nextId: Int64
    var writes: nat
    var lastSnapTime: Int64
    ghost var stored: seq<Point>
    ghost var run: seq<Write>

    /** All events recorded. */
    ghost function Noted(): seq<EventRow>
      reads this
    {
      Notes(run)
    }

    ghost predicate Valid()
      reads this
    {
      && Newest(snapshots, stored, MAX_SNAPSHOTS)
      && events == Table(run) && Phase(writes) == Phase(|run|)
      && nextId == |stored| + 1
      && (forall i :: 0 <= i < |stored| ==> stored[i].id == i + 1)
      && Over(|snapshots|, MAX_SNAPSHOTS) + Over(|events|, MAX_EVENTS) <= Phase(writes)
      && writes < U64_SIZE
    }

    constructor ()
      ensures Valid() && stored == [] && run == [] && events == [] && lastSnapTime == 0
    {
      snapshots, events, stored, run := [], [], [], [];
      nextId, writes, lastSnapTime := 1, 0, 0;
    }

    /** At most one snapshot per 1500 ms is stored; a failing statement still counts as the last try. */
    method RecordSnapshot(snap: Option<Sample>, now: Int64, fails: bool) returns (ok: bool)
      requires Valid()
      modifies this
      ensures Valid()
      ensures var throttled := snap.None? || (old(lastSnapTime) > 0 && now - old(lastSnapTime) < 1500);
              var broken := fails || old(nextId) == MAX_ID;
              && ok == (throttled || !broken)
              && lastSnapTime == (if throttled then old(lastSnapTime) else now)
              && run == (if throttled || broken then old(run) else old(run) + [Snap])
              && stored == if throttled || broken then old(stored)
                           else old(stored) + [Point(old(nextId), now, snap.value)]
    {
      hide Table, Written;
      assert Written(Table(run), Snap) == Table(run) by { SnapWrites(Table(run)); }
      if snap.None? {
        return true;
      }
      var prev := lastSnapTime;
      if prev > 0 && now - prev < 1500 {
        return true;
      }
      lastSnapTime := now;
      if fails || nextId == MAX_ID {
        return false;
      }
      var row := Point(nextId, now, snap.value);
      snapshots := snapshots + [row];
      stored := stored + [row];
      nextId := nextId + 1;
      run := run + [Snap];
      MaybePrune();
      ok := true;
    }

    method RecordEvent(e: EventRow, fails: bool) returns (ok: bool)
      requires Valid()
      modifies this
      ensures Valid() && stored == old(stored) && ok == !fails
      ensures run == if fails then old(run) else old(run) + [Note(e)]
      ensures fails ==> events == old(events)
      ensures !fails ==> var rows := WithoutId(old(events), e.id) + [e];
                         events == if writes % 32 == 0 then Prune(rows, BY_TS, 2000) else rows
    {
      if fails {
        return false;
      }
      WithoutIdSize(events, e.id);
      events, run := WithoutId(events, e.id) + [e], run + [Note(e)];
      MaybePrune();
      ok := true;
    }

    /** Every 32nd write trims both tables. */
    method MaybePrune()
      requires Newest(snapshots, stored, MAX_SNAPSHOTS) && nextId == |stored| + 1 && writes < U64_SIZE
      requires run != [] && events == Written(Table(run[..|run| - 1]), run[|run| - 1])
      requires Phase(writes) == Phase(|run| - 1)
      requires forall i :: 0 <= i < |stored| ==> stored[i].id == i + 1
      requires Over(|snapshots|, MAX_SNAPSHOTS) + Over(|events|, MAX_EVENTS) <= Phase(writes) + 1
      modifies this`writes, this`snapshots, this`events
      ensures Valid()
      ensures writes == (old(writes) + 1) % U64_SIZE
      ensures events == if writes % 32 == 0 then Prune(old(events), BY_TS, 2000) else old(events)
      ensures snapshots == if writes % 32 == 0 then LastN(old(snapshots), 1000) else old(snapshots)
    {
      hide Prune, Newest, LastN, Written, Table;
      RunStep(run);
      PhaseAdvances(writes, |run|);
      PhaseIs((writes + 1) % U64_SIZE);
      hide Phase;
      writes := (writes + 1) % U64_SIZE;
      if Phase(writes) != 0 {
        return;
      }
      TrimSnapshots();
      PruneSize(events, BY_TS, MAX_EVENTS);
      events := Prune(events, BY_TS, MAX_EVENTS);
    }

    method TrimSnapshots()
      requires Newest(snapshots, stored, MAX_SNAPSHOTS) && forall i :: 0 <= i < |stored| ==> stored[i].id == i + 1
      modifies this`snapshots
      ensures Newest(snapshots, stored, MAX_SNAPSHOTS) && |snapshots| <= MAX_SNAPSHOTS
      ensures snapshots == LastN(old(snapshots), MAX_SNAPSHOTS)
    {
      hide Prune, Newest, LastN;
      NewestById(snapshots, stored);
      PruneAscending(snapshots, BY_ID, MAX_SNAPSHOTS);
      LastNIsNewest(snapshots, stored, MAX_SNAPSHOTS);
      snapshots := Prune(snapshots, BY_ID, MAX_SNAPSHOTS);
    }

    method QueryHistory(u: Classes, limit: int, comm: Comm) returns (points: seq<Point>)
      requires Valid()
      ensures points == LastN(if comm != [] then Matching(snapshots, Sanitized(u, comm)) else snapshots,
                              if limit <= 0 then 100 else if limit <= 1000 then limit else 1000)
      ensures comm == [] ==> points == LastN(stored, if limit <= 0 then 100 else if limit <= 1000 then limit else 1000)
    {
      hide Sanitized, Newest, Table, Matching, LastN;
      var n := ClampLimit(limit, 100, 1000);
      var selected := snapshots;
      if comm != [] {
        var clean := SanitizeComm(u, comm);
        selected := Matching(snapshots, clean);
      }
      var rows := Reversed(LastN(selected, n));
      NewestAnswers(snapshots, stored, MAX_SNAPSHOTS, n);
      if rows == [] {
        assert LastN(selected, n) == [];
        return [];
      }
      var a := new Point[|rows|](i requires 0 <= i < |rows| => rows[i]);
      assert a[..] == rows;
      ReverseInPlace(a);
      points := a[..];
      assert points == LastN(selected, n);
    }

    /** `selected` is what the engine answers. */
    method QueryEvents(limit: int, selected: seq<EventRow>) returns (out: seq<EventRow>)
      requires Valid() && Selects(selected, events, BY_TS, ClampLimit(limit, 50, 500))
      ensures Keys(out, BY_TS)
              == NewestStamps(events, BY_TS, if limit <= 0 then 50 else if limit <= 500 then limit else 500)
      ensures var n := if limit <= 0 then 50 else if limit <= 500 then limit else 500;
              && (InOrder(Noted()) && Spaced(Noted(), n) ==> Keys(out, BY_TS) == NewestStamps(Noted(), BY_TS, n))
              && (Orderly(Noted()) ==> out == Reversed(LastN(Noted(), n)))
    {
      hide Selects, NewestStamps, InOrder, Spaced, Newest, LastN, Table, Notes;
      var n := ClampLimit(limit, 50, 500);
      SelectedStamps(selected, events, BY_TS, n);
      if InOrder(Noted()) && Spaced(Noted(), n) {
        TableIsNewest(run, n);
        StampsAgree(events, Noted(), n);
      }
      if Orderly(Noted()) {
        OrderlyAnswer(run, selected, n);
      }
      out := [];
      for i := 0 to |selected|
        invariant out == selected[..i]
      {
        out := out + [selected[i]];
      }
    }
  }

  /** Each store holds little more than its newest rows, and never fewer than those of its snapshots. */
  lemma SizesAreBounded(db: Database, mem: Memory)
    requires db.Valid() && mem.Valid()
    ensures |db.snapshots| < 1032 && |db.events| < 2032
    ensures |db.snapshots| >= if |db.stored| < 1000 then |db.stored| else 1000
    ensures |mem.snapshots| == if |mem.stored| < 5000 then |mem.stored| else 5000
    ensures |mem.events| == if |mem.noted| < 5000 then |mem.noted| else 5000
  {
    hide Table, Notes;
  }

  lemma PruneSize<R>(rows: seq<R>, key: R -> Int64, keep: nat)
    requires keep > 0
    ensures |Prune(rows, key, keep)| <= |rows| && |Prune(rows, key, keep)| <= keep
  {
    PruneKeepsStrictlyNewer(rows, key, keep);
    if |rows| > keep {
      PruneIsExactWithoutTies(rows, key, keep);
    }
  }

  // ---------------------------------------------------------------- what pruning can be noticed by

  lemma {:induction false} MatchingSplits(a: seq<Point>, b: seq<Point>, comm: Comm)
    ensures Matching(a + b, comm) == Matching(a, comm) + Matching(b, comm)
  {
    if b == [] {
      assert a + b == a;
    } else {
      assert (a + b)[..|a + b| - 1] == a + b[..|b| - 1];
      MatchingSplits(a, b[..|b| - 1], comm);
    }
  }

  /** A query by comm sees through pruning exactly if enough matching rows are left, or no matching row
      was pruned. */
  lemma FilteredQueryUnaffectedIff(rows: seq<Point>, all: seq<Point>, comm: Comm, n: nat)
    requires Newest(rows, all, MAX_SNAPSHOTS)
    ensures LastN(Matching(rows, comm), n) == LastN(Matching(all, comm), n)
            <==> |Matching(rows, comm)| >= n || Matching(all[..|all| - |rows|], comm) == []
  {
    hide Matching;
    var gone := all[..|all| - |rows|];
    assert all == gone + rows;
    MatchingSplits(gone, rows, comm);
    SuffixAnswers(Matching(gone, comm), Matching(rows, comm), n);
  }

  lemma SuffixAnswers<T>(gone: seq<T>, rows: seq<T>, n: nat)
    ensures LastN(rows, n) == LastN(gone + rows, n) <==> |rows| >= n || gone == []
  {
    if gone == [] {
      assert gone + rows == rows;
    } else if |rows| >= n {
      assert LastN(rows, n) == LastN(gone + rows, n);
    } else {
      assert |LastN(gone + rows, n)| > |rows|;
    }
  }

  lemma {:induction false} OrderedNewer(keys: seq<Int64>, t: Int64)
    ensures Ordered(NewerThan(keys, SELF, t)) == NewerThan(Ordered(keys), SELF, t)
  {
    if keys != [] {
      var n := |keys| - 1;
      OrderedNewer(keys[..n], t);
      OrderedOrders(keys[..n]);
      InsertNewer(keys[n], Ordered(keys[..n]), t);
      var front := NewerThan(keys[..n], SELF, t);
      if keys[n] > t {
        assert NewerThan(keys, SELF, t) == front + [keys[n]];
        assert (front + [keys[n]])[..|front|] == front;
      } else {
        assert NewerThan(keys, SELF, t) == front;
      }
    }
  }

  lemma {:induction false} InsertNewer(x: Int64, s: seq<Int64>, t: Int64)
    requires Descending(s)
    ensures NewerThan(Insert(x, s), SELF, t)
            == if x > t then Insert(x, NewerThan(s, SELF, t)) else NewerThan(s, SELF, t)
  {
    hide NewerThan;
    NewerSingle(x, t);
    if s == [] {
      NewerNone(t);
      assert Insert(x, s) == [x];
    } else {
      var rest := s[1..];
      assert s == [s[0]] + rest;
      NewerSingle(s[0], t);
      NewerSplit([s[0]], rest, t);
      if x >= s[0] {
        NewerSplit([x], s, t);
        if s[0] <= t { NewerOfOld(s, t); }
      } else {
        InsertNewer(x, rest, t);
        NewerSplit([s[0]], Insert(x, rest), t);
      }
    }
  }

  lemma NewerNone(t: Int64)
    ensures NewerThan<Int64>([], SELF, t) == []
  {
  }

  lemma NewerOfOld(s: seq<Int64>, t: Int64)
    requires Descending(s) && s != [] && s[0] <= t
    ensures NewerThan(s, SELF, t) == []
  {
    NoneNewer(s, SELF, t);
  }

  lemma {:induction false} KeysOfNewer<R>(rows: seq<R>, key: R -> Int64, t: Int64)
    ensures Keys(NewerThan(rows, key, t), key) == NewerThan(Keys(rows, key), SELF, t)
  {
    if rows != [] {
      var n := |rows| - 1;
      KeysOfNewer(rows[..n], key, t);
      assert Keys(rows, key)[..n] == Keys(rows[..n], key);
    }
  }

  lemma {:induction false} NewerIsPrefix(s: seq<Int64>, t: Int64)
    requires Descending(s)
    ensures NewerThan(s, SELF, t) <= s
  {
    if s != [] {
      var n := |s| - 1;
      NewerIsPrefix(s[..n], t);
      if s[n] > t {
        NewerEverything(s, t);
      }
    }
  }

  lemma {:induction false} NewerEverything(s: seq<Int64>, t: Int64)
    requires forall i :: 0 <= i < |s| ==> s[i] > t
    ensures NewerThan(s, SELF, t) == s
  {
    if s != [] {
      NewerEverything(s[..|s| - 1], t);
      assert s[..|s| - 1] + [s[|s| - 1]] == s;
    }
  }

  /** The stamps of the newest `n` rows, as QueryEvents lists them (ties in any order). */
  function NewestStamps<R>(rows: seq<R>, key: R -> Int64, n: nat): seq<Int64> {
    var s := Ordered(Keys(rows, key));
    if |s| <= n then s else s[..n]
  }

  lemma UnaffectedIffEnoughLeft<R>(rows: seq<R>, key: R -> Int64, keep: nat, n: nat)
    requires |rows| > keep >= n
    ensures NewestStamps(Prune(rows, key, keep), key, n) == NewestStamps(rows, key, n)
            <==> |Prune(rows, key, keep)| >= n
  {
    hide Prune, NewerThan, Ordered, Descending;
    var s := Ordered(Keys(rows, key));
    OrderedOrders(Keys(rows, key));
    PruneKeepsStrictlyNewer(rows, key, keep);
    var left := Prune(rows, key, keep);
    KeysOfNewer(rows, key, s[keep]);
    OrderedNewer(Keys(rows, key), s[keep]);
    NewerIsPrefix(s, s[keep]);
    OrderedOrders(Keys(left, key));
  }

  /** An event query for n rows sees through pruning exactly if the n-th newest stamp is newer than the
      first one the prune takes away, or there is nothing to take away. */
  lemma EventQueryUnaffectedIff<R>(rows: seq<R>, key: R -> Int64, keep: nat, n: nat)
    requires keep >= n
    ensures |Ordered(Keys(rows, key))| == |rows|
    ensures var s := Ordered(Keys(rows, key));
            NewestStamps(Prune(rows, key, keep), key, n) == NewestStamps(rows, key, n)
            <==> n == 0 || |rows| <= keep || s[n - 1] > s[keep]
  {
    hide Prune, Ordered, NewestStamps;
    OrderedOrders(Keys(rows, key));
    if |rows| <= keep {
      PruneKeepsStrictlyNewer(rows, key, keep);
    } else {
      UnaffectedIffEnoughLeft(rows, key, keep, n);
      if n > 0 { PruneLeaves(rows, key, keep, n); }
    }
  }

  /** What SELECT ... ORDER BY key DESC LIMIT n may answer: rows with equal keys come in any order. */
  ghost predicate Selects<R>(out: seq<R>, rows: seq<R>, key: R -> Int64, n: nat) {
    && |out| == (if |rows| <= n then |rows| else n)
    && multiset(out) <= multiset(rows)
    && Descending(Keys(out, key))
    && forall r, o :: r in multiset(rows) - multiset(out) && o in out ==> key(r) <= key(o)
  }

  ghost predicate AtMost(s: seq<Int64>, x: Int64) { forall i :: 0 <= i < |s| ==> s[i] <= x }

  lemma InsertMax(x: Int64, s: seq<Int64>)
    requires AtMost(s, x)
    ensures Insert(x, s) == [x] + s
  {
  }

  lemma InsertPastMax(v: Int64, x: Int64, s: seq<Int64>)
    requires v <= x && AtMost(s, x)
    ensures Insert(v, [x] + s) == [x] + Insert(v, s)
  {
    if v == x {
      InsertMax(x, s);
    } else {
      assert ([x] + s)[1..] == s;
    }
  }

  lemma OrderedAtMost(keys: seq<Int64>, x: Int64)
    requires AtMost(keys, x)
    ensures AtMost(Ordered(keys), x)
  {
    OrderedOrders(keys);
    forall i | 0 <= i < |Ordered(keys)| ensures Ordered(keys)[i] <= x {
      assert Ordered(keys)[i] in keys;
    }
  }

  lemma {:induction false} OrderedWithoutFirst(keys: seq<Int64>, i: nat)
    requires i < |keys| && AtMost(keys, keys[i])
    ensures Ordered(keys) == [keys[i]] + Ordered(keys[..i] + keys[i + 1..])
  {
    hide Insert;
    var (n, x, rest) := (|keys| - 1, keys[i], keys[..i] + keys[i + 1..]);
    if i == n {
      assert rest == keys[..n];
      OrderedAtMost(rest, x);
      InsertMax(x, Ordered(rest));
    } else {
      assert keys[..n][..i] + keys[..n][i + 1..] == rest[..n - 1] && rest[n - 1] == keys[n];
      OrderedWithoutFirst(keys[..n], i);
      OrderedAtMost(rest[..n - 1], x);
      InsertPastMax(keys[n], x, Ordered(rest[..n - 1]));
    }
  }

  lemma SelectedFirst<R>(out: seq<R>, rows: seq<R>, key: R -> Int64, n: nat)
    requires Selects(out, rows, key, n) && out != []
    ensures n > 0 && out[0] in rows && forall r :: r in rows ==> key(r) <= key(out[0])
  {
    var first := out[0];
    assert first in multiset(out) && first in multiset(rows);
    forall r | r in rows ensures key(r) <= key(first) {
      if r in out {
        var j :| 0 <= j < |out| && out[j] == r;
        assert Keys(out, key)[j] == key(r) && Keys(out, key)[0] == key(first);
      } else {
        assert r in multiset(rows) - multiset(out);
      }
    }
  }

  lemma RestIsSelected<R>(out: seq<R>, rows: seq<R>, key: R -> Int64, n: nat, i: nat)
    requires n > 0 && Selects(out, rows, key, n) && out != [] && i < |rows| && rows[i] == out[0]
    ensures Selects(out[1..], rows[..i] + rows[i + 1..], key, n - 1)
  {
    hide Descending;
    var (rest, tail) := (rows[..i] + rows[i + 1..], out[1..]);
    SameRemainder(out, rows, i);
    assert Keys(tail, key) == Keys(out, key)[1..];
    TailDescends(Keys(out, key));
    assert forall o :: o in tail ==> o in out;
  }

  lemma SameRemainder<R>(out: seq<R>, rows: seq<R>, i: nat)
    requires out != [] && i < |rows| && rows[i] == out[0]
    ensures multiset(out) <= multiset(rows) ==> multiset(out[1..]) <= multiset(rows[..i] + rows[i + 1..])
    ensures multiset(rows[..i] + rows[i + 1..]) - multiset(out[1..]) == multiset(rows) - multiset(out)
  {
    var (rest, tail) := (rows[..i] + rows[i + 1..], out[1..]);
    assert rows == rows[..i] + [rows[i]] + rows[i + 1..] && out == [out[0]] + tail;
    assert multiset(rows) == multiset(rest) + multiset{out[0]} && multiset(out) == multiset(tail) + multiset{out[0]};
    CancelOne(multiset(tail), multiset(rest), out[0]);
  }

  lemma CancelOne<R>(a: multiset<R>, b: multiset<R>, x: R)
    ensures a + multiset{x} <= b + multiset{x} ==> a <= b
    ensures (b + multiset{x}) - (a + multiset{x}) == b - a
  {
    if a + multiset{x} <= b + multiset{x} {
      forall e | e in a ensures a[e] <= b[e] {
        assert (a + multiset{x})[e] <= (b + multiset{x})[e];
      }
    }
  }

  lemma TailDescends(s: seq<Int64>)
    requires Descending(s) && s != []
    ensures Descending(s[1..])
  {
  }

  /** Whichever answer the engine gives, its stamps are those of the newest n rows. */
  lemma {:induction false} SelectedStamps<R>(out: seq<R>, rows: seq<R>, key: R -> Int64, n: nat)
    requires Selects(out, rows, key, n)
    ensures Keys(out, key) == NewestStamps(rows, key, n)
  {
    hide Selects, NewestStamps;
    if out == [] {
      SelectedNone(rows, key, n);
    } else {
      SelectedFirst(out, rows, key, n);
      var i :| 0 <= i < |rows| && rows[i] == out[0];
      var rest := rows[..i] + rows[i + 1..];
      RestIsSelected(out, rows, key, n, i);
      SelectedStamps(out[1..], rest, key, n - 1);
      KeysBelow(rows, key, i);
      StampsWithoutFirst(rows, key, n, i);
      assert Keys(out, key) == [key(out[0])] + Keys(out[1..], key);
    }
  }

  lemma StampsWithoutFirst<R>(rows: seq<R>, key: R -> Int64, n: nat, i: nat)
    requires n > 0 && i < |rows| && AtMost(Keys(rows, key), Keys(rows, key)[i])
    ensures NewestStamps(rows, key, n) == [key(rows[i])] + NewestStamps(rows[..i] + rows[i + 1..], key, n - 1)
  {
    hide Ordered, AtMost;
    var rest := rows[..i] + rows[i + 1..];
    OrderedWithoutFirst(Keys(rows, key), i);
    assert Keys(rest, key) == Keys(rows, key)[..i] + Keys(rows, key)[i + 1..];
  }

  lemma KeysBelow<R>(rows: seq<R>, key: R -> Int64, i: nat)
    requires i < |rows| && forall r :: r in rows ==> key(r) <= key(rows[i])
    ensures AtMost(Keys(rows, key), Keys(rows, key)[i])
  {
  }

  lemma SelectedNone<R>(rows: seq<R>, key: R -> Int64, n: nat)
    requires Selects([], rows, key, n)
    ensures NewestStamps(rows, key, n) == []
  {
  }

  /** With rows in ascending order of the key there is only one possible answer. */
  lemma SelectsAscending<R>(out: seq<R>, rows: seq<R>, key: R -> Int64, n: nat)
    requires Selects(out, rows, key, n) && Ascending(rows, key)
    ensures out == Reversed(LastN(rows, n))
  {
    hide Selects, Ascending, LastN;
    SelectsSize(out, rows, key, n);
    ReversedNewest(rows, n);
    forall k | 0 <= k < |out| ensures out[k] == rows[|rows| - 1 - k] {
      SelectedAt(out, rows, key, n, k);
    }
  }

  lemma SelectedAt<R>(out: seq<R>, rows: seq<R>, key: R -> Int64, n: nat, k: nat)
    requires Selects(out, rows, key, n) && Ascending(rows, key) && k < |out| <= |rows|
    ensures out[k] == rows[|rows| - 1 - k]
  {
    hide Selects, Ascending, NonDescending, Ordered;
    SelectedStamps(out, rows, key, n);
    AscendingIsNonDescending(rows, key);
    OrderedAscending(rows, key);
    assert Keys(out, key)[k] == Keys(Reversed(rows), key)[k];
    SelectedRow(out, rows, key, n, k);
  }

  lemma ReversedNewest<R>(rows: seq<R>, n: nat)
    ensures |LastN(rows, n)| <= |rows|
    ensures forall k :: 0 <= k < |LastN(rows, n)| ==> Reversed(LastN(rows, n))[k] == rows[|rows| - 1 - k]
  {
  }

  lemma SelectsSize<R>(out: seq<R>, rows: seq<R>, key: R -> Int64, n: nat)
    requires Selects(out, rows, key, n)
    ensures |out| == |LastN(rows, n)| <= |rows|
  {
  }

  lemma SelectedRow<R>(out: seq<R>, rows: seq<R>, key: R -> Int64, n: nat, k: nat)
    requires Selects(out, rows, key, n) && Ascending(rows, key) && k < |out|
    requires key(out[k]) == key(rows[|rows| - 1 - k])
    ensures out[k] == rows[|rows| - 1 - k]
  {
    assert out[k] in multiset(out) && out[k] in multiset(rows);
    var j :| 0 <= j < |rows| && rows[j] == out[k];
  }

  // ---------------------------------------------------------------- event queries over whole runs

  lemma StampsInOrder(rows: seq<EventRow>, n: nat)
    requires NonDescending(rows, BY_TS)
    ensures NewestStamps(rows, BY_TS, n) == Keys(Reversed(LastN(rows, n)), BY_TS)
  {
    hide Ordered, NonDescending;
    OrderedAscending(rows, BY_TS);
  }

  /** The newest part of all events answers with the same stamps as all of them. */
  lemma StampsAgree(rows: seq<EventRow>, noted: seq<EventRow>, n: nat)
    requires InOrder(noted) && Newest(rows, noted, n)
    ensures NewestStamps(rows, BY_TS, n) == NewestStamps(noted, BY_TS, n)
  {
    hide NewestStamps, LastN;
    NewestAtLeast(rows, noted, n);
    NewestNonDescending(rows, noted);
    StampsInOrder(rows, n);
    StampsInOrder(noted, n);
    NewestAnswers(rows, noted, n, n);
  }

  lemma OrderlyAnswer(run: seq<Write>, selected: seq<EventRow>, n: nat)
    requires Orderly(Notes(run)) && 0 < n <= MAX_EVENTS && Selects(selected, Table(run), BY_TS, n)
    ensures selected == Reversed(LastN(Notes(run), n))
  {
    hide Selects, LastN, Table, Notes;
    OrderlyIsSpaced(Notes(run), n);
    TableIsNewest(run, n);
    assert Ascending(Table(run), BY_TS) by { NewestAscending(Table(run), Notes(run), n); }
    SelectsAscending(selected, Table(run), BY_TS, n);
    NewestAnswers(Table(run), Notes(run), n, n);
  }

  lemma NewestAscending(rows: seq<EventRow>, noted: seq<EventRow>, n: nat)
    requires Orderly(noted) && Newest(rows, noted, n)
    ensures Ascending(rows, BY_TS)
  {
    assert forall i, j :: 0 <= i < j < |noted| ==> BY_TS(noted[i]) < BY_TS(noted[j]);
    assert forall i :: 0 <= i < |rows| ==> rows[i] == noted[|noted| - |rows| + i];
  }

  /** Events stamped after the (i - 1)-st stay in the table until 2000 more have come. */
  lemma {:induction false} TableKeepsRecent(run: seq<Write>, i: nat)
    requires InOrder(Notes(run)) && |Notes(run)| <= i + MAX_EVENTS
    requires 0 < i < |Notes(run)| ==> Notes(run)[i - 1].ts < Notes(run)[i].ts
    ensures Newest(Table(run), Notes(run), 0) && |Table(run)| >= |Notes(run)| - i
  {
    if run != [] {
      hide Prune, Written, Table, Notes, InOrder, Newest;
      var (front, w) := (run[..|run| - 1], run[|run| - 1]);
      RunStep(run);
      if w.Note? { InOrderBefore(Notes(front), w.e); }
      TableKeepsRecent(front, i);
      WriteStep(run, 0);
      PruneKeepsRecent(Written(Table(front), w), Notes(run), i);
    } else {
      NoneIsNewest<EventRow>([]);
    }
  }

  lemma PruneKeepsRecent(rows: seq<EventRow>, noted: seq<EventRow>, i: nat)
    requires InOrder(noted) && |noted| <= i + MAX_EVENTS && Newest(rows, noted, 0) && |rows| >= |noted| - i
    requires 0 < i < |noted| ==> noted[i - 1].ts < noted[i].ts
    ensures Newest(Prune(rows, BY_TS, MAX_EVENTS), noted, 0) && |Prune(rows, BY_TS, MAX_EVENTS)| >= |noted| - i
  {
    hide Prune;
    if |noted| > i {
      PruneNewest(rows, noted, |noted| - i);
      if |rows| > MAX_EVENTS {
        assert noted[|noted| - 1 - MAX_EVENTS].ts <= noted[i - 1].ts;
      }
    } else {
      PruneNewest(rows, noted, 1);
    }
  }

  /** The first place where events are too dense. */
  lemma {:induction false} FirstDense(noted: seq<EventRow>, n: nat, j: nat) returns (i: nat)
    requires InOrder(noted) && 0 < n <= MAX_EVENTS
    requires j + MAX_EVENTS < |noted| && noted[j].ts >= noted[j + MAX_EVENTS + 1 - n].ts
    ensures i + MAX_EVENTS < |noted| && noted[i].ts >= noted[i + MAX_EVENTS + 1 - n].ts
    ensures i > 0 ==> noted[i - 1].ts < noted[i].ts
  {
    if j > 0 && noted[j - 1].ts >= noted[j].ts {
      i := FirstDense(noted, n, j - 1);
    } else {
      i := j;
    }
  }

  /** Snapshots, and then all these events. */
  ghost function Recording(snaps: nat, noted: seq<EventRow>): seq<Write> {
    if noted == [] then seq(snaps, _ => Snap) else Recording(snaps, noted[..|noted| - 1]) + [Note(noted[|noted| - 1])]
  }

  lemma {:induction false} RecordingRecords(snaps: nat, noted: seq<EventRow>)
    ensures |Recording(snaps, noted)| == snaps + |noted| && Notes(Recording(snaps, noted)) == noted
    ensures noted != [] ==> Recording(snaps, noted)[|Recording(snaps, noted)| - 1].Note?
  {
    if noted == [] {
      SnapsRecordNothing(snaps);
    } else {
      var front := Recording(snaps, noted[..|noted| - 1]);
      RecordingRecords(snaps, noted[..|noted| - 1]);
      assert Recording(snaps, noted)[..|front|] == front;
    }
  }

  lemma {:induction false} SnapsRecordNothing(snaps: nat)
    ensures Notes(seq(snaps, _ => Snap)) == []
  {
    if snaps > 0 {
      var run: seq<Write> := seq(snaps, _ => Snap);
      assert run[..|run| - 1] == seq(snaps - 1, _ => Snap) && run[|run| - 1] == Snap;
      SnapsRecordNothing(snaps - 1);
    }
  }

  /** Where events are too dense, some run loses one that a query would show: it suffices that the pruning write
      is the one that takes the table over its limit. */
  lemma DenseShows(noted: seq<EventRow>, n: nat) returns (run: seq<Write>)
    requires InOrder(noted) && 0 < n <= MAX_EVENTS && !Spaced(noted, n)
    ensures Notes(run) <= noted
    ensures NewestStamps(Table(run), BY_TS, n) != NewestStamps(Notes(run), BY_TS, n)
  {
    var j :| 0 <= j && j + MAX_EVENTS < |noted| && noted[j].ts >= noted[j + MAX_EVENTS + 1 - n].ts;
    var i := FirstDense(noted, n, j);
    var es := noted[..i + MAX_EVENTS + 1];
    hide Table, NewestStamps, Notes, Spaced;
    InOrderPrefix(noted, i + MAX_EVENTS + 1);
    assert es[i] == noted[i] && es[i + MAX_EVENTS + 1 - n] == noted[i + MAX_EVENTS + 1 - n];
    hide InOrder;
    run := LossyRun(es, n, i);
    StampsCount(Table(run), n);
    StampsCount(Notes(run), n);
  }

  lemma LossyRun(es: seq<EventRow>, n: nat, i: nat) returns (run: seq<Write>)
    requires InOrder(es) && 0 < n <= MAX_EVENTS && |es| == i + MAX_EVENTS + 1
    requires es[i].ts >= es[i + MAX_EVENTS + 1 - n].ts && (i > 0 ==> es[i - 1].ts < es[i].ts)
    ensures Notes(run) == es && |Table(run)| < n
  {
    hide Table, Recording, Notes, InOrder;
    run := Recording((PRUNE_EVERY - 1) * |es|, es);
    RecordingRecords((PRUNE_EVERY - 1) * |es|, es);
    WholePeriods(|es|);
    LosesRows(run, n, i);
  }

  lemma WholePeriods(m: nat)
    ensures Phase((PRUNE_EVERY - 1) * m + m) == 0
  {
  }

  lemma InOrderPrefix(noted: seq<EventRow>, m: nat)
    requires InOrder(noted) && m <= |noted|
    ensures InOrder(noted[..m]) && noted[..m] <= noted
  {
  }

  lemma LosesRows(run: seq<Write>, n: nat, i: nat)
    requires InOrder(Notes(run)) && 0 < n <= MAX_EVENTS && |Notes(run)| == i + MAX_EVENTS + 1
    requires run != [] && run[|run| - 1].Note? && Phase(|run|) == 0
    requires Notes(run)[i].ts >= Notes(run)[i + MAX_EVENTS + 1 - n].ts
    requires i > 0 ==> Notes(run)[i - 1].ts < Notes(run)[i].ts
    ensures |Table(run)| < n
  {
    hide Table, Prune, Written, Notes, Newest, InOrder, Phase;
    var (front, w) := (run[..|run| - 1], run[|run| - 1]);
    RunStep(run);
    assert Notes(run) == Notes(front) + [w.e];
    InOrderBefore(Notes(front), w.e);
    TableKeepsRecent(front, i);
    WriteStep(run, 0);
    PruneNewest(Written(Table(front), w), Notes(run), n);
  }

  lemma StampsCount(rows: seq<EventRow>, n: nat)
    ensures |NewestStamps(rows, BY_TS, n)| == if |rows| <= n then |rows| else n
  {
    hide Ordered;
    OrderedOrders(Keys(rows, BY_TS));
  }

  /** Over whole runs: as long as the clock does not run backwards and ids are not reused, an event query for n
      rows shows the stamps it would show had nothing ever been pruned, at every moment and however snapshot
      writes fall in between, exactly if the events are spaced for n. */
  lemma EventQueriesUnaffectedIff(noted: seq<EventRow>, n: nat)
    requires InOrder(noted) && 0 < n <= MAX_EVENTS
    ensures (forall run :: Notes(run) <= noted ==>
                             NewestStamps(Table(run), BY_TS, n) == NewestStamps(Notes(run), BY_TS, n))
            <==> Spaced(noted, n)
  {
    if Spaced(noted, n) {
      forall run | Notes(run) <= noted ensures NewestStamps(Table(run), BY_TS, n) == NewestStamps(Notes(run), BY_TS, n) {
        hide Table, NewestStamps, Notes;
        PrefixSpaced(Notes(run), noted, n);
        TableIsNewest(run, n);
        StampsAgree(Table(run), Notes(run), n);
      }
    } else {
      var run := DenseShows(noted, n);
    }
  }

  lemma PrefixSpaced(some: seq<EventRow>, noted: seq<EventRow>, n: nat)
    requires some <= noted && InOrder(noted) && 0 < n <= MAX_EVENTS && Spaced(noted, n)
    ensures InOrder(some) && Spaced(some, n)
  {
    assert forall i :: 0 <= i < |some| ==> some[i] == noted[i];
  }

  // ---------------------------------------------------------------- asking for the configured name

  lemma {:induction false} MatchingHas(rows: seq<Point>, comm: Comm)
    ensures forall i :: 0 <= i < |Matching(rows, comm)| ==> Matching(rows, comm)[i].sample.comm == comm
  {
    if rows != [] { MatchingHas(rows[..|rows| - 1], comm); }
  }

  /** The history handler: it sanitizes the name it is asked for, and the store sanitizes it again. */
  method HandleHistory(db: Database, u: Classes, limit: int, maxHistory: int, text: Comm) returns (points: seq<Point>)
    requires db.Valid() && maxHistory >= 0
    ensures var n := if limit <= 0 then 100 else if limit <= maxHistory then limit else maxHistory;
            points == LastN(if Sanitized(u, text) != [] then Matching(db.snapshots, Sanitized(u, Sanitized(u, text)))
                            else db.snapshots, if n == 0 then 100 else if n <= 1000 then n else 1000)
  {
    hide Sanitized, Matching, LastN;
    var comm := SanitizeComm(u, text);
    points := db.QueryHistory(u, ClampLimit(limit, 100, maxHistory), comm);
  }

  /** Rows are stored under the sanitized form of the configured name.  Asking for that name finds them exactly
      if the 15-byte limit does not fall inside one of its runes; if it does, rows without a name are found. */
  lemma ConfiguredNameIsFoundIff(u: Classes, text: Comm, rows: seq<Point>)
    requires Sane(u) && Matching(rows, Sanitized(u, text)) != [] && Sanitized(u, text) != []
    ensures var (s, c) := (Accepted(u, Trimmed(u, Decode(text))), Sanitized(u, text));
            && (Matching(rows, Sanitized(u, c)) == Matching(rows, c) <==> !Splits(s))
            && (Splits(s) ==> Matching(rows, Sanitized(u, c)) == Matching(rows, []))
  {
    hide Matching, Splits, Accepted, Trimmed, Decode;
    var (s, c) := (Accepted(u, Trimmed(u, Decode(text))), Sanitized(u, text));
    assert Acceptable(u, Trimmed(u, Decode(text)));
    SanitizedTwice(u, text);
    NamesDiffer(rows, c, []);
  }

  lemma NamesDiffer(rows: seq<Point>, a: Comm, b: Comm)
    requires a != b && Matching(rows, a) != []
    ensures Matching(rows, a) != Matching(rows, b)
  {
    MatchingHas(rows, a);
    MatchingHas(rows, b);
    assert Matching(rows, a)[0].sample.comm == a;
  }

  // ---------------------------------------------------------------- the in-memory store

  lemma MatchingNext(rows: seq<Point>, i: nat, comm: Comm)
    requires i < |rows|
    ensures Matching(rows[..i + 1], comm)
            == Matching(rows[..i], comm) + if rows[i].sample.comm == comm then [rows[i]] else []
  {
    assert rows[..i + 1][..i] == rows[..i];
  }

  lemma LastNIs<T>(s: seq<T>, n: nat)
    ensures LastN(s, n) == if |s| > n then s[|s| - n..] else s
  {
  }

  method Filtered(rows: seq<Point>, comm: Comm) returns (points: seq<Point>)
    ensures points == if comm != [] then Matching(rows, comm) else rows
  {
    points := [];
    for i := 0 to |rows|
      invariant points == if comm != [] then Matching(rows[..i], comm) else rows[..i]
    {
      MatchingNext(rows, i, comm);
      var p := rows[i];
      if comm != [] && p.sample.comm != comm {
        continue;
      }
      points := points + [p];
    }
    assert rows[..|rows|] == rows;
  }

  class Memory {
    var nextId: Int64
    var snapshots: seq<Point>
    var events: seq<EventRow>
    ghost var stored: seq<Point>
    ghost var noted: seq<EventRow>

    ghost predicate Valid()
      reads this
    {
      && Newest(snapshots, stored, MEMORY_CAP) && Newest(events, noted, MEMORY_CAP)
      && |snapshots| <= MEMORY_CAP && |events| <= MEMORY_CAP
      && nextId == |stored| + 1
      && (forall i :: 0 <= i < |stored| ==> stored[i].id == i + 1)
    }

    constructor ()
      ensures Valid() && stored == [] && noted == []
    {
      nextId, snapshots, events, stored, noted := 1, [], [], [], [];
    }

    method RecordSnapshot(snap: Option<Sample>, now: Int64)
      requires Valid() && nextId < MAX_ID
      modifies this
      ensures Valid() && noted == old(noted)
      ensures stored == if snap.None? then old(stored) else old(stored) + [Point(old(nextId), now, snap.value)]
    {
      if snap.None? {
        return;
      }
      var row := Point(nextId, now, snap.value);
      snapshots := snapshots + [row];
      stored := stored + [row];
      nextId := nextId + 1;
      if |snapshots| > MEMORY_CAP {
        snapshots := snapshots[|snapshots| - MEMORY_CAP..];
      }
    }

    method RecordEvent(e: EventRow)
      requires Valid()
      modifies this
      ensures Valid() && stored == old(stored) && noted == old(noted) + [e]
    {
      events := events + [e];
      noted := noted + [e];
      if |events| > MEMORY_CAP {
        events := events[|events| - MEMORY_CAP..];
      }
    }

    method QueryHistory(limit: int, comm: Comm) returns (points: seq<Point>)
      requires Valid()
      ensures points == LastN(if comm != [] then Matching(snapshots, comm) else snapshots,
                              if limit <= 0 then 100 else if limit <= 1000 then limit else 1000)
      ensures comm == [] ==> points == LastN(stored, if limit <= 0 then 100 else if limit <= 1000 then limit else 1000)
    {
      hide Newest, LastN;
      var n := ClampLimit(limit, 100, 1000);
      NewestAnswers(snapshots, stored, MEMORY_CAP, n);
      points := Filtered(snapshots, comm);
      LastNIs(points, n);
      if |points| > n {
        points := points[|points| - n..];
      }
    }

    method QueryEvents(limit: int) returns (out: seq<EventRow>)
      requires Valid()
      ensures out == Reversed(LastN(noted, if limit <= 0 then 50 else if limit <= 500 then limit else 500))
    {
      var n := ClampLimit(limit, 50, 500);
      NewestAnswers(events, noted, MEMORY_CAP, n);
      var src := LastN(events, n);
      if src == [] {
        return [];
      }
      var a := new EventRow[|src|](i requires 0 <= i < |src| => src[i]);
      assert a[..] == src;
      ReverseInPlace(a);
      out := a[..];
    }
  }

  /** Given the same events, with the clock in order and ids not reused, the two stores answer a query for n
      rows with the same stamps if the events are spaced for n, and with the same rows if no two share a
      stamp. */
  lemma SameEvents(db: Database, mem: Memory, selected: seq<EventRow>, n: nat)
    requires db.Valid() && mem.Valid() && db.Noted() == mem.noted && InOrder(mem.noted)
    requires Selects(selected, db.events, BY_TS, n) && 0 < n <= 500
    ensures Spaced(mem.noted, n) ==> Keys(selected, BY_TS) == Keys(Reversed(LastN(mem.events, n)), BY_TS)
    ensures Orderly(mem.noted) ==> selected == Reversed(LastN(mem.events, n))
  {
    hide Selects, InOrder, Spaced, Newest, LastN, Table, Notes, NewestStamps;
    NewestAnswers(mem.events, mem.noted, MEMORY_CAP, n);
    if Spaced(mem.noted, n) {
      SelectedStamps(selected, db.events, BY_TS, n);
      TableIsNewest(db.run, n);
      StampsAgree(db.events, mem.noted, n);
      assert Newest(mem.noted, mem.noted, 0) by { AllAreNewest(mem.noted); }
      NewestNonDescending(mem.noted, mem.noted);
      StampsInOrder(mem.noted, n);
    }
    if Orderly(mem.noted) {
      OrderlyAnswer(db.run, selected, n);
    }
  }

  lemma AllAreNewest<T>(all: seq<T>)
    ensures Newest(all, all, 0)
  {
  }

  /** Fed the same stored samples at the same times, the two stores hold the same history, so unfiltered
      queries agree (both answer LastN of it). */
  lemma SameHistory(db: Database, mem: Memory)
    requires db.Valid() && mem.Valid() && |db.stored| == |mem.stored|
    requires forall i :: 0 <= i < |db.stored| ==>
               db.stored[i].t == mem.stored[i].t && db.stored[i].sample == mem.stored[i].sample
    ensures db.stored == mem.stored
    ensures forall n: nat :: n <= MAX_SNAPSHOTS ==> LastN(db.snapshots, n) == LastN(mem.snapshots, n)
  {
    hide Newest, LastN, Table;
    assert forall i :: 0 <= i < |db.stored| ==> db.stored[i] == mem.stored[i];
    assert db.stored == mem.stored;
    forall n: nat | n <= MAX_SNAPSHOTS ensures LastN(db.snapshots, n) == LastN(mem.snapshots, n) {
      NewestAnswers(db.snapshots, db.stored, MAX_SNAPSHOTS, n);
      NewestAnswers(mem.snapshots, mem.stored, MEMORY_CAP, n);
    }
  }
}
