/** The per-key token bucket of the HTTP API (backend/internal/api/ratelimit.go).

    `Limiter` keeps one bucket per key, refills it lazily from the time that has passed,
    and forgets idle keys.  The specification half of the module runs the same rules on
    values, so that lemmas can speak about whole runs: `After` is the state that a sequence
    of calls leaves, `Answer` the answer the last call got.  `Solo...` is the reference: one
    bucket that is never forgotten and sees only its own key's calls.

    Clock readings are inputs, in seconds, and tokens are reals. */
module TokenBucket {
  import opened MachineTypes

  const GC_PERIOD := 60.0
  const IDLE_LIMIT := 300.0

  datatype Policy = Policy(rate: real, burst: int) {
    ghost predicate Sound() { rate > 0.0 && burst >= 1 }

    /** Five idle minutes refill a bucket completely. */
    ghost predicate IdleRefills() { IDLE_LIMIT * rate >= burst as real }
  }

  datatype Level = Level(tokens: real, last: real)
  datatype State = State(items: map<string, Level>, lastGC: real)
  datatype Call = Call(key: string, now: real)

  // ---------------------------------------------------------------- one call, on values

  function Min(a: real, b: real): real { if a <= b then a else b }

  /** Tokens earned from one clock reading to another, negative when time runs backwards. */
  function Gain(p: Policy, from: real, to: real): real { (to - from) * p.rate }

  function Refill(p: Policy, b: Level, now: real): Level {
    Level(Min(b.tokens + Gain(p, b.last, now), p.burst as real), now)
  }

  function Take(b: Level): (Level, bool) {
    if b.tokens < 1.0 then (b, false) else (b.(tokens := b.tokens - 1.0), true)
  }

  function Use(p: Policy, b: Option<Level>, now: real): (Level, bool) {
    Take(Refill(p, if b.None? then Level(p.burst as real, now) else b.value, now))
  }

  function Lookup(items: map<string, Level>, key: string): Option<Level> {
    if key in items then Some(items[key]) else None
  }

  function Collect(st: State, now: real): State {
    if now - st.lastGC < GC_PERIOD then st
    else State(map k | k in st.items && now - st.items[k].last <= IDLE_LIMIT :: st.items[k], now)
  }

  function Step(p: Policy, st: State, c: Call): (State, bool) {
    var swept := Collect(st, c.now);
    var (b, ok) := Use(p, Lookup(swept.items, c.key), c.now);
    (swept.(items := swept.items[c.key := b]), ok)
  }

  // ---------------------------------------------------------------- the limiter itself

  class Bucket {
    var tokens: real
    var last: real

    constructor (tokens: real, last: real)
      ensures this.tokens == tokens && this.last == last
    {
      this.tokens, this.last := tokens, last;
    }
  }

  class Limiter {
    const rate: real
    const burst: int
    var items: map<string, Bucket>
    var lastGC: real

    ghost predicate Valid()
      reads this
    {
      && ThePolicy().Sound()
      && forall k, k' :: k in items && k' in items && items[k] == items[k'] ==> k == k'
    }

    ghost function ThePolicy(): Policy { Policy(rate, burst) }

    ghost function Buckets(): set<Bucket>
      reads this
    {
      set k | k in items :: items[k]
    }

    ghost function Value(): State
      reads this, Buckets()
    {
      State(map k | k in items :: Level(items[k].tokens, items[k].last), lastGC)
    }

    constructor (rate: real, burst: int, now: real)
      ensures Valid() && items == map[] && lastGC == now
      ensures ThePolicy() == Policy(if rate <= 0.0 then 40.0 else rate, if burst <= 0 then 80 else burst)
    {
      this.rate := if rate <= 0.0 then 40.0 else rate;
      this.burst := if burst <= 0 then 80 else burst;
      this.items := map[];
      this.lastGC := now;
    }

    method Allow(key: string, now: real) returns (ok: bool)
      requires Valid()
      modifies this, Buckets()
      ensures Valid() && fresh(Buckets() - old(Buckets()))
      ensures (Value(), ok) == Step(ThePolicy(), old(Value()), Call(key, now))
    {
      hide Collect, Refill, Take;
      Sweep(now);
      Obtain(key, now);
      ok := Spend(key, now);
      assert Value().items == Collect(old(Value()), now).items[key := Value().items[key]];
    }

    /** The bucket of `key`, made full when there is none. */
    method Obtain(key: string, now: real)
      requires Valid()
      modifies this`items
      ensures Valid() && key in items && fresh(Buckets() - old(Buckets()))
      ensures var found := old(Lookup(Value().items, key));
              Value() == old(Value()).(items := old(Value()).items[key :=
                if found.None? then Level(burst as real, now) else found.value])
    {
      if key !in items {
        var b := new Bucket(burst as real, now);
        ghost var before := items;
        items := items[key := b];
        assert forall k :: k in before ==> items[k] == before[k] && items[k] in old(Buckets());
        assert Value().items == old(Value()).items[key := Level(burst as real, now)];
      } else {
        assert Value().items == old(Value()).items[key := old(Value()).items[key]];
      }
    }

    method Spend(key: string, now: real) returns (ok: bool)
      requires Valid() && key in items
      modifies items[key]
      ensures Valid()
      ensures var (level, answer) := Take(Refill(ThePolicy(), old(Value()).items[key], now));
              ok == answer && Value() == old(Value()).(items := old(Value()).items[key := level])
    {
      hide Take, Refill;
      ok := SpendFrom(items[key], now);
      assert Value().items == old(Value()).items[key := Level(items[key].tokens, items[key].last)];
    }

    method SpendFrom(b: Bucket, now: real) returns (ok: bool)
      modifies b
      ensures (Level(b.tokens, b.last), ok) == Take(Refill(ThePolicy(), old(Level(b.tokens, b.last)), now))
    {
      var elapsed := now - b.last;
      GainIs(ThePolicy(), b.last, now);
      assert elapsed * rate == Gain(ThePolicy(), b.last, now);
      hide Gain;
      b.tokens := b.tokens + elapsed * rate;
      if b.tokens > burst as real {
        b.tokens := burst as real;
      }
      b.last := now;
      if b.tokens < 1.0 {
        ok := false;
      } else {
        b.tokens := b.tokens - 1.0;
        ok := true;
      }
    }

    method Sweep(now: real)
      requires Valid()
      modifies this
      ensures Valid() && Buckets() <= old(Buckets())
      ensures Value() == Collect(old(Value()), now)
    {
      if now - lastGC < GC_PERIOD {
        return;
      }
      lastGC := now;
      Forget(now);
      assert Value().items == Collect(old(Value()), now).items;
    }

    method Forget(now: real)
      modifies this`items
      ensures forall k :: k in items <==> k in old(items) && now - old(items[k].last) <= IDLE_LIMIT
      ensures forall k :: k in items ==> items[k] == old(items)[k]
    {
      var todo := items.Keys;
      ghost var before := items;
      while todo != {}
        invariant todo <= items.Keys <= before.Keys
        invariant forall k :: k in items ==> items[k] == before[k]
        invariant forall k :: k in before && k !in todo ==> (k in items <==> now - before[k].last <= IDLE_LIMIT)
        decreases todo
      {
        var k :| k in todo;
        if now - items[k].last > IDLE_LIMIT {
          items := items - {k};
        }
        todo := todo - {k};
      }
    }
  }

  // ---------------------------------------------------------------- whole runs

  ghost function Fresh(start: real): State { State(map[], start) }

  ghost function After(p: Policy, st: State, calls: seq<Call>): State {
    if calls == [] then st else Step(p, After(p, st, calls[..|calls| - 1]), calls[|calls| - 1]).0
  }

  ghost predicate Answer(p: Policy, st: State, calls: seq<Call>)
    requires calls != []
  {
    Step(p, After(p, st, calls[..|calls| - 1]), calls[|calls| - 1]).1
  }

  ghost function Stamps(calls: seq<Call>, key: string): seq<real> {
    if calls == [] then []
    else
      var c := calls[|calls| - 1];
      Stamps(calls[..|calls| - 1], key) + if c.key == key then [c.now] else []
  }

  ghost function SoloAfter(p: Policy, stamps: seq<real>): Option<Level> {
    if stamps == [] then None
    else Some(Use(p, SoloAfter(p, stamps[..|stamps| - 1]), stamps[|stamps| - 1]).0)
  }

  ghost predicate SoloAnswer(p: Policy, stamps: seq<real>)
    requires stamps != []
  {
    Use(p, SoloAfter(p, stamps[..|stamps| - 1]), stamps[|stamps| - 1]).1
  }

  /** No stamp precedes the creation of the limiter or an earlier stamp. */
  ghost predicate InOrder(start: real, calls: seq<Call>) {
    forall i :: 0 <= i < |calls| ==> start <= calls[i].now && (i > 0 ==> calls[i - 1].now <= calls[i].now)
  }

  ghost function Clock(start: real, calls: seq<Call>): real {
    if calls == [] then start else calls[|calls| - 1].now
  }

  // ---------------------------------------------------------------- collection is invisible

  /** What relates the real bucket of a key to the never-forgotten one: they are equal, or the
      real one is gone and the reference one is full again. */
  ghost predicate Simulates(p: Policy, actual: Option<Level>, solo: Option<Level>, now: real) {
    && (solo.Some? ==> solo.value.tokens >= 0.0 && solo.value.last <= now)
    && (actual == solo
        || (actual.None? && solo.Some?
            && solo.value.tokens + Gain(p, solo.value.last, now) >= p.burst as real))
  }

  lemma GainAdds(p: Policy, a: real, b: real, c: real)
    ensures Gain(p, a, a) == 0.0
    ensures Gain(p, a, b) + Gain(p, b, c) == Gain(p, a, c)
  {
  }

  lemma GainIs(p: Policy, from: real, to: real)
    ensures Gain(p, from, to) == (to - from) * p.rate
  {
  }

  lemma GainGrows(p: Policy, a: real, b: real)
    requires p.Sound() && a <= b
    ensures Gain(p, a, b) >= 0.0
  {
  }

  lemma GainShifts(p: Policy, from: real, d: real)
    ensures Gain(p, from, from + d) == Gain(p, 0.0, d)
  {
  }

  lemma IdleGain(p: Policy)
    ensures p.IdleRefills() <==> Gain(p, 0.0, IDLE_LIMIT) >= p.burst as real
  {
  }

  /** More than d seconds earn at least what d seconds do. */
  lemma LongGain(p: Policy, from: real, to: real, d: real)
    requires p.Sound() && to - from >= d
    ensures Gain(p, from, to) >= Gain(p, 0.0, d)
  {
    hide Gain;
    GainShifts(p, from, d);
    GainGrows(p, from + d, to);
    GainAdds(p, from, from + d, to);
  }

  lemma Later(p: Policy, r: Option<Level>, s: Option<Level>, now: real, later: real)
    requires p.Sound() && Simulates(p, r, s, now) && now <= later
    ensures Simulates(p, r, s, later)
  {
    hide Gain;
    if s.Some? {
      GainAdds(p, s.value.last, now, later);
      GainGrows(p, now, later);
    }
  }

  lemma Evicted(p: Policy, s: Option<Level>, now: real)
    requires p.Sound() && p.IdleRefills() && Simulates(p, s, s, now)
    requires s.Some? && now - s.value.last > IDLE_LIMIT
    ensures Simulates(p, None, s, now)
  {
    hide Gain, Policy.IdleRefills;
    IdleGain(p);
    LongGain(p, s.value.last, now, IDLE_LIMIT);
  }

  lemma UseSimulated(p: Policy, r: Option<Level>, s: Option<Level>, now: real)
    requires p.Sound() && Simulates(p, r, s, now)
    ensures Use(p, r, now) == Use(p, s, now)
    ensures Simulates(p, Some(Use(p, r, now).0), Some(Use(p, s, now).0), now)
  {
    hide Gain;
    GainAdds(p, now, now, now);
    if s.Some? {
      GainGrows(p, s.value.last, now);
    }
  }

  lemma {:induction false} Simulation(p: Policy, start: real, calls: seq<Call>, key: string)
    requires p.Sound() && p.IdleRefills() && InOrder(start, calls)
    ensures After(p, Fresh(start), calls).lastGC <= Clock(start, calls)
    ensures Simulates(p, Lookup(After(p, Fresh(start), calls).items, key), SoloAfter(p, Stamps(calls, key)),
                      Clock(start, calls))
    ensures calls != [] && calls[|calls| - 1].key == key ==>
              Answer(p, Fresh(start), calls) == SoloAnswer(p, Stamps(calls, key))
  {
    hide Gain, Policy.IdleRefills, Use, After, Answer, Step, Collect, Stamps, SoloAfter, SoloAnswer, Simulates;
    if calls == [] {
      NothingYet(p, start, key);
    } else {
      var front, c := calls[..|calls| - 1], calls[|calls| - 1];
      Simulation(p, start, front, key);
      var st := After(p, Fresh(start), front);
      var solo := SoloAfter(p, Stamps(front, key));
      var found := Lookup(Collect(st, c.now).items, key);
      Later(p, Lookup(st.items, key), solo, Clock(start, front), c.now);
      CollectLookup(st, c.now, key);
      if found != Lookup(st.items, key) {
        GoneOrSame(p, Lookup(st.items, key), solo, c.now);
        Evicted(p, solo, c.now);
      }
      UseSimulated(p, found, solo, c.now);
      LimiterStep(p, Fresh(start), calls, key);
      SoloStep(p, calls, key);
    }
  }

  lemma NothingYet(p: Policy, start: real, key: string)
    ensures After(p, Fresh(start), []) == Fresh(start)
    ensures Simulates(p, None, SoloAfter(p, Stamps([], key)), start)
  {
  }

  lemma GoneOrSame(p: Policy, r: Option<Level>, s: Option<Level>, now: real)
    requires Simulates(p, r, s, now) && r.Some?
    ensures r == s
  {
  }

  lemma CollectLookup(st: State, now: real, key: string)
    ensures var (was, found) := (Lookup(st.items, key), Lookup(Collect(st, now).items, key));
            found == was || (found.None? && was.Some? && now - was.value.last > IDLE_LIMIT)
    ensures Collect(st, now).lastGC == st.lastGC || Collect(st, now).lastGC == now
  {
  }

  lemma LimiterStep(p: Policy, st: State, calls: seq<Call>, key: string)
    requires calls != []
    ensures var (front, c) := (calls[..|calls| - 1], calls[|calls| - 1]);
            var swept := Collect(After(p, st, front), c.now);
            var found := Lookup(swept.items, key);
            && After(p, st, calls).lastGC == swept.lastGC
            && if c.key == key then
                 && Lookup(After(p, st, calls).items, key) == Some(Use(p, found, c.now).0)
                 && Answer(p, st, calls) == Use(p, found, c.now).1
               else Lookup(After(p, st, calls).items, key) == found
  {
    hide Use, Collect;
  }

  lemma SoloStep(p: Policy, calls: seq<Call>, key: string)
    requires calls != []
    ensures var (front, c) := (calls[..|calls| - 1], calls[|calls| - 1]);
            var solo := SoloAfter(p, Stamps(front, key));
            if c.key == key then
              && SoloAfter(p, Stamps(calls, key)) == Some(Use(p, solo, c.now).0)
              && Stamps(calls, key) != []
              && SoloAnswer(p, Stamps(calls, key)) == Use(p, solo, c.now).1
            else SoloAfter(p, Stamps(calls, key)) == solo
  {
    hide Use;
    var front, c := calls[..|calls| - 1], calls[|calls| - 1];
    if c.key == key {
      assert Stamps(calls, key)[..|Stamps(calls, key)| - 1] == Stamps(front, key);
    } else {
      assert Stamps(calls, key) == Stamps(front, key);
    }
  }

  lemma StampsOfLast(calls: seq<Call>)
    requires calls != []
    ensures Stamps(calls, calls[|calls| - 1].key) != []
  {
  }

  /** In an interleaved run, call i answers what a never-forgetting limiter fed only that key's
      calls would have answered. */
  ghost predicate Transparent(p: Policy, start: real, calls: seq<Call>)
    requires calls != []
  {
    var stamps := Stamps(calls, calls[|calls| - 1].key);
    stamps != [] && Answer(p, Fresh(start), calls) == SoloAnswer(p, stamps)
  }

  lemma CollectionIsInvisible(p: Policy, start: real, calls: seq<Call>)
    requires p.Sound() && p.IdleRefills() && InOrder(start, calls) && calls != []
    ensures Transparent(p, start, calls)
  {
    StampsOfLast(calls);
    Simulation(p, start, calls, calls[|calls| - 1].key);
  }

  // ---------------------------------------------------------------- and only then

  ghost function Repeat(key: string, now: real, n: nat): seq<Call> { seq(n, _ => Call(key, now)) }

  lemma {:induction false} RunsCompose(p: Policy, st: State, first: seq<Call>, second: seq<Call>)
    ensures After(p, st, first + second) == After(p, After(p, st, first), second)
    ensures second != [] ==> Answer(p, st, first + second) == Answer(p, After(p, st, first), second)
  {
    hide Step;
    var all := first + second;
    if second == [] {
      assert all == first;
    } else {
      assert all[..|all| - 1] == first + second[..|second| - 1];
      RunsCompose(p, st, first, second[..|second| - 1]);
    }
  }

  lemma {:induction false} StampsOfOneKey(calls: seq<Call>, key: string)
    requires forall i :: 0 <= i < |calls| ==> calls[i].key == key
    ensures |Stamps(calls, key)| == |calls|
    ensures forall i :: 0 <= i < |calls| ==> Stamps(calls, key)[i] == calls[i].now
  {
    if calls != [] {
      StampsOfOneKey(calls[..|calls| - 1], key);
    }
  }

  /** A burst on a limiter that has just forgotten everything: all of it is admitted. */
  lemma {:induction false} Burst(p: Policy, st: State, key: string, now: real, n: nat)
    requires p.Sound() && 0 < n <= p.burst && Collect(st, now) == State(map[], now)
    ensures After(p, st, Repeat(key, now, n)) == State(map[key := Level((p.burst - n) as real, now)], now)
    ensures Answer(p, st, Repeat(key, now, n))
  {
    hide Gain;
    GainAdds(p, now, now, now);
    var calls := Repeat(key, now, n);
    assert calls[n - 1] == Call(key, now);
    if n == 1 {
      assert calls[..0] == [];
    } else {
      assert calls[..n - 1] == Repeat(key, now, n - 1);
      Burst(p, st, key, now, n - 1);
    }
  }

  /** Spend the whole burst at once, stay idle for d, then spend the burst again. */
  ghost function Drain(p: Policy, start: real, d: real): seq<Call>
    requires p.Sound()
  {
    Repeat("k", start, p.burst) + Repeat("k", start + d, p.burst)
  }

  lemma DrainAdmitted(p: Policy, start: real, d: real)
    requires p.Sound() && d > IDLE_LIMIT
    ensures Answer(p, Fresh(start), Drain(p, start, d))
  {
    hide Gain, After, Answer, Step;
    Burst(p, Fresh(start), "k", start, p.burst);
    var idle := After(p, Fresh(start), Repeat("k", start, p.burst));
    assert Collect(idle, start + d) == State(map[], start + d);
    Burst(p, idle, "k", start + d, p.burst);
    RunsCompose(p, Fresh(start), Repeat("k", start, p.burst), Repeat("k", start + d, p.burst));
  }

  ghost function Opening(p: Policy, stamps: seq<real>, now: real): real {
    var b := SoloAfter(p, stamps);
    Refill(p, if b.None? then Level(p.burst as real, now) else b.value, now).tokens
  }

  /** n calls at one instant on a bucket that opens with x tokens: the first floor(x) get in. */
  lemma {:induction false} SoloBurst(p: Policy, prior: seq<real>, now: real, n: nat)
    requires p.Sound() && n > 0
    ensures var x, stamps := Opening(p, prior, now), prior + seq(n, _ => now);
            var b := SoloAfter(p, stamps);
            && b.Some? && b.value.last == now
            && (if n as real <= x then b.value.tokens == x - n as real else b.value.tokens < 1.0)
            && (SoloAnswer(p, stamps) <==> n as real <= x)
  {
    hide Gain;
    var stamps := prior + seq(n, _ => now);
    assert stamps[n + |prior| - 1] == now;
    GainAdds(p, now, now, now);
    if n == 1 {
      assert stamps[..|stamps| - 1] == prior;
    } else {
      assert stamps[..|stamps| - 1] == prior + seq(n - 1, _ => now);
      SoloBurst(p, prior, now, n - 1);
      SoloCapped(p, prior + seq(n - 1, _ => now));
    }
  }

  lemma SoloCapped(p: Policy, stamps: seq<real>)
    requires p.Sound()
    ensures SoloAfter(p, stamps).Some? ==> SoloAfter(p, stamps).value.tokens <= p.burst as real
  {
  }

  lemma DrainRefused(p: Policy, start: real, d: real)
    requires p.Sound() && Gain(p, start, start + d) < p.burst as real
    ensures Stamps(Drain(p, start, d), "k") != [] && !SoloAnswer(p, Stamps(Drain(p, start, d), "k"))
  {
    hide Gain, Answer, Step, Use, SoloAnswer, SoloAfter;
    var calls := Drain(p, start, d);
    var first := seq(p.burst, _ => start);
    StampsOfOneKey(calls, "k");
    assert Stamps(calls, "k") == first + seq(p.burst, _ => start + d);
    GainAdds(p, start, start, start);
    SoloBurst(p, [], start, p.burst);
    assert [] + first == first;
    OpeningFresh(p, start);
    OpeningLater(p, first, start + d);
    SoloBurst(p, first, start + d, p.burst);
  }

  lemma OpeningFresh(p: Policy, now: real)
    requires p.Sound()
    ensures Opening(p, [], now) == p.burst as real
  {
    hide Gain;
    GainAdds(p, now, now, now);
  }

  lemma OpeningLater(p: Policy, stamps: seq<real>, now: real)
    requires SoloAfter(p, stamps).Some? && SoloAfter(p, stamps).value.tokens == 0.0
    ensures Opening(p, stamps, now) <= Gain(p, SoloAfter(p, stamps).value.last, now)
  {
    hide Gain;
  }

  /** How long an empty bucket takes to fill. */
  lemma FillTime(p: Policy) returns (fill: real)
    requires p.Sound()
    ensures Gain(p, 0.0, fill) == p.burst as real
  {
    fill := Quotient(p.burst as real, p.rate);
    GainIs(p, 0.0, fill);
  }

  lemma Quotient(a: real, b: real) returns (q: real)
    requires b > 0.0
    ensures q * b == a
  {
    q := a / b;
  }

  lemma GainGrowsStrictly(p: Policy, a: real, b: real)
    requires p.Sound() && a < b
    ensures Gain(p, a, b) > 0.0
  {
  }

  lemma CollectionIsVisible(p: Policy, start: real) returns (calls: seq<Call>)
    requires p.Sound() && !p.IdleRefills()
    ensures calls != [] && InOrder(start, calls) && !Transparent(p, start, calls)
  {
    hide Gain, Policy.IdleRefills, After, Step, Stamps, SoloAfter;
    var fill := FillTime(p);
    IdleGain(p);
    if fill <= IDLE_LIMIT {
      LongGain(p, 0.0, IDLE_LIMIT, fill);
      assert false;
    }
    var d := (IDLE_LIMIT + fill) / 2.0;
    GainAdds(p, 0.0, d, fill);
    GainGrowsStrictly(p, d, fill);
    GainShifts(p, start, d);
    calls := Drain(p, start, d);
    DrainAdmitted(p, start, d);
    DrainRefused(p, start, d);
    assert calls[|calls| - 1].key == "k";
  }

  /** Forgetting idle keys is unobservable, in every run with clock readings in order, exactly
      when five idle minutes refill a bucket. */
  lemma InvisibleIff(p: Policy, start: real)
    requires p.Sound()
    ensures p.IdleRefills() <==>
            forall calls :: calls != [] && InOrder(start, calls) ==> Transparent(p, start, calls)
  {
    if p.IdleRefills() {
      forall calls | calls != [] && InOrder(start, calls) ensures Transparent(p, start, calls) {
        CollectionIsInvisible(p, start, calls);
      }
    } else {
      var calls := CollectionIsVisible(p, start);
    }
  }

  /** The two limiters the server builds, 40/80 by default and 0.2/10 for failed logins, qualify. */
  lemma ShippedPoliciesRefill()
    ensures Policy(40.0, 80).Sound() && Policy(40.0, 80).IdleRefills()
    ensures Policy(0.2, 10).Sound() && Policy(0.2, 10).IdleRefills()
  {
  }

  // ---------------------------------------------------------------- how many calls get in

  /** Number of admitted calls for `key` among calls[from..]. */
  ghost function Admitted(p: Policy, st: State, calls: seq<Call>, from: nat, key: string): nat {
    if |calls| <= from then 0
    else
      Admitted(p, st, calls[..|calls| - 1], from, key)
      + if calls[|calls| - 1].key == key && Answer(p, st, calls) then 1 else 0
  }

  /** Collection does not forget `key` while it serves calls[from + 1..]. */
  ghost predicate Kept(p: Policy, st: State, calls: seq<Call>, from: nat, key: string) {
    forall m :: from < m < |calls| ==> key in Collect(After(p, st, calls[..m]), calls[m].now).items
  }

  lemma CollectKeeps(st: State, now: real, key: string)
    requires key in Collect(st, now).items
    ensures key in st.items && Collect(st, now).items[key] == st.items[key]
  {
  }

  ghost function OrFull(p: Policy, b: Option<Level>, now: real): Level {
    if b.None? then Level(p.burst as real, now) else b.value
  }

  lemma UseSpends(p: Policy, b: Option<Level>, now: real)
    ensures var ((b', ok), was) := (Use(p, b, now), OrFull(p, b, now));
            && b'.last == now
            && b'.tokens + (if ok then 1.0 else 0.0) <= was.tokens + Gain(p, was.last, now)
            && b'.tokens + (if ok then 1.0 else 0.0) <= p.burst as real
            && (ok ==> b'.tokens >= 0.0)
  {
    hide Gain;
  }

  lemma {:induction false} Spending(p: Policy, st: State, calls: seq<Call>, from: nat, key: string)
    requires p.Sound() && from < |calls| && calls[from].key == key
    requires Kept(p, st, calls, from, key)
    ensures var items := After(p, st, calls).items;
            && key in items
            && items[key].tokens + Admitted(p, st, calls, from, key) as real
               <= p.burst as real + Gain(p, calls[from].now, items[key].last)
            && (calls[|calls| - 1].key == key ==> items[key].last == calls[|calls| - 1].now)
            && (calls[|calls| - 1].key == key && Answer(p, st, calls) ==> items[key].tokens >= 0.0)
  {
    hide Gain, Use, Collect;
    var front, c := calls[..|calls| - 1], calls[|calls| - 1];
    GainAdds(p, c.now, c.now, c.now);
    var swept := Collect(After(p, st, front), c.now);
    if |calls| == from + 1 {
      assert calls == calls[..from + 1];
      UseSpends(p, Lookup(swept.items, key), c.now);
    } else {
      assert front[..from + 1] == calls[..from + 1];
      assert forall m :: from < m < |front| ==> front[..m] == calls[..m];
      Spending(p, st, front, from, key);
      assert key in Collect(After(p, st, calls[..|front|]), calls[|front|].now).items;
      CollectKeeps(After(p, st, front), c.now, key);
      UseSpends(p, Some(swept.items[key]), c.now);
      GainAdds(p, calls[from].now, swept.items[key].last, c.now);
    }
  }

  /** From any call of a key, stamped s, to an admitted one, stamped t, at most burst + rate * (t - s) calls
      are admitted, both ends counted: from any state, whatever other keys do, and even when stamps run
      backwards, as long as the key's bucket is not forgotten on the way. */
  lemma AdmissionBound(p: Policy, st: State, calls: seq<Call>, from: nat, key: string)
    requires p.Sound() && from < |calls| && calls[from].key == key
    requires calls[|calls| - 1].key == key && Answer(p, st, calls)
    requires Kept(p, st, calls, from, key)
    ensures Admitted(p, st, calls, from, key) as real
            <= p.burst as real + (calls[|calls| - 1].now - calls[from].now) * p.rate
  {
    hide *;
    Spending(p, st, calls, from, key);
    GainIs(p, calls[from].now, calls[|calls| - 1].now);
  }

  lemma {:induction false} SpendingDespiteCollection(p: Policy, start: real, calls: seq<Call>, from: nat, key: string)
    requires p.Sound() && p.IdleRefills() && InOrder(start, calls)
    requires from < |calls| && calls[from].key == key
    ensures var solo := SoloAfter(p, Stamps(calls, key));
            && solo.Some?
            && solo.value.tokens + Admitted(p, Fresh(start), calls, from, key) as real
               <= p.burst as real + Gain(p, calls[from].now, solo.value.last)
            && (calls[|calls| - 1].key == key ==> solo.value.last == calls[|calls| - 1].now)
            && (calls[|calls| - 1].key == key && Answer(p, Fresh(start), calls) ==> solo.value.tokens >= 0.0)
  {
    hide Gain, Use, After, Step, Stamps, SoloAfter, SoloAnswer, Simulates, Policy.IdleRefills;
    var front, c := calls[..|calls| - 1], calls[|calls| - 1];
    var solo := SoloAfter(p, Stamps(front, key));
    Simulation(p, start, calls, key);
    SoloStep(p, calls, key);
    UseSpends(p, solo, c.now);
    if |calls| == from + 1 {
      assert calls == calls[..from + 1];
      GainAdds(p, c.now, c.now, c.now);
    } else {
      assert front[..from + 1] == calls[..from + 1];
      SpendingDespiteCollection(p, start, front, from, key);
      GainAdds(p, calls[from].now, solo.value.last, c.now);
    }
  }

  /** The same bound for the limiter as shipped, collection included: when idle time refills a
      bucket and readings are in order, forgetting a key never lets a caller exceed it. */
  lemma AdmissionBoundDespiteCollection(p: Policy, start: real, calls: seq<Call>, from: nat, key: string)
    requires p.Sound() && p.IdleRefills() && InOrder(start, calls)
    requires from < |calls| && calls[from].key == key
    requires calls[|calls| - 1].key == key && Answer(p, Fresh(start), calls)
    ensures Admitted(p, Fresh(start), calls, from, key) as real
            <= p.burst as real + (calls[|calls| - 1].now - calls[from].now) * p.rate
  {
    hide *;
    SpendingDespiteCollection(p, start, calls, from, key);
    GainIs(p, calls[from].now, calls[|calls| - 1].now);
  }

  // ---------------------------------------------------------------- no call is refused without need

  lemma UseExact(p: Policy, b: Option<Level>, now: real)
    ensures var ((b', ok), was) := (Use(p, b, now), OrFull(p, b, now));
            var x := Min(was.tokens + Gain(p, was.last, now), p.burst as real);
            && (ok <==> x >= 1.0)
            && b' == Level(if ok then x - 1.0 else x, now)
  {
    hide Gain;
  }

  /** A bucket was full at some call of its key, and has since then lost exactly what was admitted and gained
      exactly what time earned.  It holds for every policy and any clock readings. */
  lemma {:induction false} SinceLastFull(p: Policy, start: real, calls: seq<Call>, key: string) returns (i: nat)
    requires p.Sound() && key in After(p, Fresh(start), calls).items
    ensures i < |calls| && calls[i].key == key
    ensures var b := After(p, Fresh(start), calls).items[key];
            b.tokens == p.burst as real + Gain(p, calls[i].now, b.last) - Admitted(p, Fresh(start), calls, i, key) as real
  {
    hide Gain, Use, Collect;
    var front, c := calls[..|calls| - 1], calls[|calls| - 1];
    var st := After(p, Fresh(start), front);
    var found := Lookup(Collect(st, c.now).items, key);
    if c.key != key {
      CollectKeeps(st, c.now, key);
      i := SinceLastFull(p, start, front, key);
    } else {
      UseExact(p, found, c.now);
      GainAdds(p, c.now, c.now, c.now);
      i := |calls| - 1;
      if found.Some? {
        CollectKeeps(st, c.now, key);
        if found.value.tokens + Gain(p, found.value.last, c.now) <= p.burst as real {
          i := SinceLastFull(p, start, front, key);
          GainAdds(p, calls[i].now, found.value.last, c.now);
        }
      }
    }
  }

  /** Admitting the last call as well would exceed what the burst and the time since call i allow. */
  ghost predicate Exhausted(p: Policy, start: real, calls: seq<Call>, i: nat)
    requires i < |calls|
  {
    var (last, c) := (|calls| - 1, calls[|calls| - 1]);
    && calls[i].key == c.key
    && Admitted(p, Fresh(start), calls[..last], i, c.key) as real + 1.0
       > p.burst as real + (c.now - calls[i].now) * p.rate
  }

  /** Whatever the policy and the clock readings: a refused call is one too many since some earlier call. */
  lemma RefusedOnlyIfExhausted(p: Policy, start: real, calls: seq<Call>) returns (i: nat)
    requires p.Sound() && calls != [] && !Answer(p, Fresh(start), calls)
    ensures i < |calls| - 1 && Exhausted(p, start, calls, i)
  {
    hide Gain, Use, Collect, Admitted, After;
    var front, c := calls[..|calls| - 1], calls[|calls| - 1];
    var st := After(p, Fresh(start), front);
    var found := Lookup(Collect(st, c.now).items, c.key);
    UseExact(p, found, c.now);
    GainAdds(p, c.now, c.now, c.now);
    CollectKeeps(st, c.now, c.key);
    i := SinceLastFull(p, start, front, c.key);
    GainAdds(p, calls[i].now, found.value.last, c.now);
    GainIs(p, calls[i].now, c.now);
  }

  /** Where idle time refills a bucket and readings are in order, that is exact: a call is refused if and only
      if it is one too many since some earlier call of its key. */
  lemma RefusedIffExhausted(p: Policy, start: real, calls: seq<Call>)
    requires p.Sound() && p.IdleRefills() && InOrder(start, calls) && calls != []
    ensures !Answer(p, Fresh(start), calls) <==> exists i :: 0 <= i < |calls| - 1 && Exhausted(p, start, calls, i)
  {
    hide Answer, Exhausted, InOrder;
    if !Answer(p, Fresh(start), calls) {
      var i := RefusedOnlyIfExhausted(p, start, calls);
    } else {
      forall i | 0 <= i < |calls| - 1 ensures !Exhausted(p, start, calls, i) {
        AdmittedIsNotExhausted(p, start, calls, i);
      }
    }
  }

  lemma AdmittedIsNotExhausted(p: Policy, start: real, calls: seq<Call>, i: nat)
    requires p.Sound() && p.IdleRefills() && InOrder(start, calls) && i < |calls| - 1
    requires Answer(p, Fresh(start), calls)
    ensures !Exhausted(p, start, calls, i)
  {
    hide Answer, Policy.IdleRefills, InOrder;
    if calls[i].key == calls[|calls| - 1].key {
      AdmissionBoundDespiteCollection(p, start, calls, i, calls[i].key);
    }
  }

  // ---------------------------------------------------------------- what collection keeps, and how often it runs

  /** The last use of a key. */
  ghost function LastUse(calls: seq<Call>, key: string): Option<real> {
    if calls == [] then None
    else if calls[|calls| - 1].key == key then Some(calls[|calls| - 1].now)
    else LastUse(calls[..|calls| - 1], key)
  }

  lemma CollectForgets(st: State, now: real, key: string)
    ensures var (was, found) := (Lookup(st.items, key), Lookup(Collect(st, now).items, key));
            if now - st.lastGC >= 60.0 then
              && Collect(st, now).lastGC == now
              && found == if was.Some? && now - was.value.last > 300.0 then None else was
            else Collect(st, now) == st
  {
  }

  /** In every run with readings in order: a key used within five minutes is remembered, one unused for six is
      forgotten. */
  lemma {:induction false} RememberedForFiveMinutes(p: Policy, start: real, calls: seq<Call>, key: string)
    requires InOrder(start, calls)
    ensures var (st, now, used) := (After(p, Fresh(start), calls), Clock(start, calls), LastUse(calls, key));
            && 0.0 <= now - st.lastGC < 60.0
            && (key in st.items ==> used == Some(st.items[key].last) && st.lastGC - st.items[key].last <= 300.0)
            && (used.Some? && now - used.value <= 300.0 ==> key in st.items)
            && (used.Some? && now - used.value >= 360.0 ==> key !in st.items)
  {
    if calls != [] {
      hide Collect, Use;
      var front, c := calls[..|calls| - 1], calls[|calls| - 1];
      RememberedForFiveMinutes(p, start, front, key);
      CollectForgets(After(p, Fresh(start), front), c.now, key);
      UseStamps(p, Lookup(Collect(After(p, Fresh(start), front), c.now).items, c.key), c.now);
    }
  }

  lemma UseStamps(p: Policy, b: Option<Level>, now: real)
    ensures Use(p, b, now).0.last == now
  {
    hide Gain;
  }

  /** How many calls collected. */
  ghost function Collections(p: Policy, st: State, calls: seq<Call>): nat {
    if calls == [] then 0
    else
      var front := calls[..|calls| - 1];
      Collections(p, st, front) + if After(p, st, calls).lastGC != After(p, st, front).lastGC then 1 else 0
  }

  /** At most once a minute. */
  lemma {:induction false} CollectionIsRare(p: Policy, start: real, calls: seq<Call>)
    ensures 60.0 * Collections(p, Fresh(start), calls) as real <= After(p, Fresh(start), calls).lastGC - start
  {
    if calls != [] {
      hide Collect, Use;
      var front, c := calls[..|calls| - 1], calls[|calls| - 1];
      CollectionIsRare(p, start, front);
      CollectForgets(After(p, Fresh(start), front), c.now, "");
    }
  }
}
