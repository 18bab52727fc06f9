/** Token buckets with lazy refill: the per-key limiter, which garbage-collects idle buckets, and
    the per-tenant limiter, whose limit is given anew with every call. Tokens and time are reals,
    and the clock, read under the lock, does not run backwards. */
module RateLimiter {

  import opened Options
  import opened Words

  const IDLE_BUCKET_TTL: real := 600.0
  const SWEEP_PERIOD: real := 60.0

  datatype Bucket = Bucket(tokens: real, updated: real)

  function Min(a: real, b: real): real { if a <= b then a else b }

  /** `Instant::duration_since` saturates at zero. */
  function Elapsed(now: real, since: real): (d: real)
    ensures d >= 0.0
  {
    if now >= since then now - since else 0.0
  }

  /** Tokens that flow in over `seconds` at `perMinute`. */
  function Gain(perMinute: U32, seconds: real): real { seconds * (perMinute as real / 60.0) }

  function Refilled(perMinute: U32, b: Bucket, now: real): real {
    Min(b.tokens + Gain(perMinute, Elapsed(now, b.updated)), perMinute as real)
  }

  /** One draw from a bucket; an absent bucket is a fresh full one. */
  function Draw(perMinute: U32, entry: Option<Bucket>, now: real): (Bucket, bool) {
    var b := if entry.Some? then entry.value else Bucket(perMinute as real, now);
    var tokens := Refilled(perMinute, b, now);
    if tokens >= 1.0 then (Bucket(tokens - 1.0, now), true) else (Bucket(tokens, now), false)
  }

  type Buckets = map<string, Bucket>

  function Entry(m: Buckets, key: string): Option<Bucket> {
    if key in m then Some(m[key]) else None
  }

  // ----- Two limiters -----

  /** `TenantRateLimiter::try_acquire`: no sweeping, and a zero limit is no limit. */
  function TenantAcquire(m: Buckets, key: string, now: real, perMinute: U32): (Buckets, bool) {
    if perMinute == 0 then (m, true)
    else
      var (b, allowed) := Draw(perMinute, Entry(m, key), now);
      (m[key := b], allowed)
  }

  /** A bucket that the sweep drops: idle for long, and full once refilled to now. */
  predicate Collectable(perMinute: U32, b: Bucket, now: real, idle: real) {
    !(Elapsed(now, b.updated) < idle || Refilled(perMinute, b, now) < perMinute as real)
  }

  function Swept(perMinute: U32, m: Buckets, now: real, idle: real): Buckets {
    map k | k in m && !Collectable(perMinute, m[k], now, idle) :: m[k]
  }

  datatype KeyState = KeyState(buckets: Buckets, lastSweep: Option<real>)

  predicate SweepDue(s: KeyState, now: real) {
    s.lastSweep.None? || Elapsed(now, s.lastSweep.value) >= SWEEP_PERIOD
  }

  /** `RateLimiter::try_acquire`. */
  function KeyAcquire(perMinute: U32, s: KeyState, key: string, now: real): (KeyState, bool) {
    var (b, allowed) := Draw(perMinute, Entry(s.buckets, key), now);
    var touched := s.buckets[key := b];
    if SweepDue(s, now)
    then (KeyState(Swept(perMinute, touched, now, IDLE_BUCKET_TTL), Some(now)), allowed)
    else (KeyState(touched, s.lastSweep), allowed)
  }

  // ----- The limiters as objects -----

  class KeyLimiter {
    const perMinute: U32
    var buckets: Buckets
    var lastSweep: Option<real>

    function State(): KeyState
      reads this
    {
      KeyState(buckets, lastSweep)
    }

    constructor (perMinute: U32)
      requires perMinute > 0
      ensures this.perMinute == perMinute && State() == KeyState(map[], None)
    {
      this.perMinute := perMinute;
      buckets, lastSweep := map[], None;
    }

    /** Drops every collectable bucket and tells how many there were. */
    method Sweep(now: real, idle: real) returns (removed: nat)
      modifies this
      ensures State() == KeyState(Swept(perMinute, old(buckets), now, idle), Some(now))
      ensures removed == |old(buckets)| - |buckets|
    {
      var todo := buckets.Keys;
      removed := 0;
      while todo != {}
        invariant todo <= old(buckets).Keys && removed == |old(buckets)| - |buckets|
        invariant todo <= buckets.Keys <= old(buckets).Keys
        invariant forall k :: k in buckets ==> buckets[k] == old(buckets)[k]
        invariant forall k :: k in old(buckets) && k !in todo ==>
                    (k in buckets <==> !Collectable(perMinute, old(buckets)[k], now, idle))
        decreases |todo|
      {
        var k :| k in todo;
        if Collectable(perMinute, buckets[k], now, idle) {
          assert buckets.Keys == (buckets - {k}).Keys + {k};
          buckets := buckets - {k};
          removed := removed + 1;
        }
        todo := todo - {k};
      }
      lastSweep := Some(now);
      assert buckets == Swept(perMinute, old(buckets), now, idle);
    }

    method TryAcquire(key: string, now: real) returns (allowed: bool)
      modifies this
      ensures (State(), allowed) == KeyAcquire(perMinute, old(State()), key, now)
    {
      if key !in buckets {
        buckets := buckets[key := Bucket(perMinute as real, now)];
      }
      var b := buckets[key];
      var tokens := Min(b.tokens + Gain(perMinute, Elapsed(now, b.updated)), perMinute as real);
      allowed := tokens >= 1.0;
      if allowed { tokens := tokens - 1.0; }
      buckets := buckets[key := Bucket(tokens, now)];
      assert buckets == old(buckets)[key := Bucket(tokens, now)];
      if lastSweep.None? || Elapsed(now, lastSweep.value) >= SWEEP_PERIOD {
        var _ := Sweep(now, IDLE_BUCKET_TTL);
      }
    }

    method Evict(key: string) returns (existed: bool)
      modifies this
      ensures existed <==> key in old(buckets)
      ensures State() == KeyState(old(buckets) - {key}, old(lastSweep))
    {
      existed := key in buckets;
      buckets := buckets - {key};
    }
  }

  class TenantLimiter {
    var buckets: Buckets

    constructor ()
      ensures buckets == map[]
    {
      buckets := map[];
    }

    method TryAcquire(tenant: string, now: real, perMinute: U32) returns (allowed: bool)
      modifies this
      ensures (buckets, allowed) == TenantAcquire(old(buckets), tenant, now, perMinute)
      ensures perMinute == 0 ==> allowed && buckets == old(buckets)
    {
      if perMinute == 0 { return true; }
      if tenant !in buckets {
        buckets := buckets[tenant := Bucket(perMinute as real, now)];
      }
      var b := buckets[tenant];
      var tokens := Min(b.tokens + Gain(perMinute, Elapsed(now, b.updated)), perMinute as real);
      allowed := tokens >= 1.0;
      if allowed { tokens := tokens - 1.0; }
      buckets := buckets[tenant := Bucket(tokens, now)];
      assert buckets == old(buckets)[tenant := Bucket(tokens, now)];
    }

    method Evict(tenant: string) returns (existed: bool)
      modifies this
      ensures existed <==> tenant in old(buckets)
      ensures buckets == old(buckets) - {tenant}
    {
      existed := tenant in buckets;
      buckets := buckets - {tenant};
    }
  }

  // ----- Runs -----

  datatype Call = Acquire(key: string, now: real, perMinute: U32) | Evict(key: string)

  /** The clock does not run backwards and starts at `from`. */
  predicate Timed(run: seq<Call>, from: real) {
    run != [] ==> (run[0].Acquire? ==> from <= run[0].now)
                  && Timed(run[1..], if run[0].Acquire? then run[0].now else from)
  }

  /** The tenant limiter's answers to a run; an eviction answers nothing and counts as false. */
  function TenantAnswers(m: Buckets, run: seq<Call>): (answers: seq<bool>)
    ensures |answers| == |run|
    decreases |run|
  {
    if run == [] then []
    else match run[0]
      case Evict(key) => [false] + TenantAnswers(m - {key}, run[1..])
      case Acquire(key, now, l) =>
        var (m', allowed) := TenantAcquire(m, key, now, l);
        [allowed] + TenantAnswers(m', run[1..])
  }

  function KeyAnswers(perMinute: U32, s: KeyState, run: seq<Call>): (answers: seq<bool>)
    ensures |answers| == |run|
    decreases |run|
  {
    if run == [] then []
    else match run[0]
      case Evict(key) => [false] + KeyAnswers(perMinute, s.(buckets := s.buckets - {key}), run[1..])
      case Acquire(key, now, _) =>
        var (s', allowed) := KeyAcquire(perMinute, s, key, now);
        [allowed] + KeyAnswers(perMinute, s', run[1..])
  }

  /** Every acquire of the run is made under one fixed limit. */
  predicate FixedLimit(run: seq<Call>, perMinute: U32) {
    forall i :: 0 <= i < |run| && run[i].Acquire? ==> run[i].perMinute == perMinute
  }

  // ----- Refilling -----

  lemma GainAdds(l: U32, a: real, b: real)
    ensures Gain(l, a) + Gain(l, b) == Gain(l, a + b)
  {
  }

  lemma GainGrows(l: U32, l': U32, a: real, b: real)
    requires l <= l' && 0.0 <= a <= b
    ensures 0.0 <= Gain(l, a) <= Gain(l', b)
  {
    var r, r' := l as real / 60.0, l' as real / 60.0;
    assert r <= r';
    assert a * r <= b * r <= b * r';
  }

  /** A minute refills any bucket, whatever the limit. */
  lemma MinuteFills(l: U32, b: Bucket, now: real)
    requires b.tokens >= 0.0 && Elapsed(now, b.updated) >= 60.0
    ensures Refilled(l, b, now) == l as real
  {
    GainGrows(l, l, 60.0, Elapsed(now, b.updated));
    assert Gain(l, 60.0) == l as real;
  }

  /** Fullness is not lost by waiting. */
  lemma FullStaysFull(l: U32, b: Bucket, now: real, later: real)
    requires Refilled(l, b, now) == l as real && now <= later
    ensures Refilled(l, b, later) == l as real
  {
    GainGrows(l, l, Elapsed(now, b.updated), Elapsed(later, b.updated));
  }

  // ----- Sweeping is invisible -----

  /** `small` is `big` without some buckets, all of which are full again by `now`. */
  ghost predicate Covers(l: U32, small: Buckets, big: Buckets, now: real) {
    && small.Keys <= big.Keys
    && (forall k :: k in small ==> small[k] == big[k])
    && (forall k :: k in big && k !in small ==> Refilled(l, big[k], now) == l as real)
    && (forall k :: k in big ==> 0.0 <= big[k].tokens <= l as real && big[k].updated <= now)
  }

  lemma CoversLater(l: U32, small: Buckets, big: Buckets, now: real, later: real)
    requires Covers(l, small, big, now) && now <= later
    ensures Covers(l, small, big, later)
  {
    forall k | k in big && k !in small ensures Refilled(l, big[k], later) == l as real {
      FullStaysFull(l, big[k], now, later);
    }
  }

  lemma DrawInRange(l: U32, entry: Option<Bucket>, now: real)
    requires entry.Some? ==> entry.value.tokens >= 0.0
    ensures var b := Draw(l, entry, now).0; 0.0 <= b.tokens <= l as real && b.updated == now
  {
    if entry.Some? { GainGrows(l, l, 0.0, Elapsed(now, entry.value.updated)); }
  }

  /** A collected bucket cannot be told from a fresh one. */
  lemma FullIsFresh(l: U32, b: Bucket, now: real)
    requires Refilled(l, b, now) == l as real
    ensures Draw(l, Some(b), now) == Draw(l, None, now)
  {
  }

  /** One acquire: both limiters answer alike and stay related, and the sweep never drops the
      bucket it has just served. */
  lemma AcquireCovers(l: U32, s: KeyState, m: Buckets, key: string, now: real)
    requires l > 0 && Covers(l, s.buckets, m, now)
    ensures KeyAcquire(l, s, key, now).1 == TenantAcquire(m, key, now, l).1
    ensures Covers(l, KeyAcquire(l, s, key, now).0.buckets, TenantAcquire(m, key, now, l).0, now)
    ensures key in KeyAcquire(l, s, key, now).0.buckets
  {
    if key in m && key !in s.buckets { FullIsFresh(l, m[key], now); }
    DrawInRange(l, Entry(m, key), now);
  }

  lemma {:induction false} SweepIsInvisibleFrom(l: U32, s: KeyState, m: Buckets, run: seq<Call>, now: real)
    requires l > 0 && Covers(l, s.buckets, m, now) && Timed(run, now) && FixedLimit(run, l)
    ensures KeyAnswers(l, s, run) == TenantAnswers(m, run)
    decreases |run|
  {
    if run != [] {
      match run[0]
      case Evict(key) =>
        SweepIsInvisibleFrom(l, s.(buckets := s.buckets - {key}), m - {key}, run[1..], now);
      case Acquire(key, later, _) =>
        CoversLater(l, s.buckets, m, now, later);
        AcquireCovers(l, s, m, key, later);
        SweepIsInvisibleFrom(l, KeyAcquire(l, s, key, later).0, TenantAcquire(m, key, later, l).0, run[1..], later);
    }
  }

  const FRESH := KeyState(map[], None)

  /** The sweeping limiter answers every run exactly as a limiter that never drops a bucket. */
  lemma SweepIsInvisible(l: U32, run: seq<Call>, start: real)
    requires l > 0 && Timed(run, start) && FixedLimit(run, l)
    ensures KeyAnswers(l, FRESH, run) == TenantAnswers(map[], run)
  {
    SweepIsInvisibleFrom(l, FRESH, map[], run, start);
  }

  /** With a ten-minute idle limit against a one-minute refill, the fullness test of the sweep
      always passes: a bucket is dropped exactly when it has been idle that long. */
  lemma IdleIsFull(l: U32, m: Buckets, now: real)
    requires forall k :: k in m ==> m[k].tokens >= 0.0
    ensures Swept(l, m, now, IDLE_BUCKET_TTL) == map k | k in m && Elapsed(now, m[k].updated) < IDLE_BUCKET_TTL :: m[k]
  {
    forall k | k in m && Elapsed(now, m[k].updated) >= IDLE_BUCKET_TTL
      ensures Refilled(l, m[k], now) == l as real
    {
      MinuteFills(l, m[k], now);
    }
  }

  // ----- Keys do not affect each other -----

  /** The part of a run, or of its answers, that concerns one key. */
  function CallsOf(run: seq<Call>, key: string): seq<Call> {
    if run == [] then []
    else if run[0].key == key then [run[0]] + CallsOf(run[1..], key)
    else CallsOf(run[1..], key)
  }

  function AnswersOf(run: seq<Call>, answers: seq<bool>, key: string): seq<bool>
    requires |answers| == |run|
  {
    if run == [] then []
    else if run[0].key == key then [answers[0]] + AnswersOf(run[1..], answers[1..], key)
    else AnswersOf(run[1..], answers[1..], key)
  }

  lemma {:induction false} KeysAreIndependentFrom(m: Buckets, alone: Buckets, run: seq<Call>, key: string)
    requires Entry(m, key) == Entry(alone, key)
    ensures AnswersOf(run, TenantAnswers(m, run), key) == TenantAnswers(alone, CallsOf(run, key))
    decreases |run|
  {
    if run != [] {
      var mine := run[0].key == key;
      match run[0]
      case Evict(k) =>
        KeysAreIndependentFrom(m - {k}, if mine then alone - {k} else alone, run[1..], key);
        assert TenantAnswers(m, run)[1..] == TenantAnswers(m - {k}, run[1..]);
      case Acquire(k, now, l) =>
        var m' := TenantAcquire(m, k, now, l).0;
        KeysAreIndependentFrom(m', if mine then TenantAcquire(alone, k, now, l).0 else alone, run[1..], key);
        assert TenantAnswers(m, run)[1..] == TenantAnswers(m', run[1..]);
      if mine { assert CallsOf(run, key)[1..] == CallsOf(run[1..], key); }
    }
  }

  /** What a key is answered is what it would be answered if it were the only key. */
  lemma KeysAreIndependent(run: seq<Call>, key: string)
    ensures AnswersOf(run, TenantAnswers(map[], run), key) == TenantAnswers(map[], CallsOf(run, key))
  {
    KeysAreIndependentFrom(map[], map[], run, key);
  }

  lemma {:induction false} CallsOfTimed(run: seq<Call>, key: string, from: real, earlier: real)
    requires Timed(run, from) && earlier <= from
    ensures Timed(CallsOf(run, key), earlier)
    decreases |run|
  {
    if run != [] {
      var next := if run[0].Acquire? then run[0].now else from;
      if run[0].key == key {
        assert CallsOf(run, key)[1..] == CallsOf(run[1..], key);
        CallsOfTimed(run[1..], key, next, if run[0].Acquire? then run[0].now else earlier);
      } else {
        CallsOfTimed(run[1..], key, next, earlier);
      }
    }
  }

  lemma {:induction false} CallsOfFixed(run: seq<Call>, key: string, l: U32)
    requires FixedLimit(run, l)
    ensures FixedLimit(CallsOf(run, key), l)
    decreases |run|
  {
    if run != [] { CallsOfFixed(run[1..], key, l); }
  }

  /** The same for the sweeping limiter, although its sweeps run when any key is served. */
  lemma SweepingKeysAreIndependent(l: U32, run: seq<Call>, key: string, start: real)
    requires l > 0 && Timed(run, start) && FixedLimit(run, l)
    ensures AnswersOf(run, KeyAnswers(l, FRESH, run), key) == KeyAnswers(l, FRESH, CallsOf(run, key))
  {
    SweepIsInvisible(l, run, start);
    KeysAreIndependent(run, key);
    CallsOfTimed(run, key, start, start);
    CallsOfFixed(run, key, l);
    SweepIsInvisible(l, CallsOf(run, key), start);
  }

  // ----- How much an interval can grant -----

  /** Acquires of `key` that were allowed. */
  function Grants(run: seq<Call>, answers: seq<bool>, key: string): nat
    requires |answers| == |run|
  {
    if run == [] then 0
    else (if run[0].Acquire? && run[0].key == key && answers[0] then 1 else 0)
         + Grants(run[1..], answers[1..], key)
  }

  /** `key` only asks under limits between 1 and `cap`. */
  predicate LimitedTo(run: seq<Call>, key: string, cap: U32) {
    forall i :: 0 <= i < |run| && run[i].Acquire? && run[i].key == key ==> 0 < run[i].perMinute <= cap
  }

  predicate EndsBy(run: seq<Call>, end: real) {
    forall i :: 0 <= i < |run| && run[i].Acquire? ==> run[i].now <= end
  }

  function Evictions(run: seq<Call>, key: string): nat {
    if run == [] then 0 else (if run[0] == Evict(key) then 1 else 0) + Evictions(run[1..], key)
  }

  /** A full bucket for every eviction of the key. */
  function Refunds(run: seq<Call>, key: string, cap: U32): real {
    if run == [] then 0.0 else (if run[0] == Evict(key) then cap as real else 0.0) + Refunds(run[1..], key, cap)
  }

  lemma {:induction false} RefundsAre(run: seq<Call>, key: string, cap: U32)
    ensures Refunds(run, key, cap) == cap as real * Evictions(run, key) as real
    decreases |run|
  {
    if run != [] { RefundsAre(run[1..], key, cap); }
  }

  predicate SoundAt(m: Buckets, key: string, now: real) { key in m ==> m[key].tokens >= 0.0 && m[key].updated <= now }

  /** From a bucket with `tokens` left, no more can be granted by `end` than those tokens, what flows in
      until then, and a full bucket for every eviction. */
  lemma {:induction false} GrantsFromBucket(m: Buckets, run: seq<Call>, key: string, cap: U32, now: real, end: real)
    requires key in m && SoundAt(m, key, now) && now <= end
    requires Timed(run, now) && LimitedTo(run, key, cap) && EndsBy(run, end)
    ensures Grants(run, TenantAnswers(m, run), key) as real
            <= m[key].tokens + Gain(cap, end - m[key].updated) + Refunds(run, key, cap)
    decreases |run|
  {
    if run == [] {
      GainGrows(cap, cap, 0.0, end - m[key].updated);
    } else {
      match run[0]
      case Evict(k) =>
        assert TenantAnswers(m, run)[1..] == TenantAnswers(m - {k}, run[1..]);
        if k == key {
          IntervalBoundFrom(m - {k}, run[1..], key, cap, now, end);
          GainGrows(cap, cap, end - now, end - m[key].updated);
        } else {
          GrantsFromBucket(m - {k}, run[1..], key, cap, now, end);
        }
      case Acquire(k, later, l) =>
        var m' := TenantAcquire(m, k, later, l).0;
        assert TenantAnswers(m, run)[1..] == TenantAnswers(m', run[1..]);
        if k == key {
          DrawInRange(l, Some(m[key]), later);
          GrantsFromBucket(m', run[1..], key, cap, later, end);
          GainGrows(l, cap, later - m[key].updated, later - m[key].updated);
          GainAdds(cap, later - m[key].updated, end - later);
        } else {
          GrantsFromBucket(m', run[1..], key, cap, later, end);
        }
    }
  }

  ghost predicate Sound(m: Buckets, now: real) { forall k :: k in m ==> SoundAt(m, k, now) }

  /** In any interval `[start, end]`, from whatever state the limiter is in, a key that asks only
      under limits up to `cap` is granted at most `cap` tokens, as many again for every eviction, and
      `(end - start) * cap / 60`. */
  lemma {:induction false} IntervalBoundFrom(m: Buckets, run: seq<Call>, key: string, cap: U32, start: real, end: real)
    requires SoundAt(m, key, start)
    requires start <= end && Timed(run, start) && LimitedTo(run, key, cap) && EndsBy(run, end)
    ensures Grants(run, TenantAnswers(m, run), key) as real
            <= cap as real + Refunds(run, key, cap) + Gain(cap, end - start)
    decreases |run|
  {
    if run == [] {
      GainGrows(cap, cap, 0.0, end - start);
    } else {
      match run[0]
      case Evict(k) =>
        assert TenantAnswers(m, run)[1..] == TenantAnswers(m - {k}, run[1..]);
        IntervalBoundFrom(m - {k}, run[1..], key, cap, start, end);
      case Acquire(k, now, l) =>
        var m' := TenantAcquire(m, k, now, l).0;
        assert TenantAnswers(m, run)[1..] == TenantAnswers(m', run[1..]);
        GainGrows(cap, cap, end - now, end - start);
        if k == key {
          DrawInRange(l, Entry(m, k), now);
          GrantsFromBucket(m', run[1..], key, cap, now, end);
        } else {
          IntervalBoundFrom(m', run[1..], key, cap, now, end);
        }
    }
  }

  /** The state a run leaves behind, and the last time it read. */
  function TenantAfter(m: Buckets, run: seq<Call>): Buckets
    decreases |run|
  {
    if run == [] then m
    else match run[0]
      case Evict(key) => TenantAfter(m - {key}, run[1..])
      case Acquire(key, now, l) => TenantAfter(TenantAcquire(m, key, now, l).0, run[1..])
  }

  function KeyAfter(perMinute: U32, s: KeyState, run: seq<Call>): KeyState
    decreases |run|
  {
    if run == [] then s
    else match run[0]
      case Evict(key) => KeyAfter(perMinute, s.(buckets := s.buckets - {key}), run[1..])
      case Acquire(key, now, _) => KeyAfter(perMinute, KeyAcquire(perMinute, s, key, now).0, run[1..])
  }

  function Clock(run: seq<Call>, from: real): real {
    if run == [] then from else Clock(run[1..], if run[0].Acquire? then run[0].now else from)
  }

  lemma {:induction false} ReachedCovers(l: U32, s: KeyState, m: Buckets, run: seq<Call>, now: real)
    requires l > 0 && Covers(l, s.buckets, m, now) && Timed(run, now) && FixedLimit(run, l)
    ensures Covers(l, KeyAfter(l, s, run).buckets, TenantAfter(m, run), Clock(run, now))
    decreases |run|
  {
    if run != [] {
      match run[0]
      case Evict(key) =>
        ReachedCovers(l, s.(buckets := s.buckets - {key}), m - {key}, run[1..], now);
      case Acquire(key, later, _) =>
        CoversLater(l, s.buckets, m, now, later);
        AcquireCovers(l, s, m, key, later);
        ReachedCovers(l, KeyAcquire(l, s, key, later).0, TenantAcquire(m, key, later, l).0, run[1..], later);
    }
  }

  /** In every reachable state of the per-key limiter tokens are between zero and the capacity. */
  lemma TokensStayInRange(l: U32, run: seq<Call>, start: real, key: string)
    requires l > 0 && Timed(run, start) && FixedLimit(run, l)
    ensures var m := KeyAfter(l, FRESH, run).buckets; key in m ==> 0.0 <= m[key].tokens <= l as real
  {
    ReachedCovers(l, FRESH, map[], run, start);
  }

  /** After any history, the per-key limiter grants a key in any interval at most
      `capacity * (1 + evictions) + (end - start) * capacity / 60`. */
  lemma KeyIntervalBound(l: U32, history: seq<Call>, run: seq<Call>, key: string, origin: real, start: real, end: real)
    requires l > 0 && Timed(history, origin) && FixedLimit(history, l) && Clock(history, origin) <= start <= end
    requires Timed(run, start) && FixedLimit(run, l) && EndsBy(run, end)
    ensures Grants(run, KeyAnswers(l, KeyAfter(l, FRESH, history), run), key) as real
            <= l as real * (1 + Evictions(run, key)) as real + Gain(l, end - start)
  {
    ReachedCovers(l, FRESH, map[], history, origin);
    var s, m := KeyAfter(l, FRESH, history), TenantAfter(map[], history);
    CoversLater(l, s.buckets, m, Clock(history, origin), start);
    SweepIsInvisibleFrom(l, s, m, run, start);
    IntervalBoundFrom(m, run, key, l, start, end);
    WithRefunds(run, key, l);
  }

  lemma WithRefunds(run: seq<Call>, key: string, cap: U32)
    ensures cap as real + Refunds(run, key, cap) == cap as real * (1 + Evictions(run, key)) as real
  {
    RefundsAre(run, key, cap);
    var n := Evictions(run, key);
    assert (1 + n) as real == 1.0 + n as real;
  }

  lemma {:induction false} ReachedSound(m: Buckets, run: seq<Call>, now: real)
    requires Sound(m, now) && Timed(run, now)
    ensures Sound(TenantAfter(m, run), Clock(run, now))
    decreases |run|
  {
    if run != [] {
      match run[0]
      case Evict(k) => ReachedSound(m - {k}, run[1..], now);
      case Acquire(k, later, l) =>
        DrawInRange(l, Entry(m, k), later);
        ReachedSound(TenantAcquire(m, k, later, l).0, run[1..], later);
    }
  }

  /** The tenant limiter, whose limit may change with every call: after any history under any
      limits, an interval in which the tenant asks under limits from 1 to `cap` grants it at most
      `cap * (1 + evictions) + (end - start) * cap / 60`. */
  lemma TenantIntervalBound(history: seq<Call>, run: seq<Call>, tenant: string, cap: U32,
                            origin: real, start: real, end: real)
    requires Timed(history, origin) && Clock(history, origin) <= start <= end
    requires Timed(run, start) && LimitedTo(run, tenant, cap) && EndsBy(run, end)
    ensures Grants(run, TenantAnswers(TenantAfter(map[], history), run), tenant) as real
            <= cap as real * (1 + Evictions(run, tenant)) as real + Gain(cap, end - start)
  {
    ReachedSound(map[], history, origin);
    IntervalBoundFrom(TenantAfter(map[], history), run, tenant, cap, start, end);
    WithRefunds(run, tenant, cap);
  }

  // ----- Exactly when a call is denied -----

  /** The call draws on the key's bucket: a call under limit 0 does not. */
  predicate Draws(c: Call, key: string) { c.Acquire? && c.key == key && c.perMinute > 0 }

  /** The key is not evicted in the run. */
  predicate Kept(run: seq<Call>, key: string) {
    forall j :: 0 <= j < |run| ==> run[j] != Evict(key)
  }

  /** Call `i` draws for `key`, and since then the key was not evicted. */
  predicate AskedSince(run: seq<Call>, key: string, i: int) {
    0 <= i < |run| && Draws(run[i], key) && Kept(run[i..], key)
  }

  /** Calls that drew a token for the key. */
  function Drawn(run: seq<Call>, answers: seq<bool>, key: string): nat
    requires |answers| == |run|
  {
    if run == [] then 0
    else (if Draws(run[0], key) && answers[0] then 1 else 0) + Drawn(run[1..], answers[1..], key)
  }

  /** What flows in for the key from `since` to its last draw: each draw brings what its own limit gives for
      the time since the draw before. */
  function Flow(run: seq<Call>, key: string, since: real): real {
    if run == [] then 0.0
    else if Draws(run[0], key) then
      Gain(run[0].perMinute, run[0].now - since) + Flow(run[1..], key, run[0].now)
    else Flow(run[1..], key, since)
  }

  /** The time of the last draw for the key, or `since` if there is none. */
  function LastDraw(run: seq<Call>, key: string, since: real): real {
    if run == [] then since else LastDraw(run[1..], key, if Draws(run[0], key) then run[0].now else since)
  }

  /** From call `i` on, so many tokens were drawn that a bucket full at that call, with all that has flowed
      in since, has none left for a call under `l` at `now`. */
  predicate Exhausted(run: seq<Call>, answers: seq<bool>, key: string, l: U32, i: nat, now: real)
    requires i < |run| == |answers| && run[i].Acquire?
  {
    var rest, since := run[i + 1..], run[i].now;
    run[i].perMinute as real + Flow(rest, key, since) + Gain(l, now - LastDraw(rest, key, since))
    - Drawn(run[i..], answers[i..], key) as real < 1.0
  }

  function DrawnFrom(m: Buckets, run: seq<Call>, key: string, i: nat): nat
    requires i <= |run|
  {
    Drawn(run[i..], TenantAnswers(m, run)[i..], key)
  }

  function Step(m: Buckets, c: Call): (Buckets, bool) {
    match c
    case Evict(key) => (m - {key}, false)
    case Acquire(key, now, l) => TenantAcquire(m, key, now, l)
  }

  lemma RunCons(m: Buckets, run: seq<Call>, key: string)
    requires run != []
    ensures TenantAfter(m, run) == TenantAfter(Step(m, run[0]).0, run[1..])
    ensures TenantAnswers(m, run)[1..] == TenantAnswers(Step(m, run[0]).0, run[1..])
    ensures TenantAnswers(m, run)[0] == Step(m, run[0]).1
    ensures DrawnFrom(m, run, key, 0) == DrawnFrom(Step(m, run[0]).0, run[1..], key, 0)
                                         + if Draws(run[0], key) && Step(m, run[0]).1 then 1 else 0
  {
    assert run[0..] == run && TenantAnswers(m, run)[0..] == TenantAnswers(m, run);
    var rest, answers := run[1..], TenantAnswers(Step(m, run[0]).0, run[1..]);
    assert rest[0..] == rest && answers[0..] == answers;
  }

  lemma DrawnFromCons(m: Buckets, run: seq<Call>, key: string, i: nat)
    requires 0 < i <= |run|
    ensures DrawnFrom(m, run, key, i) == DrawnFrom(Step(m, run[0]).0, run[1..], key, i - 1)
  {
    RunCons(m, run, key);
    assert run[i..] == run[1..][i - 1..];
    assert TenantAnswers(m, run)[i..] == TenantAnswers(m, run)[1..][i - 1..];
  }

  /** A call that does not draw for the key leaves its bucket alone, unless it is its eviction. */
  lemma OthersLeave(m: Buckets, c: Call, key: string)
    requires !Draws(c, key) && c != Evict(key)
    ensures Entry(Step(m, c).0, key) == Entry(m, key)
  {
  }

  /** One draw: what is left is what was there and flowed in, or the full bucket if that is less, and one
      less if a token was drawn. */
  lemma DrawLeaves(l: U32, entry: Option<Bucket>, now: real)
    requires entry.Some? ==> entry.value.updated <= now
    ensures var (b, allowed) := Draw(l, entry, now);
            var drawn := if allowed then 1.0 else 0.0;
            && b.updated == now && b.tokens <= l as real - drawn
            && (entry.Some? ==> b.tokens <= entry.value.tokens + Gain(l, now - entry.value.updated) - drawn)
            && (b.tokens == l as real - drawn
                || (entry.Some? && b.tokens == entry.value.tokens + Gain(l, now - entry.value.updated) - drawn))
  {
  }

  predicate UpdatedBy(m: Buckets, key: string, clock: real) { key in m ==> m[key].updated <= clock }

  function ClockAfter(c: Call, clock: real): real { if c.Acquire? then c.now else clock }

  /** A key that is not evicted keeps its bucket, which at the end holds at most what was there and flowed in,
      less what was drawn. */
  lemma {:induction false} TokensFall(m: Buckets, run: seq<Call>, key: string, clock: real)
    requires key in m && m[key].updated <= clock && Timed(run, clock) && Kept(run, key)
    ensures key in TenantAfter(m, run)
    ensures var b := TenantAfter(m, run)[key];
            && b.updated == LastDraw(run, key, m[key].updated)
            && b.tokens <= m[key].tokens + Flow(run, key, m[key].updated) - DrawnFrom(m, run, key, 0) as real
    decreases |run|
  {
    if run != [] {
      RunCons(m, run, key);
      var m' := Step(m, run[0]).0;
      if Draws(run[0], key) {
        DrawLeaves(run[0].perMinute, Some(m[key]), run[0].now);
      } else {
        assert run[0] != Evict(key);
        OthersLeave(m, run[0], key);
      }
      TokensFall(m', run[1..], key, ClockAfter(run[0], clock));
    }
  }

  /** Every draw since the last eviction bounds what is left. */
  lemma {:induction false} TokensAreBounded(m: Buckets, run: seq<Call>, key: string, clock: real, i: nat)
    requires UpdatedBy(m, key, clock) && Timed(run, clock) && AskedSince(run, key, i)
    ensures key in TenantAfter(m, run)
    ensures var b, rest, since := TenantAfter(m, run)[key], run[i + 1..], run[i].now;
            && b.updated == LastDraw(rest, key, since)
            && b.tokens <= run[i].perMinute as real + Flow(rest, key, since) - DrawnFrom(m, run, key, i) as real
    decreases |run|
  {
    RunCons(m, run, key);
    var m' := Step(m, run[0]).0;
    if i == 0 {
      DrawLeaves(run[0].perMinute, Entry(m, key), run[0].now);
      assert run[0..] == run;
      TokensFall(m', run[1..], key, run[0].now);
    } else {
      assert run[i..] == run[1..][i - 1..] && run[i + 1..] == run[1..][i..];
      DrawnFromCons(m, run, key, i);
      StaysUpdated(m, run[0], key, clock);
      TokensAreBounded(m', run[1..], key, ClockAfter(run[0], clock), i - 1);
    }
  }

  lemma StaysUpdated(m: Buckets, c: Call, key: string, clock: real)
    requires UpdatedBy(m, key, clock) && (c.Acquire? ==> clock <= c.now)
    ensures UpdatedBy(Step(m, c).0, key, ClockAfter(c, clock))
  {
  }

  /** What is left is what draw `i` leaves. */
  predicate LeftFrom(m: Buckets, run: seq<Call>, key: string, i: nat) {
    && AskedSince(run, key, i) && key in TenantAfter(m, run)
    && var b := TenantAfter(m, run)[key];
       && b.updated == LastDraw(run[i + 1..], key, run[i].now)
       && b.tokens == run[i].perMinute as real + Flow(run[i + 1..], key, run[i].now) - DrawnFrom(m, run, key, i) as real
  }

  /** What is left is what was there before the run. */
  predicate LeftFromBefore(m: Buckets, run: seq<Call>, key: string) {
    && key in m && Kept(run, key) && key in TenantAfter(m, run)
    && var b := TenantAfter(m, run)[key];
       && b.updated == LastDraw(run, key, m[key].updated)
       && b.tokens == m[key].tokens + Flow(run, key, m[key].updated) - DrawnFrom(m, run, key, 0) as real
  }

  lemma LeftFromLater(m: Buckets, run: seq<Call>, key: string, i: nat)
    requires run != [] && LeftFrom(Step(m, run[0]).0, run[1..], key, i)
    ensures LeftFrom(m, run, key, i + 1)
  {
    RunCons(m, run, key);
    assert run[i + 1..] == run[1..][i..] && run[i + 2..] == run[1..][i + 1..];
    DrawnFromCons(m, run, key, i + 1);
  }

  lemma LeftFromDraw(m: Buckets, run: seq<Call>, key: string, clock: real)
    requires UpdatedBy(m, key, clock) && Timed(run, clock) && run != [] && Draws(run[0], key)
    requires LeftFromBefore(Step(m, run[0]).0, run[1..], key)
    ensures LeftFrom(m, run, key, 0) || LeftFromBefore(m, run, key)
  {
    RunCons(m, run, key);
    DrawLeaves(run[0].perMinute, Entry(m, key), run[0].now);
    assert run[0..] == run;
  }

  lemma LeftFromOther(m: Buckets, run: seq<Call>, key: string)
    requires run != [] && !Draws(run[0], key) && LeftFromBefore(Step(m, run[0]).0, run[1..], key)
    ensures LeftFromBefore(m, run, key)
  {
    RunCons(m, run, key);
    assert run[0] != Evict(key);
    OthersLeave(m, run[0], key);
  }

  /** And what is left is what one of them leaves, or what was left before the run, which is index -1. */
  lemma {:induction false} TokensAreReached(m: Buckets, run: seq<Call>, key: string, clock: real) returns (i: int)
    requires UpdatedBy(m, key, clock) && Timed(run, clock) && key in TenantAfter(m, run)
    ensures i >= -1 && if i == -1 then LeftFromBefore(m, run, key) else LeftFrom(m, run, key, i)
    decreases |run|
  {
    if run == [] {
      return -1;
    }
    RunCons(m, run, key);
    StaysUpdated(m, run[0], key, clock);
    i := TokensAreReached(Step(m, run[0]).0, run[1..], key, ClockAfter(run[0], clock));
    if i >= 0 {
      LeftFromLater(m, run, key, i);
      i := i + 1;
    } else if Draws(run[0], key) {
      LeftFromDraw(m, run, key, clock);
      if LeftFrom(m, run, key, 0) { i := 0; }
    } else {
      LeftFromOther(m, run, key);
    }
  }

  lemma {:induction false} UpdatedInTime(m: Buckets, run: seq<Call>, key: string, clock: real)
    requires UpdatedBy(m, key, clock) && Timed(run, clock)
    ensures UpdatedBy(TenantAfter(m, run), key, Clock(run, clock))
    decreases |run|
  {
    if run != [] {
      StaysUpdated(m, run[0], key, clock);
      UpdatedInTime(Step(m, run[0]).0, run[1..], key, ClockAfter(run[0], clock));
    }
  }

  lemma DeniedByTokens(m: Buckets, key: string, l: U32, now: real)
    requires l > 0 && UpdatedBy(m, key, now)
    ensures !TenantAcquire(m, key, now, l).1 <==> key in m && m[key].tokens + Gain(l, now - m[key].updated) < 1.0
  {
  }

  /** A token bucket without its buckets: after any history under any limits, a call is denied if and only
      if, from some draw after the key's last eviction on, more was drawn than that bucket when full and
      all that has flowed in since then leave room for. */
  lemma TenantDeniedIff(run: seq<Call>, key: string, l: U32, start: real, now: real)
    requires l > 0 && Timed(run, start) && Clock(run, start) <= now
    ensures !TenantAcquire(TenantAfter(map[], run), key, now, l).1 <==>
            exists i :: AskedSince(run, key, i) && Exhausted(run, TenantAnswers(map[], run), key, l, i, now)
  {
    var m, answers := TenantAfter(map[], run), TenantAnswers(map[], run);
    UpdatedInTime(map[], run, key, start);
    DeniedByTokens(m, key, l, now);
    if key in m && m[key].tokens + Gain(l, now - m[key].updated) < 1.0 {
      var i := TokensAreReached(map[], run, key, start);
      assert AskedSince(run, key, i) && Exhausted(run, answers, key, l, i, now);
    }
    forall i | AskedSince(run, key, i) && Exhausted(run, answers, key, l, i, now)
      ensures key in m && m[key].tokens + Gain(l, now - m[key].updated) < 1.0
    {
      TokensAreBounded(map[], run, key, start, i);
    }
  }

  // ----- The same under one limit -----

  /** Every call for the key is made under the limit `l`. */
  predicate UnderLimit(run: seq<Call>, key: string, l: U32) {
    forall i :: 0 <= i < |run| && run[i].Acquire? && run[i].key == key ==> run[i].perMinute == l
  }

  lemma {:induction false} FlowUnderLimit(run: seq<Call>, key: string, l: U32, since: real, now: real)
    requires l > 0 && UnderLimit(run, key, l)
    ensures Flow(run, key, since) + Gain(l, now - LastDraw(run, key, since)) == Gain(l, now - since)
    decreases |run|
  {
    if run != [] {
      if Draws(run[0], key) {
        FlowUnderLimit(run[1..], key, l, run[0].now, now);
        GainAdds(l, run[0].now - since, now - run[0].now);
      } else {
        FlowUnderLimit(run[1..], key, l, since, now);
      }
    }
  }

  lemma {:induction false} DrawnUnderLimit(run: seq<Call>, answers: seq<bool>, key: string, l: U32)
    requires l > 0 && UnderLimit(run, key, l) && |answers| == |run|
    ensures Drawn(run, answers, key) == Grants(run, answers, key)
    decreases |run|
  {
    if run != [] { DrawnUnderLimit(run[1..], answers[1..], key, l); }
  }

  /** Since call `i`, more was granted than `l` tokens and their inflow leave room for. */
  predicate Overdrawn(run: seq<Call>, answers: seq<bool>, key: string, l: U32, i: nat, now: real)
    requires i < |run| == |answers| && run[i].Acquire?
  {
    Grants(run[i..], answers[i..], key) as real > l as real + Gain(l, now - run[i].now) - 1.0
  }

  lemma ExhaustedUnderLimit(run: seq<Call>, answers: seq<bool>, key: string, l: U32, i: int, now: real)
    requires l > 0 && UnderLimit(run, key, l) && |answers| == |run| && AskedSince(run, key, i)
    ensures Exhausted(run, answers, key, l, i, now) <==> Overdrawn(run, answers, key, l, i, now)
  {
    FlowUnderLimit(run[i + 1..], key, l, run[i].now, now);
    DrawnUnderLimit(run[i..], answers[i..], key, l);
  }

  /** Under one limit: a call is denied if and only if, from some call after the last eviction on, more was
      granted than `l` tokens and what has flowed in since that call leave room for. */
  lemma SteadyDeniedIff(run: seq<Call>, key: string, l: U32, start: real, now: real)
    requires l > 0 && Timed(run, start) && Clock(run, start) <= now && UnderLimit(run, key, l)
    ensures !TenantAcquire(TenantAfter(map[], run), key, now, l).1 <==>
            exists i :: AskedSince(run, key, i) && Overdrawn(run, TenantAnswers(map[], run), key, l, i, now)
  {
    TenantDeniedIff(run, key, l, start, now);
    forall i | AskedSince(run, key, i)
      ensures Exhausted(run, TenantAnswers(map[], run), key, l, i, now) <==>
              Overdrawn(run, TenantAnswers(map[], run), key, l, i, now)
    {
      ExhaustedUnderLimit(run, TenantAnswers(map[], run), key, l, i, now);
    }
  }

  /** The same for the per-key limiter, sweeps and all. */
  lemma KeyDeniedIff(l: U32, run: seq<Call>, key: string, start: real, now: real)
    requires l > 0 && Timed(run, start) && Clock(run, start) <= now && FixedLimit(run, l)
    ensures !KeyAcquire(l, KeyAfter(l, FRESH, run), key, now).1 <==>
            exists i :: AskedSince(run, key, i) && Overdrawn(run, KeyAnswers(l, FRESH, run), key, l, i, now)
  {
    SweepIsInvisible(l, run, start);
    ReachedCovers(l, FRESH, map[], run, start);
    CoversLater(l, KeyAfter(l, FRESH, run).buckets, TenantAfter(map[], run), Clock(run, start), now);
    AcquireCovers(l, KeyAfter(l, FRESH, run), TenantAfter(map[], run), key, now);
    SteadyDeniedIff(run, key, l, start, now);
  }

  /** Calls for the key. */
  function Asked(run: seq<Call>, key: string): nat {
    if run == [] then 0 else (if run[0].Acquire? && run[0].key == key then 1 else 0) + Asked(run[1..], key)
  }

  lemma {:induction false} GrantsAtMostAsked(run: seq<Call>, answers: seq<bool>, key: string)
    requires |answers| == |run|
    ensures Grants(run, answers, key) <= Asked(run, key)
    decreases |run|
  {
    if run != [] { GrantsAtMostAsked(run[1..], answers[1..], key); }
  }

  lemma {:induction false} AskedTail(run: seq<Call>, key: string, i: nat)
    requires i <= |run|
    ensures Asked(run[i..], key) <= Asked(run, key)
    decreases i
  {
    if i > 0 {
      assert run[i..] == run[1..][i - 1..];
      AskedTail(run[1..], key, i - 1);
    }
  }

  /** So the first `l` calls for a key are always served. */
  lemma FirstCallsAreServed(run: seq<Call>, key: string, l: U32, start: real, now: real)
    requires l > 0 && Timed(run, start) && Clock(run, start) <= now && UnderLimit(run, key, l) && Asked(run, key) < l
    ensures TenantAcquire(TenantAfter(map[], run), key, now, l).1
    ensures FixedLimit(run, l) ==> KeyAcquire(l, KeyAfter(l, FRESH, run), key, now).1
  {
    var answers := TenantAnswers(map[], run);
    forall i | AskedSince(run, key, i) ensures !Overdrawn(run, answers, key, l, i, now) {
      GrantsAtMostAsked(run[i..], answers[i..], key);
      AskedTail(run, key, i);
      TimedAt(run, start, i);
      GainGrows(l, l, 0.0, now - run[i].now);
    }
    SteadyDeniedIff(run, key, l, start, now);
    if FixedLimit(run, l) {
      ReachedCovers(l, FRESH, map[], run, start);
      CoversLater(l, KeyAfter(l, FRESH, run).buckets, TenantAfter(map[], run), Clock(run, start), now);
      AcquireCovers(l, KeyAfter(l, FRESH, run), TenantAfter(map[], run), key, now);
    }
  }

  lemma {:induction false} ClockGrows(run: seq<Call>, start: real)
    requires Timed(run, start)
    ensures start <= Clock(run, start)
    decreases |run|
  {
    if run != [] { ClockGrows(run[1..], if run[0].Acquire? then run[0].now else start); }
  }

  lemma {:induction false} TimedAt(run: seq<Call>, start: real, i: nat)
    requires Timed(run, start) && i < |run| && run[i].Acquire?
    ensures run[i].now <= Clock(run, start)
    decreases |run|
  {
    var next := if run[0].Acquire? then run[0].now else start;
    if i == 0 { ClockGrows(run[1..], next); } else { TimedAt(run[1..], next, i - 1); }
  }

  // ----- What the sweep keeps -----

  /** After the last sweep no bucket was idle for the idle limit, and the next sweep is not due. */
  predicate Recent(s: KeyState, clock: real) {
    && (s.lastSweep.None? ==> s.buckets == map[])
    && (s.lastSweep.Some? ==>
          && s.lastSweep.value <= clock < s.lastSweep.value + SWEEP_PERIOD
          && forall k :: k in s.buckets ==> s.lastSweep.value - IDLE_BUCKET_TTL < s.buckets[k].updated <= clock)
  }

  /** Memory is reclaimed: no bucket stays that was idle for ten minutes and one sweep period more. */
  lemma BucketsStayRecent(l: U32, run: seq<Call>, start: real)
    requires l > 0 && Timed(run, start) && FixedLimit(run, l)
    ensures forall k :: k in KeyAfter(l, FRESH, run).buckets ==>
              Clock(run, start) - 660.0 < KeyAfter(l, FRESH, run).buckets[k].updated
  {
    RecentFrom(l, FRESH, run, start);
  }

  lemma {:induction false} RecentFrom(l: U32, s: KeyState, run: seq<Call>, clock: real)
    requires l > 0 && Recent(s, clock) && Timed(run, clock) && FixedLimit(run, l)
    requires forall k :: k in s.buckets ==> 0.0 <= s.buckets[k].tokens
    ensures Recent(KeyAfter(l, s, run), Clock(run, clock))
    decreases |run|
  {
    if run != [] {
      match run[0]
      case Evict(key) => RecentFrom(l, s.(buckets := s.buckets - {key}), run[1..], clock);
      case Acquire(key, now, _) =>
        AcquireStaysRecent(l, s, key, clock, now);
        RecentFrom(l, KeyAcquire(l, s, key, now).0, run[1..], now);
    }
  }

  lemma AcquireStaysRecent(l: U32, s: KeyState, key: string, clock: real, now: real)
    requires l > 0 && Recent(s, clock) && clock <= now
    requires forall k :: k in s.buckets ==> 0.0 <= s.buckets[k].tokens
    ensures Recent(KeyAcquire(l, s, key, now).0, now)
    ensures var m := KeyAcquire(l, s, key, now).0.buckets; forall k :: k in m ==> 0.0 <= m[k].tokens
  {
    DrawInRange(l, Entry(s.buckets, key), now);
    var touched := s.buckets[key := Draw(l, Entry(s.buckets, key), now).0];
    IdleIsFull(l, touched, now);
  }

  // ----- Retry-After -----

  function Ceil(x: real): int { -(-x).Floor }

  /** `RateLimiter::retry_after_secs`, from the refill rate per second. */
  function KeyRetryAfter(refillPerSec: real): nat {
    if refillPerSec <= 0.0 then 1
    else if Ceil(1.0 / refillPerSec) >= 1 then Ceil(1.0 / refillPerSec) else 1
  }

  /** `TenantRateLimiter::retry_after_secs`. */
  function TenantRetryAfter(perMinute: U32): nat {
    if perMinute == 0 then 1
    else if Ceil(60.0 / perMinute as real) >= 1 then Ceil(60.0 / perMinute as real) else 1
  }

  /** The two formulas give the same wait, and that wait is the least whole number of seconds in
      which one token flows in; it is one second where none ever does. */
  lemma RetryAfterIsOneToken(l: U32, n: nat)
    ensures KeyRetryAfter(l as real / 60.0) == TenantRetryAfter(l) >= 1
    ensures if l == 0 then TenantRetryAfter(l) == 1 else Gain(l, n as real) >= 1.0 <==> n >= TenantRetryAfter(l)
  {
    if l == 0 { return; }
    var r, wait := l as real / 60.0, 60.0 / l as real;
    assert r * wait == 1.0;
    assert 1.0 / r == wait;
    assert n as real >= wait <==> n >= Ceil(wait);
    if n as real >= wait {
      assert n as real * r >= wait * r;
    } else {
      assert n as real * r < wait * r;
    }
  }

  /** Waiting `Retry-After` after a denial is enough. */
  lemma WaitingSuffices(l: U32, entry: Option<Bucket>, now: real, later: real)
    requires l > 0 && (entry.Some? ==> entry.value.tokens >= 0.0)
    requires !Draw(l, entry, now).1 && later >= now + TenantRetryAfter(l) as real
    ensures Draw(l, Some(Draw(l, entry, now).0), later).1
  {
    var wait := TenantRetryAfter(l);
    DrawInRange(l, entry, now);
    RetryAfterIsOneToken(l, wait);
    GainGrows(l, l, wait as real, later - now);
  }

  /** And it is tight: from an empty bucket no smaller whole number of seconds is enough. */
  lemma WaitingIsTight(l: U32, now: real, n: nat)
    requires l > 0 && 0 < n < TenantRetryAfter(l)
    ensures !Draw(l, Some(Bucket(0.0, now)), now + n as real).1
  {
    RetryAfterIsOneToken(l, n);
  }

  predicate Untouched(run: seq<Call>, key: string) {
    forall i :: 0 <= i < |run| ==> run[i].key != key
  }

  lemma {:induction false} UntouchedKeeps(m: Buckets, run: seq<Call>, key: string)
    requires Untouched(run, key)
    ensures Entry(TenantAfter(m, run), key) == Entry(m, key)
    decreases |run|
  {
    if run != [] {
      match run[0]
      case Evict(k) => UntouchedKeeps(m - {k}, run[1..], key);
      case Acquire(k, now, l) => UntouchedKeeps(TenantAcquire(m, k, now, l).0, run[1..], key);
    }
  }

  /** The promise made by the header: after any history, a key that is denied and told to wait is
      served once it has waited, whatever other keys do meanwhile and however often the limiter
      sweeps. */
  lemma RetryAfterIsKept(l: U32, history: seq<Call>, key: string, origin: real, now: real, others: seq<Call>,
                         later: real)
    requires l > 0 && Timed(history, origin) && FixedLimit(history, l) && Clock(history, origin) <= now
    requires Timed(others, now) && FixedLimit(others, l) && Untouched(others, key)
    requires Clock(others, now) <= later && later >= now + KeyRetryAfter(l as real / 60.0) as real
    requires !KeyAcquire(l, KeyAfter(l, FRESH, history), key, now).1
    ensures KeyAcquire(l, KeyAfter(l, KeyAcquire(l, KeyAfter(l, FRESH, history), key, now).0, others), key, later).1
  {
    ReachedCovers(l, FRESH, map[], history, origin);
    var s, m := KeyAfter(l, FRESH, history), TenantAfter(map[], history);
    CoversLater(l, s.buckets, m, Clock(history, origin), now);
    AcquireCovers(l, s, m, key, now);
    var s1, m1 := KeyAcquire(l, s, key, now).0, TenantAcquire(m, key, now, l).0;
    ReachedCovers(l, s1, m1, others, now);
    var s2, m2 := KeyAfter(l, s1, others), TenantAfter(m1, others);
    CoversLater(l, s2.buckets, m2, Clock(others, now), later);
    AcquireCovers(l, s2, m2, key, later);
    UntouchedKeeps(m1, others, key);
    RetryAfterIsOneToken(l, 0);
    WaitingSuffices(l, Entry(m, key), now, later);
  }

  /** The same for the tenant limiter: after any history under any limits, a tenant that is denied
      under a limit and asks again under the same limit once it has waited is served, whatever other
      tenants do meanwhile. */
  lemma TenantRetryAfterIsKept(l: U32, history: seq<Call>, tenant: string, origin: real, now: real, others: seq<Call>,
                               later: real)
    requires l > 0 && Timed(history, origin) && Clock(history, origin) <= now
    requires Untouched(others, tenant) && later >= now + TenantRetryAfter(l) as real
    requires !TenantAcquire(TenantAfter(map[], history), tenant, now, l).1
    ensures var denied := TenantAcquire(TenantAfter(map[], history), tenant, now, l).0;
            TenantAcquire(TenantAfter(denied, others), tenant, later, l).1
  {
    var m := TenantAfter(map[], history);
    ReachedSound(map[], history, origin);
    UntouchedKeeps(TenantAcquire(m, tenant, now, l).0, others, tenant);
    WaitingSuffices(l, Entry(m, tenant), now, later);
  }
}
