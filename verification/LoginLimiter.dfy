/** Failed-login throttling: a window per normalized username and one for the whole process. The
    windows are anchored at the first failure, they do not slide. Times are whole seconds. The runs of
    this module are of logins one at a time; logins that overlap are in `LoginOverlap`. */
module LoginLimiter {

  import opened Options
  import opened Text
  import opened Words

  const WINDOW_SECS: nat := 60
  const USER_LIMIT: nat := 5
  const GLOBAL_LIMIT: nat := 60

  datatype Window = Window(count: nat, resetAt: nat) {
    static function Fresh(now: nat): Window { Window(0, now + WINDOW_SECS) }

    predicate Active(now: nat) { resetAt > now }

    predicate Blocked(now: nat, limit: nat) { Active(now) && count >= limit }

    function RetryAfter(now: nat): nat {
      if resetAt > now + 1 then resetAt - now else 1
    }
  }

  /** One more failure in a window, opening a fresh one if there is none or it has run out. */
  function Bump(w: Option<Window>, now: nat): Window {
    var open := if w.Some? && w.value.Active(now) then w.value else Window.Fresh(now);
    open.(count := if open.count == U32_MAX then U32_MAX else open.count + 1)
  }

  // ----- Usernames -----

  /** The Unicode White_Space characters, which `str::trim` removes. */
  predicate IsSpace(c: char) {
    var n := c as int;
    || 0x9 <= n <= 0xD || n == 0x20 || n == 0x85 || n == 0xA0 || n == 0x1680
    || 0x2000 <= n <= 0x200A || n == 0x2028 || n == 0x2029 || n == 0x202F || n == 0x205F || n == 0x3000
  }

  function Normalize(username: string): string { Lower(Trim(username, IsSpace)) }

  /** Surrounding white space and ASCII case do not make a different user. */
  lemma NormalizeIsIdempotent(username: string)
    ensures Normalize(Normalize(username)) == Normalize(username)
  {
    var trimmed := Trim(username, IsSpace);
    var n := Lower(trimmed);
    assert trimmed != [] ==> trimmed[0] == TrimStart(username, IsSpace)[0];
    assert TrimStart(n, IsSpace) == n;
    assert TrimEnd(n, IsSpace) == n;
    assert Lower(n) == n;
  }

  /** Every username is a core that does not begin or end with white space, and white space around it. The
      core in lower case is the user: spellings that differ in the rest are one user, and others are not. */
  lemma NormalizeIsTheCore(before: string, core: string, after: string)
    requires All(before, IsSpace) && All(after, IsSpace)
    requires core != [] ==> !IsSpace(core[0]) && !IsSpace(core[|core| - 1])
    ensures Normalize(before + core + after) == Lower(core)
  {
    TrimIsTheCore(before, core, after, IsSpace);
  }

  // ----- The limiter -----

  datatype State = State(users: map<string, Window>, global: Option<Window>)

  datatype Verdict = Allowed | RetryAfter(secs: nat)

  function Lookup(users: map<string, Window>, key: string): Option<Window> {
    if key in users then Some(users[key]) else None
  }

  function Checked(s: State, username: string, now: nat): Verdict {
    var user := Lookup(s.users, Normalize(username));
    if s.global.Some? && s.global.value.Blocked(now, GLOBAL_LIMIT) then RetryAfter(s.global.value.RetryAfter(now))
    else if user.Some? && user.value.Blocked(now, USER_LIMIT) then RetryAfter(user.value.RetryAfter(now))
    else Allowed
  }

  function Failed(s: State, username: string, now: nat): State {
    var key := Normalize(username);
    State(s.users[key := Bump(Lookup(s.users, key), now)], Some(Bump(s.global, now)))
  }

  function Succeeded(s: State, username: string): State {
    s.(users := s.users - {Normalize(username)})
  }

  class Limiter {
    var users: map<string, Window>
    var global: Option<Window>

    function View(): State
      reads this
    {
      State(users, global)
    }

    constructor ()
      ensures View() == START
    {
      users, global := map[], None;
    }

    method Check(username: string, now: nat) returns (verdict: Verdict)
      ensures verdict == Checked(View(), username, now)
    {
      if global.Some? && global.value.Blocked(now, GLOBAL_LIMIT) {
        return RetryAfter(global.value.RetryAfter(now));
      }
      var key := Normalize(username);
      if key in users && users[key].Blocked(now, USER_LIMIT) {
        return RetryAfter(users[key].RetryAfter(now));
      }
      return Allowed;
    }

    method RecordFailure(username: string, now: nat)
      modifies this
      ensures View() == Failed(old(View()), username, now)
    {
      BumpUser(Normalize(username), now);
      BumpGlobal(now);
    }

    method BumpUser(key: string, now: nat)
      modifies this`users
      ensures users == old(users)[key := Bump(Lookup(old(users), key), now)]
    {
      if key !in users || !users[key].Active(now) {
        users := users[key := Window.Fresh(now)];
      }
      var w := users[key];
      users := users[key := w.(count := if w.count == U32_MAX then U32_MAX else w.count + 1)];
    }

    method BumpGlobal(now: nat)
      modifies this`global
      ensures global == Some(Bump(old(global), now))
    {
      if global.None? || !global.value.Active(now) {
        global := Some(Window.Fresh(now));
      }
      var g := global.value;
      global := Some(g.(count := if g.count == U32_MAX then U32_MAX else g.count + 1));
    }

    method RecordSuccess(username: string)
      modifies this
      ensures View() == Succeeded(old(View()), username)
    {
      users := users - {Normalize(username)};
    }
  }

  const START := State(map[], None)

  /** A success lets its user in again at once, unless the whole process is blocked, and helps nobody else. */
  lemma SuccessForgives(s: State, username: string, other: string, now: nat)
    ensures var t := Succeeded(s, username);
            && (Normalize(other) == Normalize(username) ==>
                  Checked(t, other, now) == if s.global.Some? && s.global.value.Blocked(now, GLOBAL_LIMIT)
                                            then RetryAfter(s.global.value.RetryAfter(now)) else Allowed)
            && (Normalize(other) != Normalize(username) ==> Checked(t, other, now) == Checked(s, other, now))
  {
  }

  // ----- Runs -----

  /** With logins one at a time, a failing one is checked and then recorded before the next; a refused
      one is not recorded. */
  datatype Event = Fail(username: string, now: nat) | Success(username: string)

  predicate Records(s: State, ev: Event) { ev.Fail? && Checked(s, ev.username, ev.now).Allowed? }

  function Apply(s: State, ev: Event): State {
    match ev
    case Success(username) => Succeeded(s, username)
    case Fail(username, now) => if Records(s, ev) then Failed(s, username, now) else s
  }

  function After(s: State, run: seq<Event>): State
    decreases |run|
  {
    if run == [] then s else After(Apply(s, run[0]), run[1..])
  }

  predicate Timed(run: seq<Event>, from: nat)
    decreases |run|
  {
    run != [] ==> (run[0].Fail? ==> from <= run[0].now)
                  && Timed(run[1..], if run[0].Fail? then run[0].now else from)
  }

  function Clock(run: seq<Event>, from: nat): nat {
    if run == [] then from else Clock(run[1..], if run[0].Fail? then run[0].now else from)
  }

  /** Failures recorded at times from `from` on and before `end`, of one user or of all. */
  function Recorded(s: State, run: seq<Event>, from: nat, end: nat, who: Option<string>): nat
    decreases |run|
  {
    if run == [] then 0
    else
      (if Records(s, run[0]) && from <= run[0].now < end && (who.Some? ==> Normalize(run[0].username) == who.value)
       then 1 else 0)
      + Recorded(Apply(s, run[0]), run[1..], from, end, who)
  }

  /** No login of this user succeeds. */
  predicate NoSuccess(run: seq<Event>, key: string) {
    forall i :: 0 <= i < |run| && run[i].Success? ==> Normalize(run[i].username) != key
  }

  // ----- One anchored window against a sliding minute -----

  /** How many failures a window can still record from `t` on and before `end`: what is left of the
      window that is open at `t`, and all of one that opens early enough after it. */
  function Left(w: Option<Window>, t: nat, end: nat, limit: nat): int {
    if w.None? || !w.value.Active(t) then limit + (if t + WINDOW_SECS < end then limit else 0)
    else limit - w.value.count + (if w.value.resetAt < end then limit else 0)
  }

  /** Every recorded failure takes one from what is left, for spans of up to 61 seconds. */
  lemma BumpUsesRoom(w: Option<Window>, t: nat, end: nat, limit: nat, now: nat)
    requires (w.Some? ==> w.value.count <= limit && !w.value.Blocked(now, limit)) && 0 < limit < U32_MAX
    requires t <= now < end <= t + WINDOW_SECS + 1
    ensures Bump(w, now).count <= limit && Left(Some(Bump(w, now)), t, end, limit) + 1 <= Left(w, t, end, limit)
  {
  }

  lemma {:induction false} NothingAfter(s: State, run: seq<Event>, from: nat, end: nat, who: Option<string>, clock: nat)
    requires Timed(run, clock) && end <= clock
    ensures Recorded(s, run, from, end, who) == 0
    decreases |run|
  {
    if run != [] {
      NothingAfter(Apply(s, run[0]), run[1..], from, end, who, if run[0].Fail? then run[0].now else clock);
    }
  }

  lemma {:induction false} TimedEarlier(run: seq<Event>, earlier: nat, from: nat)
    requires Timed(run, from) && earlier <= from
    ensures Timed(run, earlier)
    decreases |run|
  {
    if run != [] && run[0].Success? { TimedEarlier(run[1..], earlier, from); }
  }

  /** Without a success, a user is recorded no more often than the user's window has room for. */
  lemma {:induction false} UserRoom(s: State, run: seq<Event>, key: string, from: nat, t: nat, end: nat)
    requires (key in s.users ==> s.users[key].count <= USER_LIMIT) && end <= t + WINDOW_SECS + 1
    requires Timed(run, t) && NoSuccess(run, key)
    ensures Recorded(s, run, from, end, Some(key)) <= Left(Lookup(s.users, key), t, end, USER_LIMIT)
    decreases |run|
  {
    if run != [] {
      var ev := run[0];
      if ev.Fail? && end <= ev.now {
        NothingAfter(s, run, from, end, Some(key), ev.now);
      } else {
        TimedEarlier(run[1..], t, if ev.Fail? then ev.now else t);
        if Records(s, ev) && Normalize(ev.username) == key {
          BumpUsesRoom(Lookup(s.users, key), t, end, USER_LIMIT, ev.now);
        } else {
          assert ev.Success? ==> Normalize(ev.username) != key;
          assert Lookup(Apply(s, ev).users, key) == Lookup(s.users, key);
        }
        UserRoom(Apply(s, ev), run[1..], key, from, t, end);
      }
    }
  }

  /** All users together are recorded no more often than the global window has room for. */
  lemma {:induction false} GlobalRoom(s: State, run: seq<Event>, from: nat, t: nat, end: nat)
    requires (s.global.Some? ==> s.global.value.count <= GLOBAL_LIMIT) && end <= t + WINDOW_SECS + 1
    requires Timed(run, t)
    ensures Recorded(s, run, from, end, None) <= Left(s.global, t, end, GLOBAL_LIMIT)
    decreases |run|
  {
    if run != [] {
      var ev := run[0];
      if ev.Fail? && end <= ev.now {
        NothingAfter(s, run, from, end, None, ev.now);
      } else {
        TimedEarlier(run[1..], t, if ev.Fail? then ev.now else t);
        if Records(s, ev) { BumpUsesRoom(s.global, t, end, GLOBAL_LIMIT, ev.now); }
        GlobalRoom(Apply(s, ev), run[1..], from, t, end);
      }
    }
  }

  // ----- Reachable states -----

  predicate IsSound(w: Window, limit: nat, clock: nat) {
    1 <= w.count <= limit && WINDOW_SECS <= w.resetAt <= clock + WINDOW_SECS
  }

  ghost predicate Sound(s: State, clock: nat) {
    && (forall key :: key in s.users ==> IsSound(s.users[key], USER_LIMIT, clock))
    && (s.global.Some? ==> IsSound(s.global.value, GLOBAL_LIMIT, clock))
  }

  lemma {:induction false} ReachedSound(s: State, run: seq<Event>, clock: nat)
    requires Sound(s, clock) && Timed(run, clock)
    ensures Sound(After(s, run), Clock(run, clock))
    decreases |run|
  {
    if run != [] {
      var next := if run[0].Fail? then run[0].now else clock;
      assert Sound(Apply(s, run[0]), next);
      ReachedSound(Apply(s, run[0]), run[1..], next);
    }
  }

  /** The most a span of 60 or 61 seconds can hold under a limit: a window open before it has recorded
      at least one failure already. */
  function Most(t: nat, end: nat, limit: nat): int { if end <= t + WINDOW_SECS then 2 * limit - 1 else 2 * limit }

  lemma {:induction false} UserMost(s: State, run: seq<Event>, key: string, t: nat, end: nat, clock: nat)
    requires Sound(s, clock) && end <= t + WINDOW_SECS + 1
    requires Timed(run, clock) && NoSuccess(run, key)
    ensures Recorded(s, run, t, end, Some(key)) <= Most(t, end, USER_LIMIT)
    decreases |run|
  {
    if clock >= t {
      UserRoom(s, run, key, t, clock, end);
    } else if run != [] && run[0].Fail? && run[0].now >= t {
      UserRoom(s, run, key, t, t, end);
    } else if run != [] {
      var next := if run[0].Fail? then run[0].now else clock;
      ReachedSoundStep(s, run[0], clock);
      UserMost(Apply(s, run[0]), run[1..], key, t, end, next);
    }
  }

  lemma {:induction false} GlobalMost(s: State, run: seq<Event>, t: nat, end: nat, clock: nat)
    requires Sound(s, clock) && end <= t + WINDOW_SECS + 1
    requires Timed(run, clock)
    ensures Recorded(s, run, t, end, None) <= Most(t, end, GLOBAL_LIMIT)
    decreases |run|
  {
    if clock >= t {
      GlobalRoom(s, run, t, clock, end);
    } else if run != [] && run[0].Fail? && run[0].now >= t {
      GlobalRoom(s, run, t, t, end);
    } else if run != [] {
      var next := if run[0].Fail? then run[0].now else clock;
      ReachedSoundStep(s, run[0], clock);
      GlobalMost(Apply(s, run[0]), run[1..], t, end, next);
    }
  }

  lemma ReachedSoundStep(s: State, ev: Event, clock: nat)
    requires Sound(s, clock) && (ev.Fail? ==> clock <= ev.now)
    ensures Sound(Apply(s, ev), if ev.Fail? then ev.now else clock)
  {
  }

  /** In every run, no minute `[t, t + 60)` holds more than 119 recorded failures in the whole process,
      and no closed one more than 120. */
  lemma GlobalBound(run: seq<Event>, t: nat, origin: nat)
    requires Timed(run, origin)
    ensures Recorded(START, run, t, t + WINDOW_SECS, None) <= 2 * GLOBAL_LIMIT - 1
    ensures Recorded(START, run, t, t + WINDOW_SECS + 1, None) <= 2 * GLOBAL_LIMIT
  {
    GlobalMost(START, run, t, t + WINDOW_SECS, origin);
    GlobalMost(START, run, t, t + WINDOW_SECS + 1, origin);
  }

  /** After any history, while no login of a user succeeds, no minute `[t, t + 60)` holds more than 9
      recorded failures of that user, and no closed one more than 10, however the name is spelled. */
  lemma UserBound(history: seq<Event>, run: seq<Event>, username: string, t: nat, origin: nat)
    requires Timed(history, origin) && Timed(run, Clock(history, origin)) && NoSuccess(run, Normalize(username))
    ensures var s, key := After(START, history), Some(Normalize(username));
            && Recorded(s, run, t, t + WINDOW_SECS, key) <= 2 * USER_LIMIT - 1
            && Recorded(s, run, t, t + WINDOW_SECS + 1, key) <= 2 * USER_LIMIT
  {
    var s, key, clock := After(START, history), Normalize(username), Clock(history, origin);
    ReachedSound(START, history, origin);
    UserMost(s, run, key, t, t + WINDOW_SECS, clock);
    UserMost(s, run, key, t, t + WINDOW_SECS + 1, clock);
  }

  // ----- Runs that reach the bounds -----

  /** What a window counts at `now`, and when the window that a failure at `now` falls into ends. */
  function CountAt(w: Option<Window>, now: nat): nat { if w.Some? && w.value.Active(now) then w.value.count else 0 }

  function EndAt(w: Option<Window>, now: nat): nat {
    if w.Some? && w.value.Active(now) then w.value.resetAt else now + WINDOW_SECS
  }

  lemma BumpAt(w: Option<Window>, now: nat)
    requires CountAt(w, now) < U32_MAX
    ensures CountAt(Some(Bump(w, now)), now) == CountAt(w, now) + 1 && EndAt(Some(Bump(w, now)), now) == EndAt(w, now)
  {
  }

  /** All events are failures at `now`. */
  predicate AllAt(run: seq<Event>, now: nat) { forall i :: 0 <= i < |run| ==> run[i].Fail? && run[i].now == now }

  lemma {:induction false} AllAtTimed(run: seq<Event>, now: nat, rest: seq<Event>, from: nat)
    requires AllAt(run, now) && from <= now && Timed(rest, now)
    ensures Timed(run + rest, from)
    decreases |run|
  {
    if run == [] {
      assert run + rest == rest;
      TimedEarlier(rest, from, now);
    } else {
      assert (run + rest)[1..] == run[1..] + rest;
      AllAtTimed(run[1..], now, rest, now);
    }
  }

  lemma {:induction false} RecordedConcat(s: State, first: seq<Event>, second: seq<Event>, from: nat, end: nat,
                                          who: Option<string>)
    ensures Recorded(s, first + second, from, end, who)
            == Recorded(s, first, from, end, who) + Recorded(After(s, first), second, from, end, who)
    decreases |first|
  {
    if first == [] {
      assert first + second == second;
    } else {
      assert (first + second)[1..] == first[1..] + second;
      RecordedConcat(Apply(s, first[0]), first[1..], second, from, end, who);
    }
  }

  /** `n` failures of one user at one instant. */
  function Burst(username: string, now: nat, n: nat): seq<Event> {
    if n == 0 then [] else [Fail(username, now)] + Burst(username, now, n - 1)
  }

  /** A failure while both windows have room is recorded. */
  lemma FailureCounts(s: State, username: string, now: nat)
    requires CountAt(Lookup(s.users, Normalize(username)), now) < USER_LIMIT && CountAt(s.global, now) < GLOBAL_LIMIT
    ensures Records(s, Fail(username, now))
    ensures var key, s' := Normalize(username), Apply(s, Fail(username, now));
            && CountAt(Lookup(s'.users, key), now) == CountAt(Lookup(s.users, key), now) + 1
            && EndAt(Lookup(s'.users, key), now) == EndAt(Lookup(s.users, key), now)
            && CountAt(s'.global, now) == CountAt(s.global, now) + 1 && EndAt(s'.global, now) == EndAt(s.global, now)
  {
    BumpAt(Lookup(s.users, Normalize(username)), now);
    BumpAt(s.global, now);
  }

  lemma {:induction false} BurstCounts(s: State, username: string, now: nat, n: nat)
    requires CountAt(Lookup(s.users, Normalize(username)), now) + n <= USER_LIMIT
    requires CountAt(s.global, now) + n <= GLOBAL_LIMIT
    ensures AllAt(Burst(username, now, n), now)
    ensures var key, s' := Normalize(username), After(s, Burst(username, now, n));
            && CountAt(Lookup(s'.users, key), now) == CountAt(Lookup(s.users, key), now) + n
            && EndAt(Lookup(s'.users, key), now) == EndAt(Lookup(s.users, key), now)
            && CountAt(s'.global, now) == CountAt(s.global, now) + n && EndAt(s'.global, now) == EndAt(s.global, now)
    decreases n
  {
    if n > 0 {
      FailureCounts(s, username, now);
      BurstCounts(Apply(s, Fail(username, now)), username, now, n - 1);
      assert Burst(username, now, n)[1..] == Burst(username, now, n - 1);
    }
  }

  /** All of the burst is recorded. */
  lemma {:induction false} BurstRecorded(s: State, username: string, now: nat, n: nat, from: nat, end: nat)
    requires CountAt(Lookup(s.users, Normalize(username)), now) + n <= USER_LIMIT
    requires CountAt(s.global, now) + n <= GLOBAL_LIMIT && from <= now < end
    ensures Recorded(s, Burst(username, now, n), from, end, Some(Normalize(username))) == n
    decreases n
  {
    if n > 0 {
      FailureCounts(s, username, now);
      BurstRecorded(Apply(s, Fail(username, now)), username, now, n - 1, from, end);
      assert Burst(username, now, n)[1..] == Burst(username, now, n - 1);
    }
  }

  /** What happens later does not make a window count more. */
  lemma CountFades(w: Option<Window>, now: nat, later: nat)
    requires now <= later
    ensures CountAt(w, later) <= CountAt(w, now)
    ensures CountAt(w, now) > 0 && EndAt(w, now) <= later ==> CountAt(w, later) == 0
  {
  }

  /** Two bursts, the second once the user's window of the first is over, are recorded in full if the
      global window has room for them. */
  lemma TwoBursts(s: State, username: string, t1: nat, n1: nat, t2: nat, n2: nat, from: nat, end: nat)
    returns (run: seq<Event>)
    requires from <= t1 <= t2 < end && n2 <= USER_LIMIT
    requires var w := Lookup(s.users, Normalize(username));
             CountAt(w, t1) + n1 <= USER_LIMIT && (CountAt(w, t1) + n1 > 0 ==> EndAt(w, t1) <= t2)
    requires CountAt(s.global, t1) + n1 <= GLOBAL_LIMIT
    requires CountAt(s.global, t1) + n1 + n2 <= GLOBAL_LIMIT || EndAt(s.global, t1) <= t2
    ensures Timed(run, from) && NoSuccess(run, Normalize(username))
    ensures Recorded(s, run, from, end, Some(Normalize(username))) == n1 + n2
  {
    var key, first, second := Normalize(username), Burst(username, t1, n1), Burst(username, t2, n2);
    BurstCounts(s, username, t1, n1);
    BurstRecorded(s, username, t1, n1, from, end);
    var mid := After(s, first);
    CountFades(Lookup(mid.users, key), t1, t2);
    CountFades(mid.global, t1, t2);
    BurstCounts(mid, username, t2, n2);
    BurstRecorded(mid, username, t2, n2, from, end);
    run := first + second;
    RecordedConcat(s, first, second, from, end, Some(key));
    AllAtTimed(second, t2, [], t2);
    assert second + [] == second;
    AllAtTimed(first, t1, second, from);
  }

  // ----- When a user can be recorded more than five times -----

  /** After any history, the room of the user's window at `t` bounds what the minute `[t, t + 60)` can
      record of that user without a success, and is reached if the global window leaves room for it. */
  lemma UserRoomIsExact(history: seq<Event>, username: string, t: nat, origin: nat)
    requires Timed(history, origin) && Clock(history, origin) <= t
    ensures var s, key, end := After(START, history), Normalize(username), t + WINDOW_SECS;
            var room := Left(Lookup(s.users, key), t, end, USER_LIMIT);
            && (forall run :: Timed(run, t) && NoSuccess(run, key) ==> Recorded(s, run, t, end, Some(key)) <= room)
            && (CountAt(s.global, t) + room <= GLOBAL_LIMIT ==>
                  exists run :: Timed(run, t) && NoSuccess(run, key) && Recorded(s, run, t, end, Some(key)) == room)
  {
    var s, key, end := After(START, history), Normalize(username), t + WINDOW_SECS;
    ReachedSound(START, history, origin);
    var room := Left(Lookup(s.users, key), t, end, USER_LIMIT);
    forall run | Timed(run, t) && NoSuccess(run, key) ensures Recorded(s, run, t, end, Some(key)) <= room {
      UserRoom(s, run, key, t, t, end);
    }
    if CountAt(s.global, t) + room <= GLOBAL_LIMIT { UserRoomIsReached(s, username, t); }
  }

  lemma UserRoomIsReached(s: State, username: string, t: nat)
    requires Sound(s, t)
    requires CountAt(s.global, t) + Left(Lookup(s.users, Normalize(username)), t, t + WINDOW_SECS, USER_LIMIT)
             <= GLOBAL_LIMIT
    ensures var key := Normalize(username);
            exists run :: Timed(run, t) && NoSuccess(run, key)
                          && Recorded(s, run, t, t + WINDOW_SECS, Some(key))
                             == Left(Lookup(s.users, key), t, t + WINDOW_SECS, USER_LIMIT)
  {
    var w := Lookup(s.users, Normalize(username));
    var n1 := USER_LIMIT - CountAt(w, t);
    var again := w.Some? && w.value.Active(t) && w.value.resetAt < t + WINDOW_SECS;
    var t2, n2 := if again then w.value.resetAt else t, if again then USER_LIMIT else 0;
    var end := t + WINDOW_SECS;
    if again {
      var run := TwoBursts(s, username, t, n1, t2, n2, t, end);
    } else {
      var run := OneBurst(s, username, t, n1, t, end);
    }
  }

  lemma OneBurst(s: State, username: string, t1: nat, n1: nat, from: nat, end: nat) returns (run: seq<Event>)
    requires from <= t1 < end
    requires CountAt(Lookup(s.users, Normalize(username)), t1) + n1 <= USER_LIMIT
    requires CountAt(s.global, t1) + n1 <= GLOBAL_LIMIT
    ensures Timed(run, from) && NoSuccess(run, Normalize(username))
    ensures Recorded(s, run, from, end, Some(Normalize(username))) == n1
  {
    run := Burst(username, t1, n1);
    BurstCounts(s, username, t1, n1);
    BurstRecorded(s, username, t1, n1, from, end);
    AllAtTimed(run, t1, [], from);
    assert run + [] == run;
  }

  /** The global window lets the user's window be used up in part before it ends at `r` and a new one
      be filled after it, both in the minute from `t`. */
  predicate GlobalAdmitsSix(g: Option<Window>, r: nat, t: nat) {
    || g.None? || !g.value.Active(t)
    || g.value.resetAt < r
    || (g.value.count < GLOBAL_LIMIT && g.value.resetAt < t + WINDOW_SECS)
    || g.value.count + USER_LIMIT + 1 <= GLOBAL_LIMIT
  }

  /** The user's window is open, was opened before `t`, and is not full; and the global window admits
      one failure before it ends and five after. */
  predicate CanExceed(s: State, key: string, t: nat) {
    && key in s.users && s.users[key].Active(t) && s.users[key].resetAt < t + WINDOW_SECS
    && s.users[key].count < USER_LIMIT && GlobalAdmitsSix(s.global, s.users[key].resetAt, t)
  }

  lemma ExceedsIfItCan(s: State, username: string, t: nat) returns (run: seq<Event>)
    requires CanExceed(s, Normalize(username), t)
    ensures Timed(run, t) && NoSuccess(run, Normalize(username))
    ensures Recorded(s, run, t, t + WINDOW_SECS, Some(Normalize(username))) > USER_LIMIT
  {
    var r, g := s.users[Normalize(username)].resetAt, s.global;
    var full := g.Some? && g.value.Active(t);
    var t1 := if full && g.value.resetAt < r then g.value.resetAt else t;
    var waits := full && r < g.value.resetAt < t + WINDOW_SECS && g.value.count < GLOBAL_LIMIT;
    var t2 := if waits then g.value.resetAt else r;
    run := TwoBursts(s, username, t1, 1, t2, USER_LIMIT, t, t + WINDOW_SECS);
  }

  /** While the global window is full nothing is recorded; if the user's window ends no later, the
      user starts over with a fresh one. */
  lemma {:induction false} FullGlobalHolds(s: State, run: seq<Event>, key: string, from: nat, t: nat, end: nat)
    requires key in s.users && s.users[key].count <= USER_LIMIT
    requires s.global.Some? && s.global.value.count >= GLOBAL_LIMIT && s.users[key].resetAt <= s.global.value.resetAt
    requires Timed(run, t) && NoSuccess(run, key) && end <= t + WINDOW_SECS
    ensures Recorded(s, run, from, end, Some(key)) <= USER_LIMIT
    decreases |run|
  {
    if run != [] {
      var ev := run[0];
      if ev.Fail? && s.global.value.resetAt <= ev.now {
        UserRoom(s, run, key, from, ev.now, end);
      } else {
        assert ev.Success? ==> Normalize(ev.username) != key;
        FullGlobalHolds(Apply(s, ev), run[1..], key, from, if ev.Fail? then ev.now else t, end);
      }
    }
  }

  lemma {:induction false} UserIsPartOfAll(s: State, run: seq<Event>, key: string, from: nat, end: nat)
    ensures Recorded(s, run, from, end, Some(key)) <= Recorded(s, run, from, end, None)
    decreases |run|
  {
    if run != [] { UserIsPartOfAll(Apply(s, run[0]), run[1..], key, from, end); }
  }

  lemma CannotOtherwise(s: State, run: seq<Event>, key: string, t: nat)
    requires Sound(s, t) && Timed(run, t) && NoSuccess(run, key) && !CanExceed(s, key, t)
    ensures Recorded(s, run, t, t + WINDOW_SECS, Some(key)) <= USER_LIMIT
  {
    var end := t + WINDOW_SECS;
    UserRoom(s, run, key, t, t, end);
    if Left(Lookup(s.users, key), t, end, USER_LIMIT) > USER_LIMIT {
      if s.global.value.count >= GLOBAL_LIMIT {
        FullGlobalHolds(s, run, key, t, t, end);
      } else {
        GlobalRoom(s, run, t, t, end);
        UserIsPartOfAll(s, run, key, t, end);
      }
    }
  }

  /** After any history, more than five failures of a user can be recorded in the minute `[t, t + 60)`
      without a success if and only if at `t` the user's window is open, was opened before `t`, holds
      fewer than five, and the global window admits six in time. In every other state the documented
      limit holds. */
  lemma UserExceedsIff(history: seq<Event>, username: string, t: nat, origin: nat)
    requires Timed(history, origin) && Clock(history, origin) <= t
    ensures var s, key := After(START, history), Normalize(username);
            (exists run :: Timed(run, t) && NoSuccess(run, key)
                           && Recorded(s, run, t, t + WINDOW_SECS, Some(key)) > USER_LIMIT)
            <==> CanExceed(s, key, t)
  {
    var s, key := After(START, history), Normalize(username);
    ReachedSound(START, history, origin);
    if CanExceed(s, key, t) {
      var run := ExceedsIfItCan(s, username, t);
    } else {
      forall run | Timed(run, t) && NoSuccess(run, key)
        ensures Recorded(s, run, t, t + WINDOW_SECS, Some(key)) <= USER_LIMIT
      {
        CannotOtherwise(s, run, key, t);
      }
    }
  }

  /** The windows do not slide: five failures at the start of a window and five the moment it ends
      are all recorded, so one user can reach 10 within 60 seconds although the limit is 5; and 9 lie in
      one half-open minute. */
  lemma UserBoundIsReached(username: string, t: nat)
    ensures var key := Normalize(username);
            exists run :: Timed(run, t) && NoSuccess(run, key)
                          && Recorded(START, run, t, t + WINDOW_SECS + 1, Some(key)) == 2 * USER_LIMIT
    ensures var key := Normalize(username);
            exists run :: Timed(run, t) && NoSuccess(run, key)
                          && Recorded(START, run, t + 1, t + 1 + WINDOW_SECS, Some(key)) == 2 * USER_LIMIT - 1
  {
    TenAreReached(username, t);
    NineAreReached(username, t);
  }

  lemma TenAreReached(username: string, t: nat)
    ensures var key := Normalize(username);
            exists run :: Timed(run, t) && NoSuccess(run, key)
                          && Recorded(START, run, t, t + WINDOW_SECS + 1, Some(key)) == 2 * USER_LIMIT
  {
    var later := t + WINDOW_SECS;
    var run := TwoBursts(START, username, t, USER_LIMIT, later, USER_LIMIT, t, later + 1);
  }

  lemma NineAreReached(username: string, t: nat)
    ensures var key := Normalize(username);
            exists run :: Timed(run, t) && NoSuccess(run, key)
                          && Recorded(START, run, t + 1, t + 1 + WINDOW_SECS, Some(key)) == 2 * USER_LIMIT - 1
  {
    var first, later := Fail(username, t), t + WINDOW_SECS;
    FailureCounts(START, username, t);
    var rest := TwoBursts(Apply(START, first), username, t + 1, USER_LIMIT - 1, later, USER_LIMIT, t + 1, later + 1);
    OneBefore(START, first, rest, t + 1, later + 1, Some(Normalize(username)));
    assert NoSuccess([first] + rest, Normalize(username));
  }

  /** A failure just before a span of time is not counted in it. */
  lemma OneBefore(s: State, first: Event, rest: seq<Event>, from: nat, end: nat, who: Option<string>)
    requires first.Fail? && first.now < from && Timed(rest, from)
    ensures Timed([first] + rest, first.now)
    ensures Recorded(s, [first] + rest, from, end, who) == Recorded(Apply(s, first), rest, from, end, who)
  {
    assert ([first] + rest)[1..] == rest;
    TimedEarlier(rest, first.now, from);
  }

  // ----- When the process can record more than sixty failures -----

  /** Usernames that differ by their length. */
  function Name(length: nat): string { seq(length, _ => 'u') }

  lemma NameIsNormal(length: nat)
    ensures Normalize(Name(length)) == Name(length)
  {
    var name := Name(length);
    assert TrimStart(name, IsSpace) == name;
    assert TrimEnd(name, IsSpace) == name;
    assert Lower(name) == name;
  }

  ghost predicate KeysShorterThan(users: map<string, Window>,
                                  length: nat) { forall key :: key in users ==> |key| < length }

  lemma {:induction false} SomeLengthIsFree(users: map<string, Window>) returns (length: nat)
    ensures KeysShorterThan(users, length)
    decreases |users|
  {
    if key :| key in users {
      var fewer := users - {key};
      var shorter := SomeLengthIsFree(fewer);
      length := if |key| < shorter then shorter else |key| + 1;
      assert forall k :: k in users ==> k == key || k in fewer;
    } else {
      length := 0;
    }
  }

  /** Some user has no window, so the failure of that user is recorded if the global window has room. */
  lemma Stranger(s: State, now: nat) returns (ev: Event)
    requires CountAt(s.global, now) < GLOBAL_LIMIT
    ensures ev.Fail? && ev.now == now && Records(s, ev)
    ensures var s' := Apply(s, ev);
            CountAt(s'.global, now) == CountAt(s.global, now) + 1 && EndAt(s'.global, now) == EndAt(s.global, now)
  {
    var length := SomeLengthIsFree(s.users);
    ev := Fail(Name(length), now);
    NameIsNormal(length);
    FailureCounts(s, Name(length), now);
  }

  lemma Cons(s: State, ev: Event, rest: seq<Event>, from: nat, end: nat)
    requires Records(s, ev) && from <= ev.now < end
    ensures After(s, [ev] + rest) == After(Apply(s, ev), rest)
    ensures Recorded(s, [ev] + rest, from, end, None) == 1 + Recorded(Apply(s, ev), rest, from, end, None)
  {
    assert ([ev] + rest)[1..] == rest;
  }

  /** `n` failures at one instant, each of a user without a window, are all recorded while the global
      window has room. */
  lemma {:induction false} Spread(s: State, now: nat, n: nat, from: nat, end: nat) returns (run: seq<Event>)
    requires CountAt(s.global, now) + n <= GLOBAL_LIMIT && from <= now < end
    ensures AllAt(run, now) && Recorded(s, run, from, end, None) == n
    ensures var s' := After(s, run);
            CountAt(s'.global, now) == CountAt(s.global, now) + n && EndAt(s'.global, now) == EndAt(s.global, now)
    decreases n
  {
    run := [];
    if n > 0 {
      var ev := Stranger(s, now);
      var rest := Spread(Apply(s, ev), now, n - 1, from, end);
      Cons(s, ev, rest, from, end);
      run := [ev] + rest;
    }
  }

  lemma OneSpread(s: State, t1: nat, n1: nat, from: nat, end: nat) returns (run: seq<Event>)
    requires from <= t1 < end && CountAt(s.global, t1) + n1 <= GLOBAL_LIMIT
    ensures Timed(run, from) && Recorded(s, run, from, end, None) == n1
  {
    run := Spread(s, t1, n1, from, end);
    AllAtTimed(run, t1, [], from);
    assert run + [] == run;
  }

  lemma TwoSpreads(s: State, t1: nat, n1: nat, t2: nat, n2: nat, from: nat, end: nat) returns (run: seq<Event>)
    requires from <= t1 <= t2 < end && CountAt(s.global, t1) + n1 <= GLOBAL_LIMIT
    requires n2 <= GLOBAL_LIMIT && CountAt(s.global, t1) + n1 > 0 && EndAt(s.global, t1) <= t2
    ensures Timed(run, from) && Recorded(s, run, from, end, None) == n1 + n2
  {
    var first := Spread(s, t1, n1, from, end);
    var mid := After(s, first);
    CountFades(mid.global, t1, t2);
    var second := OneSpread(mid, t2, n2, t2, end);
    SpanGrows(mid, second, from, t2, end, None);
    run := first + second;
    RecordedConcat(s, first, second, from, end, None);
    TimedEarlier(second, t1, t2);
    AllAtTimed(first, t1, second, from);
  }

  /** Events from `later` on are counted alike from any earlier time. */
  lemma {:induction false} SpanGrows(s: State, run: seq<Event>, from: nat, later: nat, end: nat, who: Option<string>)
    requires from <= later && Timed(run, later)
    ensures Recorded(s, run, from, end, who) == Recorded(s, run, later, end, who)
    decreases |run|
  {
    if run != [] {
      TimedEarlier(run[1..], later, if run[0].Fail? then run[0].now else later);
      SpanGrows(Apply(s, run[0]), run[1..], from, later, end, who);
    }
  }

  /** After any history, the room of the global window at `t` is exactly the most that the minute
      `[t, t + 60)` can record: nothing exceeds it and some run reaches it. So more than sixty can be
      recorded if and only if the global window is open, was opened before `t` and is not full. */
  lemma GlobalExceedsIff(history: seq<Event>, t: nat, origin: nat)
    requires Timed(history, origin) && Clock(history, origin) <= t
    ensures var s, end := After(START, history), t + WINDOW_SECS;
            && (forall run :: Timed(run, t) ==> Recorded(s, run, t, end, None) <= Left(s.global, t, end, GLOBAL_LIMIT))
            && (exists run :: Timed(run, t) && Recorded(s, run, t, end, None) == Left(s.global, t, end, GLOBAL_LIMIT))
    ensures var s, end := After(START, history), t + WINDOW_SECS;
            (exists run :: Timed(run, t) && Recorded(s, run, t, end, None) > GLOBAL_LIMIT)
            <==> s.global.Some? && s.global.value.Active(t)
                 && s.global.value.resetAt < end && s.global.value.count < GLOBAL_LIMIT
  {
    var s, end := After(START, history), t + WINDOW_SECS;
    ReachedSound(START, history, origin);
    forall run | Timed(run, t) ensures Recorded(s, run, t, end, None) <= Left(s.global, t, end, GLOBAL_LIMIT) {
      GlobalRoom(s, run, t, t, end);
    }
    var n1 := GLOBAL_LIMIT - CountAt(s.global, t);
    var again := s.global.Some? && s.global.value.Active(t) && s.global.value.resetAt < end;
    if again {
      var run := TwoSpreads(s, t, n1, s.global.value.resetAt, GLOBAL_LIMIT, t, end);
    } else {
      var run := OneSpread(s, t, n1, t, end);
    }
  }

  /** 120 within 60 seconds, and 119 in one half-open minute, are reached. */
  lemma GlobalBoundIsReached(t: nat)
    ensures exists run :: Timed(run, t) && Recorded(START, run, t, t + WINDOW_SECS + 1, None) == 2 * GLOBAL_LIMIT
    ensures exists run :: Timed(run, t)
                          && Recorded(START, run, t + 1, t + 1 + WINDOW_SECS, None) == 2 * GLOBAL_LIMIT - 1
  {
    var later := t + WINDOW_SECS;
    var run := TwoSpreads(START, t, GLOBAL_LIMIT, later, GLOBAL_LIMIT, t, later + 1);
    var first := Fail("", t);
    FailureCounts(START, "", t);
    var rest := TwoSpreads(Apply(START, first), t + 1, GLOBAL_LIMIT - 1, later, GLOBAL_LIMIT, t + 1, later + 1);
    OneBefore(START, first, rest, t + 1, later + 1, None);
  }

  // ----- Retry-After -----

  /** A refusal names a wait of 1 to 60 seconds. The window that refused still refuses one second
      before it is over and is over when it ends. */
  lemma RetryAfterEndsTheWindow(s: State, username: string, now: nat)
    requires Checked(s, username, now).RetryAfter? && Sound(s, now)
    ensures var secs := Checked(s, username, now).secs;
            && 1 <= secs <= WINDOW_SECS
            && Checked(s, username, now + secs - 1).RetryAfter?
            && var refusing := if s.global.Some? && s.global.value.Blocked(now, GLOBAL_LIMIT) then s.global.value
                               else s.users[Normalize(username)];
               !refusing.Active(now + secs)
  {
  }
}
