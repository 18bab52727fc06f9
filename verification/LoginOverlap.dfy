/** The login limiter as the login handler uses it: the check and the record of a failure are separate
    steps with a password verification between them, so logins overlap. What is proved is exact in the
    number of logins that are between the two steps at a time. */
module LoginOverlap {
  import opened Counting
  import opened Options
  import opened Words
  import L = LoginLimiter

  type LoginId = int

  /** The limiter and the logins that passed the check and have not ended yet. */
  datatype Process = Process(limiter: L.State, pending: map<LoginId, string>)

  datatype Event =
    | Begin(id: LoginId, username: string, now: nat)   // the check; a refused login ends here
    | Reject(id: LoginId, now: nat)                    // the password was wrong: the failure is recorded
    | Accept(id: LoginId)                              // the login succeeded
    | Abandon(id: LoginId)                             // the login ended without a verdict

  const IDLE := Process(L.START, map[])

  function Apply(p: Process, ev: Event): Process {
    match ev
    case Begin(id, username, now) =>
      if id in p.pending || !L.Checked(p.limiter, username, now).Allowed? then p
      else p.(pending := p.pending[id := username])
    case Reject(id, now) =>
      if id in p.pending then Process(L.Failed(p.limiter, p.pending[id], now), p.pending - {id}) else p
    case Accept(id) =>
      if id in p.pending then Process(L.Succeeded(p.limiter, p.pending[id]), p.pending - {id}) else p
    case Abandon(id) => p.(pending := p.pending - {id})
  }

  function After(p: Process, run: seq<Event>): Process
    decreases |run|
  {
    if run == [] then p else After(Apply(p, run[0]), run[1..])
  }

  /** The time of an event; those that read no clock keep the last one read. */
  function TimeOf(ev: Event, clock: nat): nat { if ev.Begin? || ev.Reject? then ev.now else clock }

  predicate Timed(run: seq<Event>, from: nat)
    decreases |run|
  {
    run != [] ==> from <= TimeOf(run[0], from) && Timed(run[1..], TimeOf(run[0], from))
  }

  function Clock(run: seq<Event>, from: nat): nat
    decreases |run|
  {
    if run == [] then from else Clock(run[1..], TimeOf(run[0], from))
  }

  // ----- Which logins are in flight -----

  predicate EndsLogin(ev: Event, id: LoginId) { !ev.Begin? && ev.id == id }

  predicate NeverEnds(run: seq<Event>, id: LoginId) { forall i :: 0 <= i < |run| ==> !EndsLogin(run[i], id) }

  /** Event `k` lets the login pass the check, and no later one ends it. */
  predicate BegunForGood(p: Process, run: seq<Event>, id: LoginId, k: int) {
    && 0 <= k < |run| && run[k].Begin? && run[k].id == id && id !in After(p, run[..k]).pending
    && L.Checked(After(p, run[..k]).limiter, run[k].username, run[k].now).Allowed?
    && NeverEnds(run[k..], id)
  }

  lemma BegunCons(p: Process, run: seq<Event>, id: LoginId, k: int)
    requires run != [] && k > 0
    ensures BegunForGood(p, run, id, k) <==> BegunForGood(Apply(p, run[0]), run[1..], id, k - 1)
  {
    if k < |run| {
      assert run[..k][1..] == run[1..][..k - 1] && run[k..] == run[1..][k - 1..];
    }
  }

  lemma NeverEndsCons(run: seq<Event>, id: LoginId)
    requires run != []
    ensures NeverEnds(run, id) <==> !EndsLogin(run[0], id) && NeverEnds(run[1..], id)
  {
    assert run == [run[0]] + run[1..];
  }

  /** A login is in flight if and only if it passed the check and was not rejected, accepted or abandoned
      since: none is forgotten, and none stays in flight after its end. */
  lemma {:induction false} InFlightIff(p: Process, run: seq<Event>, id: LoginId)
    ensures id in After(p, run).pending <==>
            (id in p.pending && NeverEnds(run, id)) || exists k :: BegunForGood(p, run, id, k)
    decreases |run|
  {
    if run != [] {
      var p1 := Apply(p, run[0]);
      InFlightIff(p1, run[1..], id);
      NeverEndsCons(run, id);
      assert run[..0] == [] && run[0..] == run;
      forall k | k > 0 ensures BegunForGood(p, run, id, k) <==> BegunForGood(p1, run[1..], id, k - 1) {
        BegunCons(p, run, id, k);
      }
      if k :| BegunForGood(p1, run[1..], id, k) { assert BegunForGood(p, run, id, k + 1); }
      assert BegunForGood(p, run, id, 0) <==> id !in p.pending && id in p1.pending && NeverEnds(run[1..], id);
      if k :| BegunForGood(p, run, id, k) && k > 0 { assert BegunForGood(p1, run[1..], id, k - 1); }
    }
  }

  /** A login that succeeds lets its user in again at once, unless the whole process is blocked; one that is
      abandoned leaves no trace. */
  lemma EndsForgive(p: Process, id: LoginId, now: nat)
    requires id in p.pending
    ensures var t, global := Apply(p, Accept(id)).limiter, p.limiter.global;
            L.Checked(t, p.pending[id], now).Allowed? <==>
            !(global.Some? && global.value.Blocked(now, L.GLOBAL_LIMIT))
    ensures Apply(p, Abandon(id)).limiter == p.limiter
  {
    L.SuccessForgives(p.limiter, p.pending[id], p.pending[id], now);
  }

  // ----- One user or the whole process -----

  /** Whether a login counts for `who`: one normalized username, or everybody. */
  ghost function Of(who: Option<string>): string -> bool {
    (username: string) => who.Some? ==> L.Normalize(username) == who.value
  }

  function WindowOf(p: Process, who: Option<string>): Option<L.Window> {
    if who.Some? then L.Lookup(p.limiter.users, who.value) else p.limiter.global
  }

  function LimitOf(who: Option<string>): nat { if who.Some? then L.USER_LIMIT else L.GLOBAL_LIMIT }

  /** Logins between check and record. */
  ghost function InFlight(p: Process, who: Option<string>): nat { Count(p.pending, Of(who)) }

  /** The event records a failure of `who`. */
  ghost predicate Hits(p: Process, ev: Event, who: Option<string>) {
    ev.Reject? && ev.id in p.pending && Of(who)(p.pending[ev.id])
  }

  /** The event is a success of the user `who`, which clears the window. */
  predicate Forgets(p: Process, ev: Event, who: Option<string>) {
    ev.Accept? && ev.id in p.pending && who.Some? && L.Normalize(p.pending[ev.id]) == who.value
  }

  /** Before event `k`, at most `m` logins of `who` are in flight; and the event is no success of the
      user. */
  ghost predicate FineAt(p: Process, run: seq<Event>, who: Option<string>, m: nat, k: nat)
    requires k <= |run|
  {
    InFlight(After(p, run[..k]), who) <= m && (k < |run| ==> !Forgets(After(p, run[..k]), run[k], who))
  }

  /** No success of the user, and never more than `m` logins of `who` in flight. */
  ghost predicate Within(p: Process, run: seq<Event>, who: Option<string>, m: nat) {
    forall k :: 0 <= k <= |run| ==> FineAt(p, run, who, m, k)
  }

  lemma WithinTail(p: Process, run: seq<Event>, who: Option<string>, m: nat)
    requires Within(p, run, who, m)
    ensures InFlight(p, who) <= m
    ensures run != [] ==> !Forgets(p, run[0], who) && Within(Apply(p, run[0]), run[1..], who, m)
  {
    assert FineAt(p, run, who, m, 0);
    if run != [] {
      forall k | 0 <= k <= |run[1..]| ensures FineAt(Apply(p, run[0]), run[1..], who, m, k) {
        assert FineAt(p, run, who, m, k + 1);
        assert run[..k + 1][1..] == run[1..][..k];
      }
    }
  }

  /** Failures of `who` recorded at times from `from` on and before `end`. */
  ghost function Recorded(p: Process, run: seq<Event>, from: nat, end: nat, who: Option<string>): nat
    decreases |run|
  {
    if run == [] then 0
    else
      Bit(Hits(p, run[0], who) && from <= run[0].now < end) + Recorded(Apply(p, run[0]), run[1..], from, end, who)
  }

  lemma BeginEffect(p: Process, ev: Event, who: Option<string>)
    requires ev.Begin?
    ensures var p', w, n := Apply(p, ev), WindowOf(p, who), InFlight(p, who);
            && WindowOf(p', who) == w
            && (InFlight(p', who) == n
                || (InFlight(p', who) == n + 1 && (w.Some? ==> !w.value.Blocked(ev.now, LimitOf(who)))))
  {
    CountUpdate(p.pending, Of(who), ev.id, ev.username);
  }

  lemma RejectEffect(p: Process, ev: Event, who: Option<string>)
    requires ev.Reject?
    ensures var p', w, n := Apply(p, ev), WindowOf(p, who), InFlight(p, who);
            if Hits(p, ev, who) then
              n > 0 && WindowOf(p', who) == Some(L.Bump(w, ev.now)) && InFlight(p', who) == n - 1
            else WindowOf(p', who) == w && InFlight(p', who) == n
  {
    if ev.id in p.pending {
      CountRemove(p.pending, Of(who), ev.id);
      if Hits(p, ev, who) { CountPositive(p.pending, Of(who), ev.id); }
    }
  }

  lemma FewerPending(pending: map<LoginId, string>, id: LoginId, who: Option<string>)
    ensures Count(pending - {id}, Of(who)) <= Count(pending, Of(who))
  {
    SubsetSize(Where(pending - {id}, Of(who)), Where(pending, Of(who)));
  }

  lemma AcceptKeepsOthers(s: L.State, username: string, key: string)
    requires L.Normalize(username) != key
    ensures L.Lookup(L.Succeeded(s, username).users, key) == L.Lookup(s.users, key)
  {
  }

  lemma LeaveEffect(p: Process, ev: Event, who: Option<string>)
    requires (ev.Accept? || ev.Abandon?) && !Forgets(p, ev, who)
    ensures WindowOf(Apply(p, ev), who) == WindowOf(p, who) && InFlight(Apply(p, ev), who) <= InFlight(p, who)
  {
    FewerPending(p.pending, ev.id, who);
    if ev.Accept? && ev.id in p.pending && who.Some? {
      AcceptKeepsOthers(p.limiter, p.pending[ev.id], who.value);
    }
  }

  /** What an event does to the window of `who` and to its logins in flight. */
  lemma Effect(p: Process, ev: Event, who: Option<string>)
    requires !Forgets(p, ev, who)
    ensures var p', w, n := Apply(p, ev), WindowOf(p, who), InFlight(p, who);
            if Hits(p, ev, who) then
              n > 0 && WindowOf(p', who) == Some(L.Bump(w, ev.now)) && InFlight(p', who) == n - 1
            else
              && WindowOf(p', who) == w
              && (InFlight(p', who) <= n
                  || (ev.Begin? && InFlight(p', who) == n + 1 && (w.Some? ==> !w.value.Blocked(ev.now, LimitOf(who)))))
  {
    if ev.Begin? {
      BeginEffect(p, ev, who);
    } else if ev.Reject? {
      RejectEffect(p, ev, who);
    } else {
      LeaveEffect(p, ev, who);
    }
  }

  // ----- How much a minute can record -----

  /** What a fresh window can record in all: one short of the limit, and then every login in flight. */
  function Full(limit: nat, m: nat): int { limit - 1 + m }

  /** What the window open at `now` can still record with `n` logins in flight and at most `m` at a time:
      once the limit is reached, only those in flight. */
  function Rest(w: Option<L.Window>, n: nat, now: nat, limit: nat, m: nat): int {
    var count := L.CountAt(w, now);
    if count < limit then limit - 1 - count + m else n
  }

  /** What can be recorded from `now` on and before `end`, at most 61 seconds later. */
  function Room(w: Option<L.Window>, n: nat, now: nat, end: nat, limit: nat, m: nat): int {
    Rest(w, n, now, limit, m) + if L.EndAt(w, now) < end then Full(limit, m) else 0
  }

  lemma TimePasses(w: Option<L.Window>, n: nat, now: nat, later: nat, end: nat, limit: nat, m: nat)
    requires now <= later < end <= now + L.WINDOW_SECS + 1 && limit > 0
    ensures Room(w, n, later, end, limit, m) <= Room(w, n, now, end, limit, m)
  {
  }

  lemma RecordUsesRoom(w: Option<L.Window>, n: nat, now: nat, end: nat, limit: nat, m: nat)
    requires 0 < n <= m && 2 <= limit < U32_MAX
    ensures Room(Some(L.Bump(w, now)), n - 1, now, end, limit, m) + 1 <= Room(w, n, now, end, limit, m)
  {
  }

  /** Logins that leave, and those that begin while the window is not full, add nothing to the room. */
  lemma QuietKeepsRoom(w: Option<L.Window>, n: nat, n': nat, now: nat, end: nat, limit: nat, m: nat)
    requires n' <= n || (w.Some? ==> !w.value.Blocked(now, limit))
    requires limit > 0
    ensures Room(w, n', now, end, limit, m) <= Room(w, n, now, end, limit, m)
  {
  }

  lemma {:induction false} NothingAfter(p: Process, run: seq<Event>, from: nat, end: nat, who: Option<string>,
                                        clock: nat)
    requires Timed(run, clock) && end <= clock
    ensures Recorded(p, run, from, end, who) == 0
    decreases |run|
  {
    if run != [] { NothingAfter(Apply(p, run[0]), run[1..], from, end, who, TimeOf(run[0], clock)); }
  }

  ghost function RoomAt(p: Process, who: Option<string>, now: nat, end: nat, m: nat): int {
    Room(WindowOf(p, who), InFlight(p, who), now, end, LimitOf(who), m)
  }

  /** An event that records takes one from the room, and no other adds to it. */
  lemma EventUsesRoom(p: Process, ev: Event, who: Option<string>, now: nat, end: nat, m: nat)
    requires !Forgets(p, ev, who) && InFlight(p, who) <= m
    ensures var later := TimeOf(ev, now);
            RoomAt(Apply(p, ev), who, later, end, m) + Bit(Hits(p, ev, who)) <= RoomAt(p, who, later, end, m)
  {
    var w, n, later := WindowOf(p, who), InFlight(p, who), TimeOf(ev, now);
    var n' := InFlight(Apply(p, ev), who);
    Effect(p, ev, who);
    if Hits(p, ev, who) {
      RecordUsesRoom(w, n, later, end, LimitOf(who), m);
    } else {
      QuietKeepsRoom(w, n, n', later, end, LimitOf(who), m);
    }
  }

  /** From any state, nobody is recorded more often than there is room for. */
  lemma {:induction false} RoomBounds(p: Process, run: seq<Event>, who: Option<string>, from: nat, now: nat, end: nat,
                                      m: nat)
    requires Within(p, run, who, m) && Timed(run, now) && end <= now + L.WINDOW_SECS + 1
    ensures Recorded(p, run, from, end, who) <= RoomAt(p, who, now, end, m)
    decreases |run|
  {
    WithinTail(p, run, who, m);
    if run != [] {
      var ev, w, n := run[0], WindowOf(p, who), InFlight(p, who);
      var later := TimeOf(ev, now);
      if end <= later {
        NothingAfter(p, run, from, end, who, later);
      } else {
        TimePasses(w, n, now, later, end, LimitOf(who), m);
        EventUsesRoom(p, ev, who, now, end, m);
        RoomBounds(Apply(p, ev), run[1..], who, from, later, end, m);
      }
    }
  }

  /** The window of `who`, if there is one, has recorded something. */
  predicate Started(p: Process, who: Option<string>) { WindowOf(p, who).Some? ==> WindowOf(p, who).value.count >= 1 }

  lemma StepKeepsStarted(p: Process, ev: Event, who: Option<string>)
    requires Started(p, who)
    ensures Started(Apply(p, ev), who)
  {
    if !Forgets(p, ev, who) { Effect(p, ev, who); }
  }

  lemma {:induction false} ReachedStarted(p: Process, run: seq<Event>, who: Option<string>)
    requires Started(p, who)
    ensures Started(After(p, run), who)
    decreases |run|
  {
    if run != [] {
      StepKeepsStarted(p, run[0], who);
      ReachedStarted(Apply(p, run[0]), run[1..], who);
    }
  }

  /** The most that 60 or 61 seconds from `t` can hold: two full windows, less one if the span is half
      open, since a window open before it has recorded something already. */
  function Most(t: nat, end: nat, limit: nat, m: nat): int {
    2 * Full(limit, m) - if end <= t + L.WINDOW_SECS then 1 else 0
  }

  lemma RoomIsBelowMost(w: Option<L.Window>, n: nat, now: nat, t: nat, end: nat, limit: nat, m: nat)
    requires (w.Some? ==> w.value.count >= 1) && n <= m && limit >= 2 && t <= now && end <= t + L.WINDOW_SECS + 1
    ensures Room(w, n, now, end, limit, m) <= Most(t, end, limit, m)
  {
  }

  lemma {:induction false} MostFrom(p: Process, run: seq<Event>, who: Option<string>, t: nat, end: nat, clock: nat,
                                    m: nat)
    requires Started(p, who) && Within(p, run, who, m) && Timed(run, clock) && end <= t + L.WINDOW_SECS + 1
    ensures Recorded(p, run, t, end, who) <= Most(t, end, LimitOf(who), m)
    decreases |run|
  {
    WithinTail(p, run, who, m);
    if clock >= t || run == [] || TimeOf(run[0], clock) >= t {
      var now := if clock >= t then clock else t;
      TimedFrom(run, clock, now);
      RoomBounds(p, run, who, t, now, end, m);
      RoomIsBelowMost(WindowOf(p, who), InFlight(p, who), now, t, end, LimitOf(who), m);
    } else {
      StepKeepsStarted(p, run[0], who);
      MostFrom(Apply(p, run[0]), run[1..], who, t, end, TimeOf(run[0], clock), m);
    }
  }

  lemma TimedFrom(run: seq<Event>, clock: nat, now: nat)
    requires Timed(run, clock) && (clock == now || run == [] || TimeOf(run[0], clock) >= now > clock)
    ensures Timed(run, now)
  {
  }

  /** After any history, while a user has at most `m` logins between check and record and none succeeds,
      no half-open minute holds more than `2 * (5 - 1 + m) - 1` recorded failures of that user and no
      closed one more than `2 * (5 - 1 + m)`; and likewise with 60 for all users together. Logins one at
      a time are the case `m = 1`. */
  lemma OverlapBound(history: seq<Event>, run: seq<Event>, who: Option<string>, t: nat, origin: nat, m: nat)
    requires Timed(history, origin) && Timed(run, Clock(history, origin)) && Within(After(IDLE, history), run, who, m)
    ensures var p, most := After(IDLE, history), 2 * (LimitOf(who) - 1 + m);
            && Recorded(p, run, t, t + L.WINDOW_SECS, who) <= most - 1
            && Recorded(p, run, t, t + L.WINDOW_SECS + 1, who) <= most
  {
    ReachedStarted(IDLE, history, who);
    var p, clock := After(IDLE, history), Clock(history, origin);
    MostFrom(p, run, who, t, t + L.WINDOW_SECS, clock, m);
    MostFrom(p, run, who, t, t + L.WINDOW_SECS + 1, clock, m);
  }

  // ----- Putting runs together -----

  predicate AllAt(run: seq<Event>, now: nat) { forall i :: 0 <= i < |run| ==> TimeOf(run[i], now) == now }

  lemma {:induction false} TimedEarlier(run: seq<Event>, earlier: nat, from: nat)
    requires Timed(run, from) && earlier <= from
    ensures Timed(run, earlier)
    decreases |run|
  {
    if run != [] && TimeOf(run[0], from) == TimeOf(run[0], from + 1) {
    } else if run != [] {
      TimedEarlier(run[1..], earlier, from);
    }
  }

  lemma {:induction false} AllAtTimed(run: seq<Event>, now: nat, rest: seq<Event>)
    requires AllAt(run, now) && Timed(rest, now)
    ensures Timed(run + rest, now)
    decreases |run|
  {
    if run == [] {
      assert run + rest == rest;
    } else {
      assert (run + rest)[1..] == run[1..] + rest;
      AllAtTimed(run[1..], now, rest);
    }
  }

  lemma {:induction false} AfterThen(p: Process, first: seq<Event>, second: seq<Event>)
    ensures After(p, first + second) == After(After(p, first), second)
    decreases |first|
  {
    if first == [] {
      assert first + second == second;
    } else {
      assert (first + second)[1..] == first[1..] + second;
      AfterThen(Apply(p, first[0]), first[1..], second);
    }
  }

  lemma FineThen(p: Process, first: seq<Event>, second: seq<Event>, who: Option<string>, m: nat, k: nat)
    requires k <= |first + second| && (k < |first| ==> FineAt(p, first, who, m, k))
    requires k >= |first| ==> FineAt(After(p, first), second, who, m, k - |first|)
    ensures FineAt(p, first + second, who, m, k)
  {
    var run := first + second;
    if k < |first| {
      assert run[..k] == first[..k];
    } else {
      assert run[..k] == first + second[..k - |first|];
      AfterThen(p, first, second[..k - |first|]);
    }
  }

  lemma WithinThen(p: Process, first: seq<Event>, second: seq<Event>, who: Option<string>, m: nat)
    requires Within(p, first, who, m) && Within(After(p, first), second, who, m)
    ensures Within(p, first + second, who, m)
  {
    forall k | 0 <= k <= |first + second| ensures FineAt(p, first + second, who, m, k) {
      FineThen(p, first, second, who, m, k);
    }
  }

  lemma {:induction false} RecordedThen(p: Process, first: seq<Event>, second: seq<Event>, who: Option<string>,
                                        from: nat, end: nat)
    ensures Recorded(p, first + second, from, end, who)
            == Recorded(p, first, from, end, who) + Recorded(After(p, first), second, from, end, who)
    decreases |first|
  {
    if first == [] {
      assert first + second == second;
    } else {
      assert (first + second)[1..] == first[1..] + second;
      RecordedThen(Apply(p, first[0]), first[1..], second, who, from, end);
    }
  }

  /** One run after the other. */
  lemma Then(p: Process, first: seq<Event>, second: seq<Event>, who: Option<string>, m: nat, from: nat, end: nat)
    requires Within(p, first, who, m) && Within(After(p, first), second, who, m)
    ensures After(p, first + second) == After(After(p, first), second) && Within(p, first + second, who, m)
    ensures Recorded(p, first + second, from, end, who)
            == Recorded(p, first, from, end, who) + Recorded(After(p, first), second, from, end, who)
  {
    AfterThen(p, first, second);
    WithinThen(p, first, second, who, m);
    RecordedThen(p, first, second, who, from, end);
  }

  /** A run at one instant that records `n` failures of `who` in the given span. */
  ghost predicate Scores(p: Process, run: seq<Event>, who: Option<string>, now: nat, m: nat, from: nat, end: nat,
                         n: int) {
    AllAt(run, now) && Within(p, run, who, m) && Recorded(p, run, from, end, who) == n
  }

  lemma Join(p: Process, first: seq<Event>, second: seq<Event>, who: Option<string>, now: nat, m: nat,
             from: nat, end: nat, i: int, j: int)
    requires Scores(p, first, who, now, m, from, end, i) && Scores(After(p, first), second, who, now, m, from, end, j)
    ensures Scores(p, first + second, who, now, m, from, end, i + j)
    ensures After(p, first + second) == After(After(p, first), second)
  {
    Then(p, first, second, who, m, from, end);
  }

  lemma One(p: Process, ev: Event, who: Option<string>, now: nat, m: nat, from: nat, end: nat)
    requires TimeOf(ev, now) == now && !Forgets(p, ev, who)
    requires InFlight(p, who) <= m && InFlight(Apply(p, ev), who) <= m
    ensures Scores(p, [ev], who, now, m, from, end, Bit(Hits(p, ev, who) && from <= ev.now < end))
    ensures After(p, [ev]) == Apply(p, ev)
  {
    assert [ev][1..] == [];
    var run := [ev];
    forall k | 0 <= k <= 1 ensures FineAt(p, run, who, m, k) {
      assert run[..0] == [] && run[..1] == run;
    }
  }

  // ----- Runs that record all there is room for -----

  /** A username that counts for `who` and passes the check. */
  lemma Pick(p: Process, who: Option<string>, hint: string, now: nat) returns (username: string)
    requires who.Some? ==> L.Normalize(hint) == who.value
    requires L.CountAt(WindowOf(p, who), now) < LimitOf(who) && L.CountAt(p.limiter.global, now) < L.GLOBAL_LIMIT
    ensures Of(who)(username) && L.Checked(p.limiter, username, now).Allowed?
  {
    username := hint;
    if who.None? {
      var length := L.SomeLengthIsFree(p.limiter.users);
      username := L.Name(length);
      L.NameIsNormal(length);
    }
  }

  lemma BeginOne(p: Process, who: Option<string>, username: string, now: nat) returns (ev: Event)
    requires Of(who)(username) && L.Checked(p.limiter, username, now).Allowed?
    ensures ev.Begin? && ev.now == now && Apply(p, ev).limiter == p.limiter
    ensures InFlight(Apply(p, ev), who) == InFlight(p, who) + 1
  {
    var id := UnusedKey(p.pending.Keys);
    ev := Begin(id, username, now);
    CountUpdate(p.pending, Of(who), id, username);
  }

  lemma {:induction false} BeginMany(p: Process, who: Option<string>, username: string, now: nat, n: nat, m: nat,
                                     from: nat, end: nat) returns (run: seq<Event>)
    requires Of(who)(username) && L.Checked(p.limiter, username, now).Allowed? && InFlight(p, who) + n <= m
    ensures Scores(p, run, who, now, m, from, end, 0)
    ensures After(p, run).limiter == p.limiter && InFlight(After(p, run), who) == InFlight(p, who) + n
    decreases n
  {
    run := [];
    if n > 0 {
      var ev := BeginOne(p, who, username, now);
      One(p, ev, who, now, m, from, end);
      var rest := BeginMany(Apply(p, ev), who, username, now, n - 1, m, from, end);
      Join(p, [ev], rest, who, now, m, from, end, 0, 0);
      run := [ev] + rest;
    }
  }

  /** Some login in flight fails: both its windows count it and end when they would have. */
  lemma RejectOne(p: Process, who: Option<string>, now: nat) returns (ev: Event)
    requires InFlight(p, who) > 0
    ensures ev.Reject? && ev.now == now && Hits(p, ev, who) && InFlight(Apply(p, ev), who) == InFlight(p, who) - 1
    ensures WindowOf(Apply(p, ev), who) == Some(L.Bump(WindowOf(p, who), now))
    ensures Apply(p, ev).limiter.global == Some(L.Bump(p.limiter.global, now))
  {
    var id := CountWitness(p.pending, Of(who));
    ev := Reject(id, now);
    RejectEffect(p, ev, who);
  }

  lemma BumpKeepsEnd(w: Option<L.Window>, now: nat)
    ensures L.EndAt(Some(L.Bump(w, now)), now) == L.EndAt(w, now)
    ensures L.CountAt(Some(L.Bump(w, now)), now) <= L.CountAt(w, now) + 1
    ensures L.CountAt(w, now) < U32_MAX ==> L.CountAt(Some(L.Bump(w, now)), now) == L.CountAt(w, now) + 1
  {
  }

  /** The two windows at `now` end as before, and the global one counts at most `n` more. */
  predicate Follows(p: Process, p': Process, who: Option<string>, now: nat, n: int) {
    && L.EndAt(WindowOf(p', who), now) == L.EndAt(WindowOf(p, who), now)
    && L.EndAt(p'.limiter.global, now) == L.EndAt(p.limiter.global, now)
    && L.CountAt(p'.limiter.global, now) <= L.CountAt(p.limiter.global, now) + n
  }

  /** All logins in flight fail. */
  lemma {:induction false} FinishAll(p: Process, who: Option<string>, now: nat, m: nat, from: nat, end: nat)
    returns (run: seq<Event>)
    requires InFlight(p, who) <= m && from <= now < end
    ensures Scores(p, run, who, now, m, from, end, InFlight(p, who))
    ensures InFlight(After(p, run), who) == 0 && Follows(p, After(p, run), who, now, InFlight(p, who))
    decreases InFlight(p, who)
  {
    run := [];
    if InFlight(p, who) > 0 {
      var ev := RejectOne(p, who, now);
      BumpKeepsEnd(WindowOf(p, who), now);
      BumpKeepsEnd(p.limiter.global, now);
      One(p, ev, who, now, m, from, end);
      var rest := FinishAll(Apply(p, ev), who, now, m, from, end);
      Join(p, [ev], rest, who, now, m, from, end, 1, InFlight(p, who) - 1);
      run := [ev] + rest;
    }
  }

  /** One login fails and another begins, below the limits. */
  lemma Turn(p: Process, who: Option<string>, hint: string, now: nat, m: nat, from: nat, end: nat)
    returns (run: seq<Event>)
    requires (who.Some? ==> L.Normalize(hint) == who.value) && 0 < InFlight(p, who) <= m && from <= now < end
    requires L.CountAt(WindowOf(p, who), now) + 1 < LimitOf(who)
    requires L.CountAt(p.limiter.global, now) + 1 < L.GLOBAL_LIMIT
    ensures Scores(p, run, who, now, m, from, end, 1)
    ensures InFlight(After(p, run), who) == InFlight(p, who) && Follows(p, After(p, run), who, now, 1)
    ensures L.CountAt(WindowOf(After(p, run), who), now) == L.CountAt(WindowOf(p, who), now) + 1
  {
    var out := RejectOne(p, who, now);
    BumpKeepsEnd(WindowOf(p, who), now);
    BumpKeepsEnd(p.limiter.global, now);
    One(p, out, who, now, m, from, end);
    var mid := Apply(p, out);
    var username := Pick(mid, who, hint, now);
    var into := BeginOne(mid, who, username, now);
    One(mid, into, who, now, m, from, end);
    Join(p, [out], [into], who, now, m, from, end, 1, 0);
    run := [out] + [into];
  }

  lemma {:induction false} Rotate(p: Process, who: Option<string>, hint: string, now: nat, k: nat, m: nat,
                                  from: nat, end: nat) returns (run: seq<Event>)
    requires (who.Some? ==> L.Normalize(hint) == who.value) && 0 < InFlight(p, who) <= m && from <= now < end
    requires L.CountAt(WindowOf(p, who), now) + k < LimitOf(who)
    requires L.CountAt(p.limiter.global, now) + k < L.GLOBAL_LIMIT
    ensures Scores(p, run, who, now, m, from, end, k)
    ensures InFlight(After(p, run), who) == InFlight(p, who) && Follows(p, After(p, run), who, now, k)
    ensures L.CountAt(WindowOf(After(p, run), who), now) == L.CountAt(WindowOf(p, who), now) + k
    decreases k
  {
    run := [];
    if k > 0 {
      var turn := Turn(p, who, hint, now, m, from, end);
      var rest := Rotate(After(p, turn), who, hint, now, k - 1, m, from, end);
      Join(p, turn, rest, who, now, m, from, end, 1, k - 1);
      run := turn + rest;
    }
  }

  /** The global window leaves room to bring the window of `who` to one short of its limit. */
  predicate GlobalAdmits(p: Process, who: Option<string>, now: nat) {
    L.CountAt(WindowOf(p, who), now) < LimitOf(who) ==>
      L.CountAt(p.limiter.global, now) + (LimitOf(who) - 1 - L.CountAt(WindowOf(p, who), now)) < L.GLOBAL_LIMIT
  }

  /** From a window below its limit, at one instant: logins begin until `m` are in flight, they are
      replaced one by one up to the limit, and all of them fail. */
  lemma FillUp(p: Process, who: Option<string>, hint: string, now: nat, m: nat, from: nat, end: nat)
    returns (run: seq<Event>)
    requires (who.Some? ==> L.Normalize(hint) == who.value) && InFlight(p, who) <= m && m > 0 && from <= now < end
    requires L.CountAt(WindowOf(p, who), now) < LimitOf(who) && GlobalAdmits(p, who, now)
    ensures var rest := LimitOf(who) - 1 - L.CountAt(WindowOf(p, who), now) + m;
            && Scores(p, run, who, now, m, from, end, rest)
            && InFlight(After(p, run), who) == 0 && Follows(p, After(p, run), who, now, rest)
  {
    var k := LimitOf(who) - 1 - L.CountAt(WindowOf(p, who), now);
    var username := Pick(p, who, hint, now);
    var begins := BeginMany(p, who, username, now, m - InFlight(p, who), m, from, end);
    var p1 := After(p, begins);
    var turns := Rotate(p1, who, hint, now, k, m, from, end);
    Join(p, begins, turns, who, now, m, from, end, 0, k);
    var p2 := After(p1, turns);
    var ends := FinishAll(p2, who, now, m, from, end);
    Join(p, begins + turns, ends, who, now, m, from, end, k, m);
    run := begins + turns + ends;
  }

  /** At one instant, everything that the window then open can still record is recorded. */
  lemma UseUp(p: Process, who: Option<string>, hint: string, now: nat, m: nat, from: nat, end: nat)
    returns (run: seq<Event>)
    requires (who.Some? ==> L.Normalize(hint) == who.value) && InFlight(p, who) <= m && m > 0 && from <= now < end
    requires GlobalAdmits(p, who, now)
    ensures var rest := Rest(WindowOf(p, who), InFlight(p, who), now, LimitOf(who), m);
            && Scores(p, run, who, now, m, from, end, rest)
            && InFlight(After(p, run), who) == 0 && Follows(p, After(p, run), who, now, rest)
  {
    if L.CountAt(WindowOf(p, who), now) >= LimitOf(who) {
      run := FinishAll(p, who, now, m, from, end);
    } else {
      run := FillUp(p, who, hint, now, m, from, end);
    }
  }

  lemma OverAfterEnd(w: Option<L.Window>, now: nat, later: nat)
    requires now <= later && L.EndAt(w, now) <= later
    ensures L.CountAt(w, later) == 0
  {
  }

  /** The window open at `t1` is used up, and once it is over a whole new one. */
  lemma TwoRounds(p: Process, who: Option<string>, hint: string, t1: nat, t2: nat, m: nat, end: nat)
    returns (run: seq<Event>)
    requires (who.Some? ==> L.Normalize(hint) == who.value) && InFlight(p, who) <= m && m > 0
    requires t1 <= t2 < end && L.EndAt(WindowOf(p, who), t1) <= t2 && GlobalAdmits(p, who, t1)
    requires L.EndAt(p.limiter.global, t1) <= t2
             || L.CountAt(p.limiter.global, t1)
                + Rest(WindowOf(p, who), InFlight(p, who), t1, LimitOf(who), m) + LimitOf(who)
                <= L.GLOBAL_LIMIT
    ensures Timed(run, t1) && Within(p, run, who, m)
    ensures Recorded(p, run, t1, end, who)
            == Rest(WindowOf(p, who), InFlight(p, who), t1, LimitOf(who), m) + Full(LimitOf(who), m)
  {
    var first := UseUp(p, who, hint, t1, m, t1, end);
    var mid := After(p, first);
    OverAfterEnd(WindowOf(mid, who), t1, t2);
    L.CountFades(mid.limiter.global, t1, t2);
    if L.EndAt(mid.limiter.global, t1) <= t2 { OverAfterEnd(mid.limiter.global, t1, t2); }
    var second := UseUp(mid, who, hint, t2, m, t1, end);
    Then(p, first, second, who, m, t1, end);
    run := first + second;
    AllAtTimed(second, t2, []);
    assert second + [] == second;
    TimedEarlier(second, t1, t2);
    AllAtTimed(first, t1, second);
  }

  /** After any history of overlapping logins, the room at `t` bounds what the minute `[t, t + 60)` can
      record with at most `m` logins in flight, and is reached: for all users together always, for one
      user if the global window leaves room. */
  lemma RoomIsExact(history: seq<Event>, who: Option<string>, hint: string, t: nat, m: nat)
    requires (who.Some? ==> L.Normalize(hint) == who.value) && InFlight(After(IDLE, history), who) <= m && m > 0
    ensures var p, end := After(IDLE, history), t + L.WINDOW_SECS;
            var room := RoomAt(p, who, t, end, m);
            && (forall run :: Timed(run, t) && Within(p, run, who, m) ==> Recorded(p, run, t, end, who) <= room)
            && ((who.Some? ==> L.CountAt(p.limiter.global, t) + room <= L.GLOBAL_LIMIT) ==>
                  exists run :: Timed(run, t) && Within(p, run, who, m) && Recorded(p, run, t, end, who) == room)
  {
    var p, end := After(IDLE, history), t + L.WINDOW_SECS;
    var w, n := WindowOf(p, who), InFlight(p, who);
    var room := Room(w, n, t, end, LimitOf(who), m);
    forall run | Timed(run, t) && Within(p, run, who, m) ensures Recorded(p, run, t, end, who) <= room {
      RoomBounds(p, run, who, t, t, end, m);
    }
    if who.Some? ==> L.CountAt(p.limiter.global, t) + room <= L.GLOBAL_LIMIT {
      if L.EndAt(w, t) < end {
        var run := TwoRounds(p, who, hint, t, L.EndAt(w, t), m, end);
      } else {
        var run := UseUp(p, who, hint, t, m, t, end);
        AllAtTimed(run, t, []);
        assert run + [] == run;
      }
    }
  }

  /** So more than sixty failures can be recorded in the minute from `t` if and only if there is room for
      more than sixty. */
  lemma GlobalExceedsIff(history: seq<Event>, t: nat, m: nat)
    requires InFlight(After(IDLE, history), None) <= m && m > 0
    ensures var p, end := After(IDLE, history), t + L.WINDOW_SECS;
            (exists run :: Timed(run, t) && Within(p, run, None, m) && Recorded(p, run, t, end, None) > L.GLOBAL_LIMIT)
            <==> RoomAt(p, None, t, end, m) > L.GLOBAL_LIMIT
  {
    RoomIsExact(history, None, "", t, m);
  }

  // ----- The bounds are reached, and nothing bounds unlimited overlap -----

  /** For every `m` the bounds are reached, by one user and by all together. */
  lemma OverlapBoundIsReached(who: Option<string>, hint: string, t: nat, m: nat)
    requires (who.Some? ==> L.Normalize(hint) == who.value) && m > 0
    ensures exists run :: Timed(run, t) && Within(IDLE, run, who, m)
                          && Recorded(IDLE, run, t, t + L.WINDOW_SECS + 1, who) == 2 * (LimitOf(who) - 1 + m)
    ensures exists run :: Timed(run, t) && Within(IDLE, run, who, m)
                          && Recorded(IDLE, run, t + 1, t + 1 + L.WINDOW_SECS, who) == 2 * (LimitOf(who) - 1 + m) - 1
  {
    CountZero(IDLE.pending, Of(who));
    var run := TwoRounds(IDLE, who, hint, t, t + L.WINDOW_SECS, m, t + L.WINDOW_SECS + 1);
    HalfOpenIsReached(who, hint, t, m);
  }

  /** A single login that fails before the span begins. */
  lemma OneFailure(p: Process, who: Option<string>, username: string, t: nat, m: nat, from: nat, end: nat)
    returns (run: seq<Event>)
    requires Of(who)(username) && L.Checked(p.limiter, username, t).Allowed? && InFlight(p, who) == 0 < m && t < from
    ensures Scores(p, run, who, t, m, from, end, 0) && InFlight(After(p, run), who) == 0
    ensures WindowOf(After(p, run), who) == Some(L.Bump(WindowOf(p, who), t))
    ensures After(p, run).limiter.global == Some(L.Bump(p.limiter.global, t))
  {
    var begin := BeginOne(p, who, username, t);
    One(p, begin, who, t, m, from, end);
    var mid := Apply(p, begin);
    var reject := RejectOne(mid, who, t);
    One(mid, reject, who, t, m, from, end);
    Join(p, [begin], [reject], who, t, m, from, end, 0, 0);
    run := [begin] + [reject];
  }

  lemma HalfOpenIsReached(who: Option<string>, hint: string, t: nat, m: nat)
    requires (who.Some? ==> L.Normalize(hint) == who.value) && m > 0
    ensures exists run :: Timed(run, t) && Within(IDLE, run, who, m)
                          && Recorded(IDLE, run, t + 1, t + 1 + L.WINDOW_SECS, who) == 2 * (LimitOf(who) - 1 + m) - 1
  {
    var from, end := t + 1, t + 1 + L.WINDOW_SECS;
    CountZero(IDLE.pending, Of(who));
    var first := OneFailure(IDLE, who, hint, t, m, from, end);
    var rest := TwoRounds(After(IDLE, first), who, hint, from, t + L.WINDOW_SECS, m, end);
    Then(IDLE, first, rest, who, m, from, end);
    TimedEarlier(rest, t, from);
    AllAtTimed(first, t, rest);
  }

  /** Without a bound on overlap there is none on failures: any number of logins of one user that begin
      before the first of them is rejected are all recorded in one second. */
  lemma UnboundedOverlap(username: string, t: nat, n: nat)
    ensures exists run :: AllAt(run, t) && Recorded(IDLE, run, t, t + 1, Some(L.Normalize(username))) == n
  {
    var who := Some(L.Normalize(username));
    CountZero(IDLE.pending, Of(who));
    var begins := BeginMany(IDLE, who, username, t, n, n, t, t + 1);
    var ends := FinishAll(After(IDLE, begins), who, t, n, t, t + 1);
    Then(IDLE, begins, ends, who, n, t, t + 1);
    assert AllAt(begins + ends, t);
  }
}
