/** The public accept loop: a permit first, then a connection; an accept error costs a pause, never
    the loop. Connections run as tasks of their own and give their permit back when they end. */
module Entry {
  import opened Words

  const ACCEPT_BACKOFF_MIN: nat := 50
  const ACCEPT_BACKOFF_MAX: nat := 1000

  /** The semaphore's own maximum, which stands for "unlimited". */
  const MAX_PERMITS: nat := 0x1FFF_FFFF_FFFF_FFFF

  // ----- Backoff -----

  function Pow2(n: nat): (p: nat)
    ensures p >= 1
  {
    if n == 0 then 1 else 2 * Pow2(n - 1)
  }

  function Min(a: nat, b: nat): nat { if a <= b then a else b }

  /** `accept_backoff`: doubling from 50 ms, the exponent clamped at 5, capped at one second. */
  function AcceptBackoff(consecutiveFailures: U32): nat {
    var shift := Min(if consecutiveFailures == 0 then 0 else consecutiveFailures - 1, 5);
    Min(ACCEPT_BACKOFF_MIN * Pow2(shift), ACCEPT_BACKOFF_MAX)
  }

  lemma {:induction false} Pow2Grows(m: nat, n: nat)
    requires m <= n
    ensures Pow2(m) <= Pow2(n)
    decreases n - m
  {
    if m < n { Pow2Grows(m, n - 1); }
  }

  /** The clamp on the exponent is invisible: the wait doubles with every failure up to the cap. */
  lemma BackoffDoubles(n: U32)
    requires n >= 1
    ensures AcceptBackoff(n) == Min(ACCEPT_BACKOFF_MIN * Pow2(n - 1), ACCEPT_BACKOFF_MAX)
  {
    if n > 6 {
      Pow2Grows(5, n - 1);
      assert Pow2(5) == 2 * Pow2(4) == 4 * Pow2(3) == 8 * Pow2(2) == 32;
    }
  }

  lemma BackoffNeverShrinks(m: U32, n: U32)
    requires m <= n
    ensures ACCEPT_BACKOFF_MIN <= AcceptBackoff(m) <= AcceptBackoff(n) <= ACCEPT_BACKOFF_MAX
  {
    var a, b := Min(if m == 0 then 0 else m - 1, 5), Min(if n == 0 then 0 else n - 1, 5);
    Pow2Grows(a, b);
    Pow2Grows(0, a);
  }

  // ----- The loop -----

  function ConnectionLimit(maxConnections: nat): nat {
    if maxConnections == 0 then MAX_PERMITS else maxConnections
  }

  datatype Phase =
    | Acquiring                  // waiting for a permit
    | Accepting                  // permit in hand, waiting for a connection
    | BackingOff(ms: nat)        // sleeping after an accept error
    | Stopped

  type Connection = int

  datatype State = State(free: nat, live: set<Connection>, phase: Phase, failures: U32, acceptErrors: nat,
                         signalled: bool)

  datatype Event =
    | PermitGranted
    | Accepted(conn: Connection)
    | AcceptFails
    | BackoffOver
    | ShutdownSignalled          // the shutdown phase changed, or its sender is gone
    | ShutdownSeen               // the wait the loop is in notices it
    | ConnectionEnds(conn: Connection)

  function Start(maxConnections: nat): State {
    State(ConnectionLimit(maxConnections), {}, Acquiring, 0, 0, false)
  }

  /** Whether the event can happen now. Each of the three waits also watches for shutdown, but when
      that was signalled and the awaited thing is ready as well, either may be noticed first. */
  predicate Enabled(s: State, ev: Event) {
    match ev
    case PermitGranted => s.phase.Acquiring? && s.free > 0
    case Accepted(c) => s.phase.Accepting? && c !in s.live
    case AcceptFails => s.phase.Accepting?
    case BackoffOver => s.phase.BackingOff?
    case ShutdownSignalled => true
    case ShutdownSeen => s.signalled && (s.phase.Acquiring? || s.phase.Accepting? || s.phase.BackingOff?)
    case ConnectionEnds(c) => c in s.live
  }

  function Apply(s: State, ev: Event): State {
    if !Enabled(s, ev) then s
    else match ev
      case PermitGranted => s.(free := s.free - 1, phase := Accepting)
      case Accepted(c) => s.(live := s.live + {c}, phase := Acquiring, failures := 0)
      case AcceptFails =>
        var failures := if s.failures == U32_MAX then U32_MAX else s.failures + 1;
        s.(free := s.free + 1, phase := BackingOff(AcceptBackoff(failures)), failures := failures,
           acceptErrors := s.acceptErrors + 1)
      case BackoffOver => s.(phase := Acquiring)
      case ShutdownSignalled => s.(signalled := true)
      case ShutdownSeen => s.(phase := Stopped, free := s.free + if s.phase.Accepting? then 1 else 0)
      case ConnectionEnds(c) => s.(live := s.live - {c}, free := s.free + 1)
  }

  function After(maxConnections: nat, run: seq<Event>): State {
    if run == [] then Start(maxConnections)
    else Apply(After(maxConnections, run[..|run| - 1]), run[|run| - 1])
  }

  /** Permits are conserved: the free ones, one per live connection, and the one in the loop's hand
      always add up to the limit; so the limit bounds the live connections. */
  lemma {:induction false} PermitsAreConserved(maxConnections: nat, run: seq<Event>)
    ensures var s := After(maxConnections, run);
            && s.free + |s.live| + (if s.phase.Accepting? then 1 else 0) == ConnectionLimit(maxConnections)
            && |s.live| <= ConnectionLimit(maxConnections)
            && (maxConnections > 0 ==> |s.live| <= maxConnections)
  {
    if run != [] {
      PermitsAreConserved(maxConnections, run[..|run| - 1]);
    }
  }

  /** Event `k` notices a shutdown that was signalled before it. */
  predicate NoticedAt(run: seq<Event>, k: nat)
    requires k < |run|
  {
    run[k] == ShutdownSeen && ShutdownSignalled in run[..k]
  }

  lemma {:induction false} SignalledIff(maxConnections: nat, run: seq<Event>)
    ensures After(maxConnections, run).signalled <==> ShutdownSignalled in run
  {
    if run != [] {
      SignalledIff(maxConnections, run[..|run| - 1]);
      assert run == run[..|run| - 1] + [run[|run| - 1]];
    }
  }

  /** The loop has ended if and only if one of its waits came to notice a shutdown signalled before:
      no accept error, lack of permits or end of a connection ever ends it, and a signal that no wait
      has noticed yet does not either. */
  lemma {:induction false} StopsOnlyOnShutdown(maxConnections: nat, run: seq<Event>)
    ensures After(maxConnections, run).phase.Stopped? <==> exists k :: 0 <= k < |run| && NoticedAt(run, k)
  {
    if run != [] {
      var before := run[..|run| - 1];
      StopsOnlyOnShutdown(maxConnections, before);
      SignalledIff(maxConnections, before);
      forall k | 0 <= k < |before| ensures NoticedAt(run, k) == NoticedAt(before, k) {
        assert run[..k] == before[..k];
      }
      assert NoticedAt(run, |run| - 1) == (run[|run| - 1] == ShutdownSeen && ShutdownSignalled in before);
    }
  }

  /** Whatever the loop is waiting for, a signalled shutdown can be noticed at once; the loop then
      stays ended, and every permit is free or with a live connection. */
  lemma ShutdownIsPrompt(maxConnections: nat, run: seq<Event>, rest: seq<Event>)
    requires ShutdownSignalled in run
    ensures After(maxConnections, run + [ShutdownSeen]).phase.Stopped?
    ensures var s := After(maxConnections, run + [ShutdownSeen] + rest);
            s.phase.Stopped? && s.free + |s.live| == ConnectionLimit(maxConnections)
  {
    var ended := run + [ShutdownSeen];
    assert ended[..|run|] == run;
    SignalledIff(maxConnections, run);
    assert NoticedAt(ended, |run|);
    assert (ended + rest)[..|run|] == run;
    assert NoticedAt(ended + rest, |run|);
    StopsOnlyOnShutdown(maxConnections, ended + rest);
    PermitsAreConserved(maxConnections, ended + rest);
  }

  /** Accept errors since the last accepted connection, and in all. */
  function Streak(maxConnections: nat, run: seq<Event>): nat {
    if run == [] then 0
    else
      var before, last := run[..|run| - 1], run[|run| - 1];
      if !Enabled(After(maxConnections, before), last) then Streak(maxConnections, before)
      else if last.Accepted? then 0
      else if last.AcceptFails? then Streak(maxConnections, before) + 1
      else Streak(maxConnections, before)
  }

  lemma {:induction false} FailuresAreTheStreak(maxConnections: nat, run: seq<Event>)
    ensures var s, n := After(maxConnections, run), Streak(maxConnections, run);
            && s.failures == Min(n, U32_MAX)
            && (s.phase.BackingOff? ==> n >= 1 && s.phase.ms == AcceptBackoff(s.failures))
  {
    if run != [] {
      FailuresAreTheStreak(maxConnections, run[..|run| - 1]);
    }
  }

  /** In every run, the pause after the n-th accept error in a row is 50 ms doubled n - 1 times, capped
      at one second, also once the 32-bit failure count has saturated. */
  lemma PauseFollowsStreak(maxConnections: nat, run: seq<Event>)
    requires After(maxConnections, run).phase.BackingOff?
    ensures var n := Streak(maxConnections, run);
            && n >= 1
            && After(maxConnections, run).phase.ms == Min(ACCEPT_BACKOFF_MIN * Pow2(n - 1), ACCEPT_BACKOFF_MAX)
  {
    var n := Streak(maxConnections, run);
    FailuresAreTheStreak(maxConnections, run);
    BackoffDoubles(Min(n, U32_MAX));
    if n > U32_MAX {
      Pow2Grows(5, U32_MAX - 1);
      Pow2Grows(5, n - 1);
      assert Pow2(5) == 2 * Pow2(4) == 4 * Pow2(3) == 8 * Pow2(2) == 32;
    }
  }

  // ----- Which connections are live -----

  /** The run accepts the connection at event `k` and does not end it afterwards. */
  predicate AcceptedForGood(maxConnections: nat, run: seq<Event>, c: Connection, k: int) {
    && 0 <= k < |run| && run[k] == Accepted(c) && After(maxConnections, run[..k]).phase.Accepting?
    && ConnectionEnds(c) !in run[k..]
  }

  lemma AcceptedSnoc(maxConnections: nat, run: seq<Event>, c: Connection, k: int)
    requires run != []
    ensures var before, last := run[..|run| - 1], run[|run| - 1];
            AcceptedForGood(maxConnections, run, c, k) <==>
            || (AcceptedForGood(maxConnections, before, c, k) && last != ConnectionEnds(c))
            || (k == |run| - 1 && last == Accepted(c) && After(maxConnections, before).phase.Accepting?)
  {
    var before, last := run[..|run| - 1], run[|run| - 1];
    if 0 <= k < |before| {
      assert run[..k] == before[..k];
      assert run[k..] == before[k..] + [last];
    } else if k == |run| - 1 {
      assert run[..k] == before && run[k..] == [last];
    }
  }

  /** A connection is live, and so holds a permit, if and only if the loop accepted it and it has not
      ended since: nothing else gives the permit back, and nothing keeps it longer. */
  lemma {:induction false} LiveIffAccepted(maxConnections: nat, run: seq<Event>, c: Connection)
    ensures c in After(maxConnections, run).live <==> exists k :: AcceptedForGood(maxConnections, run, c, k)
  {
    if run != [] {
      var before, last := run[..|run| - 1], run[|run| - 1];
      LiveIffAccepted(maxConnections, before, c);
      forall k
        ensures AcceptedForGood(maxConnections, run, c, k) <==>
                || (AcceptedForGood(maxConnections, before, c, k) && last != ConnectionEnds(c))
                || (k == |run| - 1 && last == Accepted(c) && After(maxConnections, before).phase.Accepting?)
      {
        AcceptedSnoc(maxConnections, run, c, k);
      }
      if last == Accepted(c) && After(maxConnections, before).phase.Accepting? {
        assert AcceptedForGood(maxConnections, run, c, |run| - 1);
      }
    }
  }

  /** As long as the loop has not ended and the limit, or 2^61 - 1 permits if there is none, is not reached,
      the loop can accept the next connection: no number of accept errors costs a permit or the loop. */
  lemma NextIsAccepted(maxConnections: nat, run: seq<Event>, c: Connection) returns (more: seq<Event>)
    requires var s := After(maxConnections, run);
             !s.phase.Stopped? && c !in s.live
             && (s.phase.Accepting? || |s.live| < (if maxConnections == 0 then MAX_PERMITS else maxConnections))
    ensures forall ev :: ev in more ==> ev in {BackoffOver, PermitGranted, Accepted(c)}
    ensures c in After(maxConnections, run + more).live
    ensures After(maxConnections, run + more).failures == 0
  {
    var s := After(maxConnections, run);
    PermitsAreConserved(maxConnections, run);
    if s.phase.Accepting? {
      more := [Accepted(c)];
    } else if s.phase.Acquiring? {
      more := [PermitGranted, Accepted(c)];
    } else {
      more := [BackoffOver, PermitGranted, Accepted(c)];
    }
    OneByOne(maxConnections, run, more);
  }

  /** Up to three more events, one by one. */
  lemma OneByOne(maxConnections: nat, run: seq<Event>, more: seq<Event>)
    requires 1 <= |more| <= 3
    ensures var s1 := Apply(After(maxConnections, run), more[0]);
            var s2 := if |more| > 1 then Apply(s1, more[1]) else s1;
            After(maxConnections, run + more) == if |more| > 2 then Apply(s2, more[2]) else s2
  {
    assert (run + more)[..|run + more| - 1] == run + more[..|more| - 1];
    assert run + more[..0] == run;
    if |more| > 1 {
      assert (run + more[..|more| - 1])[..|run| + |more| - 2] == run + more[..|more| - 2];
      if |more| > 2 {
        assert (run + more[..1])[..|run|] == run;
      }
    }
  }

  /** Accept errors of a run. */
  function Errors(maxConnections: nat, run: seq<Event>): nat {
    if run == [] then 0
    else
      var before := run[..|run| - 1];
      Errors(maxConnections, before)
      + if run[|run| - 1].AcceptFails? && After(maxConnections, before).phase.Accepting? then 1 else 0
  }

  /** The counter on the metrics page counts every accept error, also those that end a streak. */
  lemma {:induction false} AcceptErrorsAreCounted(maxConnections: nat, run: seq<Event>)
    ensures After(maxConnections, run).acceptErrors == Errors(maxConnections, run) >= Streak(maxConnections, run)
  {
    if run != [] { AcceptErrorsAreCounted(maxConnections, run[..|run| - 1]); }
  }
}
