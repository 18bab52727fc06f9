/** The HTTP admission gate and the request accounting around it.

    Two nested middlewares share one set of atomics. The inner one (`http/admission.rs`) takes a
    ticket from a per-domain counter with a compare-and-swap loop (`metrics/admission.rs`); the
    outer one (`http/observability.rs`) records the status code, or an abort if its future is
    dropped first. Every atomic access is one step here, any number of requests interleave, and
    the client may disappear at every await. */
module Admission {
  import opened Counting
  import opened Words

  /** `AtomicU64::fetch_add(1)` and `fetch_sub(1)` wrap around. */
  function FetchAdd(x: U64): U64 { if x == U64_MAX then 0 else x + 1 }
  function FetchSub(x: U64): U64 { if x == 0 then U64_MAX else x - 1 }

  /** What a 64-bit counter shows of an unbounded count. */
  function Shown(n: nat): (x: U64)
    ensures n < TWO64 ==> x == n
  {
    n % TWO64
  }

  /** The counter after one contribution to it changed from `before` to `after`. */
  function Shift(x: U64, before: bool, after: bool): U64 {
    if before == after then x else if after then FetchAdd(x) else FetchSub(x)
  }

  lemma ShownShifts(n: nat, before: bool, after: bool)
    requires before ==> n > 0
    ensures Shift(Shown(n), before, after) == Shown(n - Bit(before) + Bit(after))
  {
  }

  const MAX_CONCURRENT_PROBES: U32 := 64
  const MAX_CONCURRENT_SCRAPES: U32 := 64

  datatype AdmissionDomain = Gated | Probe | Scrape

  datatype RouteClass = GatedRoute | ProbeRoute | ScrapeRoute {
    static function Of(path: string): RouteClass {
      if path == "/healthz" then ProbeRoute
      else if path == "/metrics" then ScrapeRoute
      else GatedRoute
    }

    function Domain(): AdmissionDomain {
      match this
      case GatedRoute => Gated
      case ProbeRoute => Probe
      case ScrapeRoute => Scrape
    }

    function Limit(gatedLimit: U32): U32 {
      match this
      case GatedRoute => gatedLimit
      case ProbeRoute => MAX_CONCURRENT_PROBES
      case ScrapeRoute => MAX_CONCURRENT_SCRAPES
    }

    predicate Counted() { this != ScrapeRoute }

    predicate LogsAccess() { this != ScrapeRoute }
  }

  /** The atomics of `MetricsInner` that admission and accounting touch. The three monotone ones
      are unbounded here; those that are also decremented wrap. */
  datatype Counters = Counters(gated: U64, probe: U64, scrape: U64, active: U64,
                               requestCount: nat, status: map<nat, nat>, aborted: nat)
  {
    function Get(d: AdmissionDomain): U64 {
      match d
      case Gated => gated
      case Probe => probe
      case Scrape => scrape
    }

    function Put(d: AdmissionDomain, v: U64): Counters {
      match d
      case Gated => this.(gated := v)
      case Probe => this.(probe := v)
      case Scrape => this.(scrape := v)
    }

    function StatusCount(code: nat): nat { if code in status then status[code] else 0 }

    function RecordStatus(code: nat): Counters {
      this.(status := status[code := StatusCount(code) + 1])
    }
  }

  /** How far the two counters a ticket moves have been raised and lowered again. */
  datatype Ticket = NoTicket | Taken | Raised | DomainReturned | Returned {
    predicate InDomain() { Taken? || Raised? }
    predicate InActive() { Raised? || DomainReturned? }
  }

  /** What the outer middleware has recorded; `Open` is an armed abort guard. */
  datatype Outcome = Open | Status(code: nat) | Aborted

  datatype Phase =
    | Loading                  // about to read the domain counter
    | Trying(current: U64)     // about to test the limit and compare-and-swap
    | Entered                  // slot taken, bookkeeping to follow
    | Refused                  // `enter` returned None, bookkeeping to follow
    | Rejecting                // the 429 travels out to the outer middleware
    | Handling                 // ticket held across the await of the inner service
    | Streaming                // status recorded, ticket bound to the response body
    | Closing                  // response gone; guard and ticket are dropped from here

  datatype Request = Request(route: RouteClass, phase: Phase, ticket: Ticket,
                             outcome: Outcome, counted: bool)

  type RequestId = int

  datatype State = State(counters: Counters, requests: map<RequestId, Request>)

  datatype Event =
    | Arrive(path: string)            // outer middleware entered, abort guard armed
    | Access(spurious: bool)          // one atomic access of the `enter` loop
    | Account                         // one bookkeeping access after the loop
    | Respond(code: nat)              // the inner service answered
    | Disappear                       // the future is dropped at its await
    | BodyEnds                        // the body was sent or dropped
    | DropGuard                       // AbortGuard::drop
    | DropTicket                      // one access of Admission::drop

  const START := State(Counters(0, 0, 0, 0, 0, map[], 0), map[])

  /** One turn of the `enter` loop: give up, take the slot, or retry with the observed value.
      The exchange is weak, so it may also fail spuriously. */
  datatype Turn = GiveUp | Take | Retry(observed: U64)

  function LoopTurn(limit: U32, current: U64, counter: U64, spurious: bool): Turn {
    if current >= limit then GiveUp
    else if counter == current && !spurious then Take
    else Retry(counter)
  }

  function AccessStep(limit: U32, c: Counters, q: Request, spurious: bool): (Counters, Request)
    requires q.phase.Loading? || q.phase.Trying?
  {
    var d := q.route.Domain();
    var taken := (c.Put(d, FetchAdd(c.Get(d))), q.(phase := Entered, ticket := Taken));
    if q.phase.Loading? then
      if limit > 0 then (c, q.(phase := Trying(c.Get(d)))) else taken
    else
      match LoopTurn(limit, q.phase.current, c.Get(d), spurious)
      case GiveUp => (c, q.(phase := Refused))
      case Take => taken
      case Retry(observed) => (c, q.(phase := Trying(observed)))
  }

  function AccountStep(c: Counters, q: Request): (Counters, Request)
    requires q.phase.Entered? || q.phase.Refused?
  {
    if q.phase.Refused? then
      if q.route.Counted() then
        (c.(requestCount := c.requestCount + 1), q.(phase := Rejecting, counted := true))
      else (c, q.(phase := Rejecting))
    else if !q.route.Counted() then (c, q.(phase := Handling))
    else if q.ticket.Taken? then
      (c.(active := FetchAdd(c.active)), q.(ticket := Raised))
    else
      (c.(requestCount := c.requestCount + 1), q.(phase := Handling, counted := true))
  }

  function RespondStep(c: Counters, q: Request, code: nat): (Counters, Request)
    requires q.phase.Handling? || q.phase.Rejecting?
  {
    var status := if q.phase.Handling? then code else 429;
    var next := q.(phase := if q.phase.Handling? then Streaming else Closing);
    if q.route.LogsAccess() then (c.RecordStatus(status), next.(outcome := Status(status)))
    else (c, next)
  }

  function DropTicketStep(c: Counters, q: Request): (Counters, Request)
    requires q.ticket.InDomain() || q.ticket.DomainReturned?
  {
    var d := q.route.Domain();
    if q.ticket.InDomain() then
      (c.Put(d, FetchSub(c.Get(d))),
       q.(ticket := if q.route.Counted() then DomainReturned else Returned))
    else (c.(active := FetchSub(c.active)), q.(ticket := Returned))
  }

  /** What one event does to the shared counters and to the request it belongs to; `None` when
      the request is not at a point where that event can happen. */
  datatype Effect = None | Effect(counters: Counters, request: Request)

  function StepOf(gatedLimit: U32, c: Counters, q: Request, ev: Event): Effect {
    match ev
    case Arrive(_) => None
    case Access(spurious) =>
      if q.phase.Loading? || q.phase.Trying? then
        var (c', q') := AccessStep(q.route.Limit(gatedLimit), c, q, spurious); Effect(c', q')
      else None
    case Account =>
      if q.phase.Entered? || q.phase.Refused? then
        var (c', q') := AccountStep(c, q); Effect(c', q')
      else None
    case Respond(code) =>
      if q.phase.Handling? || q.phase.Rejecting? then
        var (c', q') := RespondStep(c, q, code); Effect(c', q')
      else None
    case Disappear =>
      if q.phase.Handling? || q.phase.Rejecting? then Effect(c, q.(phase := Closing)) else None
    case BodyEnds =>
      if q.phase.Streaming? then Effect(c, q.(phase := Closing)) else None
    case DropGuard =>
      if q.phase.Closing? && q.outcome.Open? && q.route.LogsAccess() then
        Effect(c.(aborted := c.aborted + 1), q.(outcome := Aborted))
      else None
    case DropTicket =>
      if q.phase.Closing? && (q.ticket.InDomain() || q.ticket.DomainReturned?) then
        var (c', q') := DropTicketStep(c, q); Effect(c', q')
      else None
  }

  /** An event that cannot happen leaves the state alone, so every event sequence is a run. */
  function Apply(gatedLimit: U32, s: State, r: RequestId, ev: Event): State {
    if r !in s.requests then
      if ev.Arrive? then
        s.(requests := s.requests[r := Request(RouteClass.Of(ev.path), Loading, NoTicket, Open, false)])
      else s
    else
      match StepOf(gatedLimit, s.counters, s.requests[r], ev)
      case None => s
      case Effect(c, q) => State(c, s.requests[r := q])
  }

  type Run = seq<(RequestId, Event)>

  function After(gatedLimit: U32, run: Run): State {
    if run == [] then START
    else
      var last := run[|run| - 1];
      Apply(gatedLimit, After(gatedLimit, run[..|run| - 1]), last.0, last.1)
  }

  // ----- What the counters mean -----

  ghost function Holds(d: AdmissionDomain): Request -> bool {
    (q: Request) => q.route.Domain() == d && q.ticket.InDomain()
  }
  ghost function IsActive(): Request -> bool { (q: Request) => q.ticket.InActive() }
  ghost function IsCounted(): Request -> bool { (q: Request) => q.counted }
  ghost function IsAnswered(): Request -> bool { (q: Request) => q.outcome.Status? }
  ghost function IsAborted(): Request -> bool { (q: Request) => q.outcome.Aborted? }
  ghost function AnsweredWith(code: nat): Request -> bool { (q: Request) => q.outcome == Status(code) }
  ghost function IsOpen(): Request -> bool { (q: Request) => q.counted && q.outcome.Open? }

  /** Tickets of domain `d` that are out and not yet returned. */
  ghost function Live(s: State, d: AdmissionDomain): nat { Count(s.requests, Holds(d)) }

  /** The limit a domain is compared with; zero is unlimited. */
  function DomainLimit(gatedLimit: U32, d: AdmissionDomain): U32 {
    match d
    case Gated => gatedLimit
    case Probe => MAX_CONCURRENT_PROBES
    case Scrape => MAX_CONCURRENT_SCRAPES
  }

  /** What each request satisfies on its own: the bookkeeping matches the phase, and an uncounted
      route never enters any of the accounting terms. */
  predicate Coherent(q: Request) {
    && (match q.phase
        case Loading => q.ticket.NoTicket? && q.outcome.Open? && !q.counted
        case Trying(_) => q.ticket.NoTicket? && q.outcome.Open? && !q.counted
        case Entered => q.ticket.InDomain() && q.outcome.Open? && !q.counted
        case Refused => q.ticket.NoTicket? && q.outcome.Open? && !q.counted
        case Rejecting => q.ticket.NoTicket? && q.outcome.Open?
        case Handling => q.ticket.InDomain() && q.outcome.Open?
        case Streaming => q.ticket.InDomain()
        case Closing => !q.ticket.Taken? || !q.route.Counted())
    && ((q.phase.Rejecting? || q.phase.Handling? || q.phase.Streaming? || q.phase.Closing?) ==>
          q.counted == q.route.Counted())
    && (q.phase.Handling? || q.phase.Streaming? ==> q.ticket.Raised? == q.route.Counted())
    && (q.phase.Streaming? && q.route.LogsAccess() ==> q.outcome.Status?)
    && (!q.route.Counted() ==> !q.counted && q.outcome.Open? && !q.ticket.InActive())
    && (q.ticket.NoTicket? && q.outcome.Status? ==> q.outcome.code == 429)
  }

  predicate LoopsOnlyIfLimited(gatedLimit: U32, q: Request) {
    q.phase.Trying? ==> q.route.Limit(gatedLimit) > 0
  }

  ghost predicate SlotsExact(c: Counters, m: map<RequestId, Request>) {
    && (forall d :: c.Get(d) == Shown(Count(m, Holds(d))))
    && c.active == Shown(Count(m, IsActive()))
  }

  ghost predicate TotalsExact(c: Counters, m: map<RequestId, Request>) {
    && c.requestCount == Count(m, IsCounted())
    && Sum(c.status) == Count(m, IsAnswered())
    && c.aborted == Count(m, IsAborted())
  }

  ghost predicate CodesExact(c: Counters, m: map<RequestId, Request>) {
    forall code :: c.StatusCount(code) == Count(m, AnsweredWith(code))
  }

  /** Every counter equals the number of requests that currently contribute to it. */
  ghost predicate Exact(s: State) {
    SlotsExact(s.counters, s.requests) && TotalsExact(s.counters, s.requests) && CodesExact(s.counters, s.requests)
  }

  ghost predicate Bounded(gatedLimit: U32, s: State) {
    forall d :: DomainLimit(gatedLimit, d) > 0 ==> Live(s, d) <= DomainLimit(gatedLimit, d)
  }

  ghost predicate Inv(gatedLimit: U32, s: State) {
    && (forall r :: r in s.requests ==> Coherent(s.requests[r]) && LoopsOnlyIfLimited(gatedLimit, s.requests[r]))
    && Exact(s)
    && Bounded(gatedLimit, s)
  }

  // ----- Every step keeps the invariant -----

  lemma StartInv(gatedLimit: U32)
    ensures Inv(gatedLimit, START)
  {
    assert forall p: Request -> bool :: Count(START.requests, p) == 0;
  }

  /** The counters moved exactly as the request did. */
  ghost predicate Balanced(c: Counters, q: Request, c': Counters, q': Request) {
    && (forall d :: c'.Get(d) == Shift(c.Get(d), Holds(d)(q), Holds(d)(q')))
    && c'.active == Shift(c.active, q.ticket.InActive(), q'.ticket.InActive())
    && c'.requestCount == c.requestCount - Bit(q.counted) + Bit(q'.counted)
    && c'.aborted == c.aborted - Bit(q.outcome.Aborted?) + Bit(q'.outcome.Aborted?)
    && (q'.outcome != q.outcome ==> q.outcome.Open?)
    && c'.status == if q'.outcome != q.outcome && q'.outcome.Status?
                    then c.RecordStatus(q'.outcome.code).status else c.status
  }

  lemma StepBalances(gatedLimit: U32, c: Counters, q: Request, ev: Event)
    requires Coherent(q) && StepOf(gatedLimit, c, q, ev).Effect?
    ensures var Effect(c', q') := StepOf(gatedLimit, c, q, ev);
            && Coherent(q') && Balanced(c, q, c', q') && q'.route == q.route
            && (LoopsOnlyIfLimited(gatedLimit, q) ==> LoopsOnlyIfLimited(gatedLimit, q'))
  {
  }

  /** A request that contributes to no counter; what a new arrival replaces. */
  const NOBODY := Request(GatedRoute, Loading, NoTicket, Open, false)

  function Prior(m: map<RequestId, Request>, r: RequestId): Request { if r in m then m[r] else NOBODY }

  lemma SlotsFollow(c: Counters, m: map<RequestId, Request>, r: RequestId, c': Counters, q: Request)
    requires SlotsExact(c, m) && Balanced(c, Prior(m, r), c', q)
    ensures SlotsExact(c', m[r := q])
  {
    var p := Prior(m, r);
    forall d ensures c'.Get(d) == Shown(Count(m[r := q], Holds(d))) {
      CountUpdate(m, Holds(d), r, q);
      if Holds(d)(p) { CountPositive(m, Holds(d), r); }
      ShownShifts(Count(m, Holds(d)), Holds(d)(p), Holds(d)(q));
    }
    CountUpdate(m, IsActive(), r, q);
    if p.ticket.InActive() { CountPositive(m, IsActive(), r); }
    ShownShifts(Count(m, IsActive()), p.ticket.InActive(), q.ticket.InActive());
  }

  lemma TotalsFollow(c: Counters, m: map<RequestId, Request>, r: RequestId, c': Counters, q: Request)
    requires TotalsExact(c, m) && CodesExact(c, m) && Balanced(c, Prior(m, r), c', q)
    ensures TotalsExact(c', m[r := q])
  {
    CountUpdate(m, IsCounted(), r, q);
    CountUpdate(m, IsAnswered(), r, q);
    CountUpdate(m, IsAborted(), r, q);
    if q.outcome != Prior(m, r).outcome && q.outcome.Status? {
      SumUpdate(c.status, q.outcome.code, c.StatusCount(q.outcome.code) + 1);
    }
  }

  lemma CodesFollow(c: Counters, m: map<RequestId, Request>, r: RequestId, c': Counters, q: Request)
    requires CodesExact(c, m) && Balanced(c, Prior(m, r), c', q)
    ensures CodesExact(c', m[r := q])
  {
    forall code ensures c'.StatusCount(code) == Count(m[r := q], AnsweredWith(code)) {
      CountUpdate(m, AnsweredWith(code), r, q);
      assert c.StatusCount(code) == Count(m, AnsweredWith(code));
    }
  }

  lemma BalanceKeepsExact(s: State, r: RequestId, c': Counters, q: Request)
    requires Exact(s) && Balanced(s.counters, Prior(s.requests, r), c', q)
    ensures Exact(State(c', s.requests[r := q]))
  {
    SlotsFollow(s.counters, s.requests, r, c', q);
    TotalsFollow(s.counters, s.requests, r, c', q);
    CodesFollow(s.counters, s.requests, r, c', q);
  }

  lemma ArriveKeeps(gatedLimit: U32, s: State, r: RequestId, path: string)
    requires Inv(gatedLimit, s) && r !in s.requests
    ensures Inv(gatedLimit, Apply(gatedLimit, s, r, Arrive(path)))
  {
    var q := Request(RouteClass.Of(path), Loading, NoTicket, Open, false);
    BalanceKeepsExact(s, r, s.counters, q);
    forall d ensures Count(s.requests[r := q], Holds(d)) == Live(s, d) {
      CountUpdate(s.requests, Holds(d), r, q);
    }
  }

  /** A slot is taken only while the counter, and so the number of live tickets, is below the limit. */
  lemma StepKeepsBound(gatedLimit: U32, s: State, r: RequestId, ev: Event)
    requires Inv(gatedLimit, s) && r in s.requests
    requires StepOf(gatedLimit, s.counters, s.requests[r], ev).Effect?
    ensures Bounded(gatedLimit, Apply(gatedLimit, s, r, ev))
  {
    var q := s.requests[r];
    var Effect(c', q') := StepOf(gatedLimit, s.counters, q, ev);
    StepBalances(gatedLimit, s.counters, q, ev);
    forall d | DomainLimit(gatedLimit, d) > 0
      ensures Count(s.requests[r := q'], Holds(d)) <= DomainLimit(gatedLimit, d)
    {
      CountUpdate(s.requests, Holds(d), r, q');
      assert Live(s, d) <= DomainLimit(gatedLimit, d);
      assert s.counters.Get(d) == Live(s, d);
    }
  }

  lemma EffectKeeps(gatedLimit: U32, s: State, r: RequestId, ev: Event)
    requires Inv(gatedLimit, s) && r in s.requests
    requires StepOf(gatedLimit, s.counters, s.requests[r], ev).Effect?
    ensures Inv(gatedLimit, Apply(gatedLimit, s, r, ev))
  {
    var Effect(c', q') := StepOf(gatedLimit, s.counters, s.requests[r], ev);
    StepBalances(gatedLimit, s.counters, s.requests[r], ev);
    BalanceKeepsExact(s, r, c', q');
    StepKeepsBound(gatedLimit, s, r, ev);
  }

  lemma {:induction false} Invariant(gatedLimit: U32, run: Run)
    ensures Inv(gatedLimit, After(gatedLimit, run))
  {
    if run == [] {
      StartInv(gatedLimit);
    } else {
      var (r, ev) := run[|run| - 1];
      var s := After(gatedLimit, run[..|run| - 1]);
      Invariant(gatedLimit, run[..|run| - 1]);
      if r !in s.requests {
        if ev.Arrive? { ArriveKeeps(gatedLimit, s, r, ev.path); }
      } else if StepOf(gatedLimit, s.counters, s.requests[r], ev).Effect? {
        EffectKeeps(gatedLimit, s, r, ev);
      }
    }
  }

  // ----- The gate -----

  /** In every run, a domain with a limit shows exactly its live tickets and never more than the
      limit; an unlimited one shows them as long as 64 bits can; and no drop ever underflows. */
  lemma GateIsExact(gatedLimit: U32, run: Run, d: AdmissionDomain)
    ensures var s, limit := After(gatedLimit, run), DomainLimit(gatedLimit, d);
            && (limit > 0 ==> s.counters.Get(d) == Live(s, d) <= limit)
            && (d.Probe? || d.Scrape? ==> Live(s, d) <= 64)
            && (Live(s, d) < TWO64 ==> s.counters.Get(d) == Live(s, d))
            && (forall r :: r in s.requests && Holds(d)(s.requests[r]) && (limit > 0 || Live(s, d) < TWO64) ==>
                  s.counters.Get(d) > 0)
  {
    Invariant(gatedLimit, run);
    var s := After(gatedLimit, run);
    assert s.counters.Get(d) == Shown(Live(s, d));
    forall r | r in s.requests && Holds(d)(s.requests[r]) ensures Live(s, d) > 0 {
      CountPositive(s.requests, Holds(d), r);
    }
  }

  predicate InLoop(s: State, r: RequestId) {
    r in s.requests && (s.requests[r].phase.Loading? || s.requests[r].phase.Trying?)
  }

  /** `enter` returned None to this request. */
  predicate WasRefused(q: Request) {
    q.phase.Refused? || q.phase.Rejecting? || (q.phase.Closing? && q.ticket.NoTicket?)
  }

  /** During the loop of `r`, at the state before event `k`, domain `d` showed `seen`. */
  predicate SawAt(gatedLimit: U32, run: Run, r: RequestId, d: AdmissionDomain, seen: int, k: int) {
    && 0 <= k < |run|
    && InLoop(After(gatedLimit, run[..k]), r)
    && After(gatedLimit, run[..k]).counters.Get(d) == seen
  }

  lemma SawEarlier(gatedLimit: U32, run: Run, r: RequestId, d: AdmissionDomain, seen: int, k: int)
    requires run != [] && SawAt(gatedLimit, run[..|run| - 1], r, d, seen, k)
    ensures SawAt(gatedLimit, run, r, d, seen, k)
  {
    assert run[..|run| - 1][..k] == run[..k];
  }

  /** A request starts acting on a value only by reading it in its loop. */
  lemma TryingComesFromRead(gatedLimit: U32, s: State, who: RequestId, ev: Event, r: RequestId)
    requires var s' := Apply(gatedLimit, s, who, ev); r in s'.requests && s'.requests[r].phase.Trying?
    ensures var q := Apply(gatedLimit, s, who, ev).requests[r];
            || (r in s.requests && s.requests[r] == q)
            || (InLoop(s, r) && s.counters.Get(q.route.Domain()) == q.phase.current)
  {
  }

  /** A request is refused only when the value it acts on has reached its limit. */
  lemma RefusedComesFromLimit(gatedLimit: U32, s: State, who: RequestId, ev: Event, r: RequestId)
    requires Inv(gatedLimit, s)
    requires var s' := Apply(gatedLimit, s, who, ev); r in s'.requests && WasRefused(s'.requests[r])
    ensures r in s.requests && s.requests[r].route == Apply(gatedLimit, s, who, ev).requests[r].route
    ensures var q := s.requests[r];
            || WasRefused(q)
            || (q.phase.Trying? && 0 < q.route.Limit(gatedLimit) <= q.phase.current)
  {
    if r == who && r in s.requests { assert Coherent(s.requests[r]); }
  }

  /** The value a request is about to act on was read from the counter while it was in its loop. */
  lemma {:induction false} CurrentWasSeen(gatedLimit: U32, run: Run, r: RequestId) returns (k: int)
    requires var s := After(gatedLimit, run); r in s.requests && s.requests[r].phase.Trying?
    ensures var q := After(gatedLimit, run).requests[r];
            SawAt(gatedLimit, run, r, q.route.Domain(), q.phase.current, k)
  {
    var prefix, last := run[..|run| - 1], run[|run| - 1];
    var before, q := After(gatedLimit, prefix), After(gatedLimit, run).requests[r];
    TryingComesFromRead(gatedLimit, before, last.0, last.1, r);
    if r in before.requests && before.requests[r] == q {
      k := CurrentWasSeen(gatedLimit, prefix, r);
      SawEarlier(gatedLimit, run, r, q.route.Domain(), q.phase.current, k);
    } else {
      k := |run| - 1;
    }
  }

  /** A refusal is honest: while the request was in its loop there was an instant at which the
      domain really had `limit` live tickets out, so no phantom slot ever refuses anyone. */
  lemma {:induction false} RefusalIsHonest(gatedLimit: U32, run: Run, r: RequestId) returns (k: int)
    requires r in After(gatedLimit, run).requests
    requires WasRefused(After(gatedLimit, run).requests[r])
    ensures 0 <= k < |run| && InLoop(After(gatedLimit, run[..k]), r)
    ensures var d := After(gatedLimit, run).requests[r].route.Domain();
            0 < DomainLimit(gatedLimit, d) == Live(After(gatedLimit, run[..k]), d)
  {
    var prefix, last := run[..|run| - 1], run[|run| - 1];
    var before := After(gatedLimit, prefix);
    Invariant(gatedLimit, prefix);
    RefusedComesFromLimit(gatedLimit, before, last.0, last.1, r);
    if WasRefused(before.requests[r]) {
      k := RefusalIsHonest(gatedLimit, prefix, r);
    } else {
      k := CurrentWasSeen(gatedLimit, prefix, r);
      GateIsExact(gatedLimit, prefix[..k], before.requests[r].route.Domain());
    }
    assert prefix[..k] == run[..k];
  }

  /** With `max_concurrent_requests = 0` no gated request is ever refused. */
  lemma UnlimitedNeverRefuses(run: Run, r: RequestId)
    requires r in After(0, run).requests && After(0, run).requests[r].route == GatedRoute
    ensures !WasRefused(After(0, run).requests[r])
  {
    if WasRefused(After(0, run).requests[r]) {
      var k := RefusalIsHonest(0, run, r);
    }
  }

  // ----- The accounting identity -----

  /** In every run, cancellations included: requests counted = statuses written + aborts + requests
      still open. A persistent excess is therefore a leak. */
  lemma RequestsBalance(gatedLimit: U32, run: Run)
    ensures var s := After(gatedLimit, run);
            s.counters.requestCount == Sum(s.counters.status) + s.counters.aborted + Count(s.requests, IsOpen())
  {
    Invariant(gatedLimit, run);
    var m := After(gatedLimit, run).requests;
    var settled := (q: Request) => q.outcome.Status? || q.outcome.Aborted?;
    CountSplit(m, settled, IsAnswered(), IsAborted());
    assert forall r :: r in m ==> Coherent(m[r]);
    CountSplit(m, IsCounted(), settled, IsOpen());
  }

  /** Nothing is left to run for this request. */
  predicate Settled(q: Request) {
    && q.phase.Closing?
    && (q.ticket.NoTicket? || q.ticket.Returned?)
    && (q.route.LogsAccess() ==> !q.outcome.Open?)
  }

  /** At quiescence the identity is exact and every in-flight gauge is back at zero. */
  lemma QuiescentIsBalanced(gatedLimit: U32, run: Run)
    requires forall r :: r in After(gatedLimit, run).requests ==> Settled(After(gatedLimit, run).requests[r])
    ensures var c := After(gatedLimit, run).counters;
            && c.requestCount == Sum(c.status) + c.aborted
            && c.active == 0
            && forall d :: c.Get(d) == 0
  {
    RequestsBalance(gatedLimit, run);
    Invariant(gatedLimit, run);
    var s := After(gatedLimit, run);
    assert forall r :: r in s.requests ==> Settled(s.requests[r]) && Coherent(s.requests[r]);
    CountZero(s.requests, IsOpen());
    CountZero(s.requests, IsActive());
    forall d ensures s.counters.Get(d) == 0 {
      CountZero(s.requests, Holds(d));
    }
  }

  /** What each request adds by itself: a gate rejection adds one count and, unless it is dropped
      first, one 429; a ticket outlives the status of its request until the body ends; a scrape
      is part of no accounting term. */
  lemma RequestContributions(gatedLimit: U32, run: Run, r: RequestId)
    requires r in After(gatedLimit, run).requests
    ensures var q := After(gatedLimit, run).requests[r];
            && (q.phase.Rejecting? || q.phase.Closing? ==> q.counted == q.route.Counted())
            && (WasRefused(q) && q.outcome.Status? ==> q.outcome == Status(429))
            && (!q.outcome.Open? ==> q.counted)
            && (q.outcome.Status? && !q.phase.Closing? ==> q.ticket.InDomain())
            && (q.route == ScrapeRoute ==> !q.counted && q.outcome.Open? && !q.ticket.InActive())
  {
    Invariant(gatedLimit, run);
  }

  // ----- Domains do not interfere -----

  /** Each request arrives on the route `routeOf` gives it. */
  ghost predicate RoutesAre(run: Run, routeOf: RequestId -> RouteClass) {
    forall i :: 0 <= i < |run| && run[i].1.Arrive? ==> RouteClass.Of(run[i].1.path) == routeOf(run[i].0)
  }

  /** The events of the run that belong to the requests in `keep`. */
  function Only(run: Run, keep: RequestId -> bool): Run {
    if run == [] then []
    else
      var rest := Only(run[..|run| - 1], keep);
      if keep(run[|run| - 1].0) then rest + [run[|run| - 1]] else rest
  }

  function In(routeOf: RequestId -> RouteClass, d: AdmissionDomain): RequestId -> bool {
    r => routeOf(r).Domain() == d
  }

  /** `s` and `t` hold the same requests among those in `keep`, all on their own routes. */
  ghost predicate SameRequests(s: State, t: State, routeOf: RequestId -> RouteClass, keep: RequestId -> bool) {
    && (forall r :: r in s.requests ==> s.requests[r].route == routeOf(r))
    && (forall r :: keep(r) ==> (r in s.requests <==> r in t.requests))
    && (forall r :: keep(r) && r in s.requests ==> s.requests[r] == t.requests[r])
  }

  /** A request sees of the shared counters only its own domain. */
  lemma StepSeesOwnDomain(gatedLimit: U32, c: Counters, c2: Counters, q: Request, ev: Event)
    requires c.Get(q.route.Domain()) == c2.Get(q.route.Domain())
    ensures var e, e2 := StepOf(gatedLimit, c, q, ev), StepOf(gatedLimit, c2, q, ev);
            && e.Effect? == e2.Effect?
            && (e.Effect? ==>
                  && e.request == e2.request && e.request.route == q.route
                  && e.counters.Get(q.route.Domain()) == e2.counters.Get(q.route.Domain())
                  && forall d :: d != q.route.Domain() ==> e.counters.Get(d) == c.Get(d))
  {
  }

  /** Whatever the other domains do, a domain behaves as if it were alone: the same tickets, the
      same refusals, the same counter. A flood of probes or scrapes cannot make `/v1` answer 429,
      nor the other way round. */
  lemma {:induction false} DomainsAreIndependent(gatedLimit: U32, run: Run, routeOf: RequestId -> RouteClass,
                                                 d: AdmissionDomain)
    requires RoutesAre(run, routeOf)
    ensures var s, t := After(gatedLimit, run), After(gatedLimit, Only(run, In(routeOf, d)));
            SameRequests(s, t, routeOf, In(routeOf, d)) && s.counters.Get(d) == t.counters.Get(d)
  {
    if run != [] {
      var prefix := run[..|run| - 1];
      var (r, ev) := run[|run| - 1];
      DomainsAreIndependent(gatedLimit, prefix, routeOf, d);
      var s, t := After(gatedLimit, prefix), After(gatedLimit, Only(prefix, In(routeOf, d)));
      if In(routeOf, d)(r) {
        assert Only(run, In(routeOf, d))[..|Only(run, In(routeOf, d))| - 1] == Only(prefix, In(routeOf, d));
        if r in s.requests { StepSeesOwnDomain(gatedLimit, s.counters, t.counters, s.requests[r], ev); }
      } else if r in s.requests {
        StepSeesOwnDomain(gatedLimit, s.counters, s.counters, s.requests[r], ev);
      }
    }
  }

  function NotScrape(routeOf: RequestId -> RouteClass): RequestId -> bool {
    r => routeOf(r) != ScrapeRoute
  }

  lemma ScrapeStepMovesNothingElse(gatedLimit: U32, c: Counters, q: Request, ev: Event)
    requires Coherent(q) && q.route == ScrapeRoute && StepOf(gatedLimit, c, q, ev).Effect?
    ensures StepOf(gatedLimit, c, q, ev).counters.(scrape := c.scrape) == c
  {
  }

  lemma OtherStepIgnoresScrape(gatedLimit: U32, c: Counters, q: Request, ev: Event, v: U64)
    requires q.route != ScrapeRoute
    ensures var e, e2 := StepOf(gatedLimit, c, q, ev), StepOf(gatedLimit, c.(scrape := v), q, ev);
            && e.Effect? == e2.Effect?
            && (e.Effect? ==> e.request == e2.request && e2.counters == e.counters.(scrape := v))
  {
  }

  ghost predicate SameButScrapes(s: State, t: State, routeOf: RequestId -> RouteClass) {
    && SameRequests(s, t, routeOf, NotScrape(routeOf))
    && s.counters.(scrape := t.counters.scrape) == t.counters
  }

  lemma KeptStepFollows(gatedLimit: U32, s: State, t: State, routeOf: RequestId -> RouteClass, r: RequestId, ev: Event)
    requires SameButScrapes(s, t, routeOf) && routeOf(r) != ScrapeRoute
    requires ev.Arrive? ==> RouteClass.Of(ev.path) == routeOf(r)
    ensures SameButScrapes(Apply(gatedLimit, s, r, ev), Apply(gatedLimit, t, r, ev), routeOf)
  {
    if r in s.requests {
      StepSeesOwnDomain(gatedLimit, s.counters, s.counters, s.requests[r], ev);
      OtherStepIgnoresScrape(gatedLimit, s.counters, s.requests[r], ev, t.counters.scrape);
    }
  }

  lemma ScrapeStepIsInvisible(gatedLimit: U32, s: State, t: State, routeOf: RequestId -> RouteClass, r: RequestId,
                              ev: Event)
    requires SameButScrapes(s, t, routeOf) && routeOf(r) == ScrapeRoute && (r in s.requests ==> Coherent(s.requests[r]))
    requires ev.Arrive? ==> RouteClass.Of(ev.path) == routeOf(r)
    ensures SameButScrapes(Apply(gatedLimit, s, r, ev), t, routeOf)
  {
    if r in s.requests && StepOf(gatedLimit, s.counters, s.requests[r], ev).Effect? {
      StepSeesOwnDomain(gatedLimit, s.counters, s.counters, s.requests[r], ev);
      ScrapeStepMovesNothingElse(gatedLimit, s.counters, s.requests[r], ev);
    }
  }

  /** Scrapes leave no trace: deleting every `/metrics` request from a run changes no counter but
      their own, so no scrape ever shifts the accounting identity. */
  lemma {:induction false} ScrapesLeaveNoTrace(gatedLimit: U32, run: Run, routeOf: RequestId -> RouteClass)
    requires RoutesAre(run, routeOf)
    ensures SameButScrapes(After(gatedLimit, run), After(gatedLimit, Only(run, NotScrape(routeOf))), routeOf)
  {
    if run != [] {
      var prefix := run[..|run| - 1];
      var (r, ev) := run[|run| - 1];
      ScrapesLeaveNoTrace(gatedLimit, prefix, routeOf);
      Invariant(gatedLimit, prefix);
      var s, t := After(gatedLimit, prefix), After(gatedLimit, Only(prefix, NotScrape(routeOf)));
      if NotScrape(routeOf)(r) {
        assert Only(run, NotScrape(routeOf))[..|Only(run, NotScrape(routeOf))| - 1] == Only(prefix, NotScrape(routeOf));
        KeptStepFollows(gatedLimit, s, t, routeOf, r, ev);
      } else {
        ScrapeStepIsInvisible(gatedLimit, s, t, routeOf, r, ev);
      }
    }
  }

  // ----- The loop of `enter` as it is written -----

  /** What the counter shows at one atomic access, and whether a weak exchange fails there anyway. */
  datatype Reading = Reading(counter: U64, spurious: bool)

  datatype EnterResult = Admitted(at: nat) | NoSlot(at: nat) | StillLooping

  /** What the loop makes of the values it meets, turn by turn. */
  function Decide(limit: U32, seen: seq<Reading>): EnterResult {
    if seen == [] then StillLooping
    else
      var last := |seen| - 1;
      var before := Decide(limit, seen[..last]);
      if !before.StillLooping? then before
      else if limit == 0 then Admitted(last)
      else if last > 0 && LoopTurn(limit, seen[last - 1].counter, seen[last].counter, seen[last].spurious).Take?
      then Admitted(last)
      else if seen[last].counter >= limit then NoSlot(last)
      else StillLooping
  }

  lemma {:induction false} DecisionStands(limit: U32, seen: seq<Reading>, k: nat)
    requires k <= |seen| && !Decide(limit, seen[..k]).StillLooping?
    ensures Decide(limit, seen) == Decide(limit, seen[..k])
    decreases |seen|
  {
    if k == |seen| {
      assert seen[..k] == seen;
    } else {
      assert seen[..|seen| - 1][..k] == seen[..k];
      DecisionStands(limit, seen[..|seen| - 1], k);
    }
  }

  /** The exchange at access `k` succeeds. */
  predicate Exchanges(seen: seq<Reading>, k: int)
    requires 0 < k < |seen|
  {
    seen[k].counter == seen[k - 1].counter && !seen[k].spurious
  }

  /** The compare-and-swap loop against arbitrary interference, given as the values it meets. It
      gives up at the first reading that reached the limit and otherwise takes the slot at the
      first exchange that succeeds; an unlimited domain takes it at once. */
  method EnterLoop(limit: U32, seen: seq<Reading>) returns (result: EnterResult)
    ensures result == Decide(limit, seen)
    ensures result.NoSlot? ==>
              && result.at < |seen| && limit > 0 && seen[result.at].counter >= limit
              && (forall j :: 0 <= j < result.at ==> seen[j].counter < limit)
              && (forall j :: 0 < j <= result.at ==> !Exchanges(seen, j))
    ensures result.Admitted? ==>
              && result.at < |seen|
              && (if limit == 0 then result.at == 0 else
                    && 0 < result.at && Exchanges(seen, result.at)
                    && (forall j :: 0 <= j <= result.at ==> seen[j].counter < limit)
                    && (forall j :: 0 < j < result.at ==> !Exchanges(seen, j)))
    ensures result.StillLooping? ==>
              && (limit == 0 ==> seen == [])
              && (forall j :: 0 <= j < |seen| ==> seen[j].counter < limit)
              && (forall j :: 0 < j < |seen| ==> !Exchanges(seen, j))
  {
    if seen == [] { return StillLooping; }
    assert seen[..1][..0] == seen[..0] == [];
    if limit == 0 {
      DecisionStands(limit, seen, 1);
      return Admitted(0);
    }
    var current, k := seen[0].counter, 1;
    while true
      invariant 0 < k <= |seen| && current == seen[k - 1].counter
      invariant Decide(limit, seen[..k]) == if current >= limit then NoSlot(k - 1) else StillLooping
      invariant forall j :: 0 <= j < k - 1 ==> seen[j].counter < limit
      invariant forall j :: 0 < j < k ==> !Exchanges(seen, j)
      decreases |seen| - k
    {
      if current >= limit {
        DecisionStands(limit, seen, k);
        return NoSlot(k - 1);
      }
      if k == |seen| {
        assert seen[..k] == seen;
        return StillLooping;
      }
      assert seen[..k + 1][..k] == seen[..k];
      if seen[k].counter == current && !seen[k].spurious {
        DecisionStands(limit, seen, k + 1);
        return Admitted(k);
      }
      current, k := seen[k].counter, k + 1;
    }
  }

  /** The values that request `r` meets at its accesses in a run. */
  function Seen(gatedLimit: U32, run: Run, r: RequestId): seq<Reading> {
    if run == [] then []
    else
      var (who, ev) := run[|run| - 1];
      var s := After(gatedLimit, run[..|run| - 1]);
      var before := Seen(gatedLimit, run[..|run| - 1], r);
      if who == r && ev.Access? && InLoop(s, r) then
        before + [Reading(s.counters.Get(s.requests[r].route.Domain()), ev.spurious)]
      else before
  }

  /** Where the loop has brought a request that met these values. */
  predicate Follows(limit: U32, q: Request, seen: seq<Reading>) {
    var decision := Decide(limit, seen);
    match q.phase
    case Loading => seen == []
    case Trying(current) =>
      && seen != [] && seen[|seen| - 1].counter == current
      && decision == if current >= limit then NoSlot(|seen| - 1) else StillLooping
    case _ => if WasRefused(q) then decision.NoSlot? else decision.Admitted?
  }

  lemma AccessFollows(limit: U32, c: Counters, q: Request, spurious: bool, seen: seq<Reading>)
    requires Coherent(q) && (q.phase.Loading? || q.phase.Trying?) && Follows(limit, q, seen)
    requires q.phase.Trying? ==> limit > 0
    ensures Follows(limit, AccessStep(limit, c, q, spurious).1, seen + [Reading(c.Get(q.route.Domain()), spurious)])
  {
    var more := seen + [Reading(c.Get(q.route.Domain()), spurious)];
    assert more[..|seen|] == seen;
  }

  lemma OthersFollow(gatedLimit: U32, c: Counters, q: Request, ev: Event, limit: U32, seen: seq<Reading>)
    requires Coherent(q) && !ev.Access? && Follows(limit, q, seen) && StepOf(gatedLimit, c, q, ev).Effect?
    ensures Follows(limit, StepOf(gatedLimit, c, q, ev).request, seen)
  {
  }

  /** In every run each request is admitted or refused exactly as the loop decides on the values that
      the request met: it is past the loop with a slot if and only if the loop took one, and past it
      without if and only if the loop gave up. */
  lemma {:induction false} RunFollowsLoop(gatedLimit: U32, run: Run, r: RequestId)
    ensures r !in After(gatedLimit, run).requests ==> Seen(gatedLimit, run, r) == []
    ensures var s := After(gatedLimit, run);
            r in s.requests ==> Follows(s.requests[r].route.Limit(gatedLimit), s.requests[r], Seen(gatedLimit, run, r))
  {
    if run != [] {
      var prefix := run[..|run| - 1];
      var (who, ev) := run[|run| - 1];
      var s := After(gatedLimit, prefix);
      RunFollowsLoop(gatedLimit, prefix, r);
      if who == r && r in s.requests && StepOf(gatedLimit, s.counters, s.requests[r], ev).Effect? {
        var q := s.requests[r];
        Invariant(gatedLimit, prefix);
        assert Coherent(q) && LoopsOnlyIfLimited(gatedLimit, q);
        StepBalances(gatedLimit, s.counters, q, ev);
        if ev.Access? {
          AccessFollows(q.route.Limit(gatedLimit), s.counters, q, ev.spurious, Seen(gatedLimit, prefix, r));
        } else {
          OthersFollow(gatedLimit, s.counters, q, ev, q.route.Limit(gatedLimit), Seen(gatedLimit, prefix, r));
        }
      }
    }
  }
}
