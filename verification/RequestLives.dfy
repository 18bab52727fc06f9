/** What becomes of one request over a run of the admission gate: the path it arrived on decides which
    counters it moves, the event that ends its service decides what is recorded for it, and its slot
    stays taken until the body of its answer has ended. */
module RequestLives {
  import opened Admission
  import opened Words

  // ----- One more event -----

  lemma AfterSnoc(gatedLimit: U32, run: Run, r: RequestId, ev: Event)
    ensures After(gatedLimit, run + [(r, ev)]) == Apply(gatedLimit, After(gatedLimit, run), r, ev)
  {
    assert (run + [(r, ev)])[..|run|] == run;
  }

  /** Request `r` as the first `k` events leave it. */
  predicate IsIn(gatedLimit: U32, run: Run, r: RequestId, k: int) {
    0 <= k <= |run| && r in After(gatedLimit, run[..k]).requests
  }

  function At(gatedLimit: U32, run: Run, r: RequestId, k: int): Request
    requires IsIn(gatedLimit, run, r, k)
  {
    After(gatedLimit, run[..k]).requests[r]
  }

  /** A request never leaves the table; it changes by its own events alone. */
  lemma NextRequest(gatedLimit: U32, run: Run, r: RequestId, k: nat)
    requires k < |run| && IsIn(gatedLimit, run, r, k)
    ensures IsIn(gatedLimit, run, r, k + 1) && Coherent(At(gatedLimit, run, r, k))
    ensures run[k].0 != r ==> At(gatedLimit, run, r, k + 1) == At(gatedLimit, run, r, k)
    ensures run[k].0 == r ==>
              var s := After(gatedLimit, run[..k]);
              At(gatedLimit, run, r, k + 1) == match StepOf(gatedLimit, s.counters, s.requests[r], run[k].1)
                                               case None => s.requests[r]
                                               case Effect(_, q) => q
  {
    assert run[..k + 1] == run[..k] + [(run[k].0, run[k].1)];
    AfterSnoc(gatedLimit, run[..k], run[k].0, run[k].1);
    Invariant(gatedLimit, run[..k]);
  }

  // ----- The path a request arrived on -----

  /** Event `k` is the arrival of `r`. */
  predicate ArrivesAt(gatedLimit: U32, run: Run, r: RequestId, path: string, k: int) {
    0 <= k < |run| && run[k] == (r, Arrive(path)) && r !in After(gatedLimit, run[..k]).requests
  }

  lemma {:induction false} RouteStays(gatedLimit: U32, run: Run, r: RequestId, k: nat, n: nat)
    requires k <= n <= |run| && IsIn(gatedLimit, run, r, k)
    ensures IsIn(gatedLimit, run, r, n) && At(gatedLimit, run, r, n).route == At(gatedLimit, run, r, k).route
    decreases n
  {
    if k < n {
      RouteStays(gatedLimit, run, r, k, n - 1);
      NextRequest(gatedLimit, run, r, n - 1);
      var s := After(gatedLimit, run[..n - 1]);
      if StepOf(gatedLimit, s.counters, s.requests[r], run[n - 1].1).Effect? {
        StepBalances(gatedLimit, s.counters, s.requests[r], run[n - 1].1);
      }
    }
  }

  /** Past its loop: admitted or refused, and booked. */
  predicate Booked(q: Request) {
    q.phase.Rejecting? || q.phase.Handling? || q.phase.Streaming? || q.phase.Closing?
  }

  /** Exactly the path `/metrics` stays out of the accounting: every other request is counted once it is past
      its loop, is active while in service, and settles only with a status or an abort; a scrape does none of
      that. And the path decides the slot: `/healthz` takes one of the probes', `/metrics` one of the
      scrapes', and every other path, however it begins, one of the gated ones. */
  lemma PathDecides(gatedLimit: U32, run: Run, r: RequestId, path: string, k: int)
    requires ArrivesAt(gatedLimit, run, r, path, k)
    ensures r in After(gatedLimit, run).requests
    ensures var q := After(gatedLimit, run).requests[r];
            && (path == "/metrics" ==> !q.counted && q.outcome.Open? && !q.ticket.InActive())
            && (path != "/metrics" ==>
                  && (q.counted <==> Booked(q))
                  && (q.phase.Handling? || q.phase.Streaming? ==> q.ticket.InActive())
                  && (Settled(q) ==> q.outcome.Status? || q.outcome.Aborted?))
            && (Holds(Probe)(q) <==> q.ticket.InDomain() && path == "/healthz")
            && (Holds(Scrape)(q) <==> q.ticket.InDomain() && path == "/metrics")
            && (Holds(Gated)(q) <==> q.ticket.InDomain() && path != "/healthz" && path != "/metrics")
  {
    assert run[..k + 1] == run[..k] + [(r, Arrive(path))];
    AfterSnoc(gatedLimit, run[..k], r, Arrive(path));
    RouteStays(gatedLimit, run, r, k + 1, |run|);
    assert run[..|run|] == run;
    Invariant(gatedLimit, run);
    assert Coherent(After(gatedLimit, run).requests[r]);
  }

  /** Every request of a run arrived on some path. */
  lemma {:induction false} ArrivalOf(gatedLimit: U32, run: Run, r: RequestId) returns (path: string, k: int)
    requires r in After(gatedLimit, run).requests
    ensures ArrivesAt(gatedLimit, run, r, path, k)
  {
    var prefix, last := run[..|run| - 1], run[|run| - 1];
    if r in After(gatedLimit, prefix).requests {
      path, k := ArrivalOf(gatedLimit, prefix, r);
      assert prefix[..k] == run[..k];
    } else {
      path, k := last.1.path, |run| - 1;
    }
  }

  // ----- The event that ends the service -----

  /** Just before event `k`, request `r` was in service with a slot. */
  predicate InService(gatedLimit: U32, run: Run, r: RequestId, k: int) {
    IsIn(gatedLimit, run, r, k) && At(gatedLimit, run, r, k).phase.Handling?
  }

  /** Just before event `k`, the 429 of request `r` was on its way out. */
  predicate TurnedAway(gatedLimit: U32, run: Run, r: RequestId, k: int) {
    IsIn(gatedLimit, run, r, k) && At(gatedLimit, run, r, k).phase.Rejecting?
  }

  /** Event `k` is the answer to `r`, which brings the status `code` out. */
  predicate AnswersWith(gatedLimit: U32, run: Run, r: RequestId, code: nat, k: int) {
    && 0 <= k < |run| && run[k].0 == r && run[k].1.Respond?
    && ((InService(gatedLimit, run, r, k) && run[k].1.code == code)
        || (TurnedAway(gatedLimit, run, r, k) && code == 429))
  }

  /** Event `k` drops `r` before its answer. */
  predicate DropsUnanswered(gatedLimit: U32, run: Run, r: RequestId, k: int) {
    && 0 <= k < |run| && run[k] == (r, Disappear)
    && (InService(gatedLimit, run, r, k) || TurnedAway(gatedLimit, run, r, k))
  }

  /** No event of `r` from `k` to `n` ends the body of its answer. */
  predicate BodyRuns(run: Run, r: RequestId, k: int, n: int) {
    forall i :: 0 <= k <= i < n <= |run| ==> run[i] != (r, BodyEnds)
  }

  /** What the answer of `r` at event `k` leaves, up to event `n`. */
  lemma {:induction false} AnswerStaysUntil(gatedLimit: U32, run: Run, r: RequestId, code: nat, k: int, n: int)
    requires AnswersWith(gatedLimit, run, r, code, k) && k < n <= |run|
    ensures IsIn(gatedLimit, run, r, n)
    ensures var q := At(gatedLimit, run, r, n);
            && (q.phase.Streaming? || q.phase.Closing?)
            && (if q.route == ScrapeRoute then q.outcome.Open? else q.outcome == Status(code))
            && (InService(gatedLimit, run, r, k) && BodyRuns(run, r, k, n) ==> q.phase.Streaming?)
    decreases n
  {
    if n == k + 1 {
      NextRequest(gatedLimit, run, r, k);
    } else {
      AnswerStaysUntil(gatedLimit, run, r, code, k, n - 1);
      NextRequest(gatedLimit, run, r, n - 1);
      if BodyRuns(run, r, k, n) { assert run[n - 1] != (r, BodyEnds); }
    }
  }

  /** The status that is recorded is the one that was answered: once the inner service has answered a request
      with `code`, that status stands for good, and the slot stays taken until the body of the answer has
      ended. A refused request is recorded as 429. */
  lemma AnswerStands(gatedLimit: U32, run: Run, r: RequestId, code: nat, k: int)
    requires AnswersWith(gatedLimit, run, r, code, k)
    ensures r in After(gatedLimit, run).requests
    ensures var q := After(gatedLimit, run).requests[r];
            && (if q.route == ScrapeRoute then q.outcome.Open? else q.outcome == Status(code))
            && (InService(gatedLimit, run, r, k) && BodyRuns(run, r, k, |run|) ==> q.ticket.InDomain())
  {
    AnswerStaysUntil(gatedLimit, run, r, code, k, |run|);
    assert run[..|run|] == run;
    Invariant(gatedLimit, run);
    assert Coherent(After(gatedLimit, run).requests[r]);
  }

  lemma {:induction false} DropStaysUntil(gatedLimit: U32, run: Run, r: RequestId, k: int, n: int)
    requires DropsUnanswered(gatedLimit, run, r, k) && k < n <= |run|
    ensures IsIn(gatedLimit, run, r, n)
    ensures var q := At(gatedLimit, run, r, n); q.phase.Closing? && !q.outcome.Status?
    decreases n
  {
    if n == k + 1 {
      NextRequest(gatedLimit, run, r, k);
    } else {
      DropStaysUntil(gatedLimit, run, r, k, n - 1);
      NextRequest(gatedLimit, run, r, n - 1);
    }
  }

  /** A request dropped before its answer is never recorded with a status; once it has settled, it is
      recorded as aborted, unless it is a scrape. */
  lemma DropStands(gatedLimit: U32, run: Run, r: RequestId, k: int)
    requires DropsUnanswered(gatedLimit, run, r, k)
    ensures r in After(gatedLimit, run).requests
    ensures var q := After(gatedLimit, run).requests[r];
            && !q.outcome.Status?
            && (Settled(q) ==> if q.route == ScrapeRoute then q.outcome.Open? else q.outcome.Aborted?)
  {
    DropStaysUntil(gatedLimit, run, r, k, |run|);
    assert run[..|run|] == run;
    Invariant(gatedLimit, run);
    assert Coherent(After(gatedLimit, run).requests[r]);
  }

  /** Every recorded outcome comes from such an event: a status from the answer that carried it, an abort
      from a drop before the answer. */
  lemma {:induction false} OutcomeComesFromEvent(gatedLimit: U32, run: Run, r: RequestId) returns (k: int)
    requires r in After(gatedLimit, run).requests
    ensures var q := After(gatedLimit, run).requests[r];
            && (q.outcome.Status? ==> AnswersWith(gatedLimit, run, r, q.outcome.code, k))
            && (q.outcome.Aborted? ==> DropsUnanswered(gatedLimit, run, r, k))
  {
    var q := After(gatedLimit, run).requests[r];
    if q.outcome.Open? {
      return 0;
    }
    assert run[..|run|] == run;
    k := EndOf(gatedLimit, run, r, |run|);
  }

  /** The event before `n` that ended the service of a request that has streamed or closed since. */
  lemma {:induction false} EndOf(gatedLimit: U32, run: Run, r: RequestId, n: nat) returns (k: int)
    requires IsIn(gatedLimit, run, r, n)
    requires var q := At(gatedLimit, run, r, n); q.phase.Streaming? || q.phase.Closing? || !q.outcome.Open?
    ensures 0 <= k < n && run[k].0 == r
    ensures var q := At(gatedLimit, run, r, n);
            && (q.outcome.Status? ==> AnswersWith(gatedLimit, run, r, q.outcome.code, k))
            && (q.outcome.Aborted? ==> DropsUnanswered(gatedLimit, run, r, k))
            && (q.outcome.Open? && q.route != ScrapeRoute ==> DropsUnanswered(gatedLimit, run, r, k))
    decreases n
  {
    assert run[..0] == [];
    assert run[..n] == run[..n - 1] + [(run[n - 1].0, run[n - 1].1)];
    AfterSnoc(gatedLimit, run[..n - 1], run[n - 1].0, run[n - 1].1);
    assert IsIn(gatedLimit, run, r, n - 1);
    NextRequest(gatedLimit, run, r, n - 1);
    var p := At(gatedLimit, run, r, n - 1);
    if p.phase.Streaming? || p.phase.Closing? {
      k := EndOf(gatedLimit, run, r, n - 1);
    } else {
      k := n - 1;
    }
  }

  // ----- Nothing is left hanging -----

  /** Every request can be brought to its end by events of its own, wherever it is and whatever the others
      do: no lock, no slot and no counter of another request stands in its way. */
  lemma EveryRequestSettles(gatedLimit: U32, run: Run, r: RequestId) returns (more: Run)
    requires r in After(gatedLimit, run).requests
    ensures forall i :: 0 <= i < |more| ==> more[i].0 == r
    ensures r in After(gatedLimit, run + more).requests && Settled(After(gatedLimit, run + more).requests[r])
  {
    Invariant(gatedLimit, run);
    var s := After(gatedLimit, run);
    var q := s.requests[r];
    more := [];
    assert run + more == run;
    while !Settled(q)
      invariant s == After(gatedLimit, run + more) && r in s.requests && q == s.requests[r]
      invariant forall i :: 0 <= i < |more| ==> more[i].0 == r
      invariant Coherent(q)
      decreases ToGo(s, q)
    {
      var ev := NextOf(q);
      AfterSnoc(gatedLimit, run + more, r, ev);
      assert run + (more + [(r, ev)]) == (run + more) + [(r, ev)];
      OwnEventAdvances(gatedLimit, s, r);
      more := more + [(r, ev)];
      s := Apply(gatedLimit, s, r, ev);
      q := s.requests[r];
    }
  }

  /** The event that takes a request on. */
  function NextOf(q: Request): Event {
    match q.phase
    case Loading => Access(false)
    case Trying(_) => Access(false)
    case Entered => Account
    case Refused => Account
    case Rejecting => Respond(429)
    case Handling => Respond(200)
    case Streaming => BodyEnds
    case Closing => if q.ticket.InDomain() || q.ticket.DomainReturned? then DropTicket else DropGuard
  }

  /** How far a request is from its end. */
  function ToGo(s: State, q: Request): nat {
    match q.phase
    case Loading => 12
    case Trying(current) => if current == s.counters.Get(q.route.Domain()) then 10 else 11
    case Entered => if q.ticket.Taken? then 9 else 8
    case Refused => 9
    case Rejecting => 7
    case Handling => 7
    case Streaming => 6
    case Closing =>
      (if q.ticket.InDomain() then 2 else if q.ticket.DomainReturned? then 1 else 0) + if q.outcome.Open? then 1 else 0
  }

  lemma OwnEventAdvances(gatedLimit: U32, s: State, r: RequestId)
    requires r in s.requests && Coherent(s.requests[r]) && !Settled(s.requests[r])
    ensures var s' := Apply(gatedLimit, s, r, NextOf(s.requests[r]));
            r in s'.requests && Coherent(s'.requests[r]) && ToGo(s', s'.requests[r]) < ToGo(s, s.requests[r])
  {
    var q := s.requests[r];
    assert StepOf(gatedLimit, s.counters, q, NextOf(q)).Effect?;
    StepBalances(gatedLimit, s.counters, q, NextOf(q));
  }
}
