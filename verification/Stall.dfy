/** Stalling is lack of progress, not slowness: the write-side wrapper that cuts a client which takes
    no byte for a while, and the reader that gives up on a request body which stops flowing. */
module Stall {
  import opened Options
  import opened Words

  // ----- Writing -----

  /** One poll of the wrapped writer: when, and whether the inner writer was ready (with a result or
      an error of its own). */
  datatype Poll = Poll(now: nat, ready: bool)

  datatype Outcome = Ready | Pending | TimedOut

  /** `poll_with_stall`: the timer is armed by the first pending poll and disarmed by readiness and by
      its own expiry. */
  function Step(armed: Option<nat>, stall: nat, p: Poll): (Option<nat>, Outcome) {
    if p.ready then (None, Ready)
    else
      var deadline := if armed.Some? then armed.value else p.now + stall;
      if p.now >= deadline then (None, TimedOut) else (Some(deadline), Pending)
  }

  class WriteStall {
    const stall: nat
    var armed: Option<nat>

    constructor (stall: nat)
      ensures this.stall == stall && armed == None
    {
      this.stall := stall;
      armed := None;
    }

    method PollWithStall(p: Poll) returns (outcome: Outcome)
      modifies this
      ensures (armed, outcome) == Step(old(armed), stall, p)
    {
      if p.ready {
        armed := None;
        return Ready;
      }
      if armed.None? { armed := Some(p.now + stall); }
      if p.now >= armed.value {
        armed := None;
        return TimedOut;
      }
      return Pending;
    }
  }

  /** The timer after a trace of polls, and the outcome of its last poll. */
  function Armed(stall: nat, trace: seq<Poll>): Option<nat> {
    if trace == [] then None else Step(Armed(stall, trace[..|trace| - 1]), stall, trace[|trace| - 1]).0
  }

  function OutcomeAt(stall: nat, trace: seq<Poll>, i: nat): Outcome
    requires i < |trace|
  {
    Step(Armed(stall, trace[..i]), stall, trace[i]).1
  }

  /** The client has been stuck from poll `j` to poll `i`: all of them pending, none timed out before
      `i`, and `j` is the first since progress or the last timeout. */
  predicate StuckSince(stall: nat, trace: seq<Poll>, j: nat, i: nat)
    requires i < |trace|
  {
    && j <= i
    && (forall k :: j <= k <= i ==> !trace[k].ready)
    && (forall k :: j <= k < i ==> OutcomeAt(stall, trace, k) != TimedOut)
    && (j > 0 ==> trace[j - 1].ready || OutcomeAt(stall, trace, j - 1) == TimedOut)
  }

  /** The timer is armed exactly while the client is stuck, and runs from the first stuck poll. */
  lemma {:induction false} ArmedSinceStuck(stall: nat, trace: seq<Poll>, i: nat) returns (j: nat)
    requires i < |trace|
    ensures Armed(stall, trace[..i + 1]).Some? ==>
              StuckSince(stall, trace, j, i) && Armed(stall, trace[..i + 1]).value == trace[j].now + stall
    ensures Armed(stall, trace[..i + 1]).None? <==> trace[i].ready || OutcomeAt(stall, trace, i) == TimedOut
  {
    assert trace[..i + 1][..i] == trace[..i];
    j := i;
    if i > 0 && Armed(stall, trace[..i]).Some? {
      j := ArmedSinceStuck(stall, trace, i - 1);
    } else if i > 0 {
      var _ := ArmedSinceStuck(stall, trace, i - 1);
    }
  }

  /** A pending poll belongs to exactly one stuck stretch, whose start decides its outcome. */
  lemma StuckStart(stall: nat, trace: seq<Poll>, i: nat) returns (start: nat)
    requires i < |trace| && !trace[i].ready
    ensures StuckSince(stall, trace, start, i)
    ensures OutcomeAt(stall, trace, i) == if trace[i].now >= trace[start].now + stall then TimedOut else Pending
  {
    start := i;
    if i > 0 {
      var before := ArmedSinceStuck(stall, trace, i - 1);
      if Armed(stall, trace[..i]).Some? { start := before; }
    }
  }

  lemma StuckIsUnique(stall: nat, trace: seq<Poll>, j: nat, k: nat, i: nat)
    requires i < |trace| && StuckSince(stall, trace, j, i) && StuckSince(stall, trace, k, i)
    ensures j == k
  {
  }

  /** The client has been stuck for at least `stall` at poll `i`, measured from the first pending poll since
      it last made progress. */
  ghost predicate StuckTooLong(stall: nat, trace: seq<Poll>, i: nat)
    requires i < |trace|
  {
    exists j :: 0 <= j <= i && StuckSince(stall, trace, j, i) && trace[i].now >= trace[j].now + stall
  }

  /** A poll times out exactly when the client has been stuck for too long; it is ready exactly when the inner
      writer is, whatever the timer says; and otherwise it is pending. */
  lemma TimesOutIffStuck(stall: nat, trace: seq<Poll>, i: nat)
    requires i < |trace|
    ensures OutcomeAt(stall, trace, i) == TimedOut <==> StuckTooLong(stall, trace, i)
    ensures OutcomeAt(stall, trace, i) == Ready <==> trace[i].ready
    ensures OutcomeAt(stall, trace, i) == Pending <==> !trace[i].ready && !StuckTooLong(stall, trace, i)
  {
    if !trace[i].ready {
      var start := StuckStart(stall, trace, i);
      forall j | 0 <= j <= i && StuckSince(stall, trace, j, i) ensures j == start {
        StuckIsUnique(stall, trace, j, start, i);
      }
    }
  }

  // ----- Reading a request body -----

  datatype Item = Data(bytes: seq<Byte>) | Trailers | BodyError | EndOfBody

  /** What arrives next on the body, and how long after the previous read. If it arrives exactly when
      the timer fires, `tie` tells who is seen first. */
  datatype Arrival = Arrival(gap: nat, tie: bool, item: Item)

  datatype BodyRead = Body(bytes: seq<Byte>) | Stalled | TooLarge | Failed

  predicate OnTime(a: Arrival, stall: nat) { a.gap < stall || (a.gap == stall && a.tie) }

  /** All data bytes of the arrivals, in order. */
  function Payload(arrivals: seq<Arrival>): seq<Byte> {
    if arrivals == [] then []
    else
      var last := arrivals[|arrivals| - 1];
      Payload(arrivals[..|arrivals| - 1]) + if last.item.Data? then last.item.bytes else []
  }

  /** The first `n` arrivals came in time, were data or trailers, and fitted the limit throughout. */
  predicate Flows(arrivals: seq<Arrival>, stall: nat, limit: nat, n: nat)
    requires n <= |arrivals|
  {
    && (forall i :: 0 <= i < n ==> OnTime(arrivals[i], stall) && (arrivals[i].item.Data? || arrivals[i].item.Trailers?))
    && |Payload(arrivals[..n])| <= limit
  }

  /** What the arrival after the first `n` makes of the read; None means it goes on. */
  function Verdict(arrivals: seq<Arrival>, stall: nat, limit: nat, n: nat): Option<BodyRead>
    requires n <= |arrivals|
  {
    if n == |arrivals| || !OnTime(arrivals[n], stall) then Some(Stalled)
    else match arrivals[n].item
      case BodyError => Some(Failed)
      case EndOfBody => Some(Body(Payload(arrivals[..n])))
      case Trailers => None
      case Data(bytes) => if |Payload(arrivals[..n])| + |bytes| > limit then Some(TooLarge) else None
  }

  /** `read_body_with_stall`, and how many arrivals it consumed: everything before the deciding one
      flowed, and the result is what that one makes of it. */
  method ReadBodyWithStall(arrivals: seq<Arrival>, stall: nat, limit: nat) returns (result: BodyRead, n: nat)
    ensures Reads(arrivals, stall, limit, result, n)
    ensures result.Body? ==> |result.bytes| <= limit
  {
    var buf: seq<Byte> := [];
    n := 0;
    while n < |arrivals| && OnTime(arrivals[n], stall)
      invariant n <= |arrivals| && buf == Payload(arrivals[..n]) && Flows(arrivals, stall, limit, n)
    {
      match arrivals[n].item
      case BodyError => return Failed, n;
      case EndOfBody => return Body(buf), n;
      case Trailers =>
        assert arrivals[..n + 1][..n] == arrivals[..n];
        n := n + 1;
      case Data(bytes) =>
        if |buf| + |bytes| > limit { return TooLarge, n; }
        assert arrivals[..n + 1][..n] == arrivals[..n];
        buf := buf + bytes;
        n := n + 1;
    }
    return Stalled, n;
  }

  lemma {:induction false} PayloadGrows(arrivals: seq<Arrival>, m: nat, n: nat)
    requires m <= n <= |arrivals|
    ensures |Payload(arrivals[..m])| <= |Payload(arrivals[..n])|
    decreases n - m
  {
    if m < n {
      assert arrivals[..n][..n - 1] == arrivals[..n - 1];
      PayloadGrows(arrivals, m, n - 1);
    }
  }

  /** Only one arrival can decide, so the result is determined by the schedule. */
  lemma OneVerdict(arrivals: seq<Arrival>, stall: nat, limit: nat, m: nat, n: nat)
    requires m <= |arrivals| && n <= |arrivals|
    requires Flows(arrivals, stall, limit, m) && Verdict(arrivals, stall, limit, m).Some?
    requires Flows(arrivals, stall, limit, n) && Verdict(arrivals, stall, limit, n).Some?
    ensures m == n
  {
    if m < n {
      NoVerdictWhileFlowing(arrivals, stall, limit, m, n);
    } else if n < m {
      NoVerdictWhileFlowing(arrivals, stall, limit, n, m);
    }
  }

  lemma NoVerdictWhileFlowing(arrivals: seq<Arrival>, stall: nat, limit: nat, m: nat, n: nat)
    requires m < n <= |arrivals| && Flows(arrivals, stall, limit, n)
    ensures Verdict(arrivals, stall, limit, m).None?
  {
    PayloadGrows(arrivals, m + 1, n);
    assert arrivals[..m + 1][..m] == arrivals[..m];
  }

  /** What `ReadBodyWithStall` promises of its results. */
  predicate Reads(arrivals: seq<Arrival>, stall: nat, limit: nat, result: BodyRead, n: nat) {
    n <= |arrivals| && Flows(arrivals, stall, limit, n) && Verdict(arrivals, stall, limit, n) == Some(result)
  }

  /** A slow but steady upload is read in full: if every gap is under the stall time, whatever they add
      up to, and the data fits, the reader returns exactly the bytes that arrived. */
  lemma SteadyUploadIsComplete(arrivals: seq<Arrival>, stall: nat, limit: nat, end: nat, result: BodyRead, n: nat)
    requires Reads(arrivals, stall, limit, result, n)
    requires end < |arrivals| && arrivals[end].item.EndOfBody? && |Payload(arrivals[..end])| <= limit
    requires forall i :: 0 <= i <= end ==> arrivals[i].gap < stall
    requires forall i :: 0 <= i < end ==> arrivals[i].item.Data? || arrivals[i].item.Trailers?
    ensures result == Body(Payload(arrivals[..end]))
  {
    OneVerdict(arrivals, stall, limit, n, end);
  }

  /** And a stall is reported exactly when, with everything before it in order, the next arrival is
      later than the stall time or never comes. */
  lemma StalledIffNothingFlows(arrivals: seq<Arrival>, stall: nat, limit: nat, result: BodyRead, n: nat)
    requires Reads(arrivals, stall, limit, result, n)
    ensures result == Stalled <==>
            exists k :: 0 <= k <= |arrivals| && Flows(arrivals, stall, limit, k)
                        && (k == |arrivals| || arrivals[k].gap > stall
                            || (arrivals[k].gap == stall && !arrivals[k].tie))
  {
    if k :| 0 <= k <= |arrivals| && Flows(arrivals, stall, limit, k)
            && (k == |arrivals| || !OnTime(arrivals[k], stall)) {
      OneVerdict(arrivals, stall, limit, n, k);
    }
  }

  /** Arrival `k` comes in time, after a flow in order. */
  predicate Reaches(arrivals: seq<Arrival>, stall: nat, limit: nat, k: int) {
    0 <= k < |arrivals| && Flows(arrivals, stall, limit, k) && OnTime(arrivals[k], stall)
  }

  /** The data up to and with arrival `k` is more than the limit. */
  predicate Exceeds(arrivals: seq<Arrival>, limit: nat, k: nat)
    requires k < |arrivals|
  {
    |Payload(arrivals[..k + 1])| > limit
  }

  lemma ReachedDecides(arrivals: seq<Arrival>, stall: nat, limit: nat, result: BodyRead, n: nat, k: nat)
    requires Reads(arrivals, stall, limit, result, n) && Reaches(arrivals, stall, limit, k)
    ensures arrivals[k].item.EndOfBody? ==> k == n && result == Body(Payload(arrivals[..k]))
    ensures arrivals[k].item.BodyError? ==> k == n && result == Failed
    ensures Exceeds(arrivals, limit, k) ==> k == n && result == TooLarge
  {
    assert arrivals[..k + 1][..k] == arrivals[..k];
    if Verdict(arrivals, stall, limit, k).Some? { OneVerdict(arrivals, stall, limit, n, k); }
  }

  /** The other results: the body is returned, with every byte that arrived, exactly when its end comes after
      a flow in order; it is too large exactly when data in time takes such a flow over the limit; and the
      read fails exactly when an error in time follows it. */
  lemma OtherResultsIff(arrivals: seq<Arrival>, stall: nat, limit: nat, result: BodyRead, n: nat)
    requires Reads(arrivals, stall, limit, result, n)
    ensures result.Body? <==> exists k :: Reaches(arrivals, stall, limit, k) && arrivals[k].item.EndOfBody?
    ensures result.Body? ==> result.bytes == Payload(arrivals[..n])
    ensures result == TooLarge <==> exists k :: Reaches(arrivals, stall, limit, k) && Exceeds(arrivals, limit, k)
    ensures result == Failed <==> exists k :: Reaches(arrivals, stall, limit, k) && arrivals[k].item.BodyError?
  {
    forall k | Reaches(arrivals, stall, limit, k)
      ensures arrivals[k].item.EndOfBody? ==> result.Body?
      ensures arrivals[k].item.BodyError? ==> result == Failed
      ensures Exceeds(arrivals, limit, k) ==> result == TooLarge
    {
      ReachedDecides(arrivals, stall, limit, result, n, k);
    }
    if result != Stalled {
      assert arrivals[..n + 1][..n] == arrivals[..n];
      assert Reaches(arrivals, stall, limit, n);
      assert result == TooLarge ==> Exceeds(arrivals, limit, n);
    }
  }
}
