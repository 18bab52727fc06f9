/** When active records are resolved: in runs with failures, expiry and restarts. */
module PkiServing {
  import opened Options
  import opened Pki
  import opened PkiAgreement
  import opened PkiNames

  predicate Active(s: State, id: Id, now: Time) { id in s.repo && IsActive(s.repo[id], now) }

  /** Two records use the same server name, or the same name within one tenant. */
  predicate Clash(a: Record, b: Record) {
    a.serverName == b.serverName || (a.tenant == b.tenant && a.name == b.name)
  }

  /** No two active records clash. */
  ghost predicate DistinctNames(s: State, now: Time) {
    forall i, j :: Active(s, i, now) && Active(s, j, now) && Clash(s.repo[i], s.repo[j]) ==> i == j
  }

  ghost predicate DistinctServers(s: State, now: Time) {
    forall i, j :: Active(s, i, now) && Active(s, j, now) && s.repo[i].serverName == s.repo[j].serverName ==> i == j
  }

  /** Every active record resolves to its own key. */
  ghost predicate Served(s: State, now: Time) {
    forall id :: Active(s, id, now) ==> id in s.files && IsServed(s, id)
  }

  /** Pairs only leave the set of active ones as time passes. */
  lemma ActiveEarlier(s: State, id: Id, now: Time, later: Time)
    requires now <= later && Active(s, id, later)
    ensures Active(s, id, now)
  {
  }

  // ----- Names stay distinct -----

  predicate SameNames(a: Record, b: Record) {
    a.serverName == b.serverName && a.tenant == b.tenant && a.name == b.name
  }

  /** An event makes no record active but the one it creates, and changes no name. */
  lemma ActiveComesFrom(s: State, ev: Event, id: Id)
    requires Fresh(s, ev) && Active(Apply(s, ev), id, ev.now)
    ensures (Active(s, id, ev.now) && SameNames(Apply(s, ev).repo[id], s.repo[id]))
            || (ev.CreateEvent? && id == ev.id && Reaches(s, ev)
                && SameNames(Apply(s, ev).repo[id], NewRecord(ev.q, ev.notAfter)))
  {
    RecordFollows(s, ev, id);
  }

  lemma StepKeepsDistinct(s: State, ev: Event)
    requires Fresh(s, ev) && DistinctNames(s, ev.now)
    ensures DistinctNames(Apply(s, ev), ev.now)
  {
    var s' := Apply(s, ev);
    forall i, j | Active(s', i, ev.now) && Active(s', j, ev.now) && Clash(s'.repo[i], s'.repo[j]) ensures i == j {
      ActiveComesFrom(s, ev, i);
      ActiveComesFrom(s, ev, j);
    }
  }

  /** The clock does not run backwards. */
  predicate Timed(run: seq<Event>, from: Time) {
    run != [] ==> from <= run[0].now && Timed(run[1..], run[0].now)
  }

  function Clock(run: seq<Event>, from: Time): Time { if run == [] then from else Clock(run[1..], run[0].now) }

  lemma DistinctLater(s: State, now: Time, later: Time)
    requires DistinctNames(s, now) && now <= later
    ensures DistinctNames(s, later)
  {
    forall i, j | Active(s, i, later) && Active(s, j, later) && Clash(s.repo[i], s.repo[j]) ensures i == j {
      ActiveEarlier(s, i, now, later);
      ActiveEarlier(s, j, now, later);
    }
  }

  lemma {:induction false} DistinctFrom(s: State, run: seq<Event>, from: Time)
    requires DistinctNames(s, from) && FreshRun(s, run) && Timed(run, from)
    ensures DistinctNames(After(s, run), Clock(run, from))
    decreases |run|
  {
    if run != [] {
      DistinctLater(s, from, run[0].now);
      StepKeepsDistinct(s, run[0]);
      DistinctFrom(Apply(s, run[0]), run[1..], run[0].now);
    }
  }

  /** In every run, whatever fails and expires, active records have distinct server names, and within a
      tenant distinct names. */
  lemma ActiveNamesAreDistinct(run: seq<Event>, from: Time, i: Id, j: Id)
    requires FreshRun(START, run) && Timed(run, from) && i != j
    ensures var s, now := After(START, run), Clock(run, from);
            Active(s, i, now) && Active(s, j, now) ==>
              && s.repo[i].serverName != s.repo[j].serverName
              && (s.repo[i].tenant, s.repo[i].name) != (s.repo[j].tenant, s.repo[j].name)
  {
    DistinctFrom(START, run, from);
  }

  // ----- When a creation conflicts, and when it succeeds -----

  /** Another active record has the server name, or the name within the tenant, that is asked for. */
  ghost predicate Taken(s: State, q: Request, now: Time) {
    exists id :: Active(s, id, now) && (s.repo[id].serverName == q.serverName
                                        || (s.repo[id].tenant == q.tenant && s.repo[id].name == q.name))
  }

  /** A creation that is valid and can list the records conflicts if and only if a name it asks for is
      taken; it succeeds if and only if, beyond that, no step fails and the TLS library takes the roots. */
  lemma CreateSucceedsIff(s: State, ev: Event)
    requires ev.CreateEvent? && Fresh(s, ev)
    ensures var result := CreateResult(s, ev);
            && (result == Err(Conflict) <==>
                  ValidRequest(ev.q) && !ev.createFault.ListFails? && Taken(s, ev.q, ev.now))
            && (result.Ok? <==>
                  && ValidRequest(ev.q) && !Taken(s, ev.q, ev.now) && ev.createFault.CreateWorks?
                  && ev.pair.ca.usable && Rebuildable(s.runtime.roots))
  {
    var q, roots := ev.q, s.runtime.roots + [ev.pair.ca];
    assert Taken(s, q, ev.now) <==> InUse(s, q.name, q.tenant, q.serverName, ev.now);
    assert (forall c :: c in roots ==> c.usable) <==> ev.pair.ca.usable && Rebuildable(s.runtime.roots) by {
      assert forall c :: c in roots <==> c in s.runtime.roots || c == ev.pair.ca;
    }
  }

  /** What a creation that succeeds has added, and that nothing else changed: a waiting record, its files,
      its name, and trust in its CA, so that its client certificate is accepted unless it is revoked. */
  lemma CreatedIsServed(s: State, ev: Event)
    requires ev.CreateEvent? && Fresh(s, ev) && CreateResult(s, ev).Ok?
    ensures var s', q := Apply(s, ev), ev.q;
            && s'.repo
               == s.repo[ev.id := Record(q.name, q.tenant, q.serverName, Waiting, None, None, None, ev.notAfter)]
            && s'.files == s.files[ev.id := ev.pair]
            && s'.runtime.resolver == s.runtime.resolver[q.serverName := ev.pair.serverKey]
            && s'.runtime.pairs == s.runtime.pairs[q.serverName := ev.id]
            && s'.runtime.trusted == Some(Fingerprints(s.runtime.roots) + {ev.pair.ca.fingerprint})
            && IsServed(s', ev.id)
            && (Accepts(s'.runtime, ev.pair.clientCert) <==> ev.pair.clientCert.fingerprint !in s.runtime.revoked)
  {
    ValidServerNameIsLower(ev.q.serverName);
    FingerprintsSnoc(s.runtime.roots, ev.pair.ca);
  }

  // ----- A restart serves every active record -----

  predicate DistinctInOrder(s: State, order: seq<Id>) {
    forall i, j :: 0 <= i < j < |order| ==>
      order[i] in s.repo && order[j] in s.repo && s.repo[order[i]].serverName != s.repo[order[j]].serverName
  }

  lemma {:induction false} LoadServes(s: State, order: seq<Id>, id: Id)
    requires Sound(s) && (forall i :: i in order ==> i in s.repo) && id in order
    requires DistinctInOrder(s, order)
    requires Load(s, order, EMPTY_RUNTIME).Ok?
    ensures id in s.files && IsServed(s.(runtime := Load(s, order, EMPTY_RUNTIME).value), id)
    decreases |order|
  {
    var before, last := order[..|order| - 1], order[|order| - 1];
    assert order == before + [last];
    ValidServerNameIsLower(s.repo[last].serverName);
    if id in before { LoadServes(s, before, id); }
  }

  /** Whatever has failed before, a restart that succeeds serves every active record. */
  lemma RestartServes(s: State, now: Time, order: seq<Id>)
    requires Sound(s) && DistinctServers(s, now) && Enumerates(s, now, order) && Restart(s, now, order).1.Ok?
    ensures Served(Restart(s, now, order).0, now)
  {
    forall i, j | 0 <= i < j < |order|
      ensures order[i] in s.repo && order[j] in s.repo && s.repo[order[i]].serverName != s.repo[order[j]].serverName
    {
      assert order[i] in order && order[j] in order;
    }
    var s' := Restart(s, now, order).0;
    forall id | Active(s', id, now) ensures id in s'.files && IsServed(s', id) {
      LoadServes(s, order, id);
    }
  }

  /** In every run, whatever fails and expires, a restart that succeeds leaves every active record
      resolvable to its own key. */
  lemma RestartHeals(run: seq<Event>, from: Time, now: Time, order: seq<Id>)
    requires FreshRun(START, run) && Timed(run, from) && Clock(run, from) <= now
    requires Enumerates(After(START, run), now, order) && Restart(After(START, run), now, order).1.Ok?
    ensures Served(Restart(After(START, run), now, order).0, now)
  {
    SoundFrom(START, run);
    DistinctFrom(START, run, from);
    DistinctLater(After(START, run), Clock(run, from), now);
    RestartServes(After(START, run), now, order);
  }

  // ----- Exactly when an active record is lost -----

  /** The revocation gets as far as the runtime. */
  predicate RevokeReaches(s: State, ev: Event)
    requires ev.RevokeEvent?
  {
    ev.id in s.repo && s.repo[ev.id].status != Revoked && ev.id in s.files && !ev.revokeFault.PairUnreadable?
  }

  /** It then stops, at roots that the TLS library rejects or at the record. */
  predicate RevokeStops(s: State, ev: Event)
    requires ev.RevokeEvent? && RevokeReaches(s, ev)
  {
    ev.revokeFault.UpdateFails? || !Rebuildable(Without(s.runtime.roots, s.files[ev.id].ca.fingerprint))
  }

  /** The event leaves an active record unresolvable: a rollback that fails to delete its record; a
      revocation that removes the name of a record which is and stays active, that is, of another one
      than the pair revoked, or of the pair itself if the revocation stops after that; or a restart that
      finds an active pair whose CA is rejected. */
  ghost predicate Unserves(s: State, ev: Event) {
    match ev
    case CreateEvent(_, _, _, notAfter, now, _, _) => RecordLeft(s, ev) && now < notAfter
    case RevokeEvent(id, now, _) =>
      RevokeReaches(s, ev) && exists j :: Active(s, j, now) && s.repo[j].serverName == s.repo[id].serverName
                                          && (j != id || RevokeStops(s, ev))
    case RestartEvent(now, order) =>
      Enumerates(s, now, order) && exists id :: Active(s, id, now) && id in s.files && !s.files[id].ca.usable
    case _ => false
  }

  lemma CreateKeepsServed(s: State, ev: Event, id: Id)
    requires Sound(s) && Fresh(s, ev) && ev.CreateEvent?
    requires Active(s, id, ev.now) && id in s.files && IsServed(s, id)
    ensures id in Apply(s, ev).repo && id in Apply(s, ev).files && IsServed(Apply(s, ev), id)
  {
    if Reaches(s, ev) { ValidServerNameIsLower(ev.q.serverName); }
  }

  lemma CreateServesIff(s: State, ev: Event)
    requires Sound(s) && Fresh(s, ev) && Served(s, ev.now) && ev.CreateEvent?
    ensures Served(Apply(s, ev), ev.now) <==> !Unserves(s, ev)
  {
    var s' := Apply(s, ev);
    if Unserves(s, ev) {
      assert Active(s', ev.id, ev.now) && ev.id !in s.repo;
    } else {
      forall id | Active(s', id, ev.now) ensures id in s'.files && IsServed(s', id) {
        ActiveComesFrom(s, ev, id);
        if Active(s, id, ev.now) { CreateKeepsServed(s, ev, id); } else { NewIsServed(s, ev, id); }
      }
    }
  }

  lemma NewIsServed(s: State, ev: Event, id: Id)
    requires Fresh(s, ev) && ev.CreateEvent? && !Unserves(s, ev)
    requires Active(Apply(s, ev), id, ev.now) && !Active(s, id, ev.now)
    ensures id in Apply(s, ev).files && IsServed(Apply(s, ev), id)
  {
    RecordFollows(s, ev, id);
    if CreateResult(s, ev).Ok? { CreatedIsServed(s, ev); }
  }

  lemma RevokeLoses(s: State, ev: Event, j: Id)
    requires Sound(s) && ev.RevokeEvent? && RevokeReaches(s, ev)
    requires Active(s, j, ev.now) && s.repo[j].serverName == s.repo[ev.id].serverName
    requires j != ev.id || RevokeStops(s, ev)
    ensures !Served(Apply(s, ev), ev.now)
  {
    ValidServerNameIsLower(s.repo[j].serverName);
    assert Active(Apply(s, ev), j, ev.now) && s.repo[j].serverName !in Apply(s, ev).runtime.resolver;
  }

  lemma RevokeKeepsServed(s: State, ev: Event, j: Id)
    requires Sound(s) && Served(s, ev.now) && ev.RevokeEvent? && RevokeReaches(s, ev) && !Unserves(s, ev)
    requires Active(Apply(s, ev), j, ev.now)
    ensures j in Apply(s, ev).files && IsServed(Apply(s, ev), j)
  {
    ValidServerNameIsLower(s.repo[ev.id].serverName);
    assert Active(s, j, ev.now) && IsServed(s, j);
  }

  lemma RevokeServesIff(s: State, ev: Event)
    requires Sound(s) && Served(s, ev.now) && ev.RevokeEvent?
    ensures Served(Apply(s, ev), ev.now) <==> !Unserves(s, ev)
  {
    if !RevokeReaches(s, ev) {
      assert Apply(s, ev) == s;
    } else if Unserves(s, ev) {
      var j :| Active(s, j, ev.now) && s.repo[j].serverName == s.repo[ev.id].serverName
               && (j != ev.id || RevokeStops(s, ev));
      RevokeLoses(s, ev, j);
    } else {
      forall j | Active(Apply(s, ev), j, ev.now) ensures j in Apply(s, ev).files && IsServed(Apply(s, ev), j) {
        RevokeKeepsServed(s, ev, j);
      }
    }
  }

  lemma RestartServesIff(s: State, ev: Event)
    requires Sound(s) && Served(s, ev.now) && ev.RestartEvent?
    ensures Served(Apply(s, ev), ev.now) <==> !Unserves(s, ev)
  {
    if Enumerates(s, ev.now, ev.order) {
      RestartSucceedsIff(s, ev.now, ev.order);
      if Unserves(s, ev) {
        var id :| Active(s, id, ev.now) && id in s.files && !s.files[id].ca.usable;
        assert Active(Apply(s, ev), id, ev.now);
      } else {
        RestartServes(s, ev.now, ev.order);
      }
    }
  }

  lemma MarksServe(s: State, s': State, now: Time)
    requires Served(s, now) && s'.runtime == s.runtime && s'.repo.Keys == s.repo.Keys && s'.files.Keys == s.files.Keys
    requires forall id :: id in s.repo ==>
               && s'.repo[id].serverName == s.repo[id].serverName
               && (IsActive(s'.repo[id], now) ==> IsActive(s.repo[id], now))
    requires forall id :: id in s.files ==> s'.files[id] == s.files[id].(clientKey := s'.files[id].clientKey)
    ensures Served(s', now)
  {
    forall id | Active(s', id, now) ensures id in s'.files && IsServed(s', id) {
      assert Active(s, id, now) && IsServed(s, id);
    }
  }

  /** From a state in which every active record is served, an event leaves one unserved if and only if
      `Unserves` says so. */
  lemma StepServesIff(s: State, ev: Event)
    requires Sound(s) && Fresh(s, ev) && Served(s, ev.now)
    ensures Served(Apply(s, ev), ev.now) <==> !Unserves(s, ev)
  {
    match ev
    case CreateEvent(_, _, _, _, _, _, _) => CreateServesIff(s, ev);
    case RevokeEvent(_, _, _) => RevokeServesIff(s, ev);
    case RestartEvent(_, _) => RestartServesIff(s, ev);
    case DownloadEvent(id, now, progress) =>
      DownloadOnlyMarks(s, id, now, progress);
      MarksServe(s, Apply(s, ev), now);
    case ConnectEvent(_, now) => MarksServe(s, Apply(s, ev), now);
  }

  /** Every active record is served in every state of the run. */
  ghost predicate ServedThroughout(s: State, run: seq<Event>, now: Time)
    decreases |run|
  {
    Served(s, now) && (run != [] ==> ServedThroughout(Apply(s, run[0]), run[1..], run[0].now))
  }

  ghost predicate NeverUnserves(s: State, run: seq<Event>)
    decreases |run|
  {
    run != [] ==> !Unserves(s, run[0]) && NeverUnserves(Apply(s, run[0]), run[1..])
  }

  lemma ServedLater(s: State, now: Time, later: Time)
    requires Served(s, now) && now <= later
    ensures Served(s, later)
  {
    forall id | Active(s, id, later) ensures id in s.files && IsServed(s, id) {
      ActiveEarlier(s, id, now, later);
    }
  }

  lemma {:induction false} ServedFromIff(s: State, run: seq<Event>, now: Time)
    requires Sound(s) && FreshRun(s, run) && Timed(run, now) && Served(s, now)
    ensures ServedThroughout(s, run, now) <==> NeverUnserves(s, run)
    decreases |run|
  {
    if run != [] {
      var ev := run[0];
      ServedLater(s, now, ev.now);
      StepServesIff(s, ev);
      StepKeepsSound(s, ev);
      if Unserves(s, ev) { LostAtOnce(s, run, now); } else { ServedFromIff(Apply(s, ev), run[1..], ev.now); }
    }
  }

  lemma LostAtOnce(s: State, run: seq<Event>, now: Time)
    requires run != [] && !Served(Apply(s, run[0]), run[0].now)
    ensures !ServedThroughout(s, run, now)
  {
  }

  /** In every run, with any failures, expiry and restarts, every active record resolves to its own key
      in every state if and only if no event unserves one. */
  lemma ActiveIsServed(run: seq<Event>, from: Time)
    requires FreshRun(START, run) && Timed(run, from)
    ensures ServedThroughout(START, run, from) <==> NeverUnserves(START, run)
  {
    ServedFromIff(START, run, from);
  }

  /** The event revokes a pair whose name another active record carries. */
  ghost predicate RevokesNamesake(s: State, ev: Event) {
    && ev.RevokeEvent? && Unrevoked(s, ev.id) && ev.id in s.files
    && exists j :: j != ev.id && Active(s, j, ev.now) && s.repo[j].serverName == s.repo[ev.id].serverName
  }

  ghost predicate NeverRevokesNamesake(s: State, run: seq<Event>)
    decreases |run|
  {
    run != [] ==> !RevokesNamesake(s, run[0]) && NeverRevokesNamesake(Apply(s, run[0]), run[1..])
  }

  lemma OnlyNamesakes(s: State, ev: Event)
    requires FaultFree(s, ev)
    ensures Unserves(s, ev) <==> RevokesNamesake(s, ev)
  {
  }

  lemma {:induction false} OnlyNamesakesFrom(s: State, run: seq<Event>)
    requires FaultFreeRun(s, run)
    ensures FreshRun(s, run) && (NeverUnserves(s, run) <==> NeverRevokesNamesake(s, run))
    decreases |run|
  {
    if run != [] {
      OnlyNamesakes(s, run[0]);
      OnlyNamesakesFrom(Apply(s, run[0]), run[1..]);
    }
  }

  /** In every run in which nothing fails, every active record resolves to its own key in every state if
      and only if no pair is revoked whose name another active record carries. */
  lemma OnlyNamesakesAreLost(run: seq<Event>, from: Time)
    requires FaultFreeRun(START, run) && Timed(run, from)
    ensures ServedThroughout(START, run, from) <==> NeverRevokesNamesake(START, run)
  {
    OnlyNamesakesFrom(START, run);
    ActiveIsServed(run, from);
  }

  lemma CreateGoesThrough(s: State, q: Request, id: Id, pair: PairFiles, notAfter: Time, now: Time)
    requires ValidRequest(q) && !InUse(s, q.name, q.tenant, q.serverName, now) && id !in s.repo
    requires pair.ca.fingerprint !in Fingerprints(s.runtime.roots) && Rebuildable(s.runtime.roots) && pair.ca.usable
    ensures var roots := s.runtime.roots + [pair.ca];
            Created(s, q, id, pair, notAfter, now, CreateWorks, TIDY).0
            == State(s.repo[id := NewRecord(q, notAfter)], s.files[id := pair],
                     Runtime(s.runtime.resolver[q.serverName := pair.serverKey], s.runtime.pairs[q.serverName := id],
                             roots, Rebuild(roots), s.runtime.revoked))
  {
    ValidServerNameIsLower(q.serverName);
  }

  // ----- A run in which an active record is lost -----

  /** An expired pair frees its name while its runtime entry stays. If the name is used again and the
      expired pair is then revoked, the new pair is active but can no longer be resolved. */
  lemma ExpiryBreaksAgreement(name: string, tenant: string, serverName: string)
    requires ValidName(name) && ValidServerName(serverName)
    ensures exists run :: FaultFreeRun(START, run) && Timed(run, 0) && Clock(run, 0) == 20
                          && var s := After(START, run);
                             exists id :: Unrevoked(s, id) && IsActive(s.repo[id], 20)
                                          && s.repo[id].serverName == serverName && serverName !in s.runtime.resolver
  {
    var q := Request(name, tenant, serverName, [serverName]);
    var first := CreateEvent(q, 1, FIRST_PAIR, 10, 0, CreateWorks, TIDY);
    var second := CreateEvent(q, 2, SECOND_PAIR, 90, 20, CreateWorks, TIDY);
    var third := RevokeEvent(1, 20, RevokeWorks);
    FirstCreated(q);
    SecondIsFresh(q);
    SecondCreated(q);
    ThirdRevoked(q);
    ThreeSteps(START, first, second, third);
    TimedThree(first, second, third, 0);
  }

  const TIDY := Cleanup(false, false)
  const FIRST_PAIR := PairFiles(Cert(11, 11, true), 1, Cert(12, 11, true), Some(1))
  const SECOND_PAIR := PairFiles(Cert(21, 21, true), 2, Cert(22, 21, true), Some(2))

  /** The repository and runtime with the first pair, and with both. */
  ghost function WithFirst(q: Request): State {
    State(map[1 := NewRecord(q, 10)], map[1 := FIRST_PAIR],
          Runtime(map[q.serverName := 1], map[q.serverName := 1], [FIRST_PAIR.ca], Rebuild([FIRST_PAIR.ca]), {}))
  }

  ghost function WithBoth(q: Request): State {
    var roots := [FIRST_PAIR.ca, SECOND_PAIR.ca];
    State(map[1 := NewRecord(q, 10), 2 := NewRecord(q, 90)], map[1 := FIRST_PAIR, 2 := SECOND_PAIR],
          Runtime(map[q.serverName := 2], map[q.serverName := 2], roots, Rebuild(roots), {}))
  }

  lemma FirstCreated(q: Request)
    requires ValidRequest(q)
    ensures Apply(START, CreateEvent(q, 1, FIRST_PAIR, 10, 0, CreateWorks, TIDY)) == WithFirst(q)
    ensures FaultFree(START, CreateEvent(q, 1, FIRST_PAIR, 10, 0, CreateWorks, TIDY))
  {
    assert !InUse(START, q.name, q.tenant, q.serverName, 0);
    CreateGoesThrough(START, q, 1, FIRST_PAIR, 10, 0);
    assert [] + [FIRST_PAIR.ca] == [FIRST_PAIR.ca];
  }

  lemma SecondCreated(q: Request)
    requires ValidRequest(q)
    ensures Apply(WithFirst(q), CreateEvent(q, 2, SECOND_PAIR, 90, 20, CreateWorks, TIDY)) == WithBoth(q)
  {
    var s := WithFirst(q);
    SecondIsFresh(q);
    assert !InUse(s, q.name, q.tenant, q.serverName, 20);
    CreateGoesThrough(s, q, 2, SECOND_PAIR, 90, 20);
    assert s.runtime.roots + [SECOND_PAIR.ca] == [FIRST_PAIR.ca, SECOND_PAIR.ca];
  }

  lemma SecondIsFresh(q: Request)
    ensures FaultFree(WithFirst(q), CreateEvent(q, 2, SECOND_PAIR, 90, 20, CreateWorks, TIDY))
  {
    assert [] + [FIRST_PAIR.ca] == [FIRST_PAIR.ca];
    FingerprintsSnoc([], FIRST_PAIR.ca);
  }

  lemma ThirdRevoked(q: Request)
    requires ValidRequest(q)
    ensures FaultFree(WithBoth(q), RevokeEvent(1, 20, RevokeWorks))
    ensures var s := Apply(WithBoth(q), RevokeEvent(1, 20, RevokeWorks));
            Unrevoked(s, 2) && IsActive(s.repo[2], 20) && s.repo[2].serverName == q.serverName
            && q.serverName !in s.runtime.resolver
  {
    ValidServerNameIsLower(q.serverName);
  }

  lemma ThreeSteps(s: State, a: Event, b: Event, c: Event)
    ensures After(s, [a, b, c]) == Apply(Apply(Apply(s, a), b), c)
    ensures FaultFree(s, a) && FaultFree(Apply(s, a), b) && FaultFree(Apply(Apply(s, a), b), c) ==>
              FaultFreeRun(s, [a, b, c])
  {
    var run := [a, b, c];
    assert run[1..] == [b, c] && [b, c][1..] == [c] && [c][1..] == [];
    var s1 := Apply(s, a);
    var s2 := Apply(s1, b);
    assert After(s, run) == After(s1, [b, c]) == After(s2, [c]) == After(Apply(s2, c), []);
    assert FaultFreeRun(s2, [c]) == FaultFree(s2, c);
    assert FaultFreeRun(s1, [b, c]) == (FaultFree(s1, b) && FaultFreeRun(s2, [c]));
  }

  lemma TimedThree(a: Event, b: Event, c: Event, from: Time)
    requires from <= a.now <= b.now <= c.now
    ensures Timed([a, b, c], from) && Clock([a, b, c], from) == c.now
  {
    var run := [a, b, c];
    assert run[1..] == [b, c] && [b, c][1..] == [c] && [c][1..] == [];
    assert Clock(run, from) == Clock([b, c], a.now) == Clock([c], b.now) == Clock([], c.now);
    assert Timed([c], b.now) && Timed([b, c], a.now);
  }
}
