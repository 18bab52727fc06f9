/** When the three stores of credential pairs agree: repository records, files and the TLS state in
    memory. */
module PkiAgreement {
  import opened Pki
  import opened PkiNames
  import opened Text

  predicate Unrevoked(s: State, id: Id) { id in s.repo && s.repo[id].status != Revoked }

  predicate IsServed(s: State, id: Id)
    requires id in s.repo && id in s.files
  {
    var name := s.repo[id].serverName;
    && ValidServerName(name)
    && name in s.runtime.pairs && s.runtime.pairs[name] == id
    && name in s.runtime.resolver && s.runtime.resolver[name] == s.files[id].serverKey
  }

  /** The resolver and the pair map hold the unrevoked records and nothing else. */
  ghost predicate NamesAgree(s: State) {
    && (forall id :: Unrevoked(s, id) ==> id in s.files && IsServed(s, id))
    && (forall name :: name in s.runtime.pairs ==>
          Unrevoked(s, s.runtime.pairs[name]) && s.repo[s.runtime.pairs[name]].serverName == name)
    && s.runtime.resolver.Keys == s.runtime.pairs.Keys
  }

  /** The CAs of the unrevoked records. */
  ghost function ActiveCas(s: State): set<Fingerprint> {
    set id | id in s.repo && s.repo[id].status != Revoked && id in s.files :: s.files[id].ca.fingerprint
  }

  ghost predicate RootsAgree(s: State) {
    Fingerprints(s.runtime.roots) == ActiveCas(s) && s.runtime.trusted == Rebuild(s.runtime.roots)
  }

  ghost predicate Agrees(s: State) { Sound(s) && NamesAgree(s) && RootsAgree(s) }

  /** The TLS library takes every CA that is on disk. */
  ghost predicate UsableFiles(s: State) { forall id :: id in s.files ==> s.files[id].ca.usable }

  /** No operation of this event fails; downloads may still stop anywhere. */
  ghost predicate FaultFree(s: State, ev: Event) {
    && Fresh(s, ev) && UsableFiles(s) && Rebuildable(s.runtime.roots)
    && (ev.CreateEvent? ==> ev.createFault.CreateWorks? && ev.pair.ca.usable)
    && (ev.RevokeEvent? ==> ev.revokeFault.RevokeWorks?)
  }

  /** The event does not use the name of an unrevoked record again, which only an expired one allows,
      and does not reload while an unrevoked record is expired. */
  ghost predicate Harmless(s: State, ev: Event) {
    && (ev.CreateEvent? && Reaches(s, ev) ==> !Carries(s, ev.q.serverName))
    && (ev.RestartEvent? && Enumerates(s, ev.now, ev.order) ==>
          forall id :: Unrevoked(s, id) ==> ev.now < s.repo[id].clientNotAfter)
  }

  /** Some unrevoked record carries the name. */
  ghost predicate Carries(s: State, serverName: string) {
    exists id :: Unrevoked(s, id) && s.repo[id].serverName == serverName
  }

  lemma CreateAgrees(s: State, ev: Event)
    requires Agrees(s) && FaultFree(s, ev) && ev.CreateEvent? && Harmless(s, ev)
    ensures NamesAgree(Apply(s, ev)) && RootsAgree(Apply(s, ev))
  {
    var s' := Apply(s, ev);
    if Reaches(s, ev) {
      var name := ev.q.serverName;
      ValidServerNameIsLower(name);
      assert name !in s.runtime.pairs;
      assert s'.runtime.pairs == s.runtime.pairs[name := ev.id];
      assert s'.runtime.resolver == s.runtime.resolver[name := ev.pair.serverKey];
      CreateNamesAgree(s, s', name, ev.id, ev.pair);
      CreateRootsAgree(s, s', ev.id, ev.pair);
    }
  }

  /** Two unrevoked records with one name cannot both be served. */
  lemma CreateDisagrees(s: State, ev: Event)
    requires FaultFree(s, ev) && ev.CreateEvent? && !Harmless(s, ev)
    ensures !NamesAgree(Apply(s, ev))
  {
    var s' := Apply(s, ev);
    var id :| Unrevoked(s, id) && s.repo[id].serverName == ev.q.serverName;
    OneNameOneRecord(s', id, ev.id);
  }

  lemma OneNameOneRecord(s: State, i: Id, j: Id)
    requires Unrevoked(s, i) && Unrevoked(s, j) && i != j && s.repo[i].serverName == s.repo[j].serverName
    ensures !NamesAgree(s)
  {
  }

  lemma CreateNamesAgree(s: State, s': State, name: string, id: Id, pair: PairFiles)
    requires NamesAgree(s) && id !in s.repo && name !in s.runtime.pairs && ValidServerName(name)
    requires s'.repo.Keys == s.repo.Keys + {id} && s'.repo[id].serverName == name && s'.repo[id].status == Waiting
    requires forall j :: j in s.repo ==> s'.repo[j] == s.repo[j]
    requires s'.files == s.files[id := pair]
    requires s'.runtime.pairs == s.runtime.pairs[name := id]
    requires s'.runtime.resolver == s.runtime.resolver[name := pair.serverKey]
    ensures NamesAgree(s')
  {
    forall j | Unrevoked(s', j) ensures j in s'.files && IsServed(s', j) {
      if j != id { assert Unrevoked(s, j) && IsServed(s, j); }
    }
  }

  lemma CreateRootsAgree(s: State, s': State, id: Id, pair: PairFiles)
    requires RootsAgree(s) && id !in s.repo && id !in s.files
    requires s'.repo.Keys == s.repo.Keys + {id} && s'.repo[id].status == Waiting
    requires forall j :: j in s.repo ==> s'.repo[j] == s.repo[j]
    requires s'.files == s.files[id := pair]
    requires s'.runtime.roots == s.runtime.roots + [pair.ca] && s'.runtime.trusted == Rebuild(s'.runtime.roots)
    ensures RootsAgree(s')
  {
    FingerprintsSnoc(s.runtime.roots, pair.ca);
    forall fp ensures fp in ActiveCas(s') <==> fp in ActiveCas(s) + {pair.ca.fingerprint} {
      if fp in ActiveCas(s) {
        var j :| j in s.repo && s.repo[j].status != Revoked && j in s.files && s.files[j].ca.fingerprint == fp;
        assert j in s'.repo && s'.files[j] == s.files[j];
      }
      if fp == pair.ca.fingerprint { assert id in s'.repo && s'.files[id] == pair; }
    }
  }

  lemma RevokeAgrees(s: State, ev: Event)
    requires Agrees(s) && FaultFree(s, ev) && ev.RevokeEvent?
    ensures NamesAgree(Apply(s, ev)) && RootsAgree(Apply(s, ev))
  {
    var s', id := Apply(s, ev), ev.id;
    if s' != s {
      var name := s.repo[id].serverName;
      assert Unrevoked(s, id) && IsServed(s, id);
      ValidServerNameIsLower(name);
      RevokedName(s, s', id);
      FingerprintsWithout(s.runtime.roots, s.files[id].ca.fingerprint);
      RevokedCa(s, s', id);
    }
  }

  lemma RevokedName(s: State, s': State, id: Id)
    requires NamesAgree(s) && Unrevoked(s, id) && s'.files == s.files
    requires s'.repo.Keys == s.repo.Keys && s'.repo[id].status == Revoked
    requires forall j :: j in s.repo && j != id ==> s'.repo[j] == s.repo[j]
    requires s'.runtime.pairs == s.runtime.pairs - {s.repo[id].serverName}
    requires s'.runtime.resolver == s.runtime.resolver - {s.repo[id].serverName}
    ensures NamesAgree(s')
  {
    assert IsServed(s, id);
    forall j | Unrevoked(s', j) ensures j in s'.files && IsServed(s', j) {
      assert Unrevoked(s, j) && IsServed(s, j);
    }
  }

  lemma RevokedCa(s: State, s': State, id: Id)
    requires Sound(s) && Unrevoked(s, id) && id in s.files && s'.files == s.files
    requires s'.repo.Keys == s.repo.Keys && s'.repo[id].status == Revoked
    requires forall j :: j in s.repo && j != id ==> s'.repo[j] == s.repo[j]
    ensures ActiveCas(s') == ActiveCas(s) - {s.files[id].ca.fingerprint}
  {
    forall fp ensures fp in ActiveCas(s') <==> fp in ActiveCas(s) - {s.files[id].ca.fingerprint} {
      if fp in ActiveCas(s') {
        var j :| j in s'.repo && s'.repo[j].status != Revoked && j in s'.files && s'.files[j].ca.fingerprint == fp;
        assert j != id && s.repo[j].status != Revoked;
      }
      if fp in ActiveCas(s) && fp != s.files[id].ca.fingerprint {
        var j :| j in s.repo && s.repo[j].status != Revoked && j in s.files && s.files[j].ca.fingerprint == fp;
        assert j != id && s'.repo[j].status != Revoked;
      }
    }
  }

  /** Marking a download or a connection changes nothing that the runtime reflects. */
  lemma MarksAgree(s: State, s': State)
    requires Agrees(s) && s'.runtime == s.runtime && s'.repo.Keys == s.repo.Keys && s'.files.Keys == s.files.Keys
    requires forall id :: id in s.repo ==>
               && s'.repo[id].serverName == s.repo[id].serverName
               && (s'.repo[id].status == Revoked <==> s.repo[id].status == Revoked)
    requires forall id :: id in s.files ==> s'.files[id] == s.files[id].(clientKey := s'.files[id].clientKey)
    ensures NamesAgree(s') && RootsAgree(s')
  {
    forall id | Unrevoked(s', id) ensures id in s'.files && IsServed(s', id) {
      assert Unrevoked(s, id) && IsServed(s, id);
    }
    forall fp ensures fp in ActiveCas(s') <==> fp in ActiveCas(s) {
      if fp in ActiveCas(s') {
        var id :| id in s'.repo && s'.repo[id].status != Revoked && id in s'.files && s'.files[id].ca.fingerprint == fp;
        assert s.repo[id].status != Revoked && s.files[id].ca.fingerprint == fp;
      }
      if fp in ActiveCas(s) {
        var id :| id in s.repo && s.repo[id].status != Revoked && id in s.files && s.files[id].ca.fingerprint == fp;
        assert s'.repo[id].status != Revoked && s'.files[id].ca.fingerprint == fp;
      }
    }
  }

  // ----- A restart rebuilds the same runtime -----

  /** The part of the pair map and of the resolver that belongs to the given pairs. */
  ghost function PairsOf(s: State, ids: set<Id>): map<string, Id> {
    map name | name in s.runtime.pairs && s.runtime.pairs[name] in ids :: s.runtime.pairs[name]
  }

  ghost function KeysOf(s: State, ids: set<Id>): map<string, int>
    requires s.runtime.resolver.Keys == s.runtime.pairs.Keys
  {
    map name | name in s.runtime.pairs && s.runtime.pairs[name] in ids :: s.runtime.resolver[name]
  }

  ghost function CasOf(s: State, ids: set<Id>): set<Fingerprint> {
    set id | id in ids && id in s.files :: s.files[id].ca.fingerprint
  }

  function Ids(order: seq<Id>): set<Id> { set id | id in order }

  /** `rt` is what the running service holds for the pairs in `ids`. */
  ghost predicate Mirrors(s: State, rt: Runtime, ids: set<Id>) {
    && s.runtime.resolver.Keys == s.runtime.pairs.Keys
    && rt.pairs == PairsOf(s, ids) && rt.resolver == KeysOf(s, ids)
    && Rebuildable(rt.roots) && Fingerprints(rt.roots) == CasOf(s, ids)
    && rt.trusted == Rebuild(rt.roots) && rt.revoked == {}
  }

  /** The names of one more pair. */
  lemma OneMoreName(s: State, ids: set<Id>, id: Id)
    requires NamesAgree(s) && Unrevoked(s, id)
    ensures var name := s.repo[id].serverName;
            && id in s.files && Lower(name) == name
            && PairsOf(s, ids + {id}) == PairsOf(s, ids)[name := id]
            && KeysOf(s, ids + {id}) == KeysOf(s, ids)[name := s.files[id].serverKey]
  {
    var name := s.repo[id].serverName;
    assert IsServed(s, id);
    ValidServerNameIsLower(name);
    assert forall n :: n in s.runtime.pairs && s.runtime.pairs[n] == id ==> n == name;
  }

  /** The CA of one more pair is not among those of the others. */
  lemma OneMoreCa(s: State, ids: set<Id>, id: Id)
    requires Sound(s) && id in s.files && id !in ids
    ensures s.files[id].ca.fingerprint !in CasOf(s, ids)
    ensures CasOf(s, ids + {id}) == CasOf(s, ids) + {s.files[id].ca.fingerprint}
  {
  }

  lemma OneMoreMirrored(s: State, rt: Runtime, ids: set<Id>, id: Id)
    requires Agrees(s) && Mirrors(s, rt, ids) && Unrevoked(s, id) && id !in ids && Loadable(s, id)
    ensures Mirrors(s, AddPair(rt, s.repo[id].serverName, id, s.files[id].serverKey, s.files[id].ca).0, ids + {id})
  {
    OneMoreName(s, ids, id);
    OneMoreCa(s, ids, id);
    FingerprintsSnoc(rt.roots, s.files[id].ca);
    AddPairWorks(rt, s.repo[id].serverName, id, s.files[id].serverKey, s.files[id].ca);
  }

  lemma AddPairWorks(rt: Runtime, serverName: string, id: Id, key: int, ca: Cert)
    requires ca.fingerprint !in Fingerprints(rt.roots) && Rebuildable(rt.roots) && ca.usable
    ensures var roots := rt.roots + [ca];
            && Rebuildable(roots)
            && AddPair(rt, serverName, id, key, ca)
               == (Runtime(rt.resolver[Lower(serverName) := key], rt.pairs[Lower(serverName) := id],
                           roots, Rebuild(roots), rt.revoked), true)
  {
  }

  lemma LoadLast(s: State, order: seq<Id>)
    requires order != [] && (forall id :: id in order ==> id in s.repo) && order[|order| - 1] in s.files
    requires Load(s, order[..|order| - 1], EMPTY_RUNTIME).Ok?
    requires Rebuildable(Load(s, order[..|order| - 1], EMPTY_RUNTIME).value.roots + [s.files[order[|order| - 1]].ca])
    ensures var id := order[|order| - 1];
            Load(s, order, EMPTY_RUNTIME)
            == Ok(AddPair(Load(s, order[..|order| - 1], EMPTY_RUNTIME).value, s.repo[id].serverName, id,
                          s.files[id].serverKey, s.files[id].ca).0)
  {
  }

  lemma IdsSnoc(order: seq<Id>)
    requires order != [] && forall i, j :: 0 <= i < j < |order| ==> order[i] != order[j]
    ensures var before, id := order[..|order| - 1], order[|order| - 1];
            id !in Ids(before) && Ids(order) == Ids(before) + {id}
  {
    var before, id := order[..|order| - 1], order[|order| - 1];
    assert order == before + [id];
  }

  lemma {:induction false} LoadMirrors(s: State, order: seq<Id>)
    requires Agrees(s) && UsableFiles(s) && (forall id :: id in order ==> Unrevoked(s, id))
    requires forall i, j :: 0 <= i < j < |order| ==> order[i] != order[j]
    ensures Load(s, order, EMPTY_RUNTIME).Ok? && Mirrors(s, Load(s, order, EMPTY_RUNTIME).value, Ids(order))
    decreases |order|
  {
    if order == [] {
      NothingMirrored(s);
    } else {
      var before, id := order[..|order| - 1], order[|order| - 1];
      assert forall j :: j in before ==> j in order;
      LoadMirrors(s, before);
      assert id in order && Unrevoked(s, id);
      IdsSnoc(order);
      OneMoreMirrored(s, Load(s, before, EMPTY_RUNTIME).value, Ids(before), id);
      LoadLast(s, order);
    }
  }

  lemma NothingMirrored(s: State)
    requires NamesAgree(s)
    ensures Ids([]) == {} && Mirrors(s, EMPTY_RUNTIME, {})
  {
    assert PairsOf(s, {}) == map[] && KeysOf(s, {}) == map[] && CasOf(s, {}) == {};
  }

  /** In an agreeing state with nothing expired, loading the repository in any order rebuilds the
      resolver, the pair map and the verifier exactly; only the revocation list starts empty. */
  lemma ReloadRebuilds(s: State, now: Time, order: seq<Id>)
    requires Agrees(s) && UsableFiles(s) && Enumerates(s, now, order)
    requires forall id :: Unrevoked(s, id) ==> now < s.repo[id].clientNotAfter
    ensures var (s', result) := Restart(s, now, order);
            && result.Ok? && s'.repo == s.repo && s'.files == s.files
            && s'.runtime.resolver == s.runtime.resolver && s'.runtime.pairs == s.runtime.pairs
            && Fingerprints(s'.runtime.roots) == Fingerprints(s.runtime.roots)
            && s'.runtime.trusted == s.runtime.trusted && s'.runtime.revoked == {}
  {
    forall id ensures id in order <==> Unrevoked(s, id) {
      if Unrevoked(s, id) { assert IsActive(s.repo[id], now); }
    }
    LoadMirrors(s, order);
    WholeMirror(s, Load(s, order, EMPTY_RUNTIME).value, Ids(order));
  }

  /** A mirror of all unrevoked pairs is the running state. */
  lemma WholeMirror(s: State, rt: Runtime, ids: set<Id>)
    requires NamesAgree(s) && RootsAgree(s) && Mirrors(s, rt, ids) && forall id :: id in ids <==> Unrevoked(s, id)
    ensures rt.resolver == s.runtime.resolver && rt.pairs == s.runtime.pairs && rt.revoked == {}
    ensures Fingerprints(rt.roots) == Fingerprints(s.runtime.roots) && rt.trusted == s.runtime.trusted
  {
    WholeNames(s, ids);
    WholeCas(s, ids);
    EmptyTogether(rt.roots, s.runtime.roots);
  }

  lemma WholeNames(s: State, ids: set<Id>)
    requires NamesAgree(s) && forall id :: id in ids <==> Unrevoked(s, id)
    ensures PairsOf(s, ids) == s.runtime.pairs && KeysOf(s, ids) == s.runtime.resolver
  {
    assert forall name :: name in s.runtime.pairs ==> s.runtime.pairs[name] in ids;
  }

  lemma WholeCas(s: State, ids: set<Id>)
    requires forall id :: id in ids <==> Unrevoked(s, id)
    ensures CasOf(s, ids) == ActiveCas(s)
  {
    forall fp ensures fp in CasOf(s, ids) <==> fp in ActiveCas(s) {
      if fp in ActiveCas(s) {
        var id :| id in s.repo && s.repo[id].status != Revoked && id in s.files && s.files[id].ca.fingerprint == fp;
        assert Unrevoked(s, id) && id in ids;
      }
      if fp in CasOf(s, ids) {
        var id :| id in ids && id in s.files && s.files[id].ca.fingerprint == fp;
        assert Unrevoked(s, id);
      }
    }
  }

  lemma EmptyTogether(a: seq<Cert>, b: seq<Cert>)
    requires Fingerprints(a) == Fingerprints(b)
    ensures Rebuild(a) == Rebuild(b)
  {
    if a != [] { assert a[0].fingerprint in Fingerprints(a); }
    if b != [] { assert b[0].fingerprint in Fingerprints(b); }
  }

  lemma ReloadDisagrees(s: State, now: Time, order: seq<Id>, id: Id)
    requires Enumerates(s, now, order) && Unrevoked(s, id) && s.repo[id].clientNotAfter <= now
    ensures !NamesAgree(Restart(s, now, order).0)
  {
    var s' := Restart(s, now, order).0;
    assert id !in order && Unrevoked(s', id);
    var name, loaded := s.repo[id].serverName, Load(s, order, EMPTY_RUNTIME);
    if loaded.Ok? && name in loaded.value.pairs { LoadPairsOnlyLoaded(s, order, name); }
  }

  /** Exactly which events break agreement when nothing fails: a creation that takes the name of an
      unrevoked record, and a restart while an unrevoked record is expired. Revocations, downloads and
      connections never do, expired pairs or not. */
  lemma StepAgreesIff(s: State, ev: Event)
    requires Agrees(s) && FaultFree(s, ev)
    ensures Agrees(Apply(s, ev)) <==> Harmless(s, ev)
  {
    StepKeepsSound(s, ev);
    match ev
    case CreateEvent(_, _, _, _, _, _, _) =>
      if Harmless(s, ev) { CreateAgrees(s, ev); } else { CreateDisagrees(s, ev); }
    case RevokeEvent(_, _, _) => RevokeAgrees(s, ev);
    case DownloadEvent(id, now, progress) => DownloadAgrees(s, id, now, progress);
    case ConnectEvent(serverName, now) => ConnectAgrees(s, serverName, now);
    case RestartEvent(now, order) => if Enumerates(s, now, order) { RestartAgreesIff(s, now, order); }
  }

  lemma RestartAgreesIff(s: State, now: Time, order: seq<Id>)
    requires Agrees(s) && UsableFiles(s) && Enumerates(s, now, order)
    ensures var s' := Restart(s, now, order).0;
            NamesAgree(s') && RootsAgree(s') <==> Harmless(s, RestartEvent(now, order))
  {
    if Harmless(s, RestartEvent(now, order)) {
      ReloadRebuilds(s, now, order);
      RestartAgrees(s, Restart(s, now, order).0);
    } else {
      var id :| Unrevoked(s, id) && s.repo[id].clientNotAfter <= now;
      ReloadDisagrees(s, now, order, id);
    }
  }

  lemma DownloadAgrees(s: State, id: Id, now: Time, progress: Progress)
    requires Agrees(s)
    ensures NamesAgree(Download(s, id, now, progress).0) && RootsAgree(Download(s, id, now, progress).0)
  {
    DownloadOnlyMarks(s, id, now, progress);
    MarksAgree(s, Download(s, id, now, progress).0);
  }

  lemma DownloadOnlyMarks(s: State, id: Id, now: Time, progress: Progress)
    ensures var s' := Download(s, id, now, progress).0;
            && s'.runtime == s.runtime && s'.repo.Keys == s.repo.Keys && s'.files.Keys == s.files.Keys
            && (forall j :: j in s.repo ==> s'.repo[j] == s.repo[j].(downloadedAt := s'.repo[j].downloadedAt))
            && (forall j :: j in s.files ==> s'.files[j] == s.files[j].(clientKey := s'.files[j].clientKey))
  {
  }

  lemma ConnectAgrees(s: State, serverName: string, now: Time)
    requires Agrees(s)
    ensures NamesAgree(MarkConnected(s, serverName, now)) && RootsAgree(MarkConnected(s, serverName, now))
  {
    MarksAgree(s, MarkConnected(s, serverName, now));
  }

  lemma RestartAgrees(s: State, s': State)
    requires Agrees(s) && s'.repo == s.repo && s'.files == s.files
    requires s'.runtime.resolver == s.runtime.resolver && s'.runtime.pairs == s.runtime.pairs
    requires Fingerprints(s'.runtime.roots) == Fingerprints(s.runtime.roots) && s'.runtime.trusted == s.runtime.trusted
    ensures NamesAgree(s') && RootsAgree(s')
  {
    forall id | Unrevoked(s', id) ensures id in s'.files && IsServed(s', id) {
      assert Unrevoked(s, id) && IsServed(s, id);
    }
    assert ActiveCas(s') == ActiveCas(s);
    EmptyTogether(s'.runtime.roots, s.runtime.roots);
  }

  ghost predicate FaultFreeRun(s: State, run: seq<Event>)
    decreases |run|
  {
    run != [] ==> FaultFree(s, run[0]) && FaultFreeRun(Apply(s, run[0]), run[1..])
  }

  ghost predicate HarmlessRun(s: State, run: seq<Event>)
    decreases |run|
  {
    run != [] ==> Harmless(s, run[0]) && HarmlessRun(Apply(s, run[0]), run[1..])
  }

  /** The stores agree in every state of the run. */
  ghost predicate AgreesThroughout(s: State, run: seq<Event>)
    decreases |run|
  {
    Agrees(s) && (run != [] ==> AgreesThroughout(Apply(s, run[0]), run[1..]))
  }

  lemma StartAgrees()
    ensures Agrees(START)
  {
    assert ActiveCas(START) == {};
  }

  lemma {:induction false} StoresAgreeFrom(s: State, run: seq<Event>)
    requires Agrees(s) && FaultFreeRun(s, run)
    ensures AgreesThroughout(s, run) <==> HarmlessRun(s, run)
    ensures HarmlessRun(s, run) ==> Agrees(After(s, run))
    decreases |run|
  {
    if run != [] {
      StepAgreesIff(s, run[0]);
      if Harmless(s, run[0]) { StoresAgreeFrom(Apply(s, run[0]), run[1..]); } else { DisagreesAtOnce(s, run); }
    }
  }

  lemma DisagreesAtOnce(s: State, run: seq<Event>)
    requires run != [] && !Agrees(Apply(s, run[0]))
    ensures !AgreesThroughout(s, run)
  {
  }

  /** In every run in which nothing fails, restarts and expiry included, the stores agree in every state
      if and only if every event is harmless. */
  lemma StoresAgree(run: seq<Event>)
    requires FaultFreeRun(START, run)
    ensures AgreesThroughout(START, run) <==> HarmlessRun(START, run)
    ensures HarmlessRun(START, run) ==> Agrees(After(START, run))
  {
    StartAgrees();
    StoresAgreeFrom(START, run);
  }

  /** What agreement means for whoever connects: a name resolves exactly to the key of the one
      unrevoked record that carries it, no two such records share a name, and a certificate passes
      exactly if it is not on the revocation list and the CA of an unrevoked record issued it. */
  lemma AgreementServes(run: seq<Event>, name: string, cert: Cert)
    requires FaultFreeRun(START, run) && HarmlessRun(START, run)
    ensures var s := After(START, run);
            && (name in s.runtime.resolver <==> exists id :: Unrevoked(s, id) && s.repo[id].serverName == name)
            && (forall i, j :: Unrevoked(s, i) && Unrevoked(s, j) && s.repo[i].serverName == s.repo[j].serverName ==>
                  i == j)
            && (forall id :: Unrevoked(s, id) && s.repo[id].serverName == name ==>
                  name in s.runtime.resolver && id in s.files && s.runtime.resolver[name] == s.files[id].serverKey)
            && (Accepts(s.runtime, cert) <==> cert.fingerprint !in s.runtime.revoked && cert.issuer in ActiveCas(s))
  {
    var s := After(START, run);
    StoresAgree(run);
    forall id | Unrevoked(s, id) ensures IsServed(s, id) { }
    if name in s.runtime.resolver { assert Unrevoked(s, s.runtime.pairs[name]); }
  }
}
