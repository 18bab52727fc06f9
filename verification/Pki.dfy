/** The lifecycle of credential pairs: repository records, files on disk and the TLS state in memory
    must agree, survive a restart, and fail closed. Operations run one at a time. Ids and
    fingerprints are only ever compared, and certificates are opaque but for who issued them. */
module Pki {
  import opened Options
  import opened PkiNames
  import opened Text

  type Id = int
  type Fingerprint = int
  type Time = int

  /** A certificate, and whether the TLS library takes it as a root. */
  datatype Cert = Cert(fingerprint: Fingerprint, issuer: Fingerprint, usable: bool)

  /** The files of one pair; downloading removes the client key. */
  datatype PairFiles = PairFiles(ca: Cert, serverKey: int, clientCert: Cert, clientKey: Option<int>)

  datatype Status = Waiting | Connected | Revoked | Expired

  datatype Record = Record(name: string, tenant: string, serverName: string, status: Status,
                           downloadedAt: Option<Time>, lastConnectedAt: Option<Time>,
                           revokedAt: Option<Time>, clientNotAfter: Time)

  /** The TLS state. `trusted` is the verifier built from the roots; None accepts nobody. */
  datatype Runtime = Runtime(resolver: map<string, int>, pairs: map<string, Id>,
                             roots: seq<Cert>, trusted: Option<set<Fingerprint>>,
                             revoked: set<Fingerprint>)

  datatype State = State(repo: map<Id, Record>, files: map<Id, PairFiles>, runtime: Runtime)

  const EMPTY_RUNTIME := Runtime(map[], map[], [], None, {})

  datatype Error = Invalid | Conflict | NotFound | StorageError | Consumed | ExpiredError

  datatype Result<+T> = Ok(value: T) | Err(error: Error)

  // ----- The client certificate verifier -----

  function Fingerprints(certs: seq<Cert>): (s: set<Fingerprint>)
    ensures forall c :: c in certs ==> c.fingerprint in s
  {
    set i | 0 <= i < |certs| :: certs[i].fingerprint
  }

  /** `rebuild` adds every root to a new store, so one that is rejected makes it fail. */
  predicate Rebuildable(roots: seq<Cert>) { forall c :: c in roots ==> c.usable }

  /** What it builds: no roots, no verifier. */
  function Rebuild(roots: seq<Cert>): Option<set<Fingerprint>> {
    if roots == [] then None else Some(Fingerprints(roots))
  }

  function Without(certs: seq<Cert>, fp: Fingerprint): (r: seq<Cert>)
    ensures forall c :: c in r <==> c in certs && c.fingerprint != fp
  {
    if certs == [] then []
    else if certs[0].fingerprint == fp then Without(certs[1..], fp)
    else [certs[0]] + Without(certs[1..], fp)
  }

  /** `verify_client_cert`: refused if revoked, if there is no verifier, or if its issuer is not a
      trusted root. */
  predicate Accepts(rt: Runtime, cert: Cert) {
    cert.fingerprint !in rt.revoked && rt.trusted.Some? && cert.issuer in rt.trusted.value
  }

  /** `add_ca`; when the rebuild fails the root has been pushed but the verifier is the old one. */
  function AddCa(rt: Runtime, ca: Cert): (Runtime, bool) {
    if ca.fingerprint in Fingerprints(rt.roots) then (rt, true)
    else
      var pushed := rt.(roots := rt.roots + [ca]);
      if Rebuildable(pushed.roots) then (pushed.(trusted := Rebuild(pushed.roots)), true) else (pushed, false)
  }

  function AddPair(rt: Runtime, serverName: string, id: Id, key: int, ca: Cert): (Runtime, bool) {
    var (added, ok) := AddCa(rt, ca);
    if ok then
      (added.(resolver := added.resolver[Lower(serverName) := key],
              pairs := added.pairs[Lower(serverName) := id]), true)
    else (added, false)
  }

  /** `PkiRuntime::remove_pair`: by name; when the rebuild fails the name and the root are gone, but the
      verifier is the old one and the certificate is not on the revocation list. */
  function RemovePair(rt: Runtime, serverName: string, ca: Cert, client: Cert): (Runtime, bool) {
    var roots := Without(rt.roots, ca.fingerprint);
    var cut := rt.(resolver := rt.resolver - {Lower(serverName)}, roots := roots);
    if !Rebuildable(roots) then (cut, false)
    else
      (cut.(trusted := Rebuild(roots), revoked := rt.revoked + {client.fingerprint},
            pairs := rt.pairs - {Lower(serverName)}), true)
  }

  lemma FingerprintsSnoc(certs: seq<Cert>, c: Cert)
    ensures Fingerprints(certs + [c]) == Fingerprints(certs) + {c.fingerprint}
  {
    forall fp ensures fp in Fingerprints(certs + [c]) <==> fp in Fingerprints(certs) + {c.fingerprint} {
      if fp in Fingerprints(certs) {
        var i :| 0 <= i < |certs| && certs[i].fingerprint == fp;
        assert (certs + [c])[i].fingerprint == fp;
      }
      if fp == c.fingerprint { assert (certs + [c])[|certs|].fingerprint == fp; }
    }
  }

  lemma {:induction false} FingerprintsWithout(certs: seq<Cert>, fp: Fingerprint)
    ensures Fingerprints(Without(certs, fp)) == Fingerprints(certs) - {fp}
  {
    var kept := Without(certs, fp);
    forall x ensures x in Fingerprints(kept) <==> x in Fingerprints(certs) - {fp} {
      if x in Fingerprints(kept) {
        var i :| 0 <= i < |kept| && kept[i].fingerprint == x;
        assert kept[i] in kept;
      }
      if x in Fingerprints(certs) && x != fp {
        var i :| 0 <= i < |certs| && certs[i].fingerprint == x;
        assert certs[i] in kept;
      }
    }
  }

  // ----- Records -----

  /** The status that `list` reports. */
  function Reported(r: Record, now: Time): Status {
    if r.status != Revoked && r.clientNotAfter <= now then Expired
    else if r.status == Waiting && r.lastConnectedAt.Some? then Connected
    else r.status
  }

  predicate IsActive(r: Record, now: Time) { Reported(r, now) == Waiting || Reported(r, now) == Connected }

  predicate InUse(s: State, name: string, tenant: string, serverName: string, now: Time) {
    exists id :: id in s.repo && IsActive(s.repo[id], now)
                 && (s.repo[id].serverName == serverName || (s.repo[id].tenant == tenant && s.repo[id].name == name))
  }

  // ----- Operations -----

  /** Where an operation on files or storage fails, if one does. */
  datatype CreateFault = CreateWorks | ListFails | GenerateFails | WriteFails | LoadFails | InsertFails

  /** What a rollback fails to remove; such errors are swallowed. */
  datatype Cleanup = Cleanup(recordStays: bool, filesStay: bool)

  datatype Request = Request(name: string, tenant: string, serverName: string, sans: seq<string>)

  predicate ValidRequest(q: Request) {
    ValidName(q.name) && ValidServerName(q.serverName) && q.serverName in q.sans
  }

  function NewRecord(q: Request, notAfter: Time): Record {
    Record(q.name, q.tenant, q.serverName, Waiting, None, None, None, notAfter)
  }

  /** `create_pair`, with the rollback of each failing step. */
  function Created(s: State, q: Request, id: Id, pair: PairFiles, notAfter: Time, now: Time,
                   fault: CreateFault, cleanup: Cleanup): (State, Result<Record>)
  {
    if !ValidRequest(q) then (s, Err(Invalid))
    else if fault.ListFails? then (s, Err(StorageError))
    else if InUse(s, q.name, q.tenant, q.serverName, now) then (s, Err(Conflict))
    else if fault.GenerateFails? then (s, Err(Invalid))
    else if fault.WriteFails? then (s.(files := s.files - {id}), Err(StorageError))
    else if fault.LoadFails? || fault.InsertFails? || id in s.repo then
      (s.(files := Tidied(s, id, pair, cleanup)), Err(StorageError))
    else
      var (rt, ok) := AddPair(s.runtime, q.serverName, id, pair.serverKey, pair.ca);
      var inserted := s.repo[id := NewRecord(q, notAfter)];
      if ok then (State(inserted, s.files[id := pair], rt), Ok(NewRecord(q, notAfter)))
      else (State(if cleanup.recordStays then inserted else s.repo, Tidied(s, id, pair, cleanup), rt), Err(Invalid))
  }

  /** The files after `remove_pair`, which may fail to remove them. */
  function Tidied(s: State, id: Id, pair: PairFiles, cleanup: Cleanup): map<Id, PairFiles> {
    if cleanup.filesStay then s.files[id := pair] else s.files - {id}
  }

  datatype RevokeFault = RevokeWorks | PairUnreadable | UpdateFails

  function Revoke(s: State, id: Id, now: Time, fault: RevokeFault): (State, Result<()>) {
    if id !in s.repo then (s, Err(NotFound))
    else
      var r := s.repo[id];
      if r.status == Revoked then (s, Err(Conflict))
      else if id !in s.files || fault.PairUnreadable? then (s, Err(StorageError))
      else
        var (rt, ok) := RemovePair(s.runtime, r.serverName, s.files[id].ca, s.files[id].clientCert);
        if !ok then (s.(runtime := rt), Err(Invalid))
        else if fault.UpdateFails? then (s.(runtime := rt), Err(StorageError))
        else (s.(runtime := rt, repo := s.repo[id := r.(status := Revoked, revokedAt := Some(now))]), Ok(()))
  }

  function MarkConnected(s: State, serverName: string, now: Time): State {
    if Lower(serverName) !in s.runtime.pairs then s
    else
      var id := s.runtime.pairs[Lower(serverName)];
      if id in s.repo && (s.repo[id].status == Waiting || s.repo[id].status == Connected)
      then s.(repo := s.repo[id := s.repo[id].(lastConnectedAt := Some(now), status := Connected)])
      else s
  }

  /** How far a download gets: an error or a crash may end it before, between or after its two
      effects, and only the last case hands out the bundle. */
  datatype Progress = BeforeMark | AfterMark | AfterRemove | ToTheEnd

  datatype Bundle = Bundle(clientKey: int, clientCert: Cert, ca: Cert)

  function Download(s: State, id: Id, now: Time, progress: Progress): (State, Result<Bundle>) {
    if id !in s.repo then (s, Err(NotFound))
    else
      var r := s.repo[id];
      if r.status == Revoked || r.revokedAt.Some? then (s, Err(NotFound))
      else if r.clientNotAfter <= now then (s, Err(ExpiredError))
      else if r.downloadedAt.Some? then (s, Err(Consumed))
      else if id !in s.files then (s, Err(Consumed))
      else if s.files[id].clientKey.None? then (s, Err(Consumed))
      else if progress.BeforeMark? then (s, Err(StorageError))
      else
        var marked := s.(repo := s.repo[id := r.(downloadedAt := Some(now))]);
        if progress.AfterMark? then (marked, Err(StorageError))
        else
          var files := s.files[id];
          var removed := marked.(files := s.files[id := files.(clientKey := None)]);
          if progress.AfterRemove? then (removed, Err(StorageError))
          else (removed, Ok(Bundle(files.clientKey.value, files.clientCert, files.ca)))
  }

  /** `load_active_pairs` over the records in `order`: it stops at a pair whose files cannot be loaded
      or whose CA the TLS library rejects. */
  function Load(s: State, order: seq<Id>, rt: Runtime): Result<Runtime>
    requires forall id :: id in order ==> id in s.repo
  {
    if order == [] then Ok(rt)
    else
      var id := order[|order| - 1];
      match Load(s, order[..|order| - 1], rt)
      case Err(error) => Err(error)
      case Ok(before) =>
        if id !in s.files then Err(StorageError)
        else
          var (added, ok) := AddPair(before, s.repo[id].serverName, id, s.files[id].serverKey, s.files[id].ca);
          if ok then Ok(added) else Err(Invalid)
  }

  /** `order` lists the active records, each once. */
  ghost predicate Enumerates(s: State, now: Time, order: seq<Id>) {
    && (forall id :: id in order <==> id in s.repo && IsActive(s.repo[id], now))
    && (forall i, j :: 0 <= i < j < |order| ==> order[i] != order[j])
  }

  /** A restart forgets the runtime and loads the active pairs; if that fails nothing is served. */
  function Restart(s: State, now: Time, order: seq<Id>): (State, Result<()>)
    requires Enumerates(s, now, order)
  {
    match Load(s, order, EMPTY_RUNTIME)
    case Err(error) => (s.(runtime := EMPTY_RUNTIME), Err(error))
    case Ok(rt) => (s.(runtime := rt), Ok(()))
  }

  // ----- The service as an object -----

  class PkiService {
    var repo: map<Id, Record>
    var files: map<Id, PairFiles>
    var runtime: Runtime

    function View(): State
      reads this
    {
      State(repo, files, runtime)
    }

    /** A store that has never been used. */
    constructor ()
      ensures View() == START
    {
      repo, files, runtime := map[], map[], EMPTY_RUNTIME;
    }

    /** The pair becomes resolvable under its name; a root that cannot be used stays behind. */
    method AddPairToRuntime(serverName: string, id: Id, key: int, ca: Cert) returns (ok: bool)
      modifies this`runtime
      ensures (runtime, ok) == AddPair(old(runtime), serverName, id, key, ca)
    {
      if ca.fingerprint !in Fingerprints(runtime.roots) {
        runtime := runtime.(roots := runtime.roots + [ca]);
        if !Rebuildable(runtime.roots) { return false; }
        runtime := runtime.(trusted := Rebuild(runtime.roots));
      }
      runtime := runtime.(resolver := runtime.resolver[Lower(serverName) := key]);
      runtime := runtime.(pairs := runtime.pairs[Lower(serverName) := id]);
      return true;
    }

    /** `remove_pair`, whose failure is swallowed. */
    method RemoveFiles(id: Id, fails: bool)
      modifies this`files
      ensures files == if fails then old(files) else old(files) - {id}
    {
      if !fails { files := files - {id}; }
    }

    method CreatePair(q: Request, id: Id, pair: PairFiles, notAfter: Time, now: Time, fault: CreateFault,
                      cleanup: Cleanup)
      returns (result: Result<Record>)
      modifies this
      ensures (View(), result) == Created(old(View()), q, id, pair, notAfter, now, fault, cleanup)
    {
      if !ValidName(q.name) || !ValidServerName(q.serverName) || q.serverName !in q.sans { return Err(Invalid); }
      if fault.ListFails? { return Err(StorageError); }
      if InUse(View(), q.name, q.tenant, q.serverName, now) { return Err(Conflict); }
      if fault.GenerateFails? { return Err(Invalid); }
      if fault.WriteFails? {
        files := files - {id};
        return Err(StorageError);
      }
      files := files[id := pair];
      if fault.LoadFails? || fault.InsertFails? || id in repo {
        RemoveFiles(id, cleanup.filesStay);
        assert files == Tidied(old(View()), id, pair, cleanup);
        return Err(StorageError);
      }
      repo := repo[id := NewRecord(q, notAfter)];
      var ok := AddPairToRuntime(q.serverName, id, pair.serverKey, pair.ca);
      if !ok {
        if !cleanup.recordStays {
          repo := repo - {id};
          assert repo == old(repo);
        }
        RemoveFiles(id, cleanup.filesStay);
        assert files == Tidied(old(View()), id, pair, cleanup);
        return Err(Invalid);
      }
      return Ok(NewRecord(q, notAfter));
    }

    method RevokePair(id: Id, now: Time, fault: RevokeFault) returns (result: Result<()>)
      modifies this
      ensures (View(), result) == Revoke(old(View()), id, now, fault)
    {
      if id !in repo { return Err(NotFound); }
      var r := repo[id];
      if r.status == Revoked { return Err(Conflict); }
      if id !in files || fault.PairUnreadable? { return Err(StorageError); }
      runtime := runtime.(resolver := runtime.resolver - {Lower(r.serverName)});
      runtime := runtime.(roots := Without(runtime.roots, files[id].ca.fingerprint));
      if !Rebuildable(runtime.roots) { return Err(Invalid); }
      runtime := runtime.(trusted := Rebuild(runtime.roots));
      runtime := runtime.(revoked := runtime.revoked + {files[id].clientCert.fingerprint});
      runtime := runtime.(pairs := runtime.pairs - {Lower(r.serverName)});
      if fault.UpdateFails? { return Err(StorageError); }
      repo := repo[id := r.(status := Revoked, revokedAt := Some(now))];
      return Ok(());
    }

    method DownloadBundle(id: Id, now: Time, progress: Progress) returns (result: Result<Bundle>)
      modifies this
      ensures (View(), result) == Download(old(View()), id, now, progress)
    {
      if id !in repo { return Err(NotFound); }
      var r := repo[id];
      if r.status == Revoked || r.revokedAt.Some? { return Err(NotFound); }
      if r.clientNotAfter <= now { return Err(ExpiredError); }
      if r.downloadedAt.Some? { return Err(Consumed); }
      if id !in files || files[id].clientKey.None? { return Err(Consumed); }
      if progress.BeforeMark? { return Err(StorageError); }
      var bundle := Bundle(files[id].clientKey.value, files[id].clientCert, files[id].ca);
      repo := repo[id := r.(downloadedAt := Some(now))];
      if progress.AfterMark? { return Err(StorageError); }
      files := files[id := files[id].(clientKey := None)];
      if progress.AfterRemove? { return Err(StorageError); }
      return Ok(bundle);
    }

    /** `mark_connected`, called when an agent's handshake names a server. */
    method ConnectPair(serverName: string, now: Time)
      modifies this`repo
      ensures View() == MarkConnected(old(View()), serverName, now)
    {
      if Lower(serverName) in runtime.pairs {
        var id := runtime.pairs[Lower(serverName)];
        if id in repo && (repo[id].status == Waiting || repo[id].status == Connected) {
          repo := repo[id := repo[id].(lastConnectedAt := Some(now), status := Connected)];
        }
      }
    }

    /** `load_active_pairs` on a new process. */
    method LoadActivePairs(now: Time, order: seq<Id>) returns (result: Result<()>)
      requires Enumerates(View(), now, order)
      modifies this`runtime
      ensures (View(), result) == Restart(old(View()), now, order)
    {
      runtime := EMPTY_RUNTIME;
      var i := 0;
      while i < |order|
        invariant 0 <= i <= |order| && repo == old(repo) && files == old(files)
        invariant Load(old(View()), order[..i], EMPTY_RUNTIME) == Ok(runtime)
      {
        var id := order[i];
        assert order[..i + 1][..i] == order[..i];
        if id !in files {
          LoadStops(old(View()), order, i + 1);
          runtime := EMPTY_RUNTIME;
          return Err(StorageError);
        }
        var ok := AddPairToRuntime(repo[id].serverName, id, files[id].serverKey, files[id].ca);
        if !ok {
          LoadStops(old(View()), order, i + 1);
          runtime := EMPTY_RUNTIME;
          return Err(Invalid);
        }
        i := i + 1;
      }
      assert order[..i] == order;
      return Ok(());
    }
  }

  const START := State(map[], map[], EMPTY_RUNTIME)

  lemma {:induction false} LoadStops(s: State, order: seq<Id>, n: nat)
    requires n <= |order| && (forall id :: id in order ==> id in s.repo)
    requires Load(s, order[..n], EMPTY_RUNTIME).Err?
    ensures Load(s, order, EMPTY_RUNTIME) == Load(s, order[..n], EMPTY_RUNTIME)
    decreases |order|
  {
    if n == |order| {
      assert order[..n] == order;
    } else {
      assert order[..|order| - 1][..n] == order[..n];
      LoadStops(s, order[..|order| - 1], n);
    }
  }

  // ----- Runs -----

  datatype Event =
    | CreateEvent(q: Request, id: Id, pair: PairFiles, notAfter: Time, now: Time,
                  createFault: CreateFault, cleanup: Cleanup)
    | RevokeEvent(id: Id, now: Time, revokeFault: RevokeFault)
    | DownloadEvent(id: Id, now: Time, progress: Progress)
    | ConnectEvent(serverName: string, now: Time)
    | RestartEvent(now: Time, order: seq<Id>)

  ghost function Apply(s: State, ev: Event): State {
    match ev
    case CreateEvent(q, id, pair, notAfter, now, fault, cleanup) =>
      Created(s, q, id, pair, notAfter, now, fault, cleanup).0
    case RevokeEvent(id, now, fault) => Revoke(s, id, now, fault).0
    case DownloadEvent(id, now, progress) => Download(s, id, now, progress).0
    case ConnectEvent(serverName, now) => MarkConnected(s, serverName, now)
    case RestartEvent(now, order) => if Enumerates(s, now, order) then Restart(s, now, order).0 else s
  }

  ghost function After(s: State, run: seq<Event>): State
    decreases |run|
  {
    if run == [] then s else After(Apply(s, run[0]), run[1..])
  }

  /** A new pair has an id and a CA that nothing else has, its client certificate is issued by that CA,
      and its client key is there. */
  ghost predicate Fresh(s: State, ev: Event) {
    ev.CreateEvent? ==>
      && ev.id !in s.repo && ev.id !in s.files
      && ev.pair.clientCert.issuer == ev.pair.ca.fingerprint && ev.pair.clientKey.Some?
      && ev.pair.ca.fingerprint !in Fingerprints(s.runtime.roots)
      && !Trusts(s.runtime, ev.pair.ca.fingerprint)
      && forall id :: id in s.files ==> s.files[id].ca.fingerprint != ev.pair.ca.fingerprint
  }

  ghost predicate FreshRun(s: State, run: seq<Event>)
    decreases |run|
  {
    run != [] ==> Fresh(s, run[0]) && FreshRun(Apply(s, run[0]), run[1..])
  }

  predicate Trusts(rt: Runtime, fp: Fingerprint) { rt.trusted.Some? && fp in rt.trusted.value }

  /** What every run keeps, whatever fails: no two pairs share a CA, client certificates come from
      their own CA, only valid names are recorded, and names lead to recorded pairs. */
  ghost predicate Sound(s: State) {
    && (forall name :: name in s.runtime.pairs ==> s.runtime.pairs[name] in s.repo)
    && (forall id :: id in s.repo ==> s.repo[id].status != Expired && ValidServerName(s.repo[id].serverName))
    && (forall id :: id in s.files ==> s.files[id].clientCert.issuer == s.files[id].ca.fingerprint)
    && (forall i, j :: i in s.files && j in s.files && i != j ==>
          s.files[i].ca.fingerprint != s.files[j].ca.fingerprint)
  }

  /** An event leaves alone the files of every existing pair, but for the client key. */
  lemma StepKeepsFiles(s: State, ev: Event, id: Id)
    requires Fresh(s, ev) && id in s.files
    ensures id in Apply(s, ev).files
    ensures Apply(s, ev).files[id] == s.files[id].(clientKey := Apply(s, ev).files[id].clientKey)
  {
  }

  lemma StepKeepsSound(s: State, ev: Event)
    requires Sound(s) && Fresh(s, ev)
    ensures Sound(Apply(s, ev))
  {
    FilesGrowByOne(s, ev);
    RecordsStayValid(s, ev);
    NamesLeadToRecords(s, ev);
  }

  /** What is loaded is among what was to be loaded. */
  lemma {:induction false} LoadPairsOnlyLoaded(s: State, order: seq<Id>, name: string)
    requires forall id :: id in order ==> id in s.repo
    requires Load(s, order, EMPTY_RUNTIME).Ok? && name in Load(s, order, EMPTY_RUNTIME).value.pairs
    ensures Load(s, order, EMPTY_RUNTIME).value.pairs[name] in order
    decreases |order|
  {
    if order != [] {
      var before := order[..|order| - 1];
      assert forall id :: id in before ==> id in order;
      if name in Load(s, before, EMPTY_RUNTIME).value.pairs { LoadPairsOnlyLoaded(s, before, name); }
    }
  }

  lemma NamesLeadToRecords(s: State, ev: Event)
    requires Sound(s) && Fresh(s, ev)
    ensures forall name :: name in Apply(s, ev).runtime.pairs ==> Apply(s, ev).runtime.pairs[name] in Apply(s, ev).repo
  {
    if ev.RestartEvent? && Enumerates(s, ev.now, ev.order) && Load(s, ev.order, EMPTY_RUNTIME).Ok? {
      var rt := Load(s, ev.order, EMPTY_RUNTIME).value;
      forall name | name in rt.pairs ensures rt.pairs[name] in s.repo {
        LoadPairsOnlyLoaded(s, ev.order, name);
      }
    }
  }

  /** The files after an event: those before, but for client keys, and those of a new pair. */
  lemma FilesGrowByOne(s: State, ev: Event)
    requires Fresh(s, ev)
    ensures var files := Apply(s, ev).files;
            && s.files.Keys <= files.Keys
            && (forall id :: id in s.files ==>
                  files[id].ca == s.files[id].ca && files[id].clientCert == s.files[id].clientCert)
            && (forall id :: id in files && id !in s.files ==> ev.CreateEvent? && id == ev.id && files[id] == ev.pair)
  {
    forall id | id in s.files
      ensures id in Apply(s, ev).files
      ensures Apply(s, ev).files[id] == s.files[id].(clientKey := Apply(s, ev).files[id].clientKey)
    {
      StepKeepsFiles(s, ev, id);
    }
  }

  /** What an event does to a record: it never changes who it is for, and its status only from waiting to
      connected or to revoked. A new record is the one that a creation asks for. */
  lemma RecordFollows(s: State, ev: Event, id: Id)
    requires Fresh(s, ev) && id in Apply(s, ev).repo
    ensures id !in s.repo ==>
              ev.CreateEvent? && id == ev.id && Reaches(s, ev) && Apply(s, ev).repo[id] == NewRecord(ev.q, ev.notAfter)
    ensures id in s.repo ==>
              var r, r' := s.repo[id], Apply(s, ev).repo[id];
              && r' == r.(status := r'.status, downloadedAt := r'.downloadedAt, lastConnectedAt := r'.lastConnectedAt,
                          revokedAt := r'.revokedAt)
              && (r'.status == r.status || r'.status == Revoked || (r.status == Waiting && r'.status == Connected))
              && (r'.lastConnectedAt == r.lastConnectedAt || r'.status == Connected)
  {
    match ev
    case CreateEvent(_, _, _, _, _, _, _) =>
    case RevokeEvent(_, _, _) =>
    case DownloadEvent(_, _, _) =>
    case ConnectEvent(_, _) =>
    case RestartEvent(_, _) =>
  }

  lemma RecordsStayValid(s: State, ev: Event)
    requires Sound(s) && Fresh(s, ev)
    ensures forall id :: id in Apply(s, ev).repo ==>
              Apply(s, ev).repo[id].status != Expired && ValidServerName(Apply(s, ev).repo[id].serverName)
  {
    forall id | id in Apply(s, ev).repo
      ensures Apply(s, ev).repo[id].status != Expired && ValidServerName(Apply(s, ev).repo[id].serverName)
    {
      RecordFollows(s, ev, id);
    }
  }

  // ----- Revocation is permanent -----

  /** The pair is revoked and its CA is neither a root nor trusted. */
  ghost predicate Barred(s: State, id: Id) {
    && id in s.repo && s.repo[id].status == Revoked && id in s.files
    && s.files[id].ca.fingerprint !in Fingerprints(s.runtime.roots)
    && !Trusts(s.runtime, s.files[id].ca.fingerprint)
  }

  lemma SuccessfulRevokeBars(s: State, id: Id, now: Time, fault: RevokeFault)
    requires Revoke(s, id, now, fault).1.Ok?
    ensures Barred(Revoke(s, id, now, fault).0, id)
  {
  }

  /** Loading trusts nothing but the CAs of the pairs it loads. */
  lemma {:induction false} LoadTrustsOnlyLoaded(s: State, order: seq<Id>, fp: Fingerprint)
    requires forall id :: id in order ==> id in s.repo
    requires forall id :: id in order && id in s.files ==> s.files[id].ca.fingerprint != fp
    requires Load(s, order, EMPTY_RUNTIME).Ok?
    ensures var rt := Load(s, order, EMPTY_RUNTIME).value; fp !in Fingerprints(rt.roots) && !Trusts(rt, fp)
    decreases |order|
  {
    if order != [] {
      LoadTrustsOnlyLoaded(s, order[..|order| - 1], fp);
    }
  }

  lemma RestartKeepsBarred(s: State, now: Time, order: seq<Id>, id: Id)
    requires Sound(s) && Barred(s, id) && Enumerates(s, now, order)
    ensures Barred(Restart(s, now, order).0, id)
  {
    if Load(s, order, EMPTY_RUNTIME).Ok? {
      assert id !in order;
      LoadTrustsOnlyLoaded(s, order, s.files[id].ca.fingerprint);
    }
  }

  lemma CreateKeepsBarred(s: State, ev: Event, id: Id)
    requires ev.CreateEvent? && Fresh(s, ev) && Barred(s, id)
    ensures Barred(Apply(s, ev), id)
  {
    FingerprintsSnoc(s.runtime.roots, ev.pair.ca);
  }

  /** Removing a pair never adds trust. */
  lemma RemovePairAddsNoTrust(rt: Runtime, serverName: string, ca: Cert, client: Cert, fp: Fingerprint)
    requires fp !in Fingerprints(rt.roots) && !Trusts(rt, fp)
    ensures var rt' := RemovePair(rt, serverName, ca, client).0;
            fp !in Fingerprints(rt'.roots) && !Trusts(rt', fp)
  {
    FingerprintsWithout(rt.roots, ca.fingerprint);
  }

  lemma RevokeKeepsBarred(s: State, ev: Event, id: Id)
    requires ev.RevokeEvent? && Barred(s, id)
    ensures Barred(Apply(s, ev), id)
  {
    if ev.id in s.files && ev.id in s.repo {
      RemovePairAddsNoTrust(s.runtime, s.repo[ev.id].serverName, s.files[ev.id].ca, s.files[ev.id].clientCert,
                            s.files[id].ca.fingerprint);
    }
  }

  lemma StepKeepsBarred(s: State, ev: Event, id: Id)
    requires Sound(s) && Fresh(s, ev) && Barred(s, id)
    ensures Barred(Apply(s, ev), id) && Apply(s, ev).files[id].ca == s.files[id].ca
  {
    StepKeepsFiles(s, ev, id);
    match ev
    case CreateEvent(_, _, _, _, _, _, _) => CreateKeepsBarred(s, ev, id);
    case RevokeEvent(_, _, _) => RevokeKeepsBarred(s, ev, id);
    case RestartEvent(now, order) => if Enumerates(s, now, order) { RestartKeepsBarred(s, now, order, id); }
    case _ =>
  }

  lemma {:induction false} BarredForGood(s: State, run: seq<Event>, id: Id)
    requires Sound(s) && FreshRun(s, run) && Barred(s, id)
    ensures Barred(After(s, run), id) && After(s, run).files[id].ca == s.files[id].ca
    decreases |run|
  {
    if run != [] {
      StepKeepsSound(s, run[0]);
      StepKeepsBarred(s, run[0], id);
      BarredForGood(Apply(s, run[0]), run[1..], id);
    }
  }

  lemma {:induction false} SoundFrom(s: State, run: seq<Event>)
    requires Sound(s) && FreshRun(s, run)
    ensures Sound(After(s, run))
    decreases |run|
  {
    if run != [] {
      StepKeepsSound(s, run[0]);
      SoundFrom(Apply(s, run[0]), run[1..]);
    }
  }

  /** Once a revocation succeeds, no certificate issued by the pair's CA, its client certificate among
      them, is accepted in any later state: whatever fails, expires or is created afterwards, and also
      when a restart has emptied the set of revoked fingerprints. */
  lemma RevocationIsPermanent(history: seq<Event>, id: Id, now: Time, fault: RevokeFault, run: seq<Event>, cert: Cert)
    requires FreshRun(START, history)
    requires var s := After(START, history);
             Revoke(s, id, now, fault).1.Ok? && FreshRun(Revoke(s, id, now, fault).0, run)
    requires cert.issuer == After(START, history).files[id].ca.fingerprint
    ensures var s := After(START, history);
            s.files[id].clientCert.issuer == s.files[id].ca.fingerprint
            && !Accepts(After(Revoke(s, id, now, fault).0, run).runtime, cert)
  {
    var s := After(START, history);
    SoundFrom(START, history);
    SuccessfulRevokeBars(s, id, now, fault);
    StepKeepsSound(s, RevokeEvent(id, now, fault));
    BarredForGood(Revoke(s, id, now, fault).0, run, id);
  }

  // ----- A key is downloaded once -----

  /** Bundles of this pair that a run hands out. */
  ghost function Bundles(s: State, run: seq<Event>, id: Id): nat
    decreases |run|
  {
    if run == [] then 0
    else
      (if run[0].DownloadEvent? && run[0].id == id && Download(s, id, run[0].now, run[0].progress).1.Ok? then 1 else 0)
      + Bundles(Apply(s, run[0]), run[1..], id)
  }

  ghost predicate Marked(s: State, id: Id) { id in s.repo && s.repo[id].downloadedAt.Some? }

  lemma StepKeepsMarked(s: State, ev: Event, id: Id)
    requires Fresh(s, ev) && Marked(s, id)
    ensures Marked(Apply(s, ev), id)
  {
  }

  /** Once a download has been recorded, nobody gets the key any more. */
  lemma {:induction false} NoBundleOnceMarked(s: State, run: seq<Event>, id: Id)
    requires FreshRun(s, run) && Marked(s, id)
    ensures Bundles(s, run, id) == 0
    decreases |run|
  {
    if run != [] {
      StepKeepsMarked(s, run[0], id);
      NoBundleOnceMarked(Apply(s, run[0]), run[1..], id);
    }
  }

  lemma {:induction false} AtMostOneBundleFrom(s: State, run: seq<Event>, id: Id)
    requires FreshRun(s, run)
    ensures Bundles(s, run, id) <= 1
    decreases |run|
  {
    if run != [] {
      if run[0].DownloadEvent? && run[0].id == id && Download(s, id, run[0].now, run[0].progress).1.Ok? {
        NoBundleOnceMarked(Apply(s, run[0]), run[1..], id);
      } else {
        AtMostOneBundleFrom(Apply(s, run[0]), run[1..], id);
      }
    }
  }

  /** In every run, with a crash or failure between any two steps of any download, at most one
      download of a pair returns its client key. */
  lemma AtMostOneBundle(run: seq<Event>, id: Id)
    requires FreshRun(START, run)
    ensures Bundles(START, run, id) <= 1
  {
    AtMostOneBundleFrom(START, run, id);
  }

  // ----- What a failed creation leaves behind -----

  /** The creation gets as far as writing files. */
  predicate Reaches(s: State, ev: Event)
    requires ev.CreateEvent?
  {
    ValidRequest(ev.q) && !InUse(s, ev.q.name, ev.q.tenant, ev.q.serverName, ev.now)
  }

  /** The creation gets as far as the TLS library, which rejects the new root or one that is there. */
  predicate RejectsRoots(s: State, ev: Event)
    requires ev.CreateEvent?
  {
    Reaches(s, ev) && ev.createFault.CreateWorks? && !Rebuildable(s.runtime.roots + [ev.pair.ca])
  }

  predicate RecordLeft(s: State, ev: Event)
    requires ev.CreateEvent?
  {
    RejectsRoots(s, ev) && ev.cleanup.recordStays
  }

  predicate FilesLeft(s: State, ev: Event)
    requires ev.CreateEvent?
  {
    && (RejectsRoots(s, ev) || (Reaches(s, ev) && (ev.createFault.LoadFails? || ev.createFault.InsertFails?)))
    && ev.cleanup.filesStay
  }

  ghost function CreateResult(s: State, ev: Event): Result<Record>
    requires ev.CreateEvent?
  {
    Created(s, ev.q, ev.id, ev.pair, ev.notAfter, ev.now, ev.createFault, ev.cleanup).1
  }

  /** A creation that does not succeed never changes resolver, pair map, verifier or revocations, and
      adds a root if and only if the TLS library rejected the roots. The records are as before if and
      only if no deletion of the record failed in the rollback, and the files if and only if no removal
      of them did. */
  lemma FailedCreateRollsBack(s: State, ev: Event)
    requires ev.CreateEvent? && Fresh(s, ev) && CreateResult(s, ev).Err?
    ensures var s' := Apply(s, ev);
            && s'.runtime == s.runtime.(roots := s.runtime.roots + if RejectsRoots(s, ev) then [ev.pair.ca] else [])
            && (s'.repo == s.repo <==> !RecordLeft(s, ev))
            && (s'.files == s.files <==> !FilesLeft(s, ev))
  {
    var s' := Apply(s, ev);
    assert s.runtime.roots + [] == s.runtime.roots;
    assert s.files - {ev.id} == s.files;
    assert ev.id in s'.repo ==> s'.repo != s.repo;
    assert ev.id in s'.files ==> s'.files != s.files;
  }

  // ----- When a restart succeeds -----

  /** The pair can be loaded: its files are there and the TLS library takes its CA. */
  predicate Loadable(s: State, id: Id) { id in s.files && s.files[id].ca.usable }

  predicate AllLoadable(s: State, ids: seq<Id>) { forall id :: id in ids ==> Loadable(s, id) }

  lemma {:induction false} LoadedRootsAreUsable(s: State, order: seq<Id>)
    requires (forall id :: id in order ==> id in s.repo) && Load(s, order, EMPTY_RUNTIME).Ok?
    ensures Rebuildable(Load(s, order, EMPTY_RUNTIME).value.roots)
    decreases |order|
  {
    if order != [] { LoadedRootsAreUsable(s, order[..|order| - 1]); }
  }

  lemma LoadOneMore(s: State, order: seq<Id>)
    requires Sound(s) && order != [] && (forall id :: id in order ==> id in s.repo)
    requires order[|order| - 1] !in order[..|order| - 1] && Load(s, order[..|order| - 1], EMPTY_RUNTIME).Ok?
    ensures Load(s, order, EMPTY_RUNTIME).Ok? <==> Loadable(s, order[|order| - 1])
  {
    var before, id := order[..|order| - 1], order[|order| - 1];
    if id in s.files {
      assert forall j :: j in before && j in s.files ==> s.files[j].ca.fingerprint != s.files[id].ca.fingerprint;
      LoadTrustsOnlyLoaded(s, before, s.files[id].ca.fingerprint);
      LoadedRootsAreUsable(s, before);
      var roots := Load(s, before, EMPTY_RUNTIME).value.roots;
      assert s.files[id].ca in roots + [s.files[id].ca];
    }
  }

  lemma {:induction false} LoadSucceedsIff(s: State, order: seq<Id>)
    requires Sound(s) && (forall id :: id in order ==> id in s.repo)
    requires forall i, j :: 0 <= i < j < |order| ==> order[i] != order[j]
    ensures Load(s, order, EMPTY_RUNTIME).Ok? <==> AllLoadable(s, order)
    decreases |order|
  {
    if order != [] {
      var before, id := order[..|order| - 1], order[|order| - 1];
      LoadSucceedsIff(s, before);
      assert order == before + [id];
      if Load(s, before, EMPTY_RUNTIME).Ok? { LoadOneMore(s, order); }
    }
  }

  /** A restart succeeds if and only if every active record has its files and a CA that the TLS library
      takes; otherwise nothing is served. So a record that a rollback left without files keeps the
      service from starting for as long as it is active. */
  lemma RestartSucceedsIff(s: State, now: Time, order: seq<Id>)
    requires Sound(s) && Enumerates(s, now, order)
    ensures var (s', result) := Restart(s, now, order);
            && (result.Ok? <==> forall id :: id in s.repo && IsActive(s.repo[id], now) ==> Loadable(s, id))
            && (result.Err? ==> s'.runtime == EMPTY_RUNTIME)
            && Rebuildable(s'.runtime.roots)
  {
    LoadSucceedsIff(s, order);
    if Load(s, order, EMPTY_RUNTIME).Ok? { LoadedRootsAreUsable(s, order); }
  }

  // ----- A rejected root blocks the service until a restart -----

  /** A root that the TLS library rejects is in the list, and no pair on disk has it as its CA. */
  ghost predicate Stuck(s: State, root: Cert) {
    && root in s.runtime.roots && !root.usable
    && forall id :: id in s.files ==> s.files[id].ca.fingerprint != root.fingerprint
  }

  /** A creation whose CA is rejected gets stuck, unless it also fails to remove the files. */
  lemma RejectedCaSticks(s: State, ev: Event)
    requires ev.CreateEvent? && Fresh(s, ev) && RejectsRoots(s, ev) && !ev.pair.ca.usable
    ensures CreateResult(s, ev).Err? && (Stuck(Apply(s, ev), ev.pair.ca) <==> !ev.cleanup.filesStay)
  {
    var s' := Apply(s, ev);
    assert s'.runtime.roots == s.runtime.roots + [ev.pair.ca];
    assert ev.pair.ca in s'.runtime.roots;
    assert ev.cleanup.filesStay ==> ev.id in s'.files && s'.files[ev.id] == ev.pair;
    assert !ev.cleanup.filesStay ==> s'.files == s.files - {ev.id};
  }

  /** No creation and no revocation of the run succeeds. */
  ghost predicate AllFail(s: State, run: seq<Event>)
    decreases |run|
  {
    run != [] ==>
      && (run[0].CreateEvent? ==> CreateResult(s, run[0]).Err?)
      && (run[0].RevokeEvent? ==> Revoke(s, run[0].id, run[0].now, run[0].revokeFault).1.Err?)
      && AllFail(Apply(s, run[0]), run[1..])
  }

  lemma StuckBlocksCreate(s: State, ev: Event, root: Cert)
    requires Stuck(s, root) && Fresh(s, ev) && ev.CreateEvent?
    ensures Stuck(Apply(s, ev), root) && CreateResult(s, ev).Err?
  {
    assert root in s.runtime.roots + [ev.pair.ca];
  }

  lemma StuckBlocksRevoke(s: State, ev: Event, root: Cert)
    requires Stuck(s, root) && ev.RevokeEvent?
    ensures Stuck(Apply(s, ev), root) && Revoke(s, ev.id, ev.now, ev.revokeFault).1.Err?
  {
    if ev.id in s.repo && ev.id in s.files {
      assert root in Without(s.runtime.roots, s.files[ev.id].ca.fingerprint);
    }
  }

  lemma StuckBlocks(s: State, ev: Event, root: Cert)
    requires Stuck(s, root) && Fresh(s, ev) && !ev.RestartEvent?
    ensures Stuck(Apply(s, ev), root)
    ensures ev.CreateEvent? ==> CreateResult(s, ev).Err?
    ensures ev.RevokeEvent? ==> Revoke(s, ev.id, ev.now, ev.revokeFault).1.Err?
  {
    if ev.CreateEvent? {
      StuckBlocksCreate(s, ev, root);
    } else if ev.RevokeEvent? {
      StuckBlocksRevoke(s, ev, root);
    }
  }

  /** Once a rejected root is stuck, no creation and no revocation succeeds until a restart. */
  lemma {:induction false} StuckUntilRestart(s: State, run: seq<Event>, root: Cert)
    requires Stuck(s, root) && FreshRun(s, run) && forall i :: 0 <= i < |run| ==> !run[i].RestartEvent?
    ensures Stuck(After(s, run), root) && AllFail(s, run)
    decreases |run|
  {
    if run != [] {
      StuckBlocks(s, run[0], root);
      StuckUntilRestart(Apply(s, run[0]), run[1..], root);
    }
  }

  /** A revocation succeeds if and only if the record is there and not revoked, its pair can be read, the
      roots that remain can be used, and the record can be updated. If it fails on the roots, the name no
      longer resolves, but every certificate that was accepted still is. */
  lemma RevokeSucceedsIff(s: State, id: Id, now: Time, fault: RevokeFault, cert: Cert)
    ensures var (s', result) := Revoke(s, id, now, fault);
            && (result.Ok? <==>
                  && id in s.repo && s.repo[id].status != Revoked && id in s.files && fault.RevokeWorks?
                  && Rebuildable(Without(s.runtime.roots, s.files[id].ca.fingerprint)))
            && (result == Err(NotFound) <==> id !in s.repo)
            && (result == Err(Conflict) <==> id in s.repo && s.repo[id].status == Revoked)
            && (result == Err(Invalid) ==>
                  && Lower(s.repo[id].serverName) !in s'.runtime.resolver
                  && (Accepts(s'.runtime, cert) <==> Accepts(s.runtime, cert)))
  {
  }
}
