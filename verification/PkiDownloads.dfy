/** From the creation of a pair to its download: a record and its files keep their identity, the bundle
    handed out is the one that was written, and the statuses mean the same to every operation. */
module PkiDownloads {
  import opened Options
  import opened Pki
  import opened PkiAgreement
  import opened PkiServing
  import opened Text

  // ----- Records and files keep their identity -----

  /** The files are the same, but for a client key that has been removed. */
  predicate SamePair(later: PairFiles, before: PairFiles) {
    && later.ca == before.ca && later.serverKey == before.serverKey && later.clientCert == before.clientCert
    && (later.clientKey == before.clientKey || later.clientKey.None?)
  }

  predicate SameIdentity(a: Record, b: Record) { SameNames(a, b) && a.clientNotAfter == b.clientNotAfter }

  predicate Known(s: State, id: Id) { id in s.repo || id in s.files }

  /** What is known of the pair in `s` is known, unchanged, in `t`. */
  predicate Keeps(s: State, t: State, id: Id) {
    && (id in t.repo <==> id in s.repo) && (id in t.files <==> id in s.files)
    && (id in s.repo ==> SameIdentity(t.repo[id], s.repo[id]))
    && (id in s.files ==> SamePair(t.files[id], s.files[id]))
  }

  lemma StepKeepsRecord(s: State, ev: Event, id: Id)
    requires Fresh(s, ev) && Known(s, id)
    ensures id in Apply(s, ev).repo <==> id in s.repo
    ensures id in s.repo ==> SameIdentity(Apply(s, ev).repo[id], s.repo[id])
  {
    if id in Apply(s, ev).repo { RecordFollows(s, ev, id); }
  }

  lemma StepKeepsPair(s: State, ev: Event, id: Id)
    requires Fresh(s, ev) && Known(s, id)
    ensures Keeps(s, Apply(s, ev), id)
  {
    StepKeepsRecord(s, ev, id);
    FilesGrowByOne(s, ev);
  }

  lemma {:induction false} RunKeepsPair(s: State, run: seq<Event>, id: Id)
    requires FreshRun(s, run) && Known(s, id)
    ensures Keeps(s, After(s, run), id)
    decreases |run|
  {
    if run != [] {
      StepKeepsPair(s, run[0], id);
      RunKeepsPair(Apply(s, run[0]), run[1..], id);
    }
  }

  lemma StepAddsOnlyCreated(s: State, ev: Event, id: Id)
    requires Fresh(s, ev) && !Known(s, id) && Known(Apply(s, ev), id)
    ensures ev.CreateEvent? && ev.id == id
    ensures id in Apply(s, ev).repo ==> Apply(s, ev).repo[id] == NewRecord(ev.q, ev.notAfter)
    ensures id in Apply(s, ev).files ==> Apply(s, ev).files[id] == ev.pair
  {
  }

  /** A pair that is recorded and on disk was written, both of it, by one creation. */
  lemma {:induction false} CreationOf(s: State, run: seq<Event>, id: Id) returns (k: int)
    requires FreshRun(s, run) && !Known(s, id) && id in After(s, run).repo && id in After(s, run).files
    ensures 0 <= k < |run| && run[k].CreateEvent? && run[k].id == id
    ensures !Known(After(s, run[..k]), id)
    ensures SameIdentity(After(s, run).repo[id], NewRecord(run[k].q, run[k].notAfter))
    ensures SamePair(After(s, run).files[id], run[k].pair)
    decreases |run|
  {
    var s1 := Apply(s, run[0]);
    if Known(s1, id) {
      k := 0;
      StepAddsOnlyCreated(s, run[0], id);
      RunKeepsPair(s1, run[1..], id);
    } else {
      k := CreationOf(s1, run[1..], id);
      k := k + 1;
      assert run[..k][1..] == run[1..][..k - 1];
    }
  }

  // ----- When a download succeeds -----

  /** The key of a pair that was never marked as downloaded is still there, and exactly the revoked
      records have a revocation date. */
  predicate Unspent(s: State, id: Id) {
    id in s.repo ==>
      && (s.repo[id].revokedAt.Some? <==> s.repo[id].status == Revoked) && s.repo[id].status != Expired
      && (id in s.files && s.repo[id].downloadedAt.None? ==> s.files[id].clientKey.Some?)
  }

  lemma StepKeepsUnspent(s: State, ev: Event, id: Id)
    requires Fresh(s, ev) && Unspent(s, id)
    ensures Unspent(Apply(s, ev), id)
  {
    if Known(s, id) {
      StepKeepsPair(s, ev, id);
    } else if Known(Apply(s, ev), id) {
      StepAddsOnlyCreated(s, ev, id);
    }
  }

  lemma {:induction false} RunKeepsUnspent(s: State, run: seq<Event>, id: Id)
    requires FreshRun(s, run) && Unspent(s, id)
    ensures Unspent(After(s, run), id)
    decreases |run|
  {
    if run != [] {
      StepKeepsUnspent(s, run[0], id);
      RunKeepsUnspent(Apply(s, run[0]), run[1..], id);
    }
  }

  /** In every run a download that nothing interrupts succeeds if and only if the pair is active, its files
      are there and it was not marked as downloaded; and the reported status is the one that refuses:
      a revoked pair is not found, an expired one has expired. */
  lemma DownloadSucceedsIff(run: seq<Event>, id: Id, now: Time, progress: Progress)
    requires FreshRun(START, run)
    ensures var s := After(START, run);
            var result := Download(s, id, now, progress).1;
            && (result.Ok? <==>
                  Active(s, id, now) && s.repo[id].downloadedAt.None? && id in s.files && progress.ToTheEnd?)
            && (result == Err(NotFound) <==> id !in s.repo || Reported(s.repo[id], now) == Revoked)
            && (result == Err(ExpiredError) <==> id in s.repo && Reported(s.repo[id], now) == Expired)
            && (result == Err(Consumed) <==>
                  Active(s, id, now) && (s.repo[id].downloadedAt.Some? || id !in s.files))
  {
    RunKeepsUnspent(START, run, id);
  }

  /** In every run the bundle that a download hands out holds the client key, the client certificate and the
      CA that the creation of this very pair wrote. */
  lemma BundleIsWhatWasWritten(run: seq<Event>, id: Id, now: Time, progress: Progress) returns (k: int)
    requires FreshRun(START, run) && Download(After(START, run), id, now, progress).1.Ok?
    ensures 0 <= k < |run| && run[k].CreateEvent? && run[k].id == id && !Known(After(START, run[..k]), id)
    ensures run[k].pair.clientKey.Some?
    ensures Download(After(START, run), id, now, progress).1
            == Ok(Bundle(run[k].pair.clientKey.value, run[k].pair.clientCert, run[k].pair.ca))
  {
    k := CreationOf(START, run, id);
  }

  /** The events that can spend or revoke the pair. */
  predicate Touches(ev: Event, id: Id) { (ev.DownloadEvent? || ev.RevokeEvent?) && ev.id == id }

  /** The pair is recorded as unrevoked and undownloaded, with all its files. */
  predicate Pristine(s: State, id: Id, pair: PairFiles, notAfter: Time) {
    && id in s.repo && s.repo[id].status != Revoked && s.repo[id].status != Expired && s.repo[id].revokedAt.None?
    && s.repo[id].downloadedAt.None? && s.repo[id].clientNotAfter == notAfter
    && id in s.files && s.files[id] == pair
  }

  lemma StepKeepsPristine(s: State, ev: Event, id: Id, pair: PairFiles, notAfter: Time)
    requires Fresh(s, ev) && Pristine(s, id, pair, notAfter) && !Touches(ev, id)
    ensures Pristine(Apply(s, ev), id, pair, notAfter)
  {
  }

  lemma {:induction false} RunKeepsPristine(s: State, run: seq<Event>, id: Id, pair: PairFiles, notAfter: Time)
    requires FreshRun(s, run) && Pristine(s, id, pair, notAfter) && forall i :: 0 <= i < |run| ==> !Touches(run[i], id)
    ensures Pristine(After(s, run), id, pair, notAfter)
    decreases |run|
  {
    if run != [] {
      StepKeepsPristine(s, run[0], id, pair, notAfter);
      RunKeepsPristine(Apply(s, run[0]), run[1..], id, pair, notAfter);
    }
  }

  lemma CreatedIsPristine(s: State, ev: Event)
    requires ev.CreateEvent? && Fresh(s, ev) && CreateResult(s, ev).Ok?
    ensures Pristine(Apply(s, ev), ev.id, ev.pair, ev.notAfter)
  {
    CreatedIsServed(s, ev);
  }

  lemma PristineIsDownloadable(s: State, id: Id, pair: PairFiles, notAfter: Time, now: Time)
    requires Pristine(s, id, pair, notAfter) && now < notAfter && pair.clientKey.Some?
    ensures Download(s, id, now, ToTheEnd).1 == Ok(Bundle(pair.clientKey.value, pair.clientCert, pair.ca))
  {
  }

  /** What was created can be downloaded: after a creation that succeeds, whatever is created, revoked,
      downloaded or connected besides, whatever fails and however often the service restarts, the first
      download before the expiry hands out what was written. */
  lemma CreatedIsDownloadable(s: State, ev: Event, run: seq<Event>, now: Time)
    requires ev.CreateEvent? && Fresh(s, ev) && CreateResult(s, ev).Ok? && FreshRun(Apply(s, ev), run)
    requires (forall i :: 0 <= i < |run| ==> !Touches(run[i], ev.id)) && now < ev.notAfter
    ensures Download(After(Apply(s, ev), run), ev.id, now, ToTheEnd).1
            == Ok(Bundle(ev.pair.clientKey.value, ev.pair.clientCert, ev.pair.ca))
  {
    CreatedIsPristine(s, ev);
    RunKeepsPristine(Apply(s, ev), run, ev.id, ev.pair, ev.notAfter);
    PristineIsDownloadable(After(Apply(s, ev), run), ev.id, ev.pair, ev.notAfter, now);
  }

  /** A download that succeeds leaves no client key behind, in this and in every later state. */
  lemma KeyIsGone(s: State, id: Id, now: Time, run: seq<Event>)
    requires Download(s, id, now, ToTheEnd).1.Ok? && FreshRun(Download(s, id, now, ToTheEnd).0, run)
    ensures var t := After(Download(s, id, now, ToTheEnd).0, run); id in t.files && t.files[id].clientKey.None?
  {
    RunKeepsPair(Download(s, id, now, ToTheEnd).0, run, id);
  }

  // ----- What a revocation leaves -----

  lemma StepKeepsRevoked(s: State, ev: Event)
    requires !ev.RestartEvent?
    ensures s.runtime.revoked <= Apply(s, ev).runtime.revoked
  {
  }

  /** A certificate on the revocation list stays there until a restart. */
  lemma {:induction false} RunKeepsRevoked(s: State, run: seq<Event>)
    requires forall i :: 0 <= i < |run| ==> !run[i].RestartEvent?
    ensures s.runtime.revoked <= After(s, run).runtime.revoked
    decreases |run|
  {
    if run != [] {
      StepKeepsRevoked(s, run[0]);
      RunKeepsRevoked(Apply(s, run[0]), run[1..]);
    }
  }

  /** Until a restart the revoked certificate is refused by its fingerprint alone, whoever is trusted. */
  lemma RevokedUntilRestart(s: State, id: Id, now: Time, fault: RevokeFault, run: seq<Event>, cert: Cert)
    requires Revoke(s, id, now, fault).1.Ok? && forall i :: 0 <= i < |run| ==> !run[i].RestartEvent?
    requires cert.fingerprint == s.files[id].clientCert.fingerprint
    ensures !Accepts(After(Revoke(s, id, now, fault).0, run).runtime, cert)
  {
    RunKeepsRevoked(Revoke(s, id, now, fault).0, run);
  }

  // ----- What the dates of a record say -----

  /** Some event of the run is a download, a revocation, or a handshake at that time. */
  predicate DownloadAt(run: seq<Event>, id: Id, t: Time) {
    exists k :: 0 <= k < |run| && run[k].DownloadEvent? && run[k].id == id && run[k].now == t
  }

  predicate RevokeAt(run: seq<Event>, id: Id, t: Time) {
    exists k :: 0 <= k < |run| && run[k].RevokeEvent? && run[k].id == id && run[k].now == t
  }

  predicate HandshakeAt(run: seq<Event>, t: Time) {
    exists k :: 0 <= k < |run| && run[k].ConnectEvent? && run[k].now == t
  }

  lemma StepDates(s: State, ev: Event, id: Id)
    requires Fresh(s, ev) && id in Apply(s, ev).repo
    ensures var r' := Apply(s, ev).repo[id];
            && (r'.downloadedAt.None? || (id in s.repo && r'.downloadedAt == s.repo[id].downloadedAt)
                || (ev.DownloadEvent? && ev.id == id && r'.downloadedAt.value == ev.now))
            && (r'.revokedAt.None? || (id in s.repo && r'.revokedAt == s.repo[id].revokedAt)
                || (ev.RevokeEvent? && ev.id == id && r'.revokedAt.value == ev.now))
            && (r'.lastConnectedAt.None? || (id in s.repo && r'.lastConnectedAt == s.repo[id].lastConnectedAt)
                || (ev.ConnectEvent? && r'.lastConnectedAt.value == ev.now))
  {
    match ev
    case CreateEvent(_, _, _, _, _, _, _) =>
    case RevokeEvent(_, _, _) =>
    case DownloadEvent(_, _, _) =>
    case ConnectEvent(_, _) =>
    case RestartEvent(_, _) =>
  }

  lemma DatesOneEarlier(run: seq<Event>, id: Id, t: Time)
    requires run != []
    ensures DownloadAt(run, id, t) <==>
            DownloadAt(run[1..], id, t) || (run[0].DownloadEvent? && run[0].id == id && run[0].now == t)
    ensures RevokeAt(run, id, t) <==>
            RevokeAt(run[1..], id, t) || (run[0].RevokeEvent? && run[0].id == id && run[0].now == t)
    ensures HandshakeAt(run, t) <==> HandshakeAt(run[1..], t) || (run[0].ConnectEvent? && run[0].now == t)
  {
    assert run == [run[0]] + run[1..];
  }

  lemma {:induction false} DatesFrom(s: State, run: seq<Event>, id: Id)
    requires FreshRun(s, run) && id in After(s, run).repo
    ensures var r := After(s, run).repo[id];
            && (r.downloadedAt.Some? ==> (id in s.repo && r.downloadedAt == s.repo[id].downloadedAt)
                                         || DownloadAt(run, id, r.downloadedAt.value))
            && (r.revokedAt.Some? ==> (id in s.repo && r.revokedAt == s.repo[id].revokedAt)
                                      || RevokeAt(run, id, r.revokedAt.value))
            && (r.lastConnectedAt.Some? ==> (id in s.repo && r.lastConnectedAt == s.repo[id].lastConnectedAt)
                                            || HandshakeAt(run, r.lastConnectedAt.value))
    decreases |run|
  {
    if run != [] {
      var s1, r := Apply(s, run[0]), After(s, run).repo[id];
      DatesFrom(s1, run[1..], id);
      if id in s1.repo { StepDates(s, run[0], id); }
      if r.downloadedAt.Some? { DatesOneEarlier(run, id, r.downloadedAt.value); }
      if r.revokedAt.Some? { DatesOneEarlier(run, id, r.revokedAt.value); }
      if r.lastConnectedAt.Some? { DatesOneEarlier(run, id, r.lastConnectedAt.value); }
    }
  }

  /** In every run each date of a record is that of an event which set it: a download of the pair, a
      revocation of it, a handshake. */
  lemma DatesComeFromEvents(run: seq<Event>, id: Id)
    requires FreshRun(START, run) && id in After(START, run).repo
    ensures var r := After(START, run).repo[id];
            && (r.downloadedAt.Some? ==> DownloadAt(run, id, r.downloadedAt.value))
            && (r.revokedAt.Some? ==> RevokeAt(run, id, r.revokedAt.value))
            && (r.lastConnectedAt.Some? ==> HandshakeAt(run, r.lastConnectedAt.value))
  {
    DatesFrom(START, run, id);
  }

  // ----- What a handshake records -----

  /** A handshake that names an active, served pair has it listed as connected until it expires or is
      revoked, and changes no other record. */
  lemma ConnectMarks(s: State, id: Id, serverName: string, now: Time, later: Time)
    requires Sound(s) && Active(s, id, now) && id in s.files && IsServed(s, id)
    requires Lower(serverName) == s.repo[id].serverName && later < s.repo[id].clientNotAfter
    ensures var t := MarkConnected(s, serverName, now);
            && t.repo.Keys == s.repo.Keys
            && Reported(t.repo[id], later) == Connected && t.repo[id].lastConnectedAt == Some(now)
            && t.repo[id].downloadedAt == s.repo[id].downloadedAt
            && (forall j :: j in s.repo && j != id ==> t.repo[j] == s.repo[j])
            && t.files == s.files && t.runtime == s.runtime
  {
  }
}
