/** The gateway's own metrics page: which families it holds, and what the dashboard's snapshot shows
    of them. */
module MetricsPage {
  import opened Options
  import opened MetricsText
  import opened MetricsReader
  import opened MetricsRoundTrip

  /** What `render` reads: its arguments and the shared counters. */
  datatype Counters = Counters(
    statusCounts: map<nat, nat>, active: nat, agents: nat, agentsHealthy: nat,
    tunnelRetries: map<string, nat>, agentRejections: map<string, nat>, forwardEnds: map<string, nat>,
    clientStalls: map<string, nat>, headTimeouts: map<string, nat>, tunnelOpenTimeouts: map<string, nat>,
    tunnelWriteFailures: map<string, nat>, bytesOut: nat, totalDurationMs: nat, requestCount: nat, aborted: nat,
    verifyHits: nat, verifyMisses: nat, quicConnections: nat, quicAccepting: nat, httpAcceptErrors: nat,
    agentConnections: nat)

  function GaugeFamilies(c: Counters): seq<Family> {
    [Scalar("hlmg_active_requests", "gauge", c.active),
     Scalar("hlmg_agents", "gauge", c.agents),
     Scalar("hlmg_agents_healthy", "gauge", c.agentsHealthy)]
  }

  function LabeledFamilies(c: Counters): seq<Family> {
    [Labeled("hlmg_tunnel_retries_total", "outcome", c.tunnelRetries),
     Labeled("hlmg_agent_rejections_total", "reason", c.agentRejections),
     Labeled("hlmg_forward_ends_total", "kind", c.forwardEnds),
     Labeled("hlmg_client_stalls_total", "phase", c.clientStalls),
     Labeled("hlmg_upstream_head_timeouts_total", "class", c.headTimeouts),
     Labeled("hlmg_tunnel_open_timeouts_total", "class", c.tunnelOpenTimeouts),
     Labeled("hlmg_tunnel_write_failures_total", "class", c.tunnelWriteFailures)]
  }

  function TotalFamilies(c: Counters): seq<Family> {
    [Scalar("hlmg_bytes_out", "counter", c.bytesOut),
     Scalar("hlmg_request_duration_ms", "counter", c.totalDurationMs),
     Scalar("hlmg_request_count", "counter", c.requestCount)]
  }

  function OtherCounterFamilies(c: Counters): seq<Family> {
    [Scalar("hlmg_requests_aborted_total", "counter", c.aborted),
     Scalar("hlmg_key_verify_hits_total", "counter", c.verifyHits),
     Scalar("hlmg_key_verify_misses_total", "counter", c.verifyMisses),
     Scalar("hlmg_quic_connections", "gauge", c.quicConnections),
     Scalar("hlmg_quic_accepting", "gauge", c.quicAccepting),
     Scalar("hlmg_http_accept_errors_total", "counter", c.httpAcceptErrors),
     Scalar("hlmg_agent_connections_total", "counter", c.agentConnections)]
  }

  /** The families of the page in the order `render` prints them. */
  function GatewayFamilies(c: Counters): seq<Family> {
    [ByStatus("hlmg_requests_total", "status", c.statusCounts)]
    + (GaugeFamilies(c) + (LabeledFamilies(c) + (TotalFamilies(c) + OtherCounterFamilies(c))))
  }

  method Render(c: Counters, help: Help) returns (text: string)
    ensures text == Page(GatewayFamilies(c), help)
  {
    text := RenderFamilies(GatewayFamilies(c), help);
  }

  /** Label values that the gateway may hand to a labelled family. */
  predicate PlainLabels(counts: map<string, nat>) { forall k :: k in counts ==> IsFaithful(k) && '\n' !in k }

  /** Status codes are 16 bits wide; labels and help texts do not break the page. */
  ghost predicate Printable(c: Counters, help: Help) {
    && (forall code :: code in c.statusCounts ==> code < 0x1_0000)
    && forall f :: f in GatewayFamilies(c) ==> '\n' !in help(f.name) && (f.Labeled? ==> PlainLabels(f.counts))
  }

  // ----- Names -----

  predicate NamesAreReadable(f: Family) {
    IsName(f.name) && (if f.Scalar? then '\n' !in f.kind else IsName(f.tag) && f.tag != PROTO)
  }

  lemma TagNames()
    ensures IsName("status") && IsName("outcome") && IsName("reason")
    ensures IsName("kind") && IsName("phase") && IsName("class")
  {
  }

  lemma TunnelNames()
    ensures IsName("hlmg_tunnel_retries_total") && IsName("hlmg_tunnel_open_timeouts_total")
  {
  }

  lemma AgentNames()
    ensures IsName("hlmg_agent_rejections_total") && IsName("hlmg_agent_connections_total")
    ensures IsName("hlmg_upstream_head_timeouts_total")
  {
  }

  lemma ClientNames()
    ensures IsName("hlmg_forward_ends_total") && IsName("hlmg_client_stalls_total")
    ensures IsName("hlmg_requests_aborted_total")
  {
  }

  lemma VerifyNames()
    ensures IsName("hlmg_key_verify_hits_total") && IsName("hlmg_key_verify_misses_total")
    ensures IsName("hlmg_http_accept_errors_total")
  {
  }

  lemma QuicNames()
    ensures IsName("hlmg_quic_connections") && IsName("hlmg_quic_accepting")
  {
  }

  lemma GaugeNames()
    ensures IsName("hlmg_active_requests") && IsName("hlmg_agents") && IsName("hlmg_agents_healthy")
  {
  }

  lemma TotalNames()
    ensures IsName("hlmg_bytes_out") && IsName("hlmg_request_duration_ms") && IsName("hlmg_request_count")
  {
  }

  lemma RequestNames()
    ensures IsName("hlmg_requests_total") && IsName("hlmg_tunnel_write_failures_total")
  {
  }

  lemma LabeledAreReadable(c: Counters)
    ensures forall f :: f in LabeledFamilies(c) ==> NamesAreReadable(f)
  {
    TagNames();
    RequestNames();
    TunnelNames();
    AgentNames();
    ClientNames();
  }

  lemma OthersAreReadable(c: Counters)
    ensures forall f :: f in OtherCounterFamilies(c) ==> NamesAreReadable(f)
  {
    AgentNames();
    ClientNames();
    VerifyNames();
    QuicNames();
  }

  lemma ShownAreReadable(c: Counters)
    ensures forall f :: f in GaugeFamilies(c) + TotalFamilies(c) ==> NamesAreReadable(f)
  {
    GaugeNames();
    TotalNames();
  }

  lemma GatewayNames(c: Counters)
    ensures forall f :: f in GatewayFamilies(c) ==> NamesAreReadable(f)
  {
    RequestNames();
    TagNames();
    ShownAreReadable(c);
    LabeledAreReadable(c);
    OthersAreReadable(c);
    assert forall f :: f in GatewayFamilies(c) ==>
                         || f == ByStatus("hlmg_requests_total", "status", c.statusCounts)
                         || f in GaugeFamilies(c) + TotalFamilies(c)
                         || f in LabeledFamilies(c) || f in OtherCounterFamilies(c);
  }

  lemma GatewayIsReadable(c: Counters, help: Help)
    requires Printable(c, help)
    ensures forall f :: f in GatewayFamilies(c) ==> Readable(f, help)
  {
    GatewayNames(c);
  }

  // ----- The gauges and counters -----

  lemma {:induction false} FirstConcat(a: seq<Sample>, b: seq<Sample>, name: string)
    ensures First(a + b, name) == if First(a, name).Some? then First(a, name) else First(b, name)
    decreases |a|
  {
    if a == [] {
      assert a + b == b;
    } else {
      assert (a + b)[1..] == a[1..] + b;
      FirstConcat(a[1..], b, name);
    }
  }

  lemma {:induction false} FirstAbsent(samples: seq<Sample>, name: string)
    requires forall i :: 0 <= i < |samples| ==> samples[i].name != name
    ensures First(samples, name) == None
    decreases |samples|
  {
    if samples != [] { FirstAbsent(samples[1..], name); }
  }

  /** A scalar whose name no earlier family has is found with its value. */
  lemma {:induction false} FirstIsScalar(families: seq<Family>, k: nat)
    requires k < |families| && families[k].Scalar?
    requires forall j :: 0 <= j < k ==> families[j].name != families[k].name
    ensures First(AllSamples(families), families[k].name) == Some(Reading(families[k].value))
    decreases k
  {
    var name := families[k].name;
    FirstConcat(Samples(families[0]), AllSamples(families[1..]), name);
    if k > 0 {
      FirstAbsent(Samples(families[0]), name);
      FirstIsScalar(families[1..], k - 1);
    }
  }

  // ----- The status map -----

  lemma {:induction false} StatusMapConcat(a: seq<Sample>, b: seq<Sample>)
    ensures StatusMap(a + b) == StatusMap(a) + StatusMap(b)
    decreases |b|
  {
    if b == [] {
      assert a + b == a;
    } else {
      assert (a + b)[..|a + b| - 1] == a + b[..|b| - 1];
      StatusMapConcat(a, b[..|b| - 1]);
    }
  }

  lemma {:induction false} StatusMapAbsent(samples: seq<Sample>)
    requires forall i :: 0 <= i < |samples| ==> samples[i].name != "hlmg_requests_total"
    ensures StatusMap(samples) == map[]
    decreases |samples|
  {
    if samples != [] { StatusMapAbsent(samples[..|samples| - 1]); }
  }

  lemma {:induction false} OtherFamilies(families: seq<Family>)
    requires forall f :: f in families ==> f.name != "hlmg_requests_total"
    ensures StatusMap(AllSamples(families)) == map[]
    decreases |families|
  {
    if families != [] {
      OtherFamilies(families[1..]);
      StatusMapAbsent(Samples(families[0]));
      StatusMapConcat(Samples(families[0]), AllSamples(families[1..]));
    }
  }

  /** The status counts as the snapshot holds them. */
  function ByCode(codes: map<nat, nat>): map<JsNumber, JsNumber> {
    map code | code in codes :: Whole(code) := Reading(codes[code])
  }

  /** The sample of one status code. */
  predicate Shows(s: Sample, codes: map<nat, nat>, code: nat) {
    && IsStatusSample(s) && Number(s.labels["status"]) == Whole(code)
    && code in codes && s.value == Reading(codes[code])
  }

  lemma {:induction false} StatusMapOf(samples: seq<Sample>, codes: map<nat, nat>, keys: seq<nat>)
    requires |samples| == |keys| && forall i :: 0 <= i < |keys| ==> Shows(samples[i], codes, keys[i])
    ensures forall key :: key in StatusMap(samples) <==> key.Whole? && key.n in keys
    ensures forall key :: key in StatusMap(samples) && key.n in codes ==>
              StatusMap(samples)[key] == Reading(codes[key.n])
    decreases |samples|
  {
    if samples != [] {
      var last := |samples| - 1;
      assert Shows(samples[last], codes, keys[last]);
      StatusMapOf(samples[..last], codes, keys[..last]);
      assert keys == keys[..last] + [keys[last]];
    }
  }

  lemma StatusSamplesShow(codes: map<nat, nat>, i: nat)
    requires i < |SortedCodes(codes)| && SortedCodes(codes)[i] < 0x1_0000
    ensures i < |CodeEntries(codes)|
    ensures Shows(EntrySamples("hlmg_requests_total", "status", CodeEntries(codes))[i], codes, SortedCodes(codes)[i])
  {
    var code := SortedCodes(codes)[i];
    assert code in codes.Keys;
    NumberOfPrint(code);
  }

  lemma StatusIsRecovered(codes: map<nat, nat>)
    requires forall code :: code in codes ==> code < 0x1_0000
    ensures StatusMap(EntrySamples("hlmg_requests_total", "status", CodeEntries(codes))) == ByCode(codes)
  {
    var keys := SortedCodes(codes);
    var samples := EntrySamples("hlmg_requests_total", "status", CodeEntries(codes));
    forall i | 0 <= i < |keys|
      ensures Shows(samples[i], codes, keys[i])
    {
      assert keys[i] in codes.Keys;
      StatusSamplesShow(codes, i);
    }
    StatusMapOf(samples, codes, keys);
  }

  /** Only the status family feeds the status map. */
  lemma StatusOfPage(codes: map<nat, nat>, others: seq<Family>)
    requires forall code :: code in codes ==> code < 0x1_0000
    requires forall f :: f in others ==> f.name != "hlmg_requests_total"
    ensures StatusMap(AllSamples([ByStatus("hlmg_requests_total", "status", codes)] + others)) == ByCode(codes)
  {
    var status := ByStatus("hlmg_requests_total", "status", codes);
    assert ([status] + others)[1..] == others;
    OtherFamilies(others);
    StatusMapConcat(Samples(status), AllSamples(others));
    StatusIsRecovered(codes);
  }

  // ----- The snapshot -----

  /** What the dashboard shows of a page is what the gateway counted. */
  lemma SnapshotIsRecovered(c: Counters, help: Help)
    requires Printable(c, help)
    ensures SnapshotOf(ParsePrometheus(Page(GatewayFamilies(c), help))) ==
            Snapshot(ByCode(c.statusCounts), Reading(c.active), Reading(c.agents), Reading(c.agentsHealthy),
                     Reading(c.bytesOut), Reading(c.totalDurationMs), Reading(c.requestCount))
  {
    GatewayIsReadable(c, help);
    PageReadsBack(GatewayFamilies(c), help);
    LabeledAreOthers(c);
    ScalarsAreOthers(c);
    CountersAreOthers(c);
    var others := GaugeFamilies(c) + (LabeledFamilies(c) + (TotalFamilies(c) + OtherCounterFamilies(c)));
    StatusOfPage(c.statusCounts, others);
    GaugesAreFound(c);
    TotalsAreFound(c);
  }

  lemma LabeledAreOthers(c: Counters)
    ensures forall f :: f in LabeledFamilies(c) ==> f.name != "hlmg_requests_total"
  {
  }

  lemma ScalarsAreOthers(c: Counters)
    ensures forall f :: f in GaugeFamilies(c) + TotalFamilies(c) ==> f.name != "hlmg_requests_total"
  {
    assert "hlmg_agents_healthy"[5] == 'a' && "hlmg_requests_total"[5] == 'r';
  }

  lemma CountersAreOthers(c: Counters)
    ensures forall f :: f in OtherCounterFamilies(c) ==> f.name != "hlmg_requests_total"
  {
    assert "hlmg_quic_accepting"[5] == 'q' && "hlmg_requests_total"[5] == 'r';
  }

  lemma GaugesAreFound(c: Counters)
    ensures First(AllSamples(GatewayFamilies(c)), "hlmg_active_requests") == Some(Reading(c.active))
    ensures First(AllSamples(GatewayFamilies(c)), "hlmg_agents") == Some(Reading(c.agents))
    ensures First(AllSamples(GatewayFamilies(c)), "hlmg_agents_healthy") == Some(Reading(c.agentsHealthy))
  {
    assert "hlmg_agents_healthy"[5] == 'a' && "hlmg_requests_total"[5] == 'r';
    FirstIsScalar(GatewayFamilies(c), 1);
    FirstIsScalar(GatewayFamilies(c), 2);
    FirstIsScalar(GatewayFamilies(c), 3);
  }

  lemma TotalsAreFound(c: Counters)
    ensures First(AllSamples(GatewayFamilies(c)), "hlmg_bytes_out") == Some(Reading(c.bytesOut))
    ensures First(AllSamples(GatewayFamilies(c)), "hlmg_request_duration_ms") == Some(Reading(c.totalDurationMs))
    ensures First(AllSamples(GatewayFamilies(c)), "hlmg_request_count") == Some(Reading(c.requestCount))
  {
    BytesOutIsFound(c);
    DurationIsFound(c);
    CountIsFound(c);
  }

  lemma BytesOutIsFound(c: Counters)
    ensures First(AllSamples(GatewayFamilies(c)), "hlmg_bytes_out") == Some(Reading(c.bytesOut))
  {
    FirstIsScalar(GatewayFamilies(c), 11);
  }

  lemma DurationIsFound(c: Counters)
    ensures First(AllSamples(GatewayFamilies(c)), "hlmg_request_duration_ms") == Some(Reading(c.totalDurationMs))
  {
    assert "hlmg_client_stalls_total"[5] == 'c' && "hlmg_request_duration_ms"[5] == 'r';
    FirstIsScalar(GatewayFamilies(c), 12);
  }

  lemma CountIsFound(c: Counters)
    ensures First(AllSamples(GatewayFamilies(c)), "hlmg_request_count") == Some(Reading(c.requestCount))
  {
    FirstIsScalar(GatewayFamilies(c), 13);
  }
}
