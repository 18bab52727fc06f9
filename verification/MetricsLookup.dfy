/** Looking things up on the gateway's metrics page: under every name that the page documents, a reader
    finds the one counter that it stands for. */
module MetricsLookup {
  import opened MetricsPage
  import opened MetricsReader
  import opened MetricsRoundTrip
  import opened MetricsText
  import opened Sorting

  /** The samples of one name. */
  function Named(samples: seq<Sample>, name: string): seq<Sample> {
    if samples == [] then []
    else (if samples[0].name == name then [samples[0]] else []) + Named(samples[1..], name)
  }

  lemma {:induction false} NamedConcat(a: seq<Sample>, b: seq<Sample>, name: string)
    ensures Named(a + b, name) == Named(a, name) + Named(b, name)
    decreases |a|
  {
    if a == [] {
      assert a + b == b;
    } else {
      assert (a + b)[1..] == a[1..] + b;
      NamedConcat(a[1..], b, name);
      var x, y, z := if a[0].name == name then [a[0]] else [], Named(a[1..], name), Named(b, name);
      assert x + (y + z) == (x + y) + z;
    }
  }

  lemma {:induction false} NamedOf(samples: seq<Sample>, name: string, other: string)
    requires forall i :: 0 <= i < |samples| ==> samples[i].name == name
    ensures Named(samples, other) == if name == other then samples else []
    decreases |samples|
  {
    if samples != [] {
      NamedOf(samples[1..], name, other);
      assert samples == [samples[0]] + samples[1..];
    }
  }

  lemma {:induction false} AllSamplesConcat(a: seq<Family>, b: seq<Family>)
    ensures AllSamples(a + b) == AllSamples(a) + AllSamples(b)
    decreases |a|
  {
    if a == [] {
      assert a + b == b;
    } else {
      assert (a + b)[1..] == a[1..] + b;
      AllSamplesConcat(a[1..], b);
      var x, y, z := Samples(a[0]), AllSamples(a[1..]), AllSamples(b);
      assert x + (y + z) == (x + y) + z;
    }
  }

  lemma SamplesAreNamed(f: Family, name: string)
    ensures Named(Samples(f), name) == if f.name == name then Samples(f) else []
  {
    NamedOf(Samples(f), f.name, name);
  }

  predicate NoneIs(families: seq<Family>, name: string) { forall f :: f in families ==> f.name != name }

  lemma {:induction false} NoneNamed(families: seq<Family>, name: string)
    requires NoneIs(families, name)
    ensures Named(AllSamples(families), name) == []
    decreases |families|
  {
    if families != [] {
      NamedConcat(Samples(families[0]), AllSamples(families[1..]), name);
      SamplesAreNamed(families[0], name);
      NoneNamed(families[1..], name);
    }
  }

  lemma NamedBetween(before: seq<Family>, f: Family, after: seq<Family>)
    requires NoneIs(before, f.name) && NoneIs(after, f.name)
    ensures Named(AllSamples(before + ([f] + after)), f.name) == Samples(f)
  {
    AllSamplesConcat(before, [f] + after);
    assert ([f] + after)[1..] == after;
    NamedConcat(AllSamples(before), AllSamples([f] + after), f.name);
    NamedConcat(Samples(f), AllSamples(after), f.name);
    SamplesAreNamed(f, f.name);
    NoneNamed(before, f.name);
    NoneNamed(after, f.name);
  }

  /** Where no other family has its name, a family is found whole under it, and nothing besides. */
  lemma NamedIsFamily(families: seq<Family>, k: nat)
    requires k < |families|
    requires NoneIs(families[..k], families[k].name) && NoneIs(families[k + 1..], families[k].name)
    ensures Named(AllSamples(families), families[k].name) == Samples(families[k])
  {
    Middle(families, k);
    NamedBetween(families[..k], families[k], families[k + 1..]);
  }

  lemma Middle(families: seq<Family>, k: nat)
    requires k < |families|
    ensures families == families[..k] + ([families[k]] + families[k + 1..])
  {
  }

  // ----- The names of the page differ -----

  /** Where a name stands on the page, told by its length and its sixth character alone. */
  function Place(name: string): int {
    if |name| < 6 then -1
    else match name[5]
      case 'a' =>
        (match |name| case 20 => 1 case 11 => 2 case 19 => 3 case 27 => 5 case 28 => 20 case _ => -1)
      case 't' => (match |name| case 25 => 4 case 31 => 9 case 32 => 10 case _ => -1)
      case 'r' => (match |name| case 19 => 0 case 24 => 12 case 18 => 13 case 27 => 14 case _ => -1)
      case 'k' => (match |name| case 26 => 15 case 28 => 16 case _ => -1)
      case 'q' => (match |name| case 21 => 17 case 19 => 18 case _ => -1)
      case 'f' => 6
      case 'c' => 7
      case 'u' => 8
      case 'b' => 11
      case 'h' => 19
      case _ => -1
  }

  lemma GaugePlaces(c: Counters, i: nat)
    requires i < |GaugeFamilies(c)|
    ensures Place(GaugeFamilies(c)[i].name) == 1 + i
  {
  }

  lemma LabeledPlaces(c: Counters, i: nat)
    requires i < |LabeledFamilies(c)|
    ensures Place(LabeledFamilies(c)[i].name) == 4 + i
  {
  }

  lemma TotalPlaces(c: Counters, i: nat)
    requires i < |TotalFamilies(c)|
    ensures Place(TotalFamilies(c)[i].name) == 11 + i
  {
  }

  lemma OtherPlaces(c: Counters, i: nat)
    requires i < |OtherCounterFamilies(c)|
    ensures Place(OtherCounterFamilies(c)[i].name) == 14 + i
  {
  }

  lemma PlacesAre(c: Counters, k: nat)
    requires k < |GatewayFamilies(c)|
    ensures Place(GatewayFamilies(c)[k].name) == k
  {
    if 1 <= k < 4 {
      GaugePlaces(c, k - 1);
    } else if 4 <= k < 11 {
      LabeledPlaces(c, k - 4);
    } else if 11 <= k < 14 {
      TotalPlaces(c, k - 11);
    } else if 14 <= k {
      OtherPlaces(c, k - 14);
    }
  }

  lemma NoneElsewhere(c: Counters, k: nat, part: seq<Family>)
    requires k < |GatewayFamilies(c)| && (part == GatewayFamilies(c)[..k] || part == GatewayFamilies(c)[k + 1..])
    ensures NoneIs(part, GatewayFamilies(c)[k].name)
  {
    var families := GatewayFamilies(c);
    forall f | f in part ensures f.name != families[k].name {
      var i :| 0 <= i < |part| && part[i] == f;
      var j := if part == families[..k] then i else k + 1 + i;
      PlacesAre(c, j);
      PlacesAre(c, k);
    }
  }

  lemma GatewayFamilyIsFound(c: Counters, k: nat)
    requires k < |GatewayFamilies(c)|
    ensures var f := GatewayFamilies(c)[k]; Named(AllSamples(GatewayFamilies(c)), f.name) == Samples(f)
  {
    var families := GatewayFamilies(c);
    NoneElsewhere(c, k, families[..k]);
    NoneElsewhere(c, k, families[k + 1..]);
    NamedIsFamily(families, k);
  }

  // ----- Tables of labelled samples -----

  /** What the samples show by label; a later sample of a label replaces an earlier one. */
  function Table(samples: seq<Sample>, tag: string): map<string, JsNumber> {
    if samples == [] then map[]
    else
      var before, s := Table(samples[..|samples| - 1], tag), samples[|samples| - 1];
      if tag in s.labels then before[s.labels[tag] := s.value] else before
  }

  function Readings(counts: map<string, nat>): map<string, JsNumber> { map k | k in counts :: Reading(counts[k]) }

  lemma {:induction false} TableOfKeys(samples: seq<Sample>, tag: string, counts: map<string, nat>, keys: seq<string>)
    requires |samples| == |keys|
    requires forall i :: 0 <= i < |keys| ==> keys[i] in counts && samples[i].labels == map[tag := keys[i]]
                                             && samples[i].value == Reading(counts[keys[i]])
    ensures forall key :: key in Table(samples, tag) <==> key in keys
    ensures forall key :: key in Table(samples, tag) ==>
              key in counts && Table(samples, tag)[key] == Reading(counts[key])
    decreases |samples|
  {
    if samples != [] {
      var last := |samples| - 1;
      TableOfKeys(samples[..last], tag, counts, keys[..last]);
      assert keys == keys[..last] + [keys[last]];
    }
  }

  lemma TableOfLabels(name: string, tag: string, counts: map<string, nat>)
    ensures Table(EntrySamples(name, tag, LabelEntries(counts)), tag) == Readings(counts)
    ensures |LabelEntries(counts)| == |counts|
  {
    StringLessIsTotal();
    var keys := Sorted(counts.Keys, StringLess);
    var samples := EntrySamples(name, tag, LabelEntries(counts));
    forall i | 0 <= i < |keys|
      ensures keys[i] in counts && samples[i].labels == map[tag := keys[i]]
              && samples[i].value == Reading(counts[keys[i]])
    {
      assert keys[i] in keys;
    }
    TableOfKeys(samples, tag, counts, keys);
    ListLength(keys, counts.Keys);
  }

  lemma {:induction false} ListLength(keys: seq<string>, all: set<string>)
    requires Lists(keys, all, StringLess)
    ensures |keys| == |all|
    decreases |keys|
  {
    StringLessIsTotal();
    EmptyListsNothing(keys, all, StringLess);
    if keys != [] {
      assert keys[0] in keys;
      TailLists(keys, all, StringLess);
      ListLength(keys[1..], all - {keys[0]});
    }
  }

  // ----- What a reader finds -----

  /** The gateway's page as the dashboard reads it. */
  ghost function ReadPage(c: Counters, help: Help): seq<Sample> { ParsePrometheus(Page(GatewayFamilies(c), help)) }

  /** The page shows the value under that name, once. */
  predicate ShowsValue(page: seq<Sample>, name: string, value: nat) {
    Named(page, name) == [Sample(name, map[], Reading(value))]
  }

  /** The page shows the counts under that name, each label once. */
  predicate ShowsCounts(page: seq<Sample>, name: string, tag: string, counts: map<string, nat>) {
    Table(Named(page, name), tag) == Readings(counts) && |Named(page, name)| == |counts|
  }

  /** The page shows the family: its value or its counts. */
  predicate Shows(page: seq<Sample>, f: Family) {
    match f
    case Scalar(name, _, value) => ShowsValue(page, name, value)
    case Labeled(name, tag, counts) => ShowsCounts(page, name, tag, counts)
    case ByStatus(_, _, _) => true
  }

  lemma SamplesShow(page: seq<Sample>, f: Family)
    requires Named(page, f.name) == Samples(f)
    ensures Shows(page, f)
  {
    if f.Labeled? { TableOfLabels(f.name, f.tag, f.counts); }
  }

  lemma FamilyIsShown(c: Counters, help: Help, f: Family)
    requires Printable(c, help) && f in GatewayFamilies(c)
    ensures Shows(ReadPage(c, help), f)
  {
    GatewayIsReadable(c, help);
    PageReadsBack(GatewayFamilies(c), help);
    var k :| 0 <= k < |GatewayFamilies(c)| && GatewayFamilies(c)[k] == f;
    GatewayFamilyIsFound(c, k);
    SamplesShow(ReadPage(c, help), f);
  }

  lemma InParts(a: seq<Family>, b: seq<Family>, c: seq<Family>, d: seq<Family>, e: seq<Family>, f: Family)
    requires f in b || f in c || f in d || f in e
    ensures f in a + (b + (c + (d + e)))
  {
  }

  /** Every scalar and every labelled family of the page is shown on it. */
  lemma PartIsShown(c: Counters, help: Help, f: Family)
    requires Printable(c, help)
    requires f in GaugeFamilies(c) || f in LabeledFamilies(c) || f in TotalFamilies(c) || f in OtherCounterFamilies(c)
    ensures Shows(ReadPage(c, help), f)
  {
    InParts([ByStatus("hlmg_requests_total", "status", c.statusCounts)], GaugeFamilies(c), LabeledFamilies(c),
            TotalFamilies(c), OtherCounterFamilies(c), f);
    FamilyIsShown(c, help, f);
  }

  lemma GaugesFollow(c: Counters, page: seq<Sample>)
    requires forall i :: 0 <= i < 3 ==> Shows(page, GaugeFamilies(c)[i])
    ensures ShowsValue(page, "hlmg_active_requests", c.active)
    ensures ShowsValue(page, "hlmg_agents", c.agents)
    ensures ShowsValue(page, "hlmg_agents_healthy", c.agentsHealthy)
  {
    assert Shows(page, GaugeFamilies(c)[0]);
    assert Shows(page, GaugeFamilies(c)[1]);
    assert Shows(page, GaugeFamilies(c)[2]);
  }

  /** Under the names of the gauges a reader finds what is in flight and which agents are there. */
  lemma GaugesAreRead(c: Counters, help: Help)
    requires Printable(c, help)
    ensures ShowsValue(ReadPage(c, help), "hlmg_active_requests", c.active)
    ensures ShowsValue(ReadPage(c, help), "hlmg_agents", c.agents)
    ensures ShowsValue(ReadPage(c, help), "hlmg_agents_healthy", c.agentsHealthy)
  {
    forall f | f in GaugeFamilies(c) ensures Shows(ReadPage(c, help), f) { PartIsShown(c, help, f); }
    GaugesFollow(c, ReadPage(c, help));
  }

  lemma TotalsFollow(c: Counters, page: seq<Sample>)
    requires forall i :: 0 <= i < 3 ==> Shows(page, TotalFamilies(c)[i])
    ensures ShowsValue(page, "hlmg_bytes_out", c.bytesOut)
    ensures ShowsValue(page, "hlmg_request_duration_ms", c.totalDurationMs)
    ensures ShowsValue(page, "hlmg_request_count", c.requestCount)
  {
    assert Shows(page, TotalFamilies(c)[0]);
    assert Shows(page, TotalFamilies(c)[1]);
    assert Shows(page, TotalFamilies(c)[2]);
  }

  /** Under the names of the sums, what they add up to. */
  lemma TotalsAreRead(c: Counters, help: Help)
    requires Printable(c, help)
    ensures ShowsValue(ReadPage(c, help), "hlmg_bytes_out", c.bytesOut)
    ensures ShowsValue(ReadPage(c, help), "hlmg_request_duration_ms", c.totalDurationMs)
    ensures ShowsValue(ReadPage(c, help), "hlmg_request_count", c.requestCount)
  {
    forall f | f in TotalFamilies(c) ensures Shows(ReadPage(c, help), f) { PartIsShown(c, help, f); }
    TotalsFollow(c, ReadPage(c, help));
  }

  lemma RequestCountersFollow(c: Counters, page: seq<Sample>)
    requires forall i :: 0 <= i < 3 ==> Shows(page, OtherCounterFamilies(c)[i])
    ensures ShowsValue(page, "hlmg_requests_aborted_total", c.aborted)
    ensures ShowsValue(page, "hlmg_key_verify_hits_total", c.verifyHits)
    ensures ShowsValue(page, "hlmg_key_verify_misses_total", c.verifyMisses)
  {
    assert Shows(page, OtherCounterFamilies(c)[0]);
    assert Shows(page, OtherCounterFamilies(c)[1]);
    assert Shows(page, OtherCounterFamilies(c)[2]);
  }

  /** The aborted requests, and the key verifications with and without a hash. */
  lemma RequestCountersAreRead(c: Counters, help: Help)
    requires Printable(c, help)
    ensures ShowsValue(ReadPage(c, help), "hlmg_requests_aborted_total", c.aborted)
    ensures ShowsValue(ReadPage(c, help), "hlmg_key_verify_hits_total", c.verifyHits)
    ensures ShowsValue(ReadPage(c, help), "hlmg_key_verify_misses_total", c.verifyMisses)
  {
    forall f | f in OtherCounterFamilies(c) ensures Shows(ReadPage(c, help), f) { PartIsShown(c, help, f); }
    RequestCountersFollow(c, ReadPage(c, help));
  }

  lemma ConnectionCountersFollow(c: Counters, page: seq<Sample>)
    requires forall i :: 3 <= i < 7 ==> Shows(page, OtherCounterFamilies(c)[i])
    ensures ShowsValue(page, "hlmg_quic_connections", c.quicConnections)
    ensures ShowsValue(page, "hlmg_quic_accepting", c.quicAccepting)
    ensures ShowsValue(page, "hlmg_http_accept_errors_total", c.httpAcceptErrors)
    ensures ShowsValue(page, "hlmg_agent_connections_total", c.agentConnections)
  {
    assert Shows(page, OtherCounterFamilies(c)[3]);
    assert Shows(page, OtherCounterFamilies(c)[4]);
    assert Shows(page, OtherCounterFamilies(c)[5]);
    assert Shows(page, OtherCounterFamilies(c)[6]);
  }

  /** The state of the two entries. */
  lemma ConnectionCountersAreRead(c: Counters, help: Help)
    requires Printable(c, help)
    ensures ShowsValue(ReadPage(c, help), "hlmg_quic_connections", c.quicConnections)
    ensures ShowsValue(ReadPage(c, help), "hlmg_quic_accepting", c.quicAccepting)
    ensures ShowsValue(ReadPage(c, help), "hlmg_http_accept_errors_total", c.httpAcceptErrors)
    ensures ShowsValue(ReadPage(c, help), "hlmg_agent_connections_total", c.agentConnections)
  {
    forall f | f in OtherCounterFamilies(c) ensures Shows(ReadPage(c, help), f) { PartIsShown(c, help, f); }
    ConnectionCountersFollow(c, ReadPage(c, help));
  }

  lemma RequestTablesFollow(c: Counters, page: seq<Sample>)
    requires forall i :: 0 <= i < 4 ==> Shows(page, LabeledFamilies(c)[i])
    ensures ShowsCounts(page, "hlmg_tunnel_retries_total", "outcome", c.tunnelRetries)
    ensures ShowsCounts(page, "hlmg_agent_rejections_total", "reason", c.agentRejections)
    ensures ShowsCounts(page, "hlmg_forward_ends_total", "kind", c.forwardEnds)
    ensures ShowsCounts(page, "hlmg_client_stalls_total", "phase", c.clientStalls)
  {
    assert Shows(page, LabeledFamilies(c)[0]);
    assert Shows(page, LabeledFamilies(c)[1]);
    assert Shows(page, LabeledFamilies(c)[2]);
    assert Shows(page, LabeledFamilies(c)[3]);
  }

  /** Under the names of the labelled families a reader finds whole tables. */
  lemma RequestTablesAreRead(c: Counters, help: Help)
    requires Printable(c, help)
    ensures ShowsCounts(ReadPage(c, help), "hlmg_tunnel_retries_total", "outcome", c.tunnelRetries)
    ensures ShowsCounts(ReadPage(c, help), "hlmg_agent_rejections_total", "reason", c.agentRejections)
    ensures ShowsCounts(ReadPage(c, help), "hlmg_forward_ends_total", "kind", c.forwardEnds)
    ensures ShowsCounts(ReadPage(c, help), "hlmg_client_stalls_total", "phase", c.clientStalls)
  {
    forall f | f in LabeledFamilies(c) ensures Shows(ReadPage(c, help), f) { PartIsShown(c, help, f); }
    RequestTablesFollow(c, ReadPage(c, help));
  }

  lemma TunnelTablesFollow(c: Counters, page: seq<Sample>)
    requires forall i :: 4 <= i < 7 ==> Shows(page, LabeledFamilies(c)[i])
    ensures ShowsCounts(page, "hlmg_upstream_head_timeouts_total", "class", c.headTimeouts)
    ensures ShowsCounts(page, "hlmg_tunnel_open_timeouts_total", "class", c.tunnelOpenTimeouts)
    ensures ShowsCounts(page, "hlmg_tunnel_write_failures_total", "class", c.tunnelWriteFailures)
  {
    assert Shows(page, LabeledFamilies(c)[4]);
    assert Shows(page, LabeledFamilies(c)[5]);
    assert Shows(page, LabeledFamilies(c)[6]);
  }

  /** The same for the three families about the tunnel. */
  lemma TunnelTablesAreRead(c: Counters, help: Help)
    requires Printable(c, help)
    ensures ShowsCounts(ReadPage(c, help), "hlmg_upstream_head_timeouts_total", "class", c.headTimeouts)
    ensures ShowsCounts(ReadPage(c, help), "hlmg_tunnel_open_timeouts_total", "class", c.tunnelOpenTimeouts)
    ensures ShowsCounts(ReadPage(c, help), "hlmg_tunnel_write_failures_total", "class", c.tunnelWriteFailures)
  {
    forall f | f in LabeledFamilies(c) ensures Shows(ReadPage(c, help), f) { PartIsShown(c, help, f); }
    TunnelTablesFollow(c, ReadPage(c, help));
  }

  /** And the page is taken for metrics, whatever was counted. */
  lemma PageLooksLikePrometheus(c: Counters, help: Help)
    requires Printable(c, help)
    ensures LooksLikePrometheus(Page(GatewayFamilies(c), help))
  {
    PartIsShown(c, help, GaugeFamilies(c)[0]);
  }

  // ----- The declared types -----

  lemma {:induction false} LinesAreOnPage(families: seq<Family>, f: Family, help: Help, line: string)
    requires f in families && line in Lines(f, help)
    ensures line in AllLines(families, help)
    decreases |families|
  {
    if f != families[0] { LinesAreOnPage(families[1..], f, help, line); }
  }

  lemma TypeIsOnPage(c: Counters, help: Help, f: Family)
    requires f.Scalar?
    requires f in GaugeFamilies(c) || f in TotalFamilies(c) || f in OtherCounterFamilies(c)
    ensures Declares(AllLines(GatewayFamilies(c), help), f)
  {
    InParts([ByStatus("hlmg_requests_total", "status", c.statusCounts)], GaugeFamilies(c), LabeledFamilies(c),
            TotalFamilies(c), OtherCounterFamilies(c), f);
    LinesAreOnPage(GatewayFamilies(c), f, help, TypeLine(f.name, f.kind));
  }

  predicate Declares(lines: seq<string>, f: Family) { f.Scalar? && TypeLine(f.name, f.kind) in lines }

  lemma OtherTypeIsOnPage(c: Counters, help: Help, i: nat)
    requires i < |OtherCounterFamilies(c)|
    ensures Declares(AllLines(GatewayFamilies(c), help), OtherCounterFamilies(c)[i])
  {
    TypeIsOnPage(c, help, OtherCounterFamilies(c)[i]);
  }

  lemma GaugesAreDeclaredFollow(c: Counters, lines: seq<string>)
    requires Declares(lines, GaugeFamilies(c)[0])
    requires Declares(lines, GaugeFamilies(c)[1])
    requires Declares(lines, GaugeFamilies(c)[2])
    ensures TypeLine("hlmg_active_requests", "gauge") in lines
    ensures TypeLine("hlmg_agents", "gauge") in lines
    ensures TypeLine("hlmg_agents_healthy", "gauge") in lines
  {
  }

  /** What can fall again is declared as a gauge. */
  lemma GaugesAreDeclared(c: Counters, help: Help)
    ensures TypeLine("hlmg_active_requests", "gauge") in AllLines(GatewayFamilies(c), help)
    ensures TypeLine("hlmg_agents", "gauge") in AllLines(GatewayFamilies(c), help)
    ensures TypeLine("hlmg_agents_healthy", "gauge") in AllLines(GatewayFamilies(c), help)
  {
    TypeIsOnPage(c, help, GaugeFamilies(c)[0]);
    TypeIsOnPage(c, help, GaugeFamilies(c)[1]);
    TypeIsOnPage(c, help, GaugeFamilies(c)[2]);
    GaugesAreDeclaredFollow(c, AllLines(GatewayFamilies(c), help));
  }

  lemma ConnectionGaugesAreDeclaredFollow(c: Counters, lines: seq<string>)
    requires Declares(lines, OtherCounterFamilies(c)[3])
    requires Declares(lines, OtherCounterFamilies(c)[4])
    ensures TypeLine("hlmg_quic_connections", "gauge") in lines
    ensures TypeLine("hlmg_quic_accepting", "gauge") in lines
  {
  }

  /** So are the two gauges of the tunnel entry. */
  lemma ConnectionGaugesAreDeclared(c: Counters, help: Help)
    ensures TypeLine("hlmg_quic_connections", "gauge") in AllLines(GatewayFamilies(c), help)
    ensures TypeLine("hlmg_quic_accepting", "gauge") in AllLines(GatewayFamilies(c), help)
  {
    OtherTypeIsOnPage(c, help, 3);
    OtherTypeIsOnPage(c, help, 4);
    ConnectionGaugesAreDeclaredFollow(c, AllLines(GatewayFamilies(c), help));
  }

  lemma TotalsAreDeclaredFollow(c: Counters, lines: seq<string>)
    requires Declares(lines, TotalFamilies(c)[0])
    requires Declares(lines, TotalFamilies(c)[1])
    requires Declares(lines, TotalFamilies(c)[2])
    ensures TypeLine("hlmg_bytes_out", "counter") in lines
    ensures TypeLine("hlmg_request_duration_ms", "counter") in lines
    ensures TypeLine("hlmg_request_count", "counter") in lines
  {
  }

  /** What only grows is declared as a counter. */
  lemma TotalsAreDeclared(c: Counters, help: Help)
    ensures TypeLine("hlmg_bytes_out", "counter") in AllLines(GatewayFamilies(c), help)
    ensures TypeLine("hlmg_request_duration_ms", "counter") in AllLines(GatewayFamilies(c), help)
    ensures TypeLine("hlmg_request_count", "counter") in AllLines(GatewayFamilies(c), help)
  {
    TypeIsOnPage(c, help, TotalFamilies(c)[0]);
    TypeIsOnPage(c, help, TotalFamilies(c)[1]);
    TypeIsOnPage(c, help, TotalFamilies(c)[2]);
    TotalsAreDeclaredFollow(c, AllLines(GatewayFamilies(c), help));
  }

  lemma RequestCountersAreDeclaredFollow(c: Counters, lines: seq<string>)
    requires Declares(lines, OtherCounterFamilies(c)[0])
    requires Declares(lines, OtherCounterFamilies(c)[1])
    requires Declares(lines, OtherCounterFamilies(c)[2])
    ensures TypeLine("hlmg_requests_aborted_total", "counter") in lines
    ensures TypeLine("hlmg_key_verify_hits_total", "counter") in lines
    ensures TypeLine("hlmg_key_verify_misses_total", "counter") in lines
  {
  }

  /** And so are the counters of aborted requests and of key verifications, */
  lemma RequestCountersAreDeclared(c: Counters, help: Help)
    ensures TypeLine("hlmg_requests_aborted_total", "counter") in AllLines(GatewayFamilies(c), help)
    ensures TypeLine("hlmg_key_verify_hits_total", "counter") in AllLines(GatewayFamilies(c), help)
    ensures TypeLine("hlmg_key_verify_misses_total", "counter") in AllLines(GatewayFamilies(c), help)
  {
    OtherTypeIsOnPage(c, help, 0);
    OtherTypeIsOnPage(c, help, 1);
    OtherTypeIsOnPage(c, help, 2);
    RequestCountersAreDeclaredFollow(c, AllLines(GatewayFamilies(c), help));
  }

  lemma ConnectionCountersAreDeclaredFollow(c: Counters, lines: seq<string>)
    requires Declares(lines, OtherCounterFamilies(c)[5])
    requires Declares(lines, OtherCounterFamilies(c)[6])
    ensures TypeLine("hlmg_http_accept_errors_total", "counter") in lines
    ensures TypeLine("hlmg_agent_connections_total", "counter") in lines
  {
  }

  /** and of what the two entries have seen. */
  lemma ConnectionCountersAreDeclared(c: Counters, help: Help)
    ensures TypeLine("hlmg_http_accept_errors_total", "counter") in AllLines(GatewayFamilies(c), help)
    ensures TypeLine("hlmg_agent_connections_total", "counter") in AllLines(GatewayFamilies(c), help)
  {
    OtherTypeIsOnPage(c, help, 5);
    OtherTypeIsOnPage(c, help, 6);
    ConnectionCountersAreDeclaredFollow(c, AllLines(GatewayFamilies(c), help));
  }
}
