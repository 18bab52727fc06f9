/** Request ids: one process-wide counter, the header shape `req-<u64>`, and the promise that every
    layer of one request sees the same number. */
module RequestId {
  import opened Options
  import opened Decimal
  import opened Words

  const PREFIX := "req-"

  function Format(id: U64): string { PREFIX + Print(id) }

  /** `parse`: only `req-` followed by a 64-bit number is taken over. */
  function ParseId(inbound: string): Option<nat> {
    if PREFIX <= inbound then Parse(inbound[|PREFIX|..], U64_MAX) else None
  }

  /** What `HeaderValue::to_str` lets through, and a subset of what a header may hold. */
  predicate IsVisible(s: string) {
    forall i :: 0 <= i < |s| ==> ' ' <= s[i] <= '~' || s[i] == '\t'
  }

  /** A header as text; values outside visible ASCII count as absent. */
  function HeaderText(header: Option<string>): Option<string> {
    if header.Some? && IsVisible(header.value) then header else None
  }

  /** `fetch_add(1)` wraps. */
  function Bumped(counter: U64): U64 { if counter == U64_MAX then 0 else counter + 1 }

  /** `tunnel_id`: the new counter value and the id. */
  function TunnelId(counter: U64, inbound: Option<string>): (U64, U64) {
    var parsed := if inbound.Some? then ParseId(inbound.value) else None;
    if parsed.Some? then (counter, parsed.value) else (Bumped(counter), counter)
  }

  class IdSource {
    var counter: U64

    constructor ()
      ensures counter == 1
    {
      counter := 1;
    }

    /** Hands out the counter's value and moves it on. */
    method Next() returns (id: U64)
      modifies this
      ensures id == old(counter) && counter == Bumped(old(counter))
    {
      id := counter;
      counter := Bumped(counter);
    }

    method Tunnel(header: Option<string>) returns (id: U64)
      modifies this
      ensures (counter, id) == TunnelId(old(counter), HeaderText(header))
    {
      if header.Some? && IsVisible(header.value) {
        var parsed := ParseId(header.value);
        if parsed.Some? { return parsed.value; }
      }
      id := Next();
    }

    /** What the middleware does with the inbound header: it derives an id and writes the canonical
        form back; the proxy then derives its own from what was written, and both are the same. */
    method Handle(header: Option<string>) returns (middleware: U64, rewritten: string, proxy: U64)
      modifies this
      ensures (counter, middleware) == TunnelId(old(counter), HeaderText(header))
      ensures rewritten == Format(middleware) && proxy == middleware
    {
      middleware := Tunnel(header);
      rewritten := Format(middleware);
      FormatRoundTrips(middleware);
      proxy := Tunnel(Some(rewritten));
    }
  }

  /** Every id survives being written and read back, and its written form is a legal header. */
  lemma FormatRoundTrips(id: U64)
    ensures ParseId(Format(id)) == Some(id) && IsVisible(Format(id))
  {
    ParsePrint(id, U64_MAX);
    assert Format(id)[|PREFIX|..] == Print(id);
    assert Format(id)[..|PREFIX|] == PREFIX;
  }

  /** An inbound header is taken over as `id` exactly if it is `req-` and a spelling of that 64-bit number,
      and this draws no number. Every other header draws a fresh one: one without the prefix, such as a bare
      number or a UUID, one with nothing or anything else after it, and one that is not visible ASCII. */
  lemma TakenOverIff(counter: U64, header: Option<string>, id: U64)
    ensures TakesOver(header, id) ==> TunnelId(counter, HeaderText(header)) == (counter, id)
    ensures (forall n: U64 :: !TakesOver(header, n)) ==>
              TunnelId(counter, HeaderText(header)) == (Bumped(counter), counter)
    ensures header.Some? && !(PREFIX <= header.value) ==> !TakesOver(header, id)
  {
    var text := HeaderText(header);
    if TakesOver(header, id) {
      SpellingIsParsed(header.value, id);
    } else if text.Some? && ParseId(text.value).Some? {
      var n := ParseId(text.value).value;
      ParseIff(text.value[|PREFIX|..], U64_MAX, n);
      assert TakesOver(header, n);
    }
  }

  /** The header is visible ASCII and spells the id behind the prefix. */
  ghost predicate TakesOver(header: Option<string>, id: U64) {
    && header.Some? && IsVisible(header.value) && PREFIX <= header.value
    && exists plus, zeros :: header.value[|PREFIX|..] == Spelling(id, plus, zeros)
  }

  lemma SpellingIsParsed(inbound: string, id: U64)
    requires TakesOver(Some(inbound), id)
    ensures ParseId(inbound) == Some(id)
  {
    ParseIff(inbound[|PREFIX|..], U64_MAX, id);
  }

  /** Whatever header comes in, the id that the proxy derives from the rewritten header is the id of
      the middleware, and deriving it draws no second number. */
  lemma LayersAgree(counter: U64, header: Option<string>)
    ensures var (after, id) := TunnelId(counter, HeaderText(header));
            TunnelId(after, HeaderText(Some(Format(id)))) == (after, id)
  {
    FormatRoundTrips(TunnelId(counter, HeaderText(header)).1);
  }

  // ----- Fresh numbers over a run -----

  predicate Draws(inbound: Option<string>) { inbound.None? || ParseId(inbound.value).None? }

  /** The freshly drawn ids of a run of requests, in order. */
  function Drawn(counter: U64, run: seq<Option<string>>): seq<U64>
    decreases |run|
  {
    if run == [] then []
    else
      var (after, id) := TunnelId(counter, run[0]);
      (if Draws(run[0]) then [id] else []) + Drawn(after, run[1..])
  }

  lemma {:induction false} DrawnCountUp(counter: U64, run: seq<Option<string>>, i: nat)
    requires i < |Drawn(counter, run)|
    ensures Drawn(counter, run)[i] == (counter + i) % (U64_MAX + 1)
    decreases |run|
  {
    DrawnUnfold(counter, run);
    if !Draws(run[0]) {
      DrawnCountUp(counter, run[1..], i);
    } else if i > 0 {
      DrawnCountUp(Bumped(counter), run[1..], i - 1);
      BumpedThenMore(counter, i);
    }
  }

  lemma DrawnUnfold(counter: U64, run: seq<Option<string>>)
    requires Drawn(counter, run) != []
    ensures Drawn(counter, run) ==
            if Draws(run[0]) then [counter] + Drawn(Bumped(counter), run[1..]) else Drawn(counter, run[1..])
  {
  }

  lemma BumpedThenMore(counter: U64, i: nat)
    requires i > 0
    ensures (Bumped(counter) + (i - 1)) % (U64_MAX + 1) == (counter + i) % (U64_MAX + 1)
  {
    if counter == U64_MAX { assert counter + i == (i - 1) + (U64_MAX + 1); }
  }

  /** Fresh ids are strictly increasing exactly until the counter wraps. */
  lemma FreshIdsIncrease(counter: U64, run: seq<Option<string>>)
    ensures (forall i, j :: 0 <= i < j < |Drawn(counter, run)| ==> Drawn(counter, run)[i] < Drawn(counter, run)[j])
            <==> (|Drawn(counter, run)| <= 1 || counter + |Drawn(counter, run)| <= U64_MAX + 1)
  {
    var ids := Drawn(counter, run);
    forall i | 0 <= i < |ids| ensures ids[i] == (counter + i) % (U64_MAX + 1) { DrawnCountUp(counter, run, i); }
    if |ids| > 1 && counter + |ids| > U64_MAX + 1 {
      var k := U64_MAX + 1 - counter;
      if k < |ids| { assert ids[k] == 0; assert ids[k - 1] >= ids[k]; }
    }
  }
}
