/** The agent's relay: one upstream response becomes a sequence of tunnel frames, under any
    schedule of upstream events, cancellation and write failures. */
module Relay {
  import opened Options
  import opened Words
  import PathGuard

  type Bytes = seq<Byte>
  type Headers = seq<(string, string)>

  /** The memory bound of the gateway side: no body frame carries more. */
  const MAX_RESPONSE_CHUNK: nat := 65536

  /** The frames that the agent writes on a proxy stream. */
  datatype Frame =
    | ProxyResponseHead(requestId: nat, status: nat, headers: Headers)
    | ProxyResponseBody(requestId: nat, chunk: Bytes)
    | ProxyResponseEnd(requestId: nat, ok: bool)
    | Error(requestId: nat, code: nat)

  // ----- Cutting chunks -----

  class Buffer {
    var data: Bytes

    constructor (data: Bytes)
      ensures this.data == data
    {
      this.data := data;
    }

    /** `take_chunk_piece`: cuts off the front of the buffer, or all of it if it is small enough. */
    method TakePiece() returns (piece: Option<Bytes>)
      modifies this
      ensures old(data) == [] ==> piece.None? && data == []
      ensures old(data) != [] ==>
                && piece.Some? && old(data) == piece.value + data
                && 0 < |piece.value| <= MAX_RESPONSE_CHUNK
                && (data != [] ==> |piece.value| == MAX_RESPONSE_CHUNK)
    {
      if data == [] { return None; }
      if |data| > MAX_RESPONSE_CHUNK {
        piece := Some(data[..MAX_RESPONSE_CHUNK]);
        data := data[MAX_RESPONSE_CHUNK..];
      } else {
        piece := Some(data);
        data := [];
      }
    }
  }

  /** The pieces a chunk is cut into. */
  function Pieces(chunk: Bytes): seq<Bytes> {
    if chunk == [] then []
    else if |chunk| > MAX_RESPONSE_CHUNK then [chunk[..MAX_RESPONSE_CHUNK]] + Pieces(chunk[MAX_RESPONSE_CHUNK..])
    else [chunk]
  }

  function Flatten(pieces: seq<Bytes>): Bytes {
    if pieces == [] then [] else pieces[0] + Flatten(pieces[1..])
  }

  /** Cutting loses and adds nothing, keeps to the bound, and makes no piece too many. */
  lemma {:induction false} PiecesAreExact(chunk: Bytes)
    ensures Flatten(Pieces(chunk)) == chunk
    ensures forall i :: 0 <= i < |Pieces(chunk)| ==> 0 < |Pieces(chunk)[i]| <= MAX_RESPONSE_CHUNK
    ensures |Pieces(chunk)| == (|chunk| + MAX_RESPONSE_CHUNK - 1) / MAX_RESPONSE_CHUNK
    decreases |chunk|
  {
    if |chunk| > MAX_RESPONSE_CHUNK {
      var rest := chunk[MAX_RESPONSE_CHUNK..];
      PiecesAreExact(rest);
      assert Pieces(chunk)[1..] == Pieces(rest);
      assert (|chunk| + MAX_RESPONSE_CHUNK - 1) / MAX_RESPONSE_CHUNK
             == (|rest| + MAX_RESPONSE_CHUNK - 1) / MAX_RESPONSE_CHUNK + 1;
    } else if chunk != [] {
      assert Pieces(chunk)[1..] == [];
    }
  }

  // ----- The schedule -----

  /** What ends the wait for the upstream's response head. */
  datatype HeadEvent = Responded(status: nat, headers: Headers) | SendFailed | CancelledFirst

  /** What each wait in the body loop ends with. */
  datatype BodyEvent = Chunk(bytes: Bytes) | StreamError | StreamEnds | CancelFires

  /** The schedule comes to an end, and how. */
  function Ending(body: seq<BodyEvent>): Option<BodyEvent> {
    if body == [] then None else if body[0].Chunk? then Ending(body[1..]) else Some(body[0])
  }

  /** The relay comes to an orderly end, and whether that is a cancellation. */
  predicate Ends(head: HeadEvent, body: seq<BodyEvent>) {
    head.CancelledFirst? || (head.Responded? && Ending(body).Some?)
  }

  predicate IsCancelled(head: HeadEvent, body: seq<BodyEvent>) {
    head.CancelledFirst? || (head.Responded? && Ending(body) == Some(CancelFires))
  }

  function BodyFrames(requestId: nat, pieces: seq<Bytes>): (frames: seq<Frame>)
    ensures |frames| == |pieces|
    ensures forall i :: 0 <= i < |pieces| ==> frames[i] == ProxyResponseBody(requestId, pieces[i])
  {
    seq(|pieces|, i requires 0 <= i < |pieces| => ProxyResponseBody(requestId, pieces[i]))
  }

  function BodyTranscript(requestId: nat, body: seq<BodyEvent>): seq<Frame> {
    if body == [] then []
    else match body[0]
      case Chunk(bytes) => BodyFrames(requestId, Pieces(bytes)) + BodyTranscript(requestId, body[1..])
      case StreamError => [ProxyResponseEnd(requestId, false)]
      case StreamEnds => [ProxyResponseEnd(requestId, true)]
      case CancelFires => [Error(requestId, 499)]
  }

  /** The frames of a response when every write succeeds. */
  function Transcript(requestId: nat, head: HeadEvent, body: seq<BodyEvent>): seq<Frame> {
    match head
    case SendFailed => [Error(requestId, 502)]
    case CancelledFirst => [Error(requestId, 499)]
    case Responded(status, headers) =>
      [ProxyResponseHead(requestId, status, headers)] + BodyTranscript(requestId, body)
  }

  // ----- The relay as it is written -----

  /** The send half of the stream; the writes numbered in `faults` fail, and closing it may. */
  class SendStream {
    const faults: set<nat>
    const closeFails: bool
    var frames: seq<Frame>
    var writes: nat
    var closed: bool

    constructor (faults: set<nat>, closeFails: bool)
      ensures this.faults == faults && this.closeFails == closeFails && frames == [] && writes == 0 && !closed
    {
      this.faults, this.closeFails := faults, closeFails;
      frames, writes, closed := [], 0, false;
    }

    method WriteFrame(frame: Frame) returns (ok: bool)
      modifies this
      ensures ok == (old(writes) !in faults)
      ensures frames == if ok then old(frames) + [frame] else old(frames)
      ensures writes == old(writes) + 1 && closed == old(closed)
    {
      ok := writes !in faults;
      if ok { frames := frames + [frame]; }
      writes := writes + 1;
    }

    method Shutdown() returns (ok: bool)
      modifies this
      ensures ok == !closeFails && closed == (old(closed) || ok)
      ensures frames == old(frames) && writes == old(writes)
    {
      ok := !closeFails;
      if ok { closed := true; }
    }
  }

  /** `after` extends `before` by `transcript` up to the first write that fails. */
  ghost predicate Delivered(before: seq<Frame>, after: seq<Frame>, transcript: seq<Frame>, faults: set<nat>,
                            first: nat) {
    exists k :: 0 <= k <= |transcript| && DeliveredUpTo(before, after, transcript, faults, first, k)
  }

  ghost predicate DeliveredUpTo(before: seq<Frame>, after: seq<Frame>, transcript: seq<Frame>, faults: set<nat>,
                                first: nat, k: nat)
    requires k <= |transcript|
  {
    && after == before + transcript[..k]
    && (forall i :: first <= i < first + k ==> i !in faults)
    && (k < |transcript| ==> first + k in faults)
  }

  /** None of `n` writes from the given one on fails. */
  ghost predicate Succeed(first: nat, n: int, faults: set<nat>) { forall i :: first <= i < first + n ==> i !in faults }

  /** How many of the frames must be written for the relay to end in order: all, but for the notice of a
      cancellation. */
  function Needed(frames: seq<Frame>, cancelled: bool): int { |frames| - if cancelled then 1 else 0 }

  datatype Outcome = Finished | Failed | Waiting

  /** Half-closes the stream, which is the last thing an orderly relay does. */
  method Close(send: SendStream) returns (outcome: Outcome)
    requires !send.closed
    modifies send
    ensures outcome == (if send.closeFails then Failed else Finished) && send.closed == outcome.Finished?
    ensures send.frames == old(send.frames) && send.writes == old(send.writes)
  {
    var ok := send.Shutdown();
    return if ok then Finished else Failed;
  }

  /** Sends one frame and says whether to go on. `pending` is what was still to be sent. */
  lemma OneMoreSent(before: seq<Frame>, sent: seq<Frame>, pending: seq<Frame>, faults: set<nat>, first: nat)
    requires pending != [] && (forall i :: first <= i < first + |sent| ==> i !in faults)
    ensures first + |sent| in faults ==> Delivered(before, before + sent, sent + pending, faults, first)
    ensures sent + pending == (sent + [pending[0]]) + pending[1..]
  {
    if first + |sent| in faults {
      assert (sent + pending)[..|sent|] == sent;
      assert DeliveredUpTo(before, before + sent, sent + pending, faults, first, |sent|);
    }
  }

  lemma AllSent(before: seq<Frame>, sent: seq<Frame>, faults: set<nat>, first: nat)
    requires forall i :: first <= i < first + |sent| ==> i !in faults
    ensures Delivered(before, before + sent, sent, faults, first)
  {
    assert sent[..|sent|] == sent;
    assert DeliveredUpTo(before, before + sent, sent, faults, first, |sent|);
  }

  /** Writes the last frame of a transcript, whose failure is either ignored or ends the relay. */
  method WriteLast(send: SendStream, frame: Frame, ghost before: seq<Frame>, ghost sent: seq<Frame>, ghost first: nat)
    returns (ok: bool)
    requires send.frames == before + sent && send.writes == first + |sent|
    requires forall i :: first <= i < first + |sent| ==> i !in send.faults
    modifies send
    ensures Delivered(before, send.frames, sent + [frame], send.faults, first) && send.closed == old(send.closed)
    ensures ok == (first + |sent| !in send.faults)
  {
    ok := send.WriteFrame(frame);
    OneMoreSent(before, sent, [frame], send.faults, first);
    if ok {
      assert (before + sent) + [frame] == before + (sent + [frame]);
      AllSent(before, sent + [frame], send.faults, first);
    }
  }

  /** Writes a frame that others follow; its failure ends the relay. */
  method WriteNext(send: SendStream, frame: Frame, ghost before: seq<Frame>, ghost sent: seq<Frame>,
                   ghost later: seq<Frame>, ghost first: nat) returns (ok: bool)
    requires send.frames == before + sent && send.writes == first + |sent|
    requires forall i :: first <= i < first + |sent| ==> i !in send.faults
    modifies send
    ensures send.closed == old(send.closed)
    ensures if ok then
              && send.frames == before + (sent + [frame]) && send.writes == first + |sent + [frame]|
              && forall i :: first <= i < first + |sent + [frame]| ==> i !in send.faults
            else
              && first + |sent| in send.faults
              && Delivered(before, send.frames, (sent + [frame]) + later, send.faults, first)
  {
    OneMoreSent(before, sent, [frame] + later, send.faults, first);
    assert sent + ([frame] + later) == (sent + [frame]) + later;
    ok := send.WriteFrame(frame);
    assert (before + sent) + [frame] == before + (sent + [frame]);
  }

  /** The whole of a chunk, piece by piece; stops at the first write that fails. */
  method ForwardChunk(send: SendStream, requestId: nat, chunk: Bytes, ghost before: seq<Frame>, ghost sent: seq<Frame>,
                      ghost rest: seq<Frame>, ghost first: nat) returns (ok: bool)
    requires send.frames == before + sent && send.writes == first + |sent|
    requires forall i :: first <= i < first + |sent| ==> i !in send.faults
    modifies send
    ensures send.closed == old(send.closed)
    ensures var now := sent + BodyFrames(requestId, Pieces(chunk));
            if ok then
              && send.frames == before + now && send.writes == first + |now|
              && forall i :: first <= i < first + |now| ==> i !in send.faults
            else !Succeed(first, |now|, send.faults) && Delivered(before, send.frames, now + rest, send.faults, first)
  {
    var buffer := new Buffer(chunk);
    ghost var done := sent;
    ghost var all := sent + BodyFrames(requestId, Pieces(chunk));
    while true
      invariant send.closed == old(send.closed)
      invariant send.frames == before + done && send.writes == first + |done|
      invariant forall i :: first <= i < first + |done| ==> i !in send.faults
      invariant all == done + BodyFrames(requestId, Pieces(buffer.data))
      decreases |buffer.data|
    {
      ghost var left := buffer.data;
      var piece := buffer.TakePiece();
      if piece.None? { return true; }
      ghost var frame, pending := ProxyResponseBody(requestId, piece.value), BodyFrames(requestId, Pieces(buffer.data));
      PieceTaken(requestId, left, piece.value, buffer.data);
      assert all == (done + [frame]) + pending;
      assert all + rest == (done + [frame]) + (pending + rest);
      ok := WriteNext(send, ProxyResponseBody(requestId, piece.value), before, done, pending + rest, first);
      if !ok { return false; }
      done := done + [frame];
    }
  }

  lemma PieceTaken(requestId: nat, left: Bytes, piece: Bytes, rest: Bytes)
    requires left == piece + rest && 0 < |piece| <= MAX_RESPONSE_CHUNK
    requires rest != [] ==> |piece| == MAX_RESPONSE_CHUNK
    ensures BodyFrames(requestId, Pieces(left))
            == [ProxyResponseBody(requestId, piece)] + BodyFrames(requestId, Pieces(rest))
  {
    assert Pieces(left) == [piece] + Pieces(rest) by {
      if rest == [] {
        assert left == piece;
      } else {
        assert left[..MAX_RESPONSE_CHUNK] == piece && left[MAX_RESPONSE_CHUNK..] == rest;
      }
    }
  }

  /** `forward`: after any schedule, the stream has received the transcript of that schedule up to the
      first failing write. The relay finishes, and the stream is half-closed, if and only if the schedule
      came to an orderly end, every frame was written but perhaps the notice of a cancellation, and
      closing worked; it is still waiting if and only if the schedule did not end and all was written. */
  method Forward(send: SendStream, requestId: nat, head: HeadEvent, body: seq<BodyEvent>) returns (outcome: Outcome)
    requires !send.closed
    modifies send
    ensures Delivered(old(send.frames), send.frames, Transcript(requestId, head, body), send.faults, old(send.writes))
    ensures outcome.Finished? <==> send.closed
    ensures var t := Transcript(requestId, head, body);
            outcome.Finished? <==>
            Ends(head, body) && !send.closeFails
            && Succeed(old(send.writes), Needed(t, IsCancelled(head, body)), send.faults)
    ensures var t := Transcript(requestId, head, body);
            outcome.Waiting? <==>
            head.Responded? && Ending(body).None? && Succeed(old(send.writes), |t|, send.faults)
  {
    ghost var before, first, transcript := send.frames, send.writes, Transcript(requestId, head, body);
    assert before == before + [];
    if head.SendFailed? {
      var _ := WriteLast(send, Error(requestId, 502), before, [], first);
      assert [] + [Error(requestId, 502)] == transcript;
      return Failed;
    }
    if head.CancelledFirst? {
      var _ := WriteLast(send, Error(requestId, 499), before, [], first);
      assert [] + [Error(requestId, 499)] == transcript;
      outcome := Close(send);
      return;
    }
    ghost var sent := [ProxyResponseHead(requestId, head.status, head.headers)];
    assert transcript == ([] + sent) + BodyTranscript(requestId, body);
    var ok := WriteNext(send, ProxyResponseHead(requestId, head.status, head.headers), before, [],
                        BodyTranscript(requestId, body), first);
    EndHasFrame(requestId, body);
    if !ok { return Failed; }
    assert [] + sent == sent;
    outcome := ForwardBody(send, requestId, body, before, sent, first);
  }

  function LastFrame(requestId: nat, ev: BodyEvent): Frame
    requires !ev.Chunk?
  {
    match ev
    case CancelFires => Error(requestId, 499)
    case StreamError => ProxyResponseEnd(requestId, false)
    case StreamEnds => ProxyResponseEnd(requestId, true)
  }

  lemma {:induction false} EndHasFrame(requestId: nat, body: seq<BodyEvent>)
    ensures Ending(body).Some? ==> BodyTranscript(requestId, body) != []
    decreases |body|
  {
    if body != [] && body[0].Chunk? { EndHasFrame(requestId, body[1..]); }
  }

  lemma UnfoldTranscript(requestId: nat, body: seq<BodyEvent>, i: nat, sent: seq<Frame>)
    requires i < |body|
    ensures sent + BodyTranscript(requestId, body[i..]) ==
            if body[i].Chunk? then
              (sent + BodyFrames(requestId, Pieces(body[i].bytes))) + BodyTranscript(requestId, body[i + 1..])
            else sent + [LastFrame(requestId, body[i])]
  {
    assert body[i..][1..] == body[i + 1..];
    if body[i].Chunk? {
      var frames, rest := BodyFrames(requestId, Pieces(body[i].bytes)), BodyTranscript(requestId, body[i + 1..]);
      assert sent + (frames + rest) == (sent + frames) + rest;
    }
  }

  /** The body loop: one wait per turn. Only the failure of a cancellation notice is ignored. */
  method ForwardBody(send: SendStream, requestId: nat, body: seq<BodyEvent>, ghost before: seq<Frame>,
                     ghost already: seq<Frame>, ghost first: nat) returns (outcome: Outcome)
    requires !send.closed && send.frames == before + already && send.writes == first + |already|
    requires forall j :: first <= j < first + |already| ==> j !in send.faults
    modifies send
    ensures Delivered(before, send.frames, already + BodyTranscript(requestId, body), send.faults, first)
    ensures outcome.Finished? <==> send.closed
    ensures var t := already + BodyTranscript(requestId, body);
            outcome.Finished? <==>
            Ending(body).Some? && !send.closeFails
            && Succeed(first, Needed(t, Ending(body) == Some(CancelFires)), send.faults)
    ensures var t := already + BodyTranscript(requestId, body);
            outcome.Waiting? <==> Ending(body).None? && Succeed(first, |t|, send.faults)
  {
    ghost var transcript, sent := already + BodyTranscript(requestId, body), already;
    var i := 0;
    while i < |body|
      invariant 0 <= i <= |body| && !send.closed
      invariant send.frames == before + sent && send.writes == first + |sent|
      invariant forall j :: first <= j < first + |sent| ==> j !in send.faults
      invariant transcript == sent + BodyTranscript(requestId, body[i..]) && Ending(body) == Ending(body[i..])
    {
      UnfoldTranscript(requestId, body, i, sent);
      assert body[i..][1..] == body[i + 1..];
      if body[i].Chunk? {
        ghost var later := BodyTranscript(requestId, body[i + 1..]);
        var ok := ForwardChunk(send, requestId, body[i].bytes, before, sent, later, first);
        EndHasFrame(requestId, body[i + 1..]);
        if !ok { return Failed; }
        sent := sent + BodyFrames(requestId, Pieces(body[i].bytes));
        i := i + 1;
      } else {
        var ok := WriteLast(send, LastFrame(requestId, body[i]), before, sent, first);
        if !ok && !body[i].CancelFires? { return Failed; }
        outcome := Close(send);
        return;
      }
    }
    assert transcript == sent;
    AllSent(before, sent, send.faults, first);
    return Waiting;
  }

  /** The front of `handle_stream`: an unsafe path is answered with one 400 and an orderly close, an
      invalid method with one 400 and an error, and everything else is relayed. */
  method HandleStream(send: SendStream, requestId: nat, upstream: string, target: string, methodIsValid: bool,
                      head: HeadEvent, body: seq<BodyEvent>) returns (outcome: Outcome)
    requires !send.closed
    modifies send
    ensures Delivered(old(send.frames), send.frames,
                      StreamTranscript(requestId, upstream, target, methodIsValid, head, body),
                      send.faults, old(send.writes))
    ensures outcome.Finished? <==> send.closed
    ensures PathGuard.UpstreamUrl(upstream, target).None? ==>
              outcome == (if send.closeFails then Failed else Finished)
    ensures PathGuard.UpstreamUrl(upstream, target).Some? && !methodIsValid ==> outcome == Failed
    ensures PathGuard.UpstreamUrl(upstream, target).Some? && methodIsValid ==>
              var t := Transcript(requestId, head, body);
              (outcome.Finished? <==>
               Ends(head, body) && !send.closeFails
               && Succeed(old(send.writes), Needed(t, IsCancelled(head, body)), send.faults))
  {
    ghost var before, first := send.frames, send.writes;
    assert before == before + [];
    assert [] + [Error(requestId, 400)] == [Error(requestId, 400)];
    var url := PathGuard.UpstreamUrl(upstream, target);
    if url.None? {
      var _ := WriteLast(send, Error(requestId, 400), before, [], first);
      outcome := Close(send);
      return;
    }
    if !methodIsValid {
      var _ := WriteLast(send, Error(requestId, 400), before, [], first);
      return Failed;
    }
    outcome := Forward(send, requestId, head, body);
  }

  function StreamTranscript(requestId: nat, upstream: string, target: string, methodIsValid: bool,
                            head: HeadEvent, body: seq<BodyEvent>): seq<Frame>
  {
    if PathGuard.UpstreamUrl(upstream, target).None? || !methodIsValid then [Error(requestId, 400)]
    else Transcript(requestId, head, body)
  }

  // ----- What the gateway can rely on -----

  /** The protocol of a response stream as an automaton: one error, or a head, bodies within the
      bound, and one end or cancellation. */
  datatype Stage = Fresh | Open | Closed | Broken

  function Next(stage: Stage, frame: Frame): Stage {
    match (stage, frame)
    case (Fresh, Error(_, code)) => if code in {400, 499, 502} then Closed else Broken
    case (Fresh, ProxyResponseHead(_, _, _)) => Open
    case (Open, ProxyResponseBody(_, chunk)) => if 0 < |chunk| <= MAX_RESPONSE_CHUNK then Open else Broken
    case (Open, ProxyResponseEnd(_, _)) => Closed
    case (Open, Error(_, code)) => if code == 499 then Closed else Broken
    case _ => Broken
  }

  function Read(stage: Stage, frames: seq<Frame>): Stage
    decreases |frames|
  {
    if frames == [] then stage else Read(Next(stage, frames[0]), frames[1..])
  }

  lemma {:induction false} ReadConcat(stage: Stage, first: seq<Frame>, second: seq<Frame>)
    ensures Read(stage, first + second) == Read(Read(stage, first), second)
    decreases |first|
  {
    if first == [] {
      assert first + second == second;
    } else {
      assert (first + second)[1..] == first[1..] + second;
      ReadConcat(Next(stage, first[0]), first[1..], second);
    }
  }

  lemma {:induction false} BrokenForGood(frames: seq<Frame>)
    ensures Read(Broken, frames) == Broken
    decreases |frames|
  {
    if frames != [] { BrokenForGood(frames[1..]); }
  }

  lemma {:induction false} BodiesStayOpen(frames: seq<Frame>)
    requires forall i :: 0 <= i < |frames| ==>
               frames[i].ProxyResponseBody? && 0 < |frames[i].chunk| <= MAX_RESPONSE_CHUNK
    ensures Read(Open, frames) == Open
    decreases |frames|
  {
    if frames != [] { BodiesStayOpen(frames[1..]); }
  }

  /** The bytes of all body frames, in order. */
  function Payload(frames: seq<Frame>): Bytes {
    if frames == [] then []
    else (if frames[0].ProxyResponseBody? then frames[0].chunk else []) + Payload(frames[1..])
  }

  lemma {:induction false} PayloadConcat(first: seq<Frame>, second: seq<Frame>)
    ensures Payload(first + second) == Payload(first) + Payload(second)
    decreases |first|
  {
    if first == [] {
      assert first + second == second;
    } else {
      assert (first + second)[1..] == first[1..] + second;
      PayloadConcat(first[1..], second);
    }
  }

  lemma {:induction false} PayloadOfBodies(requestId: nat, pieces: seq<Bytes>)
    ensures Payload(BodyFrames(requestId, pieces)) == Flatten(pieces)
    decreases |pieces|
  {
    if pieces != [] {
      assert BodyFrames(requestId, pieces)[1..] == BodyFrames(requestId, pieces[1..]);
      PayloadOfBodies(requestId, pieces[1..]);
    }
  }

  /** The upstream chunks that the schedule delivers before it ends. */
  function Consumed(body: seq<BodyEvent>): seq<Bytes> {
    if body == [] || !body[0].Chunk? then [] else [body[0].bytes] + Consumed(body[1..])
  }

  function PieceCount(chunks: seq<Bytes>): nat {
    if chunks == [] then 0
    else (|chunks[0]| + MAX_RESPONSE_CHUNK - 1) / MAX_RESPONSE_CHUNK + PieceCount(chunks[1..])
  }

  function Bodies(frames: seq<Frame>): nat {
    if frames == [] then 0 else (if frames[0].ProxyResponseBody? then 1 else 0) + Bodies(frames[1..])
  }

  lemma {:induction false} BodiesConcat(first: seq<Frame>, second: seq<Frame>)
    ensures Bodies(first + second) == Bodies(first) + Bodies(second)
    decreases |first|
  {
    if first == [] {
      assert first + second == second;
    } else {
      assert (first + second)[1..] == first[1..] + second;
      BodiesConcat(first[1..], second);
    }
  }

  lemma {:induction false} BodiesOfBodies(frames: seq<Frame>)
    requires forall i :: 0 <= i < |frames| ==> frames[i].ProxyResponseBody?
    ensures Bodies(frames) == |frames|
    decreases |frames|
  {
    if frames != [] { BodiesOfBodies(frames[1..]); }
  }

  lemma ChunkIsInProtocol(requestId: nat, chunk: Bytes)
    ensures var bodies := BodyFrames(requestId, Pieces(chunk));
            && Read(Open, bodies) == Open && Payload(bodies) == chunk
            && Bodies(bodies) == (|chunk| + MAX_RESPONSE_CHUNK - 1) / MAX_RESPONSE_CHUNK
  {
    var bodies := BodyFrames(requestId, Pieces(chunk));
    PiecesAreExact(chunk);
    BodiesStayOpen(bodies);
    PayloadOfBodies(requestId, Pieces(chunk));
    BodiesOfBodies(bodies);
  }

  lemma {:induction false} BodyIsInProtocol(requestId: nat, body: seq<BodyEvent>)
    ensures var t := BodyTranscript(requestId, body);
            && Read(Open, t) == (if Ending(body).Some? then Closed else Open)
            && Payload(t) == Flatten(Consumed(body))
            && Bodies(t) == PieceCount(Consumed(body))
    decreases |body|
  {
    if body != [] && body[0].Chunk? {
      var bodies := BodyFrames(requestId, Pieces(body[0].bytes));
      var rest := BodyTranscript(requestId, body[1..]);
      ChunkIsInProtocol(requestId, body[0].bytes);
      BodyIsInProtocol(requestId, body[1..]);
      ReadConcat(Open, bodies, rest);
      PayloadConcat(bodies, rest);
      BodiesConcat(bodies, rest);
      assert Consumed(body)[1..] == Consumed(body[1..]);
    } else if body != [] {
      var t := BodyTranscript(requestId, body);
      assert t[1..] == [];
    }
  }

  lemma {:induction false} BodyTellsEvent(requestId: nat, body: seq<BodyEvent>)
    ensures var t := BodyTranscript(requestId, body);
            && (forall f :: f in t ==> f.requestId == requestId && !f.ProxyResponseHead?)
            && (forall ok :: ProxyResponseEnd(requestId, ok) in t <==>
                  Ending(body) == Some(if ok then StreamEnds else StreamError))
            && (forall code :: Error(requestId, code) in t <==> code == 499 && Ending(body) == Some(CancelFires))
    decreases |body|
  {
    if body != [] && body[0].Chunk? { BodyTellsEvent(requestId, body[1..]); }
  }

  lemma {:induction false} OnlyLastEnds(requestId: nat, body: seq<BodyEvent>, i: nat)
    requires i < |BodyTranscript(requestId, body)| - 1
    ensures BodyTranscript(requestId, body)[i].ProxyResponseBody?
    decreases |body|
  {
    if body[0].Chunk? {
      var bodies := BodyFrames(requestId, Pieces(body[0].bytes));
      if i >= |bodies| { OnlyLastEnds(requestId, body[1..], i - |bodies|); }
    }
  }

  lemma BodyTranscriptIsFaithful(requestId: nat, body: seq<BodyEvent>)
    ensures var t := BodyTranscript(requestId, body);
            && Read(Open, t) == (if Ending(body).Some? then Closed else Open)
            && Payload(t) == Flatten(Consumed(body))
            && Bodies(t) == PieceCount(Consumed(body))
            && (forall f :: f in t ==> f.requestId == requestId && !f.ProxyResponseHead?)
            && (forall i, ok :: 0 <= i < |t| && t[i] == ProxyResponseEnd(requestId, ok) ==>
                  i == |t| - 1 && Ending(body) == Some(if ok then StreamEnds else StreamError))
  {
    BodyIsInProtocol(requestId, body);
    BodyTellsEvent(requestId, body);
    var t := BodyTranscript(requestId, body);
    forall i, ok | 0 <= i < |t| && t[i] == ProxyResponseEnd(requestId, ok)
      ensures i == |t| - 1 && Ending(body) == Some(if ok then StreamEnds else StreamError)
    {
      if i < |t| - 1 { OnlyLastEnds(requestId, body, i); }
      assert ProxyResponseEnd(requestId, ok) in t;
    }
  }

  /** Every schedule's transcript is a word of the protocol, complete exactly when the schedule ends;
      its body frames carry the consumed chunks byte for byte, ceil(n / 65536) frames for a chunk of
      n bytes; and `ok` in the end frame tells whether the upstream body was complete. */
  lemma TranscriptIsFaithful(requestId: nat, head: HeadEvent, body: seq<BodyEvent>)
    ensures var t := Transcript(requestId, head, body);
            var chunks := if head.Responded? then Consumed(body) else [];
            && Read(Fresh, t) == (if head.Responded? && Ending(body).None? then Open else Closed)
            && Payload(t) == Flatten(chunks)
            && Bodies(t) == PieceCount(chunks)
            && (forall f :: f in t ==> f.requestId == requestId)
            && (forall i, ok :: 0 <= i < |t| && t[i] == ProxyResponseEnd(requestId, ok) ==>
                  head.Responded? && i == |t| - 1 && Ending(body) == Some(if ok then StreamEnds else StreamError))
  {
    var t := Transcript(requestId, head, body);
    BodyTranscriptIsFaithful(requestId, body);
    if head.Responded? {
      assert t[1..] == BodyTranscript(requestId, body);
      forall i, ok | 0 <= i < |t| && t[i] == ProxyResponseEnd(requestId, ok)
        ensures i == |t| - 1 && Ending(body) == Some(if ok then StreamEnds else StreamError)
      {
        assert t[1..][i - 1] == t[i];
      }
    } else {
      assert t[1..] == [];
    }
  }

  /** Each frame that is not part of the body tells which event it comes from: a head carries the status and
      the headers of the upstream's answer, an end says how its body ended, 400 means that the request
      was never relayed, 502 that no answer came, and 499 that the client had gone. The head comes first. */
  lemma FramesTellEvents(requestId: nat, upstream: string, target: string, methodIsValid: bool, head: HeadEvent,
                         body: seq<BodyEvent>)
    ensures var t := StreamTranscript(requestId, upstream, target, methodIsValid, head, body);
            var relayed := PathGuard.UpstreamUrl(upstream, target).Some? && methodIsValid;
            && (forall status, headers :: ProxyResponseHead(requestId, status, headers) in t <==>
                  relayed && head == Responded(status, headers))
            && (relayed && head.Responded? ==> t[0] == ProxyResponseHead(requestId, head.status, head.headers))
            && (forall ok :: ProxyResponseEnd(requestId, ok) in t <==>
                  relayed && head.Responded? && Ending(body) == Some(if ok then StreamEnds else StreamError))
            && (forall code :: Error(requestId, code) in t <==>
                  || (code == 400 && !relayed)
                  || (code == 502 && relayed && head.SendFailed?)
                  || (code == 499 && relayed && IsCancelled(head, body)))
  {
    BodyTellsEvent(requestId, body);
  }

  /** What has been received on a fresh stream at any time, write failures included: never a frame
      out of protocol, always a prefix of the upstream's bytes, and an end frame with `ok = true`
      only behind the whole upstream body. */
  lemma ReceivedIsFaithful(requestId: nat, head: HeadEvent, body: seq<BodyEvent>, received: seq<Frame>,
                           faults: set<nat>)
    requires Delivered([], received, Transcript(requestId, head, body), faults, 0)
    ensures Read(Fresh, received) != Broken
    ensures Payload(received) <= Flatten(if head.Responded? then Consumed(body) else [])
    ensures forall f :: f in received ==> f.requestId == requestId
    ensures ProxyResponseEnd(requestId, true) in received ==>
              Ending(body) == Some(StreamEnds) && Payload(received) == Flatten(Consumed(body))
    ensures head.Responded? && received != [] ==>
              received[0] == ProxyResponseHead(requestId, head.status, head.headers)
  {
    var t := Transcript(requestId, head, body);
    TranscriptIsFaithful(requestId, head, body);
    DeliveredIsPrefix(received, t, faults);
    PrefixIsInProtocol(received, t);
    PrefixPayload(received, t);
    if i :| 0 <= i < |received| && received[i] == ProxyResponseEnd(requestId, true) {
      assert t[i] == ProxyResponseEnd(requestId, true);
      assert received == t;
    }
  }

  lemma DeliveredIsPrefix(received: seq<Frame>, t: seq<Frame>, faults: set<nat>)
    requires Delivered([], received, t, faults, 0)
    ensures received <= t
  {
    var k :| 0 <= k <= |t| && DeliveredUpTo([], received, t, faults, 0, k);
    assert received == t[..k];
  }

  lemma PrefixPayload(received: seq<Frame>, t: seq<Frame>)
    requires received <= t
    ensures Payload(received) <= Payload(t)
  {
    assert t == received + t[|received|..];
    PayloadConcat(received, t[|received|..]);
  }

  lemma PrefixIsInProtocol(received: seq<Frame>, t: seq<Frame>)
    requires received <= t && Read(Fresh, t) != Broken
    ensures Read(Fresh, received) != Broken
  {
    var rest := t[|received|..];
    assert t == received + rest;
    ReadConcat(Fresh, received, rest);
    BrokenForGood(rest);
  }
}
