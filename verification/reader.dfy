/** The pipe streamer: after the stream request, it reads the media relay's
    packets and writes the payload of every non-empty unencrypted-stream
    packet to standard output. The socket is the byte sequence the relay
    sends; standard output is a pipe that may close after a number of
    writes. */
module PipeStreamer {
  import opened Wrappers
  import opened Bytes
  import opened VtmPacket

  /** Largest read the body loop asks for at once. */
  const ChunkSize: nat := 8192

  /** The body loop: reads in chunks of at most 8192 bytes until `remaining`
      bytes have arrived or the peer has nothing more. Gives the body and the
      bytes left unread. */
  function ReadBody(input: seq<byte>, remaining: nat): (r: (seq<byte>, seq<byte>))
    ensures r.0 + r.1 == input
    ensures |r.0| == Min(remaining, |input|)
    decreases remaining
  {
    if remaining == 0 then ([], input)
    else
      var read := Recv(input, Min(remaining, ChunkSize));
      var chunk := read.0;
      if |chunk| == 0 then ([], input)
      else
        var more := ReadBody(read.1, remaining - |chunk|);
        assert chunk + more.0 + more.1 == chunk + (more.0 + more.1);
        (chunk + more.0, more.1)
  }

  /** Why the loop ended: the peer closed the connection (the last header
      read got fewer than 8 bytes), or writing to the pipe failed. */
  datatype StopReason = PeerClosed(received: nat) | PipeClosed

  /** What one run of the loop did: the bytes written to the pipe, the
      final `packet_count`, and why it stopped. */
  datatype Outcome = Outcome(output: seq<byte>, packets: nat, reason: StopReason)

  /** Whether a write with `count` packets already written succeeds: the pipe
      accepts `limit` writes, or all of them when there is no limit. */
  predicate PipeOpen(pipeLimit: Option<nat>, count: nat) {
    pipeLimit.None? || count < pipeLimit.value
  }

  /** One turn of the streaming loop, before anything is written: the
      peer closed (fewer than 8 header bytes), a chunk that is not a header
      was skipped, or a header and its body were read. */
  datatype Step =
    | Closed(received: nat)
    | Skipped(rest: seq<byte>)
    | Read(channel: byte, data: seq<byte>, after: seq<byte>)

  /** Reads one header and, when it parses, its body. */
  function NextStep(input: seq<byte>): (st: Step)
    ensures st.Closed? <==> |input| < HeaderSize
    ensures st.Closed? ==> st.received == |input|
    ensures st.Skipped? ==> st.rest == input[HeaderSize..] && input[0] != Magic
    ensures st.Skipped? <==> |input| >= HeaderSize && input[0] != Magic
    ensures st.Read? ==> |st.after| < |input| && input[0] == Magic && st.channel == input[1]
    ensures st.Read? ==> input[HeaderSize..] == st.data + st.after
    ensures st.Read? ==> (DecodeHeader(input[..HeaderSize]).Success?
      && |st.data| == Min(DecodeHeader(input[..HeaderSize]).value.length, |input| - HeaderSize))
  {
    var (header, rest) := Recv(input, HeaderSize);
    if |header| < HeaderSize then Closed(|header|)
    else
      match ParseHeader(header)
      case Failure(_) => Skipped(rest)
      case Success(h) =>
        var (data, after) := ReadBody(rest, h.length);
        Read(h.channel, data, after)
  }

  /** The loop writes a body read on this channel to the pipe. */
  predicate Writes(channel: byte, data: seq<byte>) {
    channel == ChannelUnencStream && |data| > 0
  }

  /** The streaming loop of `stream_to_pipe`, from `count` packets written.
      A chunk that is not a header is skipped whole; every parsed header is
      followed by its body; a non-empty body on the unencrypted stream channel
      is written to the pipe. */
  function Demux(input: seq<byte>, pipeLimit: Option<nat>, count: nat): (o: Outcome)
    ensures o.packets >= count
    ensures |o.output| <= |input|
    ensures o.reason.PeerClosed? ==> o.reason.received < HeaderSize
    ensures o.reason == PipeClosed ==> !PipeOpen(pipeLimit, o.packets)
    ensures o.packets > count ==> PipeOpen(pipeLimit, o.packets - 1)
    decreases |input|
  {
    match NextStep(input)
    case Closed(received) => Outcome([], count, PeerClosed(received))
    case Skipped(rest) => Demux(rest, pipeLimit, count)
    case Read(channel, data, after) =>
      if Writes(channel, data) then
        if !PipeOpen(pipeLimit, count) then Outcome([], count, PipeClosed)
        else
          var o := Demux(after, pipeLimit, count + 1);
          Outcome(data + o.output, o.packets, o.reason)
      else Demux(after, pipeLimit, count)
  }

  /** `stream_to_pipe` after the request is sent: one read of the initial
      response header, whose parse failure is only a warning; when it parses
      and announces a body, one read of that body; then the loop. */
  function StreamToPipe(input: seq<byte>, pipeLimit: Option<nat>): (o: Outcome)
    ensures |o.output| <= |input|
    ensures pipeLimit.None? ==> o.reason.PeerClosed?
  {
    var (header, rest) := Recv(input, HeaderSize);
    match ParseHeader(header)
    case Failure(_) => Demux(rest, pipeLimit, 0)
    case Success(h) =>
      if h.length > 0 then Demux(Recv(rest, h.length).1, pipeLimit, 0)
      else Demux(rest, pipeLimit, 0)
  }

  /** Fewer than 8 bytes in all: the initial read takes them, the warning is
      printed, and the loop's first read finds the connection closed with
      nothing received. */
  lemma StreamToPipeShort(input: seq<byte>, pipeLimit: Option<nat>)
    requires |input| < HeaderSize
    ensures StreamToPipe(input, pipeLimit) == Outcome([], 0, PeerClosed(0))
  {
    DemuxShort([], pipeLimit, 0);
  }

  /** An initial response whose first byte is not the magic byte is only a
      warning: no body is read for it and the loop starts right after its 8
      bytes. */
  lemma StreamToPipeBadHeader(junk: seq<byte>, rest: seq<byte>, pipeLimit: Option<nat>)
    requires |junk| == HeaderSize && junk[0] != Magic
    ensures StreamToPipe(junk + rest, pipeLimit) == Demux(rest, pipeLimit, 0)
  {
    assert (junk + rest)[..HeaderSize] == junk;
    assert (junk + rest)[HeaderSize..] == rest;
  }

  /** A well-formed initial response has its announced body read once and
      dropped; the loop starts right after it. */
  lemma StreamToPipeGoodHeader(h: Header, body: seq<byte>, rest: seq<byte>, pipeLimit: Option<nat>)
    requires |body| == h.length
    ensures StreamToPipe(PackHeader(h) + body + rest, pipeLimit) == Demux(rest, pipeLimit, 0)
  {
    var input := PackHeader(h) + body + rest;
    DecodePackHeader(h);
    assert input[..HeaderSize] == PackHeader(h);
    assert input[HeaderSize..] == body + rest;
    assert (body + rest)[|body|..] == rest;
  }

  /** A packet the relay may send. */
  datatype Packet = Packet(channel: byte, sequence: uint16, code: uint16, data: seq<byte>)

  /** The packet fits the 16-bit length field. */
  predicate Frameable(p: Packet) {
    |p.data| <= MaxUint16
  }

  predicate AllFrameable(ps: seq<Packet>) {
    forall i :: 0 <= i < |ps| ==> Frameable(ps[i])
  }

  /** The bytes of a packet on the wire, as `VTMPacket.encode` frames it. */
  function Frame(p: Packet): (r: seq<byte>)
    requires Frameable(p)
    ensures |r| == HeaderSize + |p.data|
  {
    Encode(p.data, p.code, p.channel, p.sequence).value
  }

  function Frames(ps: seq<Packet>): seq<byte>
    requires AllFrameable(ps)
  {
    if |ps| == 0 then [] else Frame(ps[0]) + Frames(ps[1..])
  }

  /** The loop writes this packet's body to the pipe. */
  predicate Emitted(p: Packet) {
    Writes(p.channel, p.data)
  }

  /** The bodies of the emitted packets, in order. */
  function StreamPayload(ps: seq<Packet>): seq<byte> {
    if |ps| == 0 then []
    else (if Emitted(ps[0]) then ps[0].data else []) + StreamPayload(ps[1..])
  }

  function EmittedCount(ps: seq<Packet>): nat {
    if |ps| == 0 then 0 else (if Emitted(ps[0]) then 1 else 0) + EmittedCount(ps[1..])
  }

  /** A framed packet is read back as its channel and body. */
  lemma ReadFrame(p: Packet, more: seq<byte>)
    requires Frameable(p)
    ensures NextStep(Frame(p) + more) == Read(p.channel, p.data, more)
  {
    var h := Header(p.channel, |p.data|, p.sequence, p.code);
    var input := PackHeader(h) + p.data + more;
    DecodePackHeader(h);
    assert input[..HeaderSize] == PackHeader(h);
    assert input[HeaderSize..] == p.data + more;
    var body := ReadBody(p.data + more, |p.data|);
    assert body.0 == (body.0 + body.1)[..|p.data|];
    assert (p.data + more)[..|p.data|] == p.data;
  }

  /** Demultiplexing a stream of framed packets, ended by fewer than 8 stray
      bytes, writes exactly the non-empty unencrypted-stream bodies, in
      order, counts them, and stops when the peer closes. */
  lemma {:induction false} DemuxFrames(ps: seq<Packet>, tail: seq<byte>, count: nat)
    requires AllFrameable(ps)
    requires |tail| < HeaderSize
    ensures Demux(Frames(ps) + tail, None, count)
         == Outcome(StreamPayload(ps), count + EmittedCount(ps), PeerClosed(|tail|))
    decreases |ps|
  {
    if |ps| == 0 {
      assert Frames(ps) + tail == tail;
      DemuxShort(tail, None, count);
    } else {
      var p := ps[0];
      var rest := ps[1..];
      assert AllFrameable(rest) by {
        forall i | 0 <= i < |rest|
          ensures Frameable(rest[i])
        {
          assert rest[i] == ps[i + 1];
        }
      }
      var more := Frames(rest) + tail;
      assert Frames(ps) == Frame(p) + Frames(rest);
      assert Frames(ps) + tail == Frame(p) + more;
      DemuxFrame(p, more, count);
      if Emitted(p) {
        DemuxFrames(rest, tail, count + 1);
        assert StreamPayload(ps) == p.data + StreamPayload(rest);
      } else {
        DemuxFrames(rest, tail, count);
        assert StreamPayload(ps) == StreamPayload(rest);
      }
    }
  }

  /** Fewer than 8 bytes end the loop. */
  lemma DemuxShort(input: seq<byte>, pipeLimit: Option<nat>, count: nat)
    requires |input| < HeaderSize
    ensures Demux(input, pipeLimit, count) == Outcome([], count, PeerClosed(|input|))
  {
  }

  /** One framed packet is demultiplexed on its own: its body is written when
      it belongs to the unencrypted stream, and the loop goes on after it. */
  lemma DemuxFrame(p: Packet, more: seq<byte>, count: nat)
    requires Frameable(p)
    ensures Demux(Frame(p) + more, None, count)
         == if Emitted(p) then
              var o := Demux(more, None, count + 1);
              Outcome(p.data + o.output, o.packets, o.reason)
            else Demux(more, None, count)
  {
    ReadFrame(p, more);
  }

  /** A chunk of 8 bytes that does not start with the magic byte is skipped
      without reading further. */
  lemma DemuxSkipsBadHeader(junk: seq<byte>, input: seq<byte>, pipeLimit: Option<nat>, count: nat)
    requires |junk| == HeaderSize && junk[0] != Magic
    ensures Demux(junk + input, pipeLimit, count) == Demux(input, pipeLimit, count)
  {
    assert (junk + input)[0] == junk[0];
    assert (junk + input)[HeaderSize..] == input;
  }

  /** A turn that writes nothing leaves the loop where the next turn starts. */
  lemma DemuxPass(input: seq<byte>, next: seq<byte>, pipeLimit: Option<nat>, count: nat)
    requires NextStep(input).Skipped? || (NextStep(input).Read? && !Writes(NextStep(input).channel, NextStep(input).data))
    requires next == (if NextStep(input).Skipped? then NextStep(input).rest else NextStep(input).after)
    ensures Demux(input, pipeLimit, count) == Demux(next, pipeLimit, count)
  {
  }

  /** A turn that reads a body to write, while the pipe is open, writes it and
      goes on with one more packet counted. */
  lemma DemuxWrite(input: seq<byte>, pipeLimit: Option<nat>, count: nat)
    requires NextStep(input).Read? && Writes(NextStep(input).channel, NextStep(input).data)
    requires PipeOpen(pipeLimit, count)
    ensures var o := Demux(NextStep(input).after, pipeLimit, count + 1);
      Demux(input, pipeLimit, count) == Outcome(NextStep(input).data + o.output, o.packets, o.reason)
  {
  }

  /** A turn with a body to write when the pipe has taken its last write
      stops the loop for the pipe, writing nothing more. */
  lemma DemuxPipeFull(input: seq<byte>, limit: nat, count: nat)
    requires NextStep(input).Read? && Writes(NextStep(input).channel, NextStep(input).data)
    requires limit <= count
    ensures Demux(input, Some(limit), count) == Outcome([], count, PipeClosed)
  {
  }

  /** Prepending the same body keeps the prefix relation. */
  lemma PrefixCons(data: seq<byte>, a: seq<byte>, b: seq<byte>)
    requires a <= b
    ensures data + a <= data + b
  {
    assert (data + b)[..|data| + |a|] == data + b[..|a|];
  }

  /** A pipe that closes after `limit` writes receives a prefix of what an
      open pipe would, stops exactly when the loop would otherwise write a
      further packet, and otherwise ends as the unlimited run does. */
  lemma {:induction false} DemuxPipeLimit(input: seq<byte>, limit: nat, count: nat)
    requires count <= limit
    ensures var unlimited := Demux(input, None, count);
      var limited := Demux(input, Some(limit), count);
      && limited.output <= unlimited.output
      && limited.packets == Min(limit, unlimited.packets)
      && limited.reason == (if unlimited.packets > limit then PipeClosed else unlimited.reason)
    decreases |input|
  {
    var st := NextStep(input);
    if st.Closed? {
      DemuxShort(input, None, count);
      DemuxShort(input, Some(limit), count);
    } else if st.Skipped? {
      DemuxPipeLimit(st.rest, limit, count);
      DemuxPass(input, st.rest, None, count);
      DemuxPass(input, st.rest, Some(limit), count);
    } else if !Writes(st.channel, st.data) {
      DemuxPipeLimit(st.after, limit, count);
      DemuxPass(input, st.after, None, count);
      DemuxPass(input, st.after, Some(limit), count);
    } else if count < limit {
      DemuxPipeLimit(st.after, limit, count + 1);
      DemuxWrite(input, None, count);
      DemuxWrite(input, Some(limit), count);
      var u := Demux(st.after, None, count + 1);
      var l := Demux(st.after, Some(limit), count + 1);
      PrefixCons(st.data, l.output, u.output);
    } else {
      DemuxWrite(input, None, count);
      DemuxPipeFull(input, limit, count);
    }
  }

  /** End to end: after an initial response packet of any kind, a stream of
      framed packets is written out as its non-empty unencrypted-stream
      bodies, in order, with `packet_count` the number of them. */
  lemma StreamToPipeFrames(response: Packet, ps: seq<Packet>, tail: seq<byte>)
    requires Frameable(response) && AllFrameable(ps)
    requires |tail| < HeaderSize
    ensures StreamToPipe(Frame(response) + Frames(ps) + tail, None)
         == Outcome(StreamPayload(ps), EmittedCount(ps), PeerClosed(|tail|))
  {
    var h := Header(response.channel, |response.data|, response.sequence, response.code);
    var more := Frames(ps) + tail;
    assert Frame(response) == PackHeader(h) + response.data;
    assert Frame(response) + Frames(ps) + tail == PackHeader(h) + response.data + more;
    StreamToPipeGoodHeader(h, response.data, more, None);
    DemuxFrames(ps, tail, 0);
  }
}
